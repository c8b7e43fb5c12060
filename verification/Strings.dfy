/**
 String operations shared by the path language, the template compiler and the
 redacting writer: substring replacement as in Go's `strings.ReplaceAll`,
 splitting, and the lexicographic order used to sort map keys.
 */
module Strings {

  const NUL: char := '\0'

  /** No NUL: the texts Kubernetes API strings can hold. */
  predicate NulFree(s: string) {
    NUL !in s
  }

  /** `pat` occurs somewhere in `s`. */
  predicate Contains(s: string, pat: string) {
    pat <= s || (s != "" && Contains(s[1..], pat))
  }

  /** Leftmost, non-overlapping replacement of every occurrence of `pat`. */
  function ReplaceAll(s: string, pat: string, rep: string): string
    requires pat != ""
    decreases |s|
  {
    if s == "" then ""
    else if pat <= s then rep + ReplaceAll(s[|pat|..], pat, rep)
    else [s[0]] + ReplaceAll(s[1..], pat, rep)
  }

  /** The texts with `sep` between them. */
  function Join(ts: seq<string>, sep: string): string
    requires ts != []
  {
    if |ts| == 1 then ts[0] else ts[0] + sep + Join(ts[1..], sep)
  }

  predicate AllNulFree(ts: seq<string>) {
    forall i :: 0 <= i < |ts| ==> NulFree(ts[i])
  }

  /** First index of `pat` in `s`, or -1. */
  function IndexOf(s: string, pat: string): (i: int)
    ensures -1 <= i
    ensures i >= 0 ==> i + |pat| <= |s|
  {
    if pat <= s then 0
    else if s == "" then -1
    else
      var r := IndexOf(s[1..], pat);
      if r < 0 then -1 else r + 1
  }

  /** The index is that of the first occurrence, and -1 means there is none. */
  lemma {:induction false} IndexOfFirst(s: string, pat: string)
    ensures var i := IndexOf(s, pat);
            (i >= 0 ==> pat <= s[i..]) &&
            forall j :: 0 <= j <= |s| && (i < 0 || j < i) ==> !(pat <= s[j..])
  {
    assert s[0..] == s;
    if !(pat <= s) && s != "" {
      IndexOfFirst(s[1..], pat);
      assert forall j :: 1 <= j <= |s| ==> s[j..] == s[1..][j - 1..];
    }
  }

  // ---------------------------------------------------------------- order

  /** Lexicographic order, as Go's `<` on strings. */
  predicate Less(a: string, b: string) {
    b != "" && (a == "" || a[0] < b[0] || (a[0] == b[0] && Less(a[1..], b[1..])))
  }

  /** A text begins another one, or has the smaller character where they first differ. */
  ghost predicate Earlier(a: string, b: string) {
    (a <= b && a != b) || exists i :: 0 <= i < |a| && i < |b| && DiffersAt(a, b, i) && a[i] < b[i]
  }

  ghost predicate DiffersAt(a: string, b: string, i: nat)
    requires i < |a| && i < |b|
  {
    a[..i] == b[..i] && a[i] != b[i]
  }

  /** The order of names is the lexicographic one. */
  lemma {:induction false} LessExactly(a: string, b: string)
    ensures Less(a, b) <==> Earlier(a, b)
  {
    if a != "" && b != "" && a[0] == b[0] {
      LessExactly(a[1..], b[1..]);
      assert a <= b <==> a[1..] <= b[1..] by { assert a == [a[0]] + a[1..] && b == [b[0]] + b[1..]; }
      assert a == b <==> a[1..] == b[1..] by { assert a == [a[0]] + a[1..] && b == [b[0]] + b[1..]; }
      forall i | 0 <= i < |a[1..]| && i < |b[1..]| ensures DiffersAt(a[1..], b[1..], i) <==> DiffersAt(a, b, i + 1) {
        assert a[..i + 1] == [a[0]] + a[1..][..i] && b[..i + 1] == [b[0]] + b[1..][..i];
      }
      if i :| 0 <= i < |a| && i < |b| && DiffersAt(a, b, i) && a[i] < b[i] {
        assert DiffersAt(a[1..], b[1..], i - 1);
      }
      if i :| 0 <= i < |a[1..]| && i < |b[1..]| && DiffersAt(a[1..], b[1..], i) && a[1..][i] < b[1..][i] {
        assert DiffersAt(a, b, i + 1);
      }
    } else if a != "" && b != "" {
      assert a[..0] == b[..0];
      assert DiffersAt(a, b, 0);
      forall i | 0 < i < |a| && i < |b| ensures !DiffersAt(a, b, i) {
        assert a[..i][0] == a[0] && b[..i][0] == b[0];
      }
      assert !(a <= b);
    }
  }

  lemma {:induction false} LessTrichotomy(a: string, b: string)
    ensures Less(a, b) || a == b || Less(b, a)
    ensures !(Less(a, b) && Less(b, a))
    ensures a == b ==> !Less(a, b)
  {
    if a != "" && b != "" && a[0] == b[0] {
      LessTrichotomy(a[1..], b[1..]);
      assert a == [a[0]] + a[1..] && b == [b[0]] + b[1..];
    }
  }

  lemma {:induction false} LessTransitive(a: string, b: string, c: string)
    requires Less(a, b) && Less(b, c)
    ensures Less(a, c)
  {
    if a != "" && a[0] == b[0] && b[0] == c[0] {
      LessTransitive(a[1..], b[1..], c[1..]);
    }
  }

  predicate IsLeast(k: string, s: set<string>) {
    k in s && forall x :: x in s && x != k ==> Less(k, x)
  }

  predicate IsGreatest(k: string, s: set<string>) {
    k in s && forall x :: x in s && x != k ==> Less(x, k)
  }

  /** A nonempty set of strings has a least and a greatest element. */
  lemma {:induction false} ExtremesExist(s: set<string>)
    requires s != {}
    ensures exists k :: IsLeast(k, s)
    ensures exists k :: IsGreatest(k, s)
  {
    var y :| y in s;
    var rest := s - {y};
    assert forall x :: x in s <==> x == y || x in rest;
    if rest == {} {
      assert IsLeast(y, s) && IsGreatest(y, s);
    } else {
      ExtremesExist(rest);
      var lo :| IsLeast(lo, rest);
      var hi :| IsGreatest(hi, rest);
      LessTrichotomy(lo, y);
      LessTrichotomy(hi, y);
      forall x | x in rest ensures (Less(y, lo) ==> Less(y, x)) && (Less(hi, y) ==> Less(x, y)) {
        if x != lo && Less(y, lo) { LessTransitive(y, lo, x); }
        if x != hi && Less(hi, y) { LessTransitive(x, hi, y); }
      }
      assert IsLeast(if Less(lo, y) then lo else y, s);
      assert IsGreatest(if Less(y, hi) then hi else y, s);
    }
  }

  /** The least of a nonempty set. */
  function Least(s: set<string>): (k: string)
    requires s != {}
    ensures IsLeast(k, s)
  {
    ExtremesExist(s);
    assert forall a, b :: IsLeast(a, s) && IsLeast(b, s) ==> a == b by {
      forall a, b | IsLeast(a, s) && IsLeast(b, s) ensures a == b {
        LessTrichotomy(a, b);
      }
    }
    var k :| k in s && IsLeast(k, s);
    k
  }

  /** The elements of a set in increasing order (Go's `sort.Strings` on map keys). */
  function SortedKeys(s: set<string>): (ks: seq<string>)
    ensures forall k :: k in ks <==> k in s
    ensures forall i, j :: 0 <= i < j < |ks| ==> Less(ks[i], ks[j])
  {
    if s == {} then []
    else
      var k := Least(s);
      [k] + SortedKeys(s - {k})
  }

  // ------------------------------------------------- replacement and markers

  lemma ReplaceHit(y: string, pat: string, rep: string)
    requires pat != ""
    ensures ReplaceAll(pat + y, pat, rep) == rep + ReplaceAll(y, pat, rep)
  {
    assert pat <= pat + y && (pat + y)[|pat|..] == y;
  }

  lemma ReplaceMiss(c: char, y: string, pat: string, rep: string)
    requires pat != "" && !(pat <= [c] + y)
    ensures ReplaceAll([c] + y, pat, rep) == [c] + ReplaceAll(y, pat, rep)
  {
    assert ([c] + y)[1..] == y;
  }

  /** How a prefix of a text relates to the text's head and tail. */
  lemma PrefixOfCons(q: string, c: char, y: string)
    requires q != ""
    ensures q <= [c] + y <==> q[0] == c && q[1..] <= y
  {
    var s := [c] + y;
    assert s[0] == c && s[1..] == y;
    if q <= s {
      assert s[..|q|][1..] == y[..|q| - 1];
    }
    if q[0] == c && q[1..] <= y {
      assert q == [c] + q[1..];
    }
  }

  lemma NulFreeConcat(a: string, b: string)
    ensures NulFree(a + b) <==> NulFree(a) && NulFree(b)
  {
    assert forall i :: 0 <= i < |a| ==> (a + b)[i] == a[i];
    assert forall i :: 0 <= i < |b| ==> (a + b)[|a| + i] == b[i];
  }

  /** Replacing passes over text without the pattern's first character. */
  lemma {:induction false} ReplaceAfterText(t: string, x: string, m: string, rep: string)
    requires m != "" && m[0] !in t
    ensures ReplaceAll(t + x, m, rep) == t + ReplaceAll(x, m, rep)
  {
    if t == "" {
      assert t + x == x;
    } else {
      assert (t + x)[0] == t[0];
      assert (t + x)[1..] == t[1..] + x;
      ReplaceAfterText(t[1..], x, m, rep);
      assert t == [t[0]] + t[1..];
    }
  }

  lemma ReplaceNoMarker(t: string, m: string, rep: string)
    requires m != "" && m[0] == NUL && NulFree(t)
    ensures ReplaceAll(t, m, rep) == t
  {
    ReplaceAfterText(t, "", m, rep);
    assert t + "" == t;
  }

  /** Replacing a marker between NUL-free texts replaces exactly the separators. */
  lemma {:induction false} ReplaceSeparators(ts: seq<string>, m: string, rep: string)
    requires ts != [] && m != "" && m[0] == NUL && AllNulFree(ts)
    ensures ReplaceAll(Join(ts, m), m, rep) == Join(ts, rep)
  {
    if |ts| == 1 {
      ReplaceNoMarker(ts[0], m, rep);
    } else {
      var rest := Join(ts[1..], m);
      assert ts[0] + m + rest == ts[0] + (m + rest);
      ReplaceAfterText(ts[0], m + rest, m, rep);
      assert m <= m + rest && (m + rest)[|m|..] == rest;
      ReplaceSeparators(ts[1..], m, rep);
      assert ts[0] + (rep + Join(ts[1..], rep)) == ts[0] + rep + Join(ts[1..], rep);
    }
  }

  lemma Associative(a: string, b: string, c: string)
    ensures a + b + c == a + (b + c)
  {
  }

  /** A character that the pattern does not have is a barrier for it. */
  lemma {:induction false} ReplaceAcross(t: string, x: string, pat: string, rep: string)
    requires pat != "" && x != "" && x[0] !in pat
    ensures ReplaceAll(t + x, pat, rep) == ReplaceAll(t, pat, rep) + ReplaceAll(x, pat, rep)
    decreases |t|
  {
    var r := ReplaceAll(x, pat, rep);
    if t == "" {
      assert t + x == x && "" + r == r;
    } else if pat <= t {
      var t1 := t[|pat|..];
      assert t == pat + t1;
      ReplaceAcross(t1, x, pat, rep);
      Associative(pat, t1, x);
      ReplaceHit(t1 + x, pat, rep);
      Associative(rep, ReplaceAll(t1, pat, rep), r);
    } else {
      var t1 := t[1..];
      assert t == [t[0]] + t1;
      ReplaceAcross(t1, x, pat, rep);
      Associative([t[0]], t1, x);
      MissBefore(t, x, pat);
      ReplaceMiss(t[0], t1 + x, pat, rep);
      Associative([t[0]], ReplaceAll(t1, pat, rep), r);
    }
  }

  lemma MissBefore(t: string, x: string, pat: string)
    requires !(pat <= t) && x != "" && x[0] !in pat
    ensures !(pat <= t + x)
  {
    var s := t + x;
    assert s[|t|] == x[0];
    assert |pat| <= |t| ==> s[..|pat|] == t[..|pat|];
  }

  /** Replacing keeps a text NUL-free when the replacement is. */
  lemma {:induction false} ReplaceNulFree(t: string, pat: string, rep: string)
    requires pat != "" && NulFree(t) && NulFree(rep)
    ensures NulFree(ReplaceAll(t, pat, rep))
    decreases |t|
  {
    if t != "" {
      if pat <= t {
        ReplaceNulFree(t[|pat|..], pat, rep);
        NulFreeConcat(rep, ReplaceAll(t[|pat|..], pat, rep));
      } else {
        ReplaceNulFree(t[1..], pat, rep);
        NulFreeConcat([t[0]], ReplaceAll(t[1..], pat, rep));
      }
    }
  }
}
