/**
 The path language of runnerops/path.go: printing positions of a JSON tree as
 `a.b[2].c["dotted.key"]` and parsing them back.
 */
module Paths {
  import opened Strings
  import opened Json

  datatype Seg = Key(key: string) | Idx(index: nat)

  const MAX_INT: int := 0x7FFF_FFFF_FFFF_FFFF

  // ----------------------------------------------------------------- decimals

  predicate IsDigit(c: char) { '0' <= c <= '9' }

  predicate AllDigits(s: string) {
    forall i :: 0 <= i < |s| ==> IsDigit(s[i])
  }

  function DigitsValue(s: string): nat
    requires AllDigits(s)
  {
    if s == "" then 0
    else 10 * DigitsValue(s[..|s| - 1]) + (s[|s| - 1] as int - '0' as int)
  }

  /** strconv.Atoi on a 64-bit platform: optional sign, digits only, in range. */
  function Atoi(s: string): Option<int> {
    var signed := s != "" && (s[0] == '+' || s[0] == '-');
    var digits := if signed then s[1..] else s;
    if digits == "" || !AllDigits(digits) then None
    else
      var v: int := DigitsValue(digits);
      if signed && s[0] == '-' then (if v <= MAX_INT + 1 then Some(-v) else None)
      else if v <= MAX_INT then Some(v) else None
  }

  /** The decimal text of an index (`%d`). */
  function Itoa(n: nat): (s: string)
    ensures s != "" && AllDigits(s)
    ensures DigitsValue(s) == n
  {
    var d := [(n % 10 + '0' as int) as char];
    if n < 10 then d else
      var r := Itoa(n / 10) + d;
      assert r[..|r| - 1] == Itoa(n / 10);
      r
  }

  // ------------------------------------------------------------------ parsing

  /** The bare key at the head of `s`: everything up to '.' or '['. */
  function BareLen(s: string): (n: nat)
    ensures n <= |s|
    ensures forall i :: 0 <= i < n ==> s[i] != '.' && s[i] != '['
    ensures n < |s| ==> s[n] == '.' || s[n] == '['
  {
    if s == "" || s[0] == '.' || s[0] == '[' then 0 else 1 + BareLen(s[1..])
  }

  /** The quoted key at the head of `s` (just past its opening quote) and what follows its closing quote. */
  function ParseQuoted(s: string): (r: Option<(string, string)>)
    ensures r.Some? ==> |r.value.1| < |s|
    decreases |s|
  {
    if s == "" then None
    else if s[0] == '"' then Some(("", s[1..]))
    else
      var skip := if s[0] == '\\' && |s| > 1 then 1 else 0;
      match ParseQuoted(s[skip + 1..])
      case None => None
      case Some((key, rest)) => Some(([s[skip]] + key, rest))
  }

  /** parseBracket: one bracket segment at the head of `s` and what follows it. */
  function ParseBracket(s: string): (r: Option<(Seg, string)>)
    requires s != "" && s[0] == '['
    ensures r.Some? ==> |r.value.1| < |s|
  {
    if |s| > 1 && s[1] == '"' then CloseQuoted(ParseQuoted(s[2..])) else ParseIndex(s[1..])
  }

  /** A quoted key must be followed by ']'. */
  function CloseQuoted(r: Option<(string, string)>): (seg: Option<(Seg, string)>)
    ensures seg.Some? ==> r.Some? && |seg.value.1| < |r.value.1|
  {
    if r.None? || r.value.1 == "" || r.value.1[0] != ']' then None
    else Some((Key(r.value.0), r.value.1[1..]))
  }

  /** The index form, just past its '['. */
  function ParseIndex(a: string): (r: Option<(Seg, string)>)
    ensures r.Some? ==> |r.value.1| < |a|
  {
    var end := IndexOf(a, "]");
    if end < 0 then None
    else
      match Atoi(a[..end])
      case None => None
      case Some(n) => if n < 0 then None else Some((Idx(n), a[end + 1..]))
  }

  /** One segment at the head of `s`, separators already consumed. */
  function ParseSegment(s: string): (r: Option<(Seg, string)>)
    ensures r.Some? ==> |r.value.1| < |s|
  {
    if s == "" then None
    else if s[0] == '[' then ParseBracket(s)
    else
      var n := BareLen(s);
      if n == 0 then None else Some((Key(s[..n]), s[n..]))
  }

  /** The segments of `s`; `first` says that none was read before. */
  function ParseFrom(s: string, first: bool): Option<seq<Seg>>
    decreases |s|
  {
    if s == "" then (if first then None else Some([]))
    else if !first && s[0] != '.' && s[0] != '[' then None
    else
      var body := if !first && s[0] == '.' then s[1..] else s;
      match ParseSegment(body)
      case None => None
      case Some((seg, rest)) =>
        match ParseFrom(rest, false)
        case None => None
        case Some(segs) => Some([seg] + segs)
  }

  /** parsePath: None stands for any of its errors. */
  function ParsePath(path: string): (r: Option<seq<Seg>>)
    ensures r.Some? ==> r.value != []
  {
    ParseFrom(path, true)
  }

  /** The segments `segs` followed by what `rest` parses to. */
  function Prepend(segs: seq<Seg>, rest: Option<seq<Seg>>): Option<seq<Seg>> {
    match rest
    case None => None
    case Some(more) => Some(segs + more)
  }

  /** A quoted key with the text read so far in front. */
  function PrependText(b: string, r: Option<(string, string)>): Option<(string, string)> {
    match r
    case None => None
    case Some((key, rest)) => Some((b + key, rest))
  }

  lemma PrependEmpty(r: Option<(string, string)>)
    ensures PrependText("", r) == r
  {
    if r.Some? { assert "" + r.value.0 == r.value.0; }
  }

  lemma PrependOne(b: string, c: char, r: Option<(string, string)>)
    ensures PrependText(b + [c], r) == PrependText(b, PrependText([c], r))
  {
    if r.Some? { assert b + [c] + r.value.0 == b + ([c] + r.value.0); }
  }

  lemma PrependNone(r: Option<seq<Seg>>)
    ensures Prepend([], r) == r
  {
    if r.Some? { assert [] + r.value == r.value; }
  }

  lemma PrependSeg(segs: seq<Seg>, seg: Seg, r: Option<seq<Seg>>)
    ensures Prepend(segs + [seg], r) == Prepend(segs, Prepend([seg], r))
  {
    if r.Some? { assert segs + [seg] + r.value == segs + ([seg] + r.value); }
  }

  /** One round of the quoted loop: the character taken is the one after an escaping backslash. */
  lemma QuotedStep(path: string, from: nat, taken: nat)
    requires from < |path| && path[from] != '"'
    requires taken == if path[from] == '\\' && from + 1 < |path| then from + 1 else from
    ensures ParseQuoted(path[from..]) == PrependText([path[taken]], ParseQuoted(path[taken + 1..]))
  {
    var s := path[from..];
    var skip := taken - from;
    assert s[0] == path[from] && s[skip] == path[taken];
    assert s[skip + 1..] == path[taken + 1..];
  }

  /** The quoted loop of parseBracket (path.go:83-95): the key and the index of its closing quote. */
  method ParseQuotedAt(path: string, at: nat) returns (r: Option<(string, nat)>)
    requires at <= |path|
    ensures r.Some? ==> at <= r.value.1 < |path|
    ensures ParseQuoted(path[at..]) == if r.None? then None else Some((r.value.0, path[r.value.1 + 1..]))
  {
    var i, n, b := at, |path|, "";
    PrependEmpty(ParseQuoted(path[at..]));
    while i < n && path[i] != '"'
      invariant at <= i <= n
      invariant ParseQuoted(path[at..]) == PrependText(b, ParseQuoted(path[i..]))
    {
      ghost var from := i;
      if path[i] == '\\' && i + 1 < n {
        i := i + 1;
      }
      QuotedStep(path, from, i);
      PrependOne(b, path[i], ParseQuoted(path[i + 1..]));
      b := b + [path[i]];
      i := i + 1;
    }
    if i >= n {
      return None;
    }
    assert path[i..][1..] == path[i + 1..];
    assert b + "" == b;
    return Some((b, i));
  }

  /** parseBracket as the source runs it, by index into the whole path. */
  method ParseBracketAt(path: string, at: nat) returns (r: Option<(Seg, nat)>)
    requires at < |path| && path[at] == '['
    ensures r.Some? ==> at < r.value.1 <= |path|
    ensures ParseBracket(path[at..]) == if r.None? then None else Some((r.value.0, path[r.value.1..]))
  {
    var n := |path|;
    var i := at + 1;
    ghost var s := path[at..];
    assert s[1..] == path[i..];
    if i < n && path[i] == '"' {
      i := i + 1;
      assert s[2..] == path[i..];
      var quoted := ParseQuotedAt(path, i);
      if quoted.None? {
        return None;
      }
      var b := quoted.value.0;
      i := quoted.value.1 + 1;
      if i >= n || path[i] != ']' {
        return None;
      }
      assert path[i..][1..] == path[i + 1..];
      return Some((Key(b), i + 1));
    }
    r := ParseIndexAt(path, i);
  }

  method ParseIndexAt(path: string, at: nat) returns (r: Option<(Seg, nat)>)
    requires at <= |path|
    ensures r.Some? ==> at < r.value.1 <= |path|
    ensures ParseIndex(path[at..]) == if r.None? then None else Some((r.value.0, path[r.value.1..]))
  {
    var end := IndexOf(path[at..], "]");
    if end < 0 {
      return None;
    }
    assert path[at..][..end] == path[at..at + end];
    var idx := Atoi(path[at..at + end]);
    if idx.None? || idx.value < 0 {
      return None;
    }
    assert path[at..][end + 1..] == path[at + end + 1..];
    return Some((Idx(idx.value), at + end + 1));
  }

  /** parsePath as the source runs it. */
  method ParsePathLoop(path: string) returns (r: Option<seq<Seg>>)
    ensures r == ParsePath(path)
  {
    var segs: seq<Seg> := [];
    var i, n := 0, |path|;
    assert path[0..] == path;
    PrependNone(ParsePath(path));
    while i < n
      invariant 0 <= i <= n
      invariant ParsePath(path) == Prepend(segs, ParseFrom(path[i..], segs == []))
    {
      ghost var tail := path[i..];
      if |segs| > 0 {
        if path[i] == '.' {
          i := i + 1;
        } else if path[i] != '[' {
          return None;
        }
      }
      ghost var body := path[i..];
      assert body == if segs != [] && tail[0] == '.' then tail[1..] else tail;
      if i >= n {
        assert ParseSegment(body) == None;
        return None;
      }
      var seg, next := ParseSegmentAt(path, i);
      if seg.None? {
        return None;
      }
      ParseFromStep(tail, segs == [], seg.value, path[next..]);
      PrependSeg(segs, seg.value, ParseFrom(path[next..], false));
      segs := segs + [seg.value];
      i := next;
    }
    assert path[i..] == "";
    assert segs + [] == segs;
    if |segs| == 0 {
      return None;
    }
    return Some(segs);
  }

  /** The segment part of parsePath's loop body (path.go:54-70). */
  method ParseSegmentAt(path: string, at: nat) returns (seg: Option<Seg>, next: nat)
    requires at < |path|
    ensures seg.Some? ==> at < next <= |path|
    ensures ParseSegment(path[at..]) == if seg.None? || next > |path| then None else Some((seg.value, path[next..]))
  {
    next := at;
    var n := |path|;
    if path[at] == '[' {
      var b := ParseBracketAt(path, at);
      if b.None? {
        return None, next;
      }
      return Some(b.value.0), b.value.1;
    }
    while next < n && path[next] != '.' && path[next] != '['
      invariant at <= next <= n
      invariant BareLen(path[at..]) == next - at + BareLen(path[next..])
    {
      assert path[next..][1..] == path[next + 1..];
      next := next + 1;
    }
    if next == at {
      return None, next;
    }
    assert path[at..][..next - at] == path[at..next] && path[at..][next - at..] == path[next..];
    return Some(Key(path[at..next])), next;
  }

  // ----------------------------------------------------------------- printing

  predicate Meta(c: char) { c == '.' || c == '[' || c == ']' || c == '"' || c == '\\' }

  predicate PlainKey(key: string) {
    key != "" && forall i :: 0 <= i < |key| ==> !Meta(key[i])
  }

  /** AppendKeySegment (path.go:115). */
  function AppendKeySegment(path: string, key: string): string {
    if PlainKey(key) then (if path == "" then key else path + "." + key)
    else path + QuotedText(key)
  }

  function QuotedText(key: string): string {
    "[\"" + EscapeKey(key) + "\"]"
  }

  /** Inside quotes a quote and a backslash are written after a backslash. */
  lemma EscapeSpelling()
    ensures EscapeKey("\"") == "\\\"" && EscapeKey("\\") == "\\\\"
  {
    ReplaceAfterText("\"", "", "\\", "\\\\");
    ReplaceHit("", "\"", "\\\"");
    ReplaceHit("", "\\", "\\\\");
    ReplaceAfterText("\\\\", "", "\"", "\\\"");
    assert "\"" + "" == "\"" && "\\" + "" == "\\" && "\\\\" + "" == "\\\\" && "\\\"" + "" == "\\\"";
  }

  /** The syntax of paths: keys after dots, indexes in brackets, other keys quoted in brackets. */
  lemma PathSpelling(path: string, key: string, plain: string, i: nat)
    requires path != "" && PlainKey(plain)
    ensures AppendKeySegment("", plain) == plain && AppendKeySegment(path, plain) == path + "." + plain
    ensures i < 10 ==> AppendIndex(path, i) == path + "[" + [('0' as int + i) as char] + "]"
    ensures AppendKeySegment(path, "") == path + "[\"\"]"
    ensures !PlainKey(key) && '"' !in key && '\\' !in key ==> AppendKeySegment(path, key) == path + "[\"" + key + "\"]"
  {
    if '"' !in key && '\\' !in key {
      ReplaceAfterText(key, "", "\\", "\\\\");
      ReplaceAfterText(key, "", "\"", "\\\"");
      assert key + "" == key;
    }
  }

  /** The two replacements of the quoted form: backslashes first, then quotes. */
  function EscapeKey(key: string): string {
    ReplaceAll(ReplaceAll(key, "\\", "\\\\"), "\"", "\\\"")
  }

  /** The `%s[%d]` of composite_render.go:185. */
  function AppendIndex(path: string, i: nat): string {
    path + IndexText(i)
  }

  function IndexText(i: nat): string {
    "[" + Itoa(i) + "]"
  }

  /** The path string renderValue builds while descending to a position. */
  function PathString(pos: seq<Seg>): string {
    if pos == [] then ""
    else
      var parent := PathString(pos[..|pos| - 1]);
      match pos[|pos| - 1]
      case Key(k) => AppendKeySegment(parent, k)
      case Idx(i) => AppendIndex(parent, i)
  }

  // --------------------------------------------------------------- round trip

  lemma {:induction false} BareLenConcat(x: string, y: string)
    requires y != "" && (y[0] == '.' || y[0] == '[')
    ensures BareLen(x + y) == BareLen(x)
  {
    if x != "" {
      assert (x + y)[1..] == x[1..] + y;
      if x[0] != '.' && x[0] != '[' { BareLenConcat(x[1..], y); }
    }
  }

  lemma {:induction false} ParseQuotedConcat(s: string, y: string)
    requires ParseQuoted(s).Some?
    ensures ParseQuoted(s + y) == Some((ParseQuoted(s).value.0, ParseQuoted(s).value.1 + y))
    decreases |s|
  {
    if s[0] == '"' {
      assert (s + y)[1..] == s[1..] + y;
    } else {
      var skip := if s[0] == '\\' && |s| > 1 then 1 else 0;
      assert |s| > skip + 1 by { assert ParseQuoted("").None?; }
      ParseQuotedConcat(s[skip + 1..], y);
      assert (s + y)[skip + 1..] == s[skip + 1..] + y;
    }
  }

  lemma IndexOfUnique(s: string, c: string, i: nat)
    requires i <= |s| && c <= s[i..] && forall j :: 0 <= j < i ==> !(c <= s[j..])
    ensures IndexOf(s, c) == i
  {
    IndexOfFirst(s, c);
  }

  lemma BracketIndexConcat(a: string, y: string)
    requires IndexOf(a, "]") >= 0
    ensures IndexOf(a + y, "]") == IndexOf(a, "]")
  {
    var b, end := a + y, IndexOf(a, "]");
    IndexOfFirst(a, "]");
    assert a[end..][0] == ']';
    assert b[end..] == a[end..] + y;
    forall j | 0 <= j < end ensures !("]" <= b[j..]) {
      assert b[j..][0] == a[j] == a[j..][0];
    }
    IndexOfUnique(b, "]", end);
  }

  lemma ParseIndexConcat(a: string, y: string)
    requires ParseIndex(a).Some?
    ensures ParseIndex(a + y) == Some((ParseIndex(a).value.0, ParseIndex(a).value.1 + y))
  {
    var end := IndexOf(a, "]");
    BracketIndexConcat(a, y);
    assert (a + y)[..end] == a[..end];
    assert (a + y)[end + 1..] == a[end + 1..] + y;
  }

  lemma CloseQuotedConcat(key: string, rest: string, y: string)
    requires CloseQuoted(Some((key, rest))).Some?
    ensures CloseQuoted(Some((key, rest + y))) == Some((Key(key), rest[1..] + y))
  {
    assert (rest + y)[1..] == rest[1..] + y;
  }

  lemma ParseBracketConcat(s: string, y: string)
    requires s != "" && s[0] == '[' && ParseBracket(s).Some?
    ensures ParseBracket(s + y) == Some((ParseBracket(s).value.0, ParseBracket(s).value.1 + y))
  {
    assert IndexOf("", "]") < 0;
    assert |s| > 1 && (s + y)[1] == s[1];
    if s[1] == '"' {
      assert (s + y)[2..] == s[2..] + y;
      ParseQuotedConcat(s[2..], y);
      var q := ParseQuoted(s[2..]).value;
      CloseQuotedConcat(q.0, q.1, y);
    } else {
      assert (s + y)[1..] == s[1..] + y;
      ParseIndexConcat(s[1..], y);
    }
  }

  lemma ParseSegmentConcat(s: string, y: string)
    requires ParseSegment(s).Some?
    requires y == "" || y[0] == '.' || y[0] == '['
    ensures ParseSegment(s + y) == Some((ParseSegment(s).value.0, ParseSegment(s).value.1 + y))
  {
    if y == "" {
      assert s + y == s;
      assert ParseSegment(s).value.1 + y == ParseSegment(s).value.1;
    } else if s[0] == '[' {
      ParseBracketConcat(s, y);
    } else {
      BareLenConcat(s, y);
      var n := BareLen(s);
      assert (s + y)[..n] == s[..n] && (s + y)[n..] == s[n..] + y;
    }
  }

  lemma ParseFromStep(s: string, first: bool, seg: Seg, rest: string)
    requires s != "" && (first || s[0] == '.' || s[0] == '[')
    requires ParseSegment(if !first && s[0] == '.' then s[1..] else s) == Some((seg, rest))
    ensures ParseFrom(s, first) == Prepend([seg], ParseFrom(rest, false))
  {
  }

  lemma PrependTwice(seg: Seg, segs: seq<Seg>, r: Option<seq<Seg>>)
    ensures Prepend([seg], Prepend(segs, r)) == Prepend([seg] + segs, r)
  {
    if r.Some? { assert [seg] + segs + r.value == [seg] + (segs + r.value); }
  }

  /** A parsed prefix followed by a separator or bracket keeps its segments. */
  lemma {:induction false} ParseConcat(x: string, y: string, first: bool)
    requires ParseFrom(x, first).Some?
    requires y != "" && (y[0] == '.' || y[0] == '[')
    ensures ParseFrom(x + y, first) == Prepend(ParseFrom(x, first).value, ParseFrom(y, false))
    decreases |x|
  {
    if x == "" {
      assert x + y == y;
      PrependNone(ParseFrom(y, false));
    } else {
      var body := if !first && x[0] == '.' then x[1..] else x;
      assert (if !first && (x + y)[0] == '.' then (x + y)[1..] else x + y) == body + y;
      ParseSegmentConcat(body, y);
      var Some((seg, rest)) := ParseSegment(body);
      ParseConcat(rest, y, false);
      ParseFromStep(x, first, seg, rest);
      ParseFromStep(x + y, first, seg, rest + y);
      PrependTwice(seg, ParseFrom(rest, false).value, ParseFrom(y, false));
    }
  }

  lemma {:induction false} BareLenPlain(key: string)
    requires forall i :: 0 <= i < |key| ==> !Meta(key[i])
    ensures BareLen(key) == |key|
  {
    if key != "" { BareLenPlain(key[1..]); }
  }

  lemma {:induction false} EscapeKeyCons(c: char, key: string)
    ensures EscapeKey([c] + key) ==
            (if c == '\\' then "\\\\" else if c == '"' then "\\\"" else [c]) + EscapeKey(key)
  {
    var inner := ReplaceAll(key, "\\", "\\\\");
    if c == '\\' {
      assert [c] + key == "\\" + key;
      ReplaceHit(key, "\\", "\\\\");
      ReplaceAfterText("\\\\", inner, "\"", "\\\"");
    } else {
      PrefixOfCons("\\", c, key);
      ReplaceMiss(c, key, "\\", "\\\\");
      if c == '"' {
        assert [c] + inner == "\"" + inner;
        ReplaceHit(inner, "\"", "\\\"");
      } else {
        PrefixOfCons("\"", c, inner);
        ReplaceMiss(c, inner, "\"", "\\\"");
      }
    }
  }

  /** Reading the escaped form of a key gives the key back. */
  lemma {:induction false} QuotedRoundTrip(key: string, rest: string)
    ensures ParseQuoted(EscapeKey(key) + "\"" + rest) == Some((key, rest))
  {
    if key == "" {
      assert EscapeKey(key) + "\"" + rest == "\"" + rest;
      assert ("\"" + rest)[1..] == rest;
    } else {
      var c, tail := key[0], key[1..];
      assert key == [c] + tail;
      EscapeKeyCons(c, tail);
      QuotedRoundTrip(tail, rest);
      var s := EscapeKey(tail) + "\"" + rest;
      var head := if c == '\\' then "\\\\" else if c == '"' then "\\\"" else [c];
      assert EscapeKey(key) + "\"" + rest == head + s;
      assert (head + s)[|head|..] == s;
    }
  }

  /** The index form of every number: read back when it fits, refused when not. */
  lemma IndexFormParses(i: nat)
    ensures ParseIndex(Itoa(i) + "]") == if i <= MAX_INT then Some((Idx(i), "")) else None
  {
    var d := Itoa(i);
    forall j | 0 <= j < |d| ensures !("]" <= (d + "]")[j..]) {
      assert IsDigit(d[j]) && (d + "]")[j..][0] == d[j];
    }
    assert (d + "]")[|d|..] == "]";
    IndexOfUnique(d + "]", "]", |d|);
    assert (d + "]")[..|d|] == d && (d + "]")[|d| + 1..] == "";
    assert IsDigit(d[0]);
  }

  lemma BracketIndexParses(i: nat)
    ensures IndexText(i)[0] == '['
    ensures ParseSegment(IndexText(i)) == if i <= MAX_INT then Some((Idx(i), "")) else None
  {
    var d := Itoa(i);
    IndexFormParses(i);
    assert IndexText(i)[1..] == d + "]";
    assert IsDigit(d[0]) && IndexText(i)[1] == d[0];
  }

  lemma BracketIndexRoundTrip(i: nat)
    requires i <= MAX_INT
    ensures IndexText(i)[0] == '['
    ensures ParseFrom(IndexText(i), false) == Some([Idx(i)])
    ensures ParseFrom(IndexText(i), true) == Some([Idx(i)])
  {
    BracketIndexParses(i);
    OneSegment(IndexText(i), Idx(i));
  }

  lemma OneSegment(s: string, seg: Seg)
    requires s != "" && s[0] == '[' && ParseSegment(s) == Some((seg, ""))
    ensures ParseFrom(s, false) == ParseFrom(s, true) == Some([seg])
  {
    assert [seg] + [] == [seg];
  }

  lemma QuotedSegmentRoundTrip(key: string)
    ensures QuotedText(key)[0] == '['
    ensures ParseFrom(QuotedText(key), false) == Some([Key(key)])
    ensures ParseFrom(QuotedText(key), true) == Some([Key(key)])
  {
    var s := QuotedText(key);
    assert s[2..] == EscapeKey(key) + "\"" + "]";
    QuotedRoundTrip(key, "]");
    assert ParseSegment(s) == Some((Key(key), ""));
    OneSegment(s, Key(key));
  }

  lemma PlainSegmentRoundTrip(key: string)
    requires PlainKey(key)
    ensures ParseFrom(key, true) == Some([Key(key)])
    ensures ParseFrom("." + key, false) == Some([Key(key)])
  {
    BareLenPlain(key);
    assert !Meta(key[0]);
    assert key[..|key|] == key && key[|key|..] == "";
    assert ParseSegment(key) == Some((Key(key), ""));
    assert ("." + key)[1..] == key;
    assert [Key(key)] + [] == [Key(key)];
  }

  /** The segments of a valid or empty path. */
  function SegmentsOf(path: string): seq<Seg>
    requires path == "" || ParsePath(path).Some?
  {
    if path == "" then [] else ParsePath(path).value
  }

  lemma AppendBracket(path: string, y: string, seg: Seg)
    requires path == "" || ParsePath(path).Some?
    requires y != "" && y[0] == '['
    requires ParseFrom(y, true) == ParseFrom(y, false) == Some([seg])
    ensures ParsePath(path + y) == Some(SegmentsOf(path) + [seg])
  {
    if path != "" {
      ParseConcat(path, y, true);
    } else {
      assert path + y == y && [] + [seg] == [seg];
    }
  }

  /** Appending a key segment, for every key and every valid or empty path. */
  lemma AppendKeyRoundTrip(path: string, key: string)
    requires path == "" || ParsePath(path).Some?
    ensures ParsePath(AppendKeySegment(path, key)) == Some(SegmentsOf(path) + [Key(key)])
  {
    if PlainKey(key) {
      PlainSegmentRoundTrip(key);
      if path != "" {
        ParseConcat(path, "." + key, true);
        assert path + "." + key == path + ("." + key);
      } else {
        assert [] + [Key(key)] == [Key(key)];
      }
    } else {
      QuotedSegmentRoundTrip(key);
      AppendBracket(path, QuotedText(key), Key(key));
    }
  }

  /** Appending an index that fits the platform's integer. */
  lemma AppendIndexRoundTrip(path: string, i: nat)
    requires path == "" || ParsePath(path).Some?
    requires i <= MAX_INT
    ensures ParsePath(AppendIndex(path, i)) == Some(SegmentsOf(path) + [Idx(i)])
  {
    BracketIndexRoundTrip(i);
    AppendBracket(path, IndexText(i), Idx(i));
  }

  /** Every index of the position fits the platform's integer. */
  predicate Addressable(pos: seq<Seg>) {
    forall i :: 0 <= i < |pos| ==> pos[i].Idx? ==> pos[i].index <= 0x7FFF_FFFF_FFFF_FFFF
  }

  lemma PrependAddressable(seg: Seg, rest: Option<seq<Seg>>)
    requires seg.Idx? ==> seg.index <= MAX_INT
    requires rest.Some? ==> Addressable(rest.value)
    ensures Prepend([seg], rest).Some? ==> Addressable(Prepend([seg], rest).value)
  {
  }

  /** The parser only yields indexes that fit: Atoi refuses the others. */
  lemma {:induction false} ParsedAddressable(path: string, first: bool)
    ensures ParseFrom(path, first).Some? ==> Addressable(ParseFrom(path, first).value)
    decreases |path|
  {
    if ParseFrom(path, first).Some? && path != "" {
      var s := if !first && path[0] == '.' then path[1..] else path;
      var seg := ParseSegment(s).value;
      ParsedAddressable(seg.1, false);
      PrependAddressable(seg.0, ParseFrom(seg.1, false));
    }
  }

  /** The printed form of a position parses back to exactly that position, if and only if its indexes fit the platform. */
  lemma {:induction false} PathRoundTrip(pos: seq<Seg>)
    requires pos != []
    ensures ParsePath(PathString(pos)) == Some(pos) <==> Addressable(pos)
  {
    ParsedAddressable(PathString(pos), true);
    if Addressable(pos) { AddressableRoundTrip(pos); }
  }

  lemma {:induction false} AddressableRoundTrip(pos: seq<Seg>)
    requires pos != [] && Addressable(pos)
    ensures ParsePath(PathString(pos)) == Some(pos)
  {
    var parent := pos[..|pos| - 1];
    assert pos == parent + [pos[|pos| - 1]];
    if parent != [] {
      AddressableRoundTrip(parent);
      assert PathString(parent) != "";
    }
    match pos[|pos| - 1]
    case Key(k) => AppendKeyRoundTrip(PathString(parent), k);
    case Idx(i) => AppendIndexRoundTrip(PathString(parent), i);
  }

  /** Distinct positions have distinct path strings. */
  lemma PathStringInjective(p: seq<Seg>, q: seq<Seg>)
    requires p != [] && q != [] && Addressable(p) && Addressable(q)
    ensures PathString(p) == PathString(q) ==> p == q
  {
    PathRoundTrip(p);
    PathRoundTrip(q);
  }

  /** Why positions must be addressable here, where indexes are unbounded: behind every path a larger index is refused. */
  lemma OversizedIndexRefused(path: string, i: nat)
    requires path == "" || ParsePath(path).Some?
    requires i > MAX_INT
    ensures ParsePath(AppendIndex(path, i)) == None
  {
    var b := IndexText(i);
    BracketIndexParses(i);
    assert b != "" && ParseFrom(b, false) == None && ParseFrom(b, true) == None;
    if path == "" {
      assert path + b == b;
    } else {
      ParseConcat(path, b, true);
    }
  }
}
