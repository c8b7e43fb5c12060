/**
 The markers and placeholders of the template compiler and of the linker:
 what each replacement pass does to a text made of pieces with markers between
 them.
 */
module Markers {
  import opened Strings

  // composite_render.go:40, :208 and references.go:112
  const ESC_MARK := "\0DOPLANE_ESC\0"
  const VALUE_MARK := "\0DOPLANE_VALUE\0"
  const LITERAL_MARK := "\0DOPLANE_LITERAL\0"
  const OPEN := "${"
  const ESCAPED_OPEN := "$${"
  const PLACEHOLDER := "${value}"
  const ESCAPED_PLACEHOLDER := "$${value}"

  predicate EndsInDollar(t: string) {
    t != "" && t[|t| - 1] == '$'
  }

  /** A pattern with a single '$', at its start: OPEN and PLACEHOLDER. */
  predicate DollarLed(p: string) {
    |p| >= 2 && p[0] == '$' && '$' !in p[1..]
  }

  // ------------------------------------------------------ escape, then mark

  /** A text is empty, starts with the pattern, or starts with a character where the pattern does not match. */
  lemma Cases(t: string, p: string)
    requires p != ""
    ensures t == "" || (p <= t && t == p + t[|p|..]) || (!(p <= t) && t == [t[0]] + t[1..])
  {
  }

  /** A prefix that avoids the first character of the replacement is already a prefix of the text. */
  lemma {:induction false} PrefixSurvives(q: string, t: string, p: string, m: string, x: string)
    requires p != "" && m != "" && m[0] !in q
    requires x == "" || x[0] !in q
    ensures q <= ReplaceAll(t, p, m) + x ==> q <= t
    decreases |q|
  {
    if q != "" && t != "" && !(p <= t) {
      var r1 := ReplaceAll(t[1..], p, m);
      PrefixSurvives(q[1..], t[1..], p, m, x);
      assert [t[0]] + r1 + x == [t[0]] + (r1 + x);
      PrefixOfCons(q, t[0], r1 + x);
      PrefixOfCons(q, t[0], t[1..]);
      assert t == [t[0]] + t[1..];
    } else if q != "" {
      var s := ReplaceAll(t, p, m) + x;
      assert s == "" || s[0] == (if t == "" then x[0] else m[0]);
    }
  }

  /**
   Escaping every `p` in `t` as "$" + p and then replacing the escapes gives
   what replacing `p` directly gives. What follows must not read as the rest of
   an escape that the end of `t` begins.
   */
  lemma {:induction false} MarkEscaped(t: string, x: string, p: string, m: string)
    requires DollarLed(p)
    requires x == "" || x[0] == '$'
    requires EndsInDollar(t) ==> !(p <= x)
    ensures ReplaceAll(ReplaceAll(t, p, "$" + p) + x, "$" + p, m) == ReplaceAll(t, p, m) + ReplaceAll(x, "$" + p, m)
    decreases |t|
  {
    var e := "$" + p;
    var z := ReplaceAll(x, e, m);
    Cases(t, p);
    if t == "" {
      assert "" + x == x && "" + z == z;
    } else if p <= t {
      var t1 := t[|p|..];
      var r1 := ReplaceAll(t1, p, e);
      assert t1 != "" ==> t1[|t1| - 1] == t[|t| - 1];
      MarkEscaped(t1, x, p, m);
      Associative(e, r1, x);
      ReplaceHit(r1 + x, e, m);
      Associative(m, ReplaceAll(t1, p, m), z);
    } else {
      var t1 := t[1..];
      var r1 := ReplaceAll(t1, p, e);
      assert t1 != "" ==> t1[|t1| - 1] == t[|t| - 1];
      MarkEscaped(t1, x, p, m);
      NotEscapedHere(t, x, p);
      Associative([t[0]], r1, x);
      ReplaceMiss(t[0], r1 + x, e, m);
      Associative([t[0]], ReplaceAll(t1, p, m), z);
    }
  }

  lemma NotEscapedHere(t: string, x: string, p: string)
    requires DollarLed(p) && t != "" && !(p <= t)
    requires x == "" || x[0] == '$'
    requires EndsInDollar(t) ==> !(p <= x)
    ensures !("$" + p <= [t[0]] + (ReplaceAll(t[1..], p, "$" + p) + x))
  {
    var e := "$" + p;
    var t1 := t[1..];
    var r1 := ReplaceAll(t1, p, e);
    assert e[0] == '$' && e[1..] == p;
    PrefixOfCons(e, t[0], r1 + x);
    Cases(t1, p);
    if t1 == "" {
      assert r1 + x == x;
    } else if p <= t1 {
      assert (r1 + x)[1] == '$' && p[1] == p[1..][0];
    } else {
      var r2 := ReplaceAll(t1[1..], p, e);
      Associative([t1[0]], r2, x);
      PrefixOfCons(p, t1[0], r2 + x);
      PrefixSurvives(p[1..], t1[1..], p, e, x);
      PrefixOfCons(p, t1[0], t1[1..]);
    }
  }

  /** Once every `p` of `t` is marked, none is left to find, not even across the end. */
  lemma {:induction false} MarkedHasNone(t: string, x: string, p: string, m: string, v: string)
    requires DollarLed(p) && NulFree(p) && m != "" && m[0] == NUL && '$' !in m
    requires x == "" || x[0] !in p[1..]
    ensures ReplaceAll(ReplaceAll(t, p, m) + x, p, v) == ReplaceAll(t, p, m) + ReplaceAll(x, p, v)
    decreases |t|
  {
    var z := ReplaceAll(x, p, v);
    Cases(t, p);
    if t == "" {
      assert "" + x == x && "" + z == z;
    } else if p <= t {
      var r1 := ReplaceAll(t[|p|..], p, m);
      MarkedHasNone(t[|p|..], x, p, m, v);
      Associative(m, r1, x);
      ReplaceAfterText(m, r1 + x, p, v);
      Associative(m, r1, z);
    } else {
      var r1 := ReplaceAll(t[1..], p, m);
      MarkedHasNone(t[1..], x, p, m, v);
      Associative([t[0]], r1, x);
      PrefixOfCons(p, t[0], r1 + x);
      PrefixSurvives(p[1..], t[1..], p, m, x);
      PrefixOfCons(p, t[0], t[1..]);
      ReplaceMiss(t[0], r1 + x, p, v);
      Associative([t[0]], r1, z);
    }
  }

  /** Replacing the marks by `p` again restores the text. */
  lemma {:induction false} UnmarkRestores(t: string, x: string, p: string, m: string)
    requires p != "" && m != "" && m[0] == NUL && NulFree(t)
    ensures ReplaceAll(ReplaceAll(t, p, m) + x, m, p) == t + ReplaceAll(x, m, p)
    decreases |t|
  {
    var z := ReplaceAll(x, m, p);
    Cases(t, p);
    if t == "" {
      assert "" + x == x && "" + z == z;
    } else if p <= t {
      var t1 := t[|p|..];
      var r1 := ReplaceAll(t1, p, m);
      UnmarkRestores(t1, x, p, m);
      Associative(m, r1, x);
      ReplaceHit(r1 + x, m, p);
      Associative(p, t1, z);
    } else {
      var t1 := t[1..];
      var r1 := ReplaceAll(t1, p, m);
      UnmarkRestores(t1, x, p, m);
      Associative([t[0]], r1, x);
      assert t[0] != NUL;
      PrefixOfCons(m, t[0], r1 + x);
      ReplaceMiss(t[0], r1 + x, m, p);
      Associative([t[0]], t1, z);
    }
  }

  // ------------------------------------------------------- expandTemplate

  /** references.go:111, the three passes. */
  function ExpandTemplate(tpl: string, rendered: string): string {
    var marked := ReplaceAll(tpl, ESCAPED_PLACEHOLDER, LITERAL_MARK);
    var filled := ReplaceAll(marked, PLACEHOLDER, rendered);
    ReplaceAll(filled, LITERAL_MARK, PLACEHOLDER)
  }

  /** composite_render.go:267: literal "${value}" text is escaped. */
  function EscapePlaceholders(t: string): string {
    ReplaceAll(t, PLACEHOLDER, ESCAPED_PLACEHOLDER)
  }

  function EscapeAll(ts: seq<string>): (es: seq<string>)
    ensures |es| == |ts|
  {
    if ts == [] then [] else [EscapePlaceholders(ts[0])] + EscapeAll(ts[1..])
  }

  /**
   What the three passes make of a template assembled from escaped pieces:
   a piece that ends in "$" swallows the placeholder after it.
   */
  function Expansion(ts: seq<string>, v: string): string
    requires ts != []
  {
    if |ts| == 1 then ts[0]
    else if EndsInDollar(ts[0]) then ts[0][..|ts[0]| - 1] + PLACEHOLDER + Expansion(ts[1..], v)
    else ts[0] + v + Expansion(ts[1..], v)
  }

  lemma ExpandLast(t: string, v: string)
    requires NulFree(t)
    ensures ExpandTemplate(EscapePlaceholders(t), v) == t
  {
    assert "$" + PLACEHOLDER == ESCAPED_PLACEHOLDER;
    var e := EscapePlaceholders(t);
    var k := ReplaceAll(t, PLACEHOLDER, LITERAL_MARK);
    MarkEscaped(t, "", PLACEHOLDER, LITERAL_MARK);
    assert e + "" == e && k + "" == k;
    MarkedHasNone(t, "", PLACEHOLDER, LITERAL_MARK, v);
    UnmarkRestores(t, "", PLACEHOLDER, LITERAL_MARK);
    assert t + "" == t;
  }

  function Mark(t: string): string {
    ReplaceAll(t, ESCAPED_PLACEHOLDER, LITERAL_MARK)
  }

  function MarkRaw(t: string): string {
    ReplaceAll(t, PLACEHOLDER, LITERAL_MARK)
  }

  /** First pass over an escaped piece, a placeholder and the rest. */
  lemma MarkPass(t: string, rest: string)
    requires !EndsInDollar(t)
    ensures Mark(EscapePlaceholders(t) + PLACEHOLDER + rest) == MarkRaw(t) + (PLACEHOLDER + Mark(rest))
  {
    assert "$" + PLACEHOLDER == ESCAPED_PLACEHOLDER;
    Associative(EscapePlaceholders(t), PLACEHOLDER, rest);
    MarkEscaped(t, PLACEHOLDER + rest, PLACEHOLDER, LITERAL_MARK);
    PlaceholderIsNoEscape(rest);
  }

  /** Second pass: the placeholder is filled. */
  lemma FillPass(t: string, rest: string, v: string)
    ensures ReplaceAll(MarkRaw(t) + (PLACEHOLDER + rest), PLACEHOLDER, v)
         == MarkRaw(t) + (v + ReplaceAll(rest, PLACEHOLDER, v))
  {
    MarkedHasNone(t, PLACEHOLDER + rest, PLACEHOLDER, LITERAL_MARK, v);
    ReplaceHit(rest, PLACEHOLDER, v);
  }

  lemma ExpandStep(t: string, rest: string, v: string)
    requires NulFree(t) && NulFree(v) && !EndsInDollar(t)
    ensures ExpandTemplate(EscapePlaceholders(t) + PLACEHOLDER + rest, v) == t + v + ExpandTemplate(rest, v)
  {
    MarkPass(t, rest);
    FillPass(t, Mark(rest), v);
    var rest2 := ReplaceAll(Mark(rest), PLACEHOLDER, v);
    UnmarkRestores(t, v + rest2, PLACEHOLDER, LITERAL_MARK);
    ReplaceAfterText(v, rest2, LITERAL_MARK, PLACEHOLDER);
    Associative(t, v, ExpandTemplate(rest, v));
  }

  lemma PlaceholderIsNoEscape(rest: string)
    ensures ReplaceAll(PLACEHOLDER + rest, ESCAPED_PLACEHOLDER, LITERAL_MARK)
         == PLACEHOLDER + ReplaceAll(rest, ESCAPED_PLACEHOLDER, LITERAL_MARK)
  {
    var x := PLACEHOLDER + rest;
    var tail := "{value}";
    assert x == ['$'] + (tail + rest);
    assert ESCAPED_PLACEHOLDER[1] != x[1];
    assert x[1..] == tail + rest;
    ReplaceAfterText(tail, rest, ESCAPED_PLACEHOLDER, LITERAL_MARK);
    assert ['$'] + (tail + ReplaceAll(rest, ESCAPED_PLACEHOLDER, LITERAL_MARK))
        == PLACEHOLDER + ReplaceAll(rest, ESCAPED_PLACEHOLDER, LITERAL_MARK);
  }

  /** A text followed by one dollar sign holds no placeholder across the end. */
  lemma {:induction false} EscapeAppendDollar(u: string)
    ensures EscapePlaceholders(u + "$") == EscapePlaceholders(u) + "$"
    decreases |u|
  {
    var e := ESCAPED_PLACEHOLDER;
    Cases(u, PLACEHOLDER);
    if u == "" {
      assert u + "$" == ['$'] + "";
      ReplaceMiss('$', "", PLACEHOLDER, e);
    } else if PLACEHOLDER <= u {
      EscapeAppendDollar(u[8..]);
      Associative(PLACEHOLDER, u[8..], "$");
      ReplaceHit(u[8..] + "$", PLACEHOLDER, e);
      Associative(e, EscapePlaceholders(u[8..]), "$");
    } else {
      EscapeAppendDollar(u[1..]);
      Associative([u[0]], u[1..], "$");
      AppendKeepsMiss(u, "$");
      ReplaceMiss(u[0], u[1..] + "$", PLACEHOLDER, e);
      Associative([u[0]], EscapePlaceholders(u[1..]), "$");
    }
  }

  /** The placeholder has its only '$' in front, so a following '$' cannot complete one. */
  lemma AppendKeepsMiss(u: string, x: string)
    requires u != "" && !(PLACEHOLDER <= u) && x != "" && x[0] == '$'
    ensures !(PLACEHOLDER <= u + x)
  {
    var s := u + x;
    if |u| < 8 && |s| >= 8 {
      assert s[|u|] == '$';
      assert PLACEHOLDER[|u|] != '$';
    } else {
      assert |u| >= 8 ==> s[..8] == u[..8];
    }
  }

  /** First pass when the piece ends in "$": that "$" and the placeholder read as an escape. */
  lemma SwallowPass(u: string, rest: string)
    ensures Mark(EscapePlaceholders(u + "$") + PLACEHOLDER + rest) == MarkRaw(u) + (LITERAL_MARK + Mark(rest))
  {
    assert "$" + PLACEHOLDER == ESCAPED_PLACEHOLDER;
    EscapeAppendDollar(u);
    var x := ESCAPED_PLACEHOLDER + rest;
    assert EscapePlaceholders(u) + "$" + PLACEHOLDER + rest == EscapePlaceholders(u) + x;
    assert PLACEHOLDER[1] != x[1];
    MarkEscaped(u, x, PLACEHOLDER, LITERAL_MARK);
    ReplaceHit(rest, ESCAPED_PLACEHOLDER, LITERAL_MARK);
  }

  /** A piece that ends in "$" turns the following placeholder into a literal. */
  lemma ExpandSwallow(t: string, rest: string, v: string)
    requires NulFree(t) && NulFree(v) && EndsInDollar(t)
    ensures ExpandTemplate(EscapePlaceholders(t) + PLACEHOLDER + rest, v)
         == t[..|t| - 1] + PLACEHOLDER + ExpandTemplate(rest, v)
  {
    var u := t[..|t| - 1];
    assert t == u + "$";
    NulFreeConcat(u, "$");
    SwallowPass(u, rest);
    var rest2 := ReplaceAll(Mark(rest), PLACEHOLDER, v);
    MarkedHasNone(u, LITERAL_MARK + Mark(rest), PLACEHOLDER, LITERAL_MARK, v);
    ReplaceAfterText(LITERAL_MARK, Mark(rest), PLACEHOLDER, v);
    UnmarkRestores(u, LITERAL_MARK + rest2, PLACEHOLDER, LITERAL_MARK);
    ReplaceHit(rest2, LITERAL_MARK, PLACEHOLDER);
    Associative(u, PLACEHOLDER, ExpandTemplate(rest, v));
  }

  /** The three passes compute Expansion. */
  lemma {:induction false} ExpandJoined(ts: seq<string>, v: string)
    requires ts != [] && AllNulFree(ts) && NulFree(v)
    ensures ExpandTemplate(Join(EscapeAll(ts), PLACEHOLDER), v) == Expansion(ts, v)
  {
    var es := EscapeAll(ts);
    if |ts| == 1 {
      ExpandLast(ts[0], v);
    } else {
      assert es[1..] == EscapeAll(ts[1..]);
      ExpandJoined(ts[1..], v);
      if EndsInDollar(ts[0]) {
        ExpandSwallow(ts[0], Join(es[1..], PLACEHOLDER), v);
      } else {
        ExpandStep(ts[0], Join(es[1..], PLACEHOLDER), v);
      }
    }
  }

  /** No piece before a placeholder ends in "$". */
  predicate NoDollarBeforeHole(ts: seq<string>) {
    forall i :: 0 <= i < |ts| - 1 ==> !EndsInDollar(ts[i])
  }

  /** expandTemplate fills the holes with the value exactly when no piece before a hole ends in "$". */
  lemma {:induction false} ExpansionExact(ts: seq<string>)
    requires ts != []
    ensures NoDollarBeforeHole(ts) ==> forall v :: Expansion(ts, v) == Join(ts, v)
    ensures !NoDollarBeforeHole(ts) ==> Expansion(ts, "x") != Join(ts, "x")
  {
    if |ts| > 1 {
      ExpansionExact(ts[1..]);
      if EndsInDollar(ts[0]) {
        var k := |ts[0]|;
        assert Expansion(ts, "x")[k] == '{';
        assert Join(ts, "x")[k] == 'x';
      } else {
        assert NoDollarBeforeHole(ts) <==> NoDollarBeforeHole(ts[1..]) by {
          assert forall i :: 1 <= i < |ts| ==> ts[i] == ts[1..][i - 1];
          assert forall i :: 0 <= i < |ts| - 1 ==> ts[1..][i] == ts[i + 1];
        }
        if !NoDollarBeforeHole(ts) {
          var n := |ts[0]| + 1;
          assert Expansion(ts, "x")[n..] == Expansion(ts[1..], "x");
          assert Join(ts, "x")[n..] == Join(ts[1..], "x");
        }
      }
    }
  }

  /** The text that stands in a hole when the piece before it ends in "$". */
  const SWALLOWED := "{value}"

  lemma ExpansionStep(ts: seq<string>, v: string)
    requires |ts| > 1
    ensures Expansion(ts, v) == ts[0] + (if EndsInDollar(ts[0]) then SWALLOWED else v) + Expansion(ts[1..], v)
    ensures NoDollarBeforeHole(ts) <==> !EndsInDollar(ts[0]) && NoDollarBeforeHole(ts[1..])
  {
    var t := ts[0];
    if EndsInDollar(t) {
      assert t[..|t| - 1] + PLACEHOLDER == t + SWALLOWED;
    }
    assert forall i :: 1 <= i < |ts| ==> ts[i] == ts[1..][i - 1];
    assert forall i :: 0 <= i < |ts| - 1 ==> ts[1..][i] == ts[i + 1];
  }

  /** Each swallowed hole makes the text longer or shorter than filling it would. */
  lemma {:induction false} ExpansionLength(ts: seq<string>, v: string)
    requires ts != []
    ensures |v| <= |SWALLOWED| ==> |Expansion(ts, v)| >= |Join(ts, v)|
    ensures |v| >= |SWALLOWED| ==> |Expansion(ts, v)| <= |Join(ts, v)|
    ensures !NoDollarBeforeHole(ts) && |v| != |SWALLOWED| ==> |Expansion(ts, v)| != |Join(ts, v)|
  {
    hide Expansion;
    if |ts| > 1 {
      ExpansionStep(ts, v);
      ExpansionLength(ts[1..], v);
    } else {
      ExpansionLast(ts, v);
    }
  }

  lemma ExpansionLast(ts: seq<string>, v: string)
    requires |ts| == 1
    ensures Expansion(ts, v) == ts[0] == Join(ts, v) && NoDollarBeforeHole(ts)
  {
  }

  /** For one value, expanding fills the holes exactly when no hole is swallowed, or the value is the text left in them. */
  lemma {:induction false} ExpansionExactAt(ts: seq<string>, v: string)
    requires ts != []
    ensures Expansion(ts, v) == Join(ts, v) <==> NoDollarBeforeHole(ts) || v == SWALLOWED
  {
    hide Expansion;
    if |ts| == 1 {
      ExpansionLast(ts, v);
    } else {
      ExpansionStep(ts, v);
      ExpansionLength(ts, v);
      ExpansionExactAt(ts[1..], v);
      if |v| == |SWALLOWED| {
        var a := if EndsInDollar(ts[0]) then SWALLOWED else v;
        SameHoles(ts[0], a, v, Expansion(ts[1..], v), Join(ts[1..], v));
      }
    }
  }

  lemma SameHoles(t: string, a: string, b: string, x: string, y: string)
    requires |a| == |b|
    ensures t + a + x == t + b + y <==> a == b && x == y
  {
    var s, r := t + a + x, t + b + y;
    assert s[|t|..|t| + |a|] == a && s[|t| + |a|..] == x;
    assert r[|t|..|t| + |b|] == b && r[|t| + |b|..] == y;
  }

  // ------------------------------------------------- texts with markers in them

  /** Every NUL of `x` belongs to a whole marker `m`. */
  predicate Marked(x: string, m: string) {
    x == "" || (m != "" && m <= x && Marked(x[|m|..], m)) || (x[0] != NUL && Marked(x[1..], m))
  }

  predicate AllMarked(us: seq<string>, m: string) {
    forall i :: 0 <= i < |us| ==> Marked(us[i], m)
  }

  /** A marker: one NUL at each end of plain, dollar-free text. */
  predicate IsMarker(m: string) {
    |m| > 2 && m[0] == NUL && '$' !in m && '}' !in m
  }

  lemma {:induction false} NulFreeIsMarked(x: string, m: string)
    requires NulFree(x)
    ensures Marked(x, m)
  {
    if x != "" { NulFreeIsMarked(x[1..], m); }
  }

  lemma {:induction false} MarkedCases(x: string, m: string)
    requires Marked(x, m) && IsMarker(m)
    ensures x == "" || (m <= x && x == m + x[|m|..] && Marked(x[|m|..], m))
                    || (x[0] != NUL && x == [x[0]] + x[1..] && Marked(x[1..], m))
  {
  }

  /** Replacing the marker distributes over what follows a marked text. */
  lemma {:induction false} ReplaceMarked(x: string, y: string, m: string, rep: string)
    requires Marked(x, m) && IsMarker(m)
    ensures ReplaceAll(x + y, m, rep) == ReplaceAll(x, m, rep) + ReplaceAll(y, m, rep)
    decreases |x|
  {
    var r := ReplaceAll(y, m, rep);
    MarkedCases(x, m);
    if x == "" {
      assert x + y == y && "" + r == r;
    } else if m <= x {
      var x1 := x[|m|..];
      ReplaceMarked(x1, y, m, rep);
      Associative(m, x1, y);
      ReplaceHit(x1 + y, m, rep);
      ReplaceHit(x1, m, rep);
      Associative(rep, ReplaceAll(x1, m, rep), r);
    } else {
      var x1 := x[1..];
      ReplaceMarked(x1, y, m, rep);
      Associative([x[0]], x1, y);
      PrefixOfCons(m, x[0], x1 + y);
      ReplaceMiss(x[0], x1 + y, m, rep);
      Associative([x[0]], ReplaceAll(x1, m, rep), r);
    }
  }

  lemma {:induction false} MarkedConcat(x: string, y: string, m: string)
    requires Marked(x, m) && Marked(y, m) && IsMarker(m)
    ensures Marked(x + y, m)
    decreases |x|
  {
    MarkedCases(x, m);
    if x == "" {
      assert x + y == y;
    } else if m <= x {
      MarkedConcat(x[|m|..], y, m);
      assert (x + y)[|m|..] == x[|m|..] + y;
      assert m <= x + y;
    } else {
      MarkedConcat(x[1..], y, m);
      assert (x + y)[1..] == x[1..] + y;
    }
  }

  /** With the markers replaced by NUL-free text no NUL is left. */
  lemma {:induction false} UnmarkNulFree(x: string, m: string, rep: string)
    requires Marked(x, m) && IsMarker(m) && NulFree(rep)
    ensures NulFree(ReplaceAll(x, m, rep))
    decreases |x|
  {
    MarkedCases(x, m);
    if x != "" {
      if m <= x {
        UnmarkNulFree(x[|m|..], m, rep);
        ReplaceHit(x[|m|..], m, rep);
        NulFreeConcat(rep, ReplaceAll(x[|m|..], m, rep));
      } else {
        UnmarkNulFree(x[1..], m, rep);
        NulFreeConcat([x[0]], ReplaceAll(x[1..], m, rep));
      }
    }
  }

  /** A marked text cut at a character outside every marker leaves marked texts. */
  lemma {:induction false} CutMarked(x: string, at: nat, m: string)
    requires Marked(x, m) && IsMarker(m) && at < |x| && x[at] !in m
    ensures Marked(x[..at], m) && Marked(x[at + 1..], m)
    decreases |x|
  {
    MarkedCases(x, m);
    if m <= x {
      assert forall i :: 0 <= i < |m| ==> x[i] == m[i];
      CutMarked(x[|m|..], at - |m|, m);
      assert x[..at] == m + x[|m|..][..at - |m|] && x[at + 1..] == x[|m|..][at - |m| + 1..];
      assert x[..at][|m|..] == x[|m|..][..at - |m|];
    } else if at == 0 {
      assert x[..0] == "";
    } else {
      CutMarked(x[1..], at - 1, m);
      assert x[..at][1..] == x[1..][..at - 1] && x[at + 1..] == x[1..][at..];
    }
  }

  // --------------------------------------------------- from pieces to a template

  const ESC_TAIL := "DOPLANE_ESC\0"

  function Unescape(u: string): string {
    ReplaceAll(u, ESC_MARK, OPEN)
  }

  function UnescapeAll(us: seq<string>): (ts: seq<string>)
    ensures |ts| == |us|
  {
    if us == [] then [] else [Unescape(us[0])] + UnescapeAll(us[1..])
  }

  /**
   The text right after some placeholder, up to the next marker, is the word
   inside the escape marker: read together with the NULs around it, it looks
   like an escape.
   */
  predicate Collides(us: seq<string>) {
    |us| > 1 && (ESC_TAIL <= Join(us[1..], VALUE_MARK) || Collides(us[1..]))
  }

  /** A pass over NUL, a word, NUL: the only match that can start in there starts at the second NUL. */
  lemma PassWord(word: string, r: string, m: string, rep: string)
    requires IsMarker(m) && NulFree(word) && !(m <= [NUL] + (word + ([NUL] + r)))
    ensures ReplaceAll([NUL] + (word + ([NUL] + r)), m, rep) == [NUL] + (word + ReplaceAll([NUL] + r, m, rep))
    ensures !(m[1..] <= r) ==> ReplaceAll([NUL] + r, m, rep) == [NUL] + ReplaceAll(r, m, rep)
    ensures m[1..] <= r ==> ReplaceAll([NUL] + r, m, rep) == rep + ReplaceAll(r[|m| - 1..], m, rep)
  {
    var last := [NUL] + r;
    ReplaceMiss(NUL, word + last, m, rep);
    ReplaceAfterText(word, last, m, rep);
    PrefixOfCons(m, NUL, r);
    if m[1..] <= r {
      assert m == [NUL] + m[1..] && last == m + r[|m| - 1..];
      ReplaceHit(r[|m| - 1..], m, rep);
    } else {
      ReplaceMiss(NUL, r, m, rep);
    }
  }

  lemma UnescapeAfterValue(r: string)
    ensures !(ESC_TAIL <= r) ==> Unescape(VALUE_MARK + r) == VALUE_MARK + Unescape(r)
    ensures ESC_TAIL <= r ==> Unescape(VALUE_MARK + r) == STRAY + (OPEN + Unescape(r[|ESC_TAIL|..]))
  {
    ValueMarkSplits(r);
    assert ESC_MARK[9] != (VALUE_MARK + r)[9];
    PassWord(WORD, r, ESC_MARK, OPEN);
    assert ESC_MARK[1..] == ESC_TAIL;
    ValueMarkSplits(Unescape(r));
    if ESC_TAIL <= r {
      Associative([NUL], WORD, OPEN + Unescape(r[|ESC_TAIL|..]));
    }
  }

  const WORD := "DOPLANE_VALUE"

  lemma ValueMarkSplits(r: string)
    ensures VALUE_MARK + r == [NUL] + (WORD + ([NUL] + r))
    ensures STRAY == [NUL] + WORD
  {
  }

  /** Unescaping the assembled text unescapes every piece, when no piece collides with the markers. */
  lemma {:induction false} UnescapeJoined(us: seq<string>)
    requires us != [] && AllMarked(us, ESC_MARK) && !Collides(us)
    ensures Unescape(Join(us, VALUE_MARK)) == Join(UnescapeAll(us), VALUE_MARK)
  {
    assert IsMarker(ESC_MARK);
    if |us| > 1 {
      var r := Join(us[1..], VALUE_MARK);
      UnescapeJoined(us[1..]);
      Associative(us[0], VALUE_MARK, r);
      ReplaceMarked(us[0], VALUE_MARK + r, ESC_MARK, OPEN);
      UnescapeAfterValue(r);
      assert UnescapeAll(us)[1..] == UnescapeAll(us[1..]);
      Associative(Unescape(us[0]), VALUE_MARK, Unescape(r));
    }
  }

  lemma {:induction false} UnescapeAllNulFree(us: seq<string>)
    requires AllMarked(us, ESC_MARK)
    ensures AllNulFree(UnescapeAll(us))
  {
    if us != [] {
      UnescapeAllNulFree(us[1..]);
      UnmarkNulFree(us[0], ESC_MARK, OPEN);
    }
  }

  /** composite_render.go:267-268. */
  function ToTemplate(text: string): string {
    ReplaceAll(EscapePlaceholders(text), VALUE_MARK, PLACEHOLDER)
  }

  lemma {:induction false} EscapeJoined(ts: seq<string>)
    requires ts != [] && AllNulFree(ts)
    ensures EscapePlaceholders(Join(ts, VALUE_MARK)) == Join(EscapeAll(ts), VALUE_MARK)
    ensures AllNulFree(EscapeAll(ts))
  {
    ReplaceNulFree(ts[0], PLACEHOLDER, ESCAPED_PLACEHOLDER);
    if |ts| > 1 {
      var r := Join(ts[1..], VALUE_MARK);
      EscapeJoined(ts[1..]);
      assert EscapeAll(ts)[1..] == EscapeAll(ts[1..]);
      Associative(ts[0], VALUE_MARK, r);
      ReplaceAcross(ts[0], VALUE_MARK + r, PLACEHOLDER, ESCAPED_PLACEHOLDER);
      ReplaceAfterText(VALUE_MARK, r, PLACEHOLDER, ESCAPED_PLACEHOLDER);
      Associative(EscapePlaceholders(ts[0]), VALUE_MARK, EscapePlaceholders(r));
    }
  }

  /** The template of an assembled text has the escaped pieces around its placeholders. */
  lemma TemplateOfPieces(ts: seq<string>)
    requires ts != [] && AllNulFree(ts)
    ensures ToTemplate(Join(ts, VALUE_MARK)) == Join(EscapeAll(ts), PLACEHOLDER)
  {
    EscapeJoined(ts);
    ReplaceSeparators(EscapeAll(ts), VALUE_MARK, PLACEHOLDER);
  }

  // ---------------------------------------------------------- what a collision leaves

  /** A marker that lost its closing NUL. */
  const STRAY := "\0DOPLANE_VALUE"

  lemma {:induction false} CollisionLeavesStray(us: seq<string>) returns (a: string, z: string)
    requires us != [] && AllMarked(us, ESC_MARK) && Collides(us)
    ensures Unescape(Join(us, VALUE_MARK)) == a + (STRAY + z)
    ensures Marked(a, VALUE_MARK) && z != "" && z[0] == '$'
  {
    var r := Join(us[1..], VALUE_MARK);
    Associative(us[0], VALUE_MARK, r);
    ReplaceMarked(us[0], VALUE_MARK + r, ESC_MARK, OPEN);
    UnescapeAfterValue(r);
    UnmarkNulFree(us[0], ESC_MARK, OPEN);
    var t := Unescape(us[0]);
    NulFreeIsMarked(t, VALUE_MARK);
    if ESC_TAIL <= r {
      a, z := t, OPEN + Unescape(r[|ESC_TAIL|..]);
    } else {
      var a1;
      a1, z := CollisionLeavesStray(us[1..]);
      a := t + (VALUE_MARK + a1);
      MarkedAfterMarker(a1, VALUE_MARK);
      MarkedConcat(t, VALUE_MARK + a1, VALUE_MARK);
      Associative(VALUE_MARK, a1, STRAY + z);
      Associative(t, VALUE_MARK + a1, STRAY + z);
    }
  }

  lemma MarkedAfterMarker(x: string, m: string)
    requires Marked(x, m) && IsMarker(m)
    ensures Marked(m + x, m) && Marked(m, m)
  {
    assert (m + x)[|m|..] == x && m <= m + x && m[|m|..] == "";
  }

  /** A pass for a dollar-led pattern keeps a marked text marked. */
  lemma {:induction false} ReplaceKeepsMarked(x: string, m: string, pat: string, rep: string)
    requires Marked(x, m) && Marked(rep, m) && IsMarker(m)
    requires pat != "" && pat[0] == '$' && NulFree(pat)
    ensures Marked(ReplaceAll(x, pat, rep), m)
    decreases |x|
  {
    MarkedCases(x, m);
    if x != "" {
      if m <= x {
        ReplaceKeepsMarked(x[|m|..], m, pat, rep);
        ReplaceAfterText(m, x[|m|..], pat, rep);
        var r := ReplaceAll(x[|m|..], pat, rep);
        assert (m + r)[|m|..] == r;
      } else if pat <= x {
        DropText(x, |pat|, m);
        ReplaceKeepsMarked(x[|pat|..], m, pat, rep);
        MarkedConcat(rep, ReplaceAll(x[|pat|..], pat, rep), m);
      } else {
        ReplaceKeepsMarked(x[1..], m, pat, rep);
        var r := ReplaceAll(x[1..], pat, rep);
        assert ([x[0]] + r)[1..] == r;
      }
    }
  }

  lemma {:induction false} DropText(x: string, n: nat, m: string)
    requires Marked(x, m) && IsMarker(m) && n <= |x| && NulFree(x[..n])
    ensures Marked(x[n..], m)
    decreases n
  {
    if n > 0 {
      assert x[..n][0] == x[0];
      assert x[1..][..n - 1] == x[..n][1..];
      DropText(x[1..], n - 1, m);
      assert x[1..][n - 1..] == x[n..];
    }
  }

  /** A dollar-led pass goes around the stray marker. */
  lemma PassAroundStray(a: string, z: string, m: string, pat: string, rep: string)
    requires Marked(a, m) && IsMarker(m) && (NulFree(rep) || rep == m)
    requires pat != "" && pat[0] == '$' && NulFree(pat)
    ensures ReplaceAll(a + (STRAY + z), pat, rep) == ReplaceAll(a, pat, rep) + (STRAY + ReplaceAll(z, pat, rep))
    ensures Marked(ReplaceAll(a, pat, rep), m)
  {
    if rep == m { MarkedAfterMarker("", m); } else { NulFreeIsMarked(rep, m); }
    ReplaceAcross(a, STRAY + z, pat, rep);
    ReplaceAfterText(STRAY, z, pat, rep);
    ReplaceKeepsMarked(a, m, pat, rep);
  }

  /** A marker pass does not take the stray marker for a whole one. */
  lemma MarkerPassKeepsStray(a: string, z: string, m: string, rep: string)
    requires Marked(a, m) && IsMarker(m) && NulFree(rep) && !(m <= STRAY + z)
    ensures ReplaceAll(a + (STRAY + z), m, rep) == ReplaceAll(a, m, rep) + (STRAY + ReplaceAll(z, m, rep))
    ensures NulFree(ReplaceAll(a, m, rep))
  {
    ReplaceMarked(a, STRAY + z, m, rep);
    UnmarkNulFree(a, m, rep);
    ValueMarkSplits("");
    Associative([NUL], WORD, z);
    ReplaceMiss(NUL, WORD + z, m, rep);
    ReplaceAfterText(WORD, z, m, rep);
    Associative([NUL], WORD, ReplaceAll(z, m, rep));
  }

  lemma StrayIsNoMarker(z: string)
    ensures !(LITERAL_MARK <= STRAY + z)
    ensures z != "" && z[0] == '$' ==> !(VALUE_MARK <= STRAY + z)
  {
    assert LITERAL_MARK[9] != (STRAY + z)[9];
    assert z != "" ==> (STRAY + z)[14] == z[0] && VALUE_MARK[14] == NUL;
  }

  lemma NulAfter(a: string, z: string)
    ensures !NulFree(a + (STRAY + z))
  {
    assert (a + (STRAY + z))[|a|] == NUL;
  }

  lemma DollarStays(z: string)
    requires z != "" && z[0] == '$'
    ensures EscapePlaceholders(z) != "" && EscapePlaceholders(z)[0] == '$'
  {
  }

  lemma TemplateKeepsStray(a: string, z: string) returns (a2: string, z2: string)
    requires Marked(a, VALUE_MARK) && z != "" && z[0] == '$'
    ensures ToTemplate(a + (STRAY + z)) == a2 + (STRAY + z2) && NulFree(a2)
  {
    PassAroundStray(a, z, VALUE_MARK, PLACEHOLDER, ESCAPED_PLACEHOLDER);
    var a1, z1 := EscapePlaceholders(a), EscapePlaceholders(z);
    DollarStays(z);
    a2, z2 := StraySurvivesFill(a1, z1);
  }

  lemma StraySurvivesFill(a: string, z: string) returns (a2: string, z2: string)
    requires Marked(a, VALUE_MARK) && z != "" && z[0] == '$'
    ensures ReplaceAll(a + (STRAY + z), VALUE_MARK, PLACEHOLDER) == a2 + (STRAY + z2) && NulFree(a2)
  {
    StrayIsNoMarker(z);
    MarkerPassKeepsStray(a, z, VALUE_MARK, PLACEHOLDER);
    a2, z2 := ReplaceAll(a, VALUE_MARK, PLACEHOLDER), ReplaceAll(z, VALUE_MARK, PLACEHOLDER);
  }

  lemma ExpandKeepsStray(a: string, z: string, v: string)
    requires NulFree(a) && NulFree(v)
    ensures !NulFree(ExpandTemplate(a + (STRAY + z), v))
  {
    NulFreeIsMarked(a, LITERAL_MARK);
    PassAroundStray(a, z, LITERAL_MARK, ESCAPED_PLACEHOLDER, LITERAL_MARK);
    var a3, z3 := ReplaceAll(a, ESCAPED_PLACEHOLDER, LITERAL_MARK), ReplaceAll(z, ESCAPED_PLACEHOLDER, LITERAL_MARK);
    PassAroundStray(a3, z3, LITERAL_MARK, PLACEHOLDER, v);
    var a4, z4 := ReplaceAll(a3, PLACEHOLDER, v), ReplaceAll(z3, PLACEHOLDER, v);
    StrayIsNoMarker(z4);
    MarkerPassKeepsStray(a4, z4, LITERAL_MARK, PLACEHOLDER);
    NulAfter(ReplaceAll(a4, LITERAL_MARK, PLACEHOLDER), ReplaceAll(z4, LITERAL_MARK, PLACEHOLDER));
  }

  /** After a collision a NUL survives every later pass, whatever the value. */
  lemma CollisionSurvives(us: seq<string>, v: string)
    requires us != [] && AllMarked(us, ESC_MARK) && Collides(us) && NulFree(v)
    ensures !NulFree(ToTemplate(Unescape(Join(us, VALUE_MARK))))
    ensures !NulFree(ExpandTemplate(ToTemplate(Unescape(Join(us, VALUE_MARK))), v))
  {
    var a, z := CollisionLeavesStray(us);
    var a2, z2 := TemplateKeepsStray(a, z);
    NulAfter(a2, z2);
    ExpandKeepsStray(a2, z2, v);
  }
}
