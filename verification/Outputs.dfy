/**
 The direct evaluator of composite_outputs.go: the same `${...}` expressions,
 resolved at once against the children's observed status.
 */
module Outputs {
  import opened Strings
  import opened Json
  import opened Trees
  import opened Markers
  import opened Templates

  // ---------------------------------------------------------- status fields

  /** The status fields a reference or an output can read. */
  datatype Source = Source(id: string, outputs: Option<map<string, Json>>)

  datatype Field = Invalid | Pending | Present(v: Json)

  /** resolveFieldPath (references.go:159). */
  function ResolveFieldPath(src: Source, fieldPath: string): Field {
    if fieldPath == "status.id" then
      if src.id == "" then Pending else Present(Str(src.id))
    else if fieldPath == "status.outputs" || "status.outputs." <= fieldPath then
      if src.outputs.None? then Pending
      else if fieldPath == "status.outputs" then Present(Obj(src.outputs.value))
      else
        match GetPath(Obj(src.outputs.value), fieldPath[|"status.outputs."|..])
        case None => Pending
        case Some(v) => Present(v)
    else Invalid
  }

  /** An expression, a string or a tree: an error, a wait for a source, or a value. */
  datatype Resolved<+T> = Wrong(error: Error) | Wait | Ready(value: T)

  /** resolveOutputExpr (composite_outputs.go:162). */
  function ResolveOutputExpr(rc: Context, observed: map<string, Source>, expr: string): Resolved<Json> {
    match Classify(rc, expr)
    case Bad(e) => Wrong(e)
    case Immediate(v) => Ready(v)
    case Sibling =>
      match ParseResourceExpr(rc, expr)
      case Err(e) => Wrong(e)
      case Ok((source, fieldPath)) =>
        if source !in observed then Wait
        else
          match ResolveFieldPath(observed[source], fieldPath)
          case Invalid => Wrong(BadField)
          case Pending => Wait
          case Present(v) => Ready(v)
  }

  /** The text the loop of renderOutputString writes. */
  function Interpolate(rc: Context, observed: map<string, Source>, sc: Scan): Resolved<string>
    requires |sc.texts| == |sc.exprs| + 1
    decreases |sc.exprs|
  {
    if sc.exprs == [] then Ready(sc.texts[0])
    else
      match ResolveOutputExpr(rc, observed, TrimSpace(sc.exprs[0]))
      case Wrong(e) => Wrong(e)
      case Wait => Wait
      case Ready(v) => After(sc.texts[0] + RenderScalar(v), Interpolate(rc, observed, Scan(sc.texts[1..], sc.exprs[1..])))
  }

  function After(head: string, r: Resolved<string>): Resolved<string> {
    match r
    case Wrong(e) => Wrong(e)
    case Wait => Wait
    case Ready(text) => Ready(head + text)
  }

  function Closing(r: Resolved<string>): Resolved<Json> {
    match r
    case Wrong(e) => Wrong(e)
    case Wait => Wait
    case Ready(text) => Ready(Str(Unescape(text)))
  }

  /** renderOutputString (composite_outputs.go:127). */
  function RenderOutputString(rc: Context, observed: map<string, Source>, s: string): Resolved<Json> {
    var escaped := EscapeOpens(s);
    match ScanExprs(escaped)
    case None => Wrong(Unterminated)
    case Some(sc) =>
      if Whole(sc) then ResolveOutputExpr(rc, observed, TrimSpace(sc.exprs[0]))
      else Closing(Interpolate(rc, observed, sc))
  }

  // ------------------------------------------------ renderOutputString, as it runs

  /** The rounds over the spans still to come. */
  function OutputRounds(rc: Context, observed: map<string, Source>, e: string, prev: nat, ms: seq<(nat, nat)>, b: string,
                        whole: bool): Resolved<Json>
    requires Ordered(e, prev, ms)
    decreases |ms|
  {
    if ms == [] then Ready(Str(Unescape(b + e[prev..])))
    else
      var m := ms[0];
      assert m.1 <= |e| by { assert Ordered(e, m.1, ms[1..]); }
      match ResolveOutputExpr(rc, observed, TrimSpace(e[m.0 + 2..m.1 - 1]))
      case Wrong(err) => Wrong(err)
      case Wait => Wait
      case Ready(v) =>
        if whole then Ready(v)
        else OutputRounds(rc, observed, e, m.1, ms[1..], b + e[prev..m.0] + RenderScalar(v), whole)
  }

  lemma AfterTwice(b: string, head: string, r: Resolved<string>)
    ensures After(b, After(head, r)) == After(b + head, r)
    ensures After("", r) == r
  {
    if r.Ready? { assert b + head + r.value == b + (head + r.value) && "" + r.value == r.value; }
  }

  lemma {:induction false} OutputRoundsInterpolate(rc: Context, observed: map<string, Source>, e: string, prev: nat, b: string)
    requires prev <= |e| && ScanFrom(e, prev).Some? && Ordered(e, prev, Matches(e, prev))
    ensures OutputRounds(rc, observed, e, prev, Matches(e, prev), b, false)
         == Closing(After(b, Interpolate(rc, observed, ScanFrom(e, prev).value)))
    decreases |e| - prev
  {
    hide ResolveOutputExpr, NextMatch, TrimSpace, IndexOf, Unescape, RenderScalar;
    if NextMatch(e, prev).Some? {
      var m := NextMatch(e, prev).value;
      var left, rest := ScanFrom(e, prev).value, ScanFrom(e, m.1).value;
      assert Matches(e, prev)[1..] == Matches(e, m.1);
      assert left.texts[1..] == rest.texts && left.exprs[1..] == rest.exprs;
      var r := ResolveOutputExpr(rc, observed, TrimSpace(e[m.0 + 2..m.1 - 1]));
      if r.Ready? {
        var head := e[prev..m.0] + RenderScalar(r.value);
        Associative(b, e[prev..m.0], RenderScalar(r.value));
        AfterTwice(b, head, Interpolate(rc, observed, rest));
        OutputRoundsInterpolate(rc, observed, e, m.1, b + head);
      }
    }
  }

  lemma OutputRoundsRender(rc: Context, observed: map<string, Source>, e: string, whole: bool)
    requires ScanExprs(e).Some? && Matches(e, 0) != [] && Ordered(e, 0, Matches(e, 0))
    requires whole <==> |Matches(e, 0)| == 1 && Matches(e, 0)[0].0 == 0 && Matches(e, 0)[0].1 == |e|
    ensures var sc := ScanExprs(e).value;
            OutputRounds(rc, observed, e, 0, Matches(e, 0), "", whole) ==
            if Whole(sc) then ResolveOutputExpr(rc, observed, TrimSpace(sc.exprs[0]))
            else Closing(Interpolate(rc, observed, sc))
  {
    hide ResolveOutputExpr, NextMatch, TrimSpace, IndexOf, Unescape, RenderScalar, Interpolate;
    WholeMatches(e);
    var m := NextMatch(e, 0).value;
    var sc := ScanExprs(e).value;
    assert sc.exprs[0] == e[m.0 + 2..m.1 - 1];
    if !whole {
      OutputRoundsInterpolate(rc, observed, e, 0, "");
      AfterTwice("", "", Interpolate(rc, observed, sc));
    }
  }

  /** The loop over the matches: a builder and the end of the previous match. */
  method InterpolateLoop(rc: Context, observed: map<string, Source>, e: string, matches: seq<(nat, nat)>, wholeString: bool)
    returns (r: Resolved<Json>)
    requires Ordered(e, 0, matches)
    ensures r == OutputRounds(rc, observed, e, 0, matches, "", wholeString)
  {
    hide ResolveOutputExpr, TrimSpace, Unescape, RenderScalar;
    var b := "";
    var prev: nat := 0;
    for i := 0 to |matches|
      invariant Ordered(e, prev, matches[i..])
      invariant OutputRounds(rc, observed, e, prev, matches[i..], b, wholeString)
             == OutputRounds(rc, observed, e, 0, matches, "", wholeString)
    {
      var m := matches[i];
      assert matches[i..][0] == m && matches[i..][1..] == matches[i + 1..];
      assert Ordered(e, m.1, matches[i + 1..]);
      var val := ResolveOutputExpr(rc, observed, TrimSpace(e[m.0 + 2..m.1 - 1]));
      match val {
        case Wrong(err) => return Wrong(err);
        case Wait => return Wait;
        case Ready(v) =>
          if wholeString {
            return Ready(v);
          }
          b := b + e[prev..m.0] + RenderScalar(v);
          prev := m.1;
      }
    }
    return Ready(Str(Unescape(b + e[prev..])));
  }

  /** renderOutputString as it runs. */
  method RenderOutputStringLoop(rc: Context, observed: map<string, Source>, s: string) returns (r: Resolved<Json>)
    ensures r == RenderOutputString(rc, observed, s)
  {
    hide ResolveOutputExpr, TrimSpace, IndexOf, Unescape, RenderScalar, Interpolate, NextMatch, EscapeOpens;
    var escaped := EscapeOpens(s);
    var matches := Matches(escaped, 0);
    var terminated := CheckUnterminated(escaped, matches);
    if !terminated {
      return Wrong(Unterminated);
    }
    if |matches| == 0 {
      NoExpression(rc, observed, escaped);
      return Ready(Str(Unescape(escaped)));
    }
    var wholeString := |matches| == 1 && matches[0].0 == 0 && matches[0].1 == |escaped|;
    MatchesOrdered(escaped, 0);
    OutputRoundsRender(rc, observed, escaped, wholeString);
    r := InterpolateLoop(rc, observed, escaped, matches, wholeString);
  }

  lemma NoExpression(rc: Context, observed: map<string, Source>, e: string)
    requires ScanExprs(e).Some? && Matches(e, 0) == []
    ensures ScanExprs(e).value == Scan([e], [])
    ensures Closing(Interpolate(rc, observed, ScanExprs(e).value)) == Ready(Str(Unescape(e)))
  {
    hide Unescape, IndexOf, ResolveOutputExpr;
    assert e[0..] == e;
  }
}
