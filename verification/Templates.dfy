/**
 The compiler half of composite_render.go: strings with `${...}` expressions
 become literal values or references to a sibling's status field.
 */
module Templates {
  import opened Strings
  import opened Json
  import opened Paths
  import opened Trees
  import opened Markers

  /** renderContext: what expressions can see. */
  datatype Context = Context(name: string, namespace: string, params: map<string, Json>, childName: map<string, string>)

  datatype Error =
    | Unterminated | ParamNotFound | TwoSources | Unsupported
    | UnknownResource | MissingField | BadField

  datatype Result<+T> = Ok(value: T) | Err(error: Error)

  // ----------------------------------------------------------------- scanning

  /** A string cut at its expressions: one text more than expressions. */
  datatype Scan = Scan(texts: seq<string>, exprs: seq<string>)

  /** The first match of `\$\{([^}]*)\}` at or after `from`: start of its "${" and end of its "}". */
  function NextMatch(e: string, from: nat): (r: Option<(nat, nat)>)
    requires from <= |e|
    ensures r.Some? ==> from <= r.value.0 && r.value.0 + 3 <= r.value.1 <= |e|
  {
    var p := IndexOf(e[from..], OPEN);
    if p < 0 then None
    else
      var q := IndexOf(e[from + p + 2..], "}");
      if q < 0 then None else Some((from + p, from + p + 2 + q + 1))
  }

  /** The match spans FindAll returns from `from` on. */
  function Matches(e: string, from: nat): (ms: seq<(nat, nat)>)
    requires from <= |e|
    ensures forall i :: 0 <= i < |ms| ==> from <= ms[i].0 && ms[i].0 + 3 <= ms[i].1 <= |e|
    decreases |e| - from
  {
    match NextMatch(e, from)
    case None => []
    case Some(m) => [m] + Matches(e, m.1)
  }

  /** One expression in front of the scan of the rest. */
  function ScanCons(text: string, expr: string, rest: Option<Scan>): Option<Scan> {
    match rest
    case None => None
    case Some(sc) => Some(Scan([text] + sc.texts, [expr] + sc.exprs))
  }

  /**
   The leftmost, non-overlapping matches from `from` on and the texts between
   them; None when some "${" is never closed.
   */
  function ScanFrom(e: string, from: nat): (r: Option<Scan>)
    requires from <= |e|
    ensures r.Some? ==> |r.value.texts| == |r.value.exprs| + 1
    decreases |e| - from
  {
    match NextMatch(e, from)
    case None => if IndexOf(e[from..], OPEN) < 0 then Some(Scan([e[from..]], [])) else None
    case Some(m) => ScanCons(e[from..m.0], e[m.0 + 2..m.1 - 1], ScanFrom(e, m.1))
  }

  /** A string cut at its expressions. */
  function ScanExprs(e: string): (r: Option<Scan>)
    ensures r.Some? ==> |r.value.texts| == |r.value.exprs| + 1
  {
    ScanFrom(e, 0)
  }

  /** unicode.IsSpace. */
  predicate IsSpace(c: char) {
    var n := c as int;
    9 <= n <= 13 || n == 0x20 || n == 0x85 || n == 0xA0 || n == 0x1680
    || 0x2000 <= n <= 0x200A || n == 0x2028 || n == 0x2029 || n == 0x202F || n == 0x205F || n == 0x3000
  }

  function TrimLeft(s: string): string {
    if s != "" && IsSpace(s[0]) then TrimLeft(s[1..]) else s
  }

  function TrimRight(s: string): string {
    if s != "" && IsSpace(s[|s| - 1]) then TrimRight(s[..|s| - 1]) else s
  }

  function TrimSpace(s: string): string {
    TrimRight(TrimLeft(s))
  }

  // -------------------------------------------------------------- expressions

  predicate IsParams(expr: string) {
    "params." <= expr || expr == "params"
  }

  predicate IsSibling(expr: string) {
    "resources." <= expr
  }

  function Param(rc: Context, expr: string): Option<Json> {
    GetPath(Obj(map["params" := Obj(rc.params)]), expr)
  }

  /** What one expression stands for while a string is compiled. */
  datatype Part = Immediate(v: Json) | Sibling | Bad(error: Error)

  function Classify(rc: Context, expr: string): Part {
    if IsParams(expr) then
      match Param(rc, expr)
      case None => Bad(ParamNotFound)
      case Some(v) => Immediate(v)
    else if expr == "self.name" then Immediate(Str(rc.name))
    else if expr == "self.namespace" then Immediate(Str(rc.namespace))
    else if IsSibling(expr) then Sibling
    else Bad(Unsupported)
  }

  /** parseResourceExpr (composite_render.go:288): the template resource and the status field. */
  function ParseResourceExpr(rc: Context, expr: string): (r: Result<(string, string)>)
    ensures r.Ok? ==> r.value.0 in rc.childName
  {
    var rest := if IsSibling(expr) then expr[|"resources."|..] else expr;
    var dot := IndexOf(rest, ".");
    var source := if dot < 0 then rest else rest[..dot];
    if source !in rc.childName then Err(UnknownResource)
    else if dot < 0 then Err(MissingField)
    else
      var field := rest[dot + 1..];
      if field == "id" then Ok((source, "status.id"))
      else if field == "outputs" || "outputs." <= field then Ok((source, "status." + field))
      else Err(BadField)
  }

  // ------------------------------------------------------------- renderString

  /** What renderString returns: an error, a literal value, or the reference that replaces the value. */
  datatype Compiled =
    | Failed(error: Error)
    | Literal(v: Json)
    | Linked(source: string, fieldPath: string, tpl: string)

  /** The text the loop assembles, and the sibling expression it saw ("" for none). */
  function Assemble(rc: Context, sc: Scan, src: string): Result<(string, string)>
    requires |sc.texts| == |sc.exprs| + 1
    decreases |sc.exprs|
  {
    if sc.exprs == [] then Ok((sc.texts[0], src))
    else
      var expr := TrimSpace(sc.exprs[0]);
      var rest := Scan(sc.texts[1..], sc.exprs[1..]);
      match Classify(rc, expr)
      case Bad(e) => Err(e)
      case Immediate(v) => Extend(sc.texts[0] + RenderScalar(v), Assemble(rc, rest, src))
      case Sibling =>
        if src != "" && src != expr then Err(TwoSources)
        else Extend(sc.texts[0] + VALUE_MARK, Assemble(rc, rest, expr))
  }

  function Extend(head: string, r: Result<(string, string)>): Result<(string, string)> {
    match r
    case Err(e) => Err(e)
    case Ok((text, src)) => Ok((head + text, src))
  }

  function EscapeOpens(s: string): string {
    ReplaceAll(s, ESCAPED_OPEN, ESC_MARK)
  }

  /** The string is one expression and nothing else. */
  predicate Whole(sc: Scan) {
    sc.texts == ["", ""] && |sc.exprs| == 1
  }

  /** From the assembled text to the result. */
  function Finish(rc: Context, assembled: Result<(string, string)>): (r: Compiled)
    ensures r.Linked? ==> r.source in rc.childName
  {
    match assembled
    case Err(e) => Failed(e)
    case Ok((text, src)) =>
      var result := Unescape(text);
      if src == "" then Literal(Str(ReplaceAll(result, VALUE_MARK, PLACEHOLDER)))
      else
        var tpl := ToTemplate(result);
        match ParseResourceExpr(rc, src)
        case Err(e) => Failed(e)
        case Ok((source, field)) => Linked(source, field, if tpl == PLACEHOLDER then "" else tpl)
  }

  /** A whole-string parameter keeps its type. */
  predicate IsWholeParam(sc: Scan) {
    Whole(sc) && IsParams(TrimSpace(sc.exprs[0]))
  }

  /** renderString from the scan on, when there is an expression. */
  function RenderScan(rc: Context, sc: Scan): (r: Compiled)
    requires |sc.texts| == |sc.exprs| + 1 && sc.exprs != []
    ensures r.Linked? ==> r.source in rc.childName
  {
    if IsWholeParam(sc) then
      match Param(rc, TrimSpace(sc.exprs[0]))
      case None => Failed(ParamNotFound)
      case Some(v) => Literal(v)
    else Finish(rc, Assemble(rc, sc, ""))
  }

  /** renderString (composite_render.go:215). */
  function RenderString(rc: Context, s: string): (r: Compiled)
    ensures r.Linked? ==> r.source in rc.childName
  {
    var escaped := EscapeOpens(s);
    match ScanExprs(escaped)
    case None => Failed(Unterminated)
    case Some(sc) => if sc.exprs == [] then Literal(Str(Unescape(escaped))) else RenderScan(rc, sc)
  }

  // ------------------------------------------------- renderString, as it runs

  /** An opening stands at `p`. */
  predicate OpensAt(e: string, p: nat) {
    p <= |e| && OPEN <= e[p..]
  }

  predicate InSpan(spans: seq<(nat, nat)>, p: nat) {
    exists i :: 0 <= i < |spans| && spans[i].0 <= p < spans[i].1
  }

  /** checkUnterminated (composite_render.go:310): every "${" lies in a match. */
  method CheckUnterminated(e: string, spans: seq<(nat, nat)>) returns (ok: bool)
    requires spans == Matches(e, 0)
    ensures ok <==> forall p: nat :: OpensAt(e, p) ==> InSpan(spans, p)
    ensures ok <==> ScanExprs(e).Some?
  {
    var idx := 0;
    ghost var done := 0;
    while true
      invariant 0 <= idx <= |e| && 0 <= done <= |spans|
      invariant spans[done..] == Matches(e, idx)
      invariant forall j :: 0 <= j < done ==> spans[j].1 <= idx
      invariant ScanExprs(e).Some? <==> ScanFrom(e, idx).Some?
      invariant forall p: nat :: p < idx && OpensAt(e, p) ==> InSpan(spans, p)
      decreases |e| - idx
    {
      var pos := IndexOf(e[idx..], OPEN);
      NextOpening(e, idx);
      if pos < 0 {
        return true;
      }
      pos := pos + idx;
      var i := 0;
      while i < |spans| && !(spans[i].0 <= pos < spans[i].1)
        invariant 0 <= i <= |spans|
        invariant forall j :: 0 <= j < i ==> !(spans[j].0 <= pos < spans[j].1)
      {
        i := i + 1;
      }
      SpanOfFirst(e, idx, spans, done);
      if i == |spans| {
        assert OpensAt(e, pos) && !InSpan(spans, pos);
        return false;
      }
      assert i == done;
      assert forall p: nat :: pos <= p < spans[i].1 ==> InSpan(spans, p);
      idx := spans[i].1;
      done := done + 1;
    }
  }

  /** IndexOf finds the next opening. */
  lemma NextOpening(e: string, idx: nat)
    requires idx <= |e|
    ensures var pos := IndexOf(e[idx..], OPEN);
            (pos >= 0 ==> OpensAt(e, idx + pos)) && forall p: nat :: idx <= p && (pos < 0 || p < idx + pos) ==> !OpensAt(e, p)
  {
    IndexOfFirst(e[idx..], OPEN);
    forall p: nat | idx <= p <= |e| ensures e[idx..][p - idx..] == e[p..] {}
  }

  /** The next "${" is in a span exactly when there is a next match, and then in that one only. */
  lemma SpanOfFirst(e: string, idx: nat, spans: seq<(nat, nat)>, done: nat)
    requires idx <= |e| && done <= |spans| && spans[done..] == Matches(e, idx)
    requires forall j :: 0 <= j < done ==> spans[j].1 <= idx
    requires IndexOf(e[idx..], OPEN) >= 0
    ensures var pos := IndexOf(e[idx..], OPEN) + idx;
            if NextMatch(e, idx).None? then forall j :: 0 <= j < |spans| ==> !(spans[j].0 <= pos < spans[j].1)
            else
              done < |spans| && spans[done] == NextMatch(e, idx).value
              && spans[done].0 <= pos < spans[done].1
              && spans[done + 1..] == Matches(e, spans[done].1)
              && forall j :: 0 <= j < |spans| && j != done ==> !(spans[j].0 <= pos < spans[j].1)
  {
    var pos := IndexOf(e[idx..], OPEN) + idx;
    if NextMatch(e, idx).Some? {
      var m := NextMatch(e, idx).value;
      assert spans[done..][0] == m;
      assert spans[done..][1..] == spans[done + 1..];
      forall j | done < j < |spans| ensures spans[j].0 > pos {
        assert spans[j] == spans[done + 1..][j - done - 1];
      }
    }
  }

  lemma ExtendNone(r: Result<(string, string)>)
    ensures Extend("", r) == r
  {
    if r.Ok? { assert "" + r.value.0 == r.value.0; }
  }

  lemma ExtendTwice(b: string, text: string, head: string, r: Result<(string, string)>)
    ensures Extend(b, Extend(text + head, r)) == Extend(b + text + head, r)
  {
    if r.Ok? { assert b + text + head + r.value.0 == b + (text + head + r.value.0); }
  }

  /** The match covers the whole string exactly when no text surrounds the only expression. */
  lemma WholeMatches(e: string)
    requires ScanExprs(e).Some? && Matches(e, 0) != []
    ensures var ms := Matches(e, 0);
            (|ms| == 1 && ms[0].0 == 0 && ms[0].1 == |e|) <==> Whole(ScanExprs(e).value)
  {
    var m := Matches(e, 0)[0];
    var sc, rest := ScanExprs(e).value, ScanFrom(e, m.1).value;
    assert sc.texts == [e[0..m.0]] + rest.texts && |sc.exprs| == 1 + |rest.exprs|;
    if NextMatch(e, m.1).None? {
      assert sc.texts == [e[0..m.0], e[m.1..]];
      assert |sc.texts[0]| == m.0 && |sc.texts[1]| == |e| - m.1;
    } else {
      assert |rest.exprs| > 0;
    }
  }

  /** The switch of the loop body: stop with a result, or go on with the text to write. */
  datatype Round = Stop(result: Compiled) | Go(head: string, resourceExpr: string)

  function RoundOf(rc: Context, expr: string, whole: bool, src: string): Round {
    match Classify(rc, expr)
    case Bad(e) => Stop(Failed(e))
    case Immediate(v) => if whole && IsParams(expr) then Stop(Literal(v)) else Go(RenderScalar(v), src)
    case Sibling => if src != "" && src != expr then Stop(Failed(TwoSources)) else Go(VALUE_MARK, expr)
  }

  method EvaluateRound(rc: Context, expr: string, wholeString: bool, resourceExpr: string) returns (r: Round)
    ensures r == RoundOf(rc, expr, wholeString, resourceExpr)
  {
    if IsParams(expr) {
      var val := Param(rc, expr);
      if val.None? {
        return Stop(Failed(ParamNotFound));
      }
      if wholeString {
        return Stop(Literal(val.value));
      }
      return Go(RenderScalar(val.value), resourceExpr);
    } else if expr == "self.name" {
      return Go(rc.name, resourceExpr);
    } else if expr == "self.namespace" {
      return Go(rc.namespace, resourceExpr);
    } else if IsSibling(expr) {
      if resourceExpr != "" && resourceExpr != expr {
        return Stop(Failed(TwoSources));
      }
      return Go(VALUE_MARK, expr);
    }
    return Stop(Failed(Unsupported));
  }

  /** Spans in order, inside the string, none before `prev`. */
  predicate Ordered(e: string, prev: nat, ms: seq<(nat, nat)>)
    decreases |ms|
  {
    prev <= |e| && (ms != [] ==> prev <= ms[0].0 && ms[0].0 + 3 <= ms[0].1 && Ordered(e, ms[0].1, ms[1..]))
  }

  lemma {:induction false} MatchesOrdered(e: string, from: nat)
    requires from <= |e|
    ensures Ordered(e, from, Matches(e, from))
    decreases |e| - from
  {
    if NextMatch(e, from).Some? {
      var m := NextMatch(e, from).value;
      MatchesOrdered(e, m.1);
      assert ([m] + Matches(e, m.1))[1..] == Matches(e, m.1);
    }
  }

  /** The rounds over the spans still to come. */
  function Rounds(rc: Context, e: string, prev: nat, ms: seq<(nat, nat)>, b: string, src: string, whole: bool): Compiled
    requires Ordered(e, prev, ms)
    decreases |ms|
  {
    if ms == [] then Finish(rc, Ok((b + e[prev..], src)))
    else
      var m := ms[0];
      assert m.1 <= |e| by { assert Ordered(e, m.1, ms[1..]); }
      match RoundOf(rc, TrimSpace(e[m.0 + 2..m.1 - 1]), whole, src)
      case Stop(r) => r
      case Go(head, src') => Rounds(rc, e, m.1, ms[1..], b + e[prev..m.0] + head, src', whole)
  }

  /** The loop over the matches: one builder, the end of the previous match, the sibling expression seen. */
  method AssembleLoop(rc: Context, e: string, matches: seq<(nat, nat)>, wholeString: bool) returns (r: Compiled)
    requires Ordered(e, 0, matches)
    ensures r == Rounds(rc, e, 0, matches, "", "", wholeString)
  {
    hide RoundOf, Finish;
    var resourceExpr, b := "", "";
    var prev: nat := 0;
    for i := 0 to |matches|
      invariant Ordered(e, prev, matches[i..])
      invariant Rounds(rc, e, prev, matches[i..], b, resourceExpr, wholeString)
             == Rounds(rc, e, 0, matches, "", "", wholeString)
    {
      var m := matches[i];
      assert matches[i..][0] == m && matches[i..][1..] == matches[i + 1..];
      assert Ordered(e, m.1, matches[i + 1..]);
      var round := EvaluateRound(rc, TrimSpace(e[m.0 + 2..m.1 - 1]), wholeString, resourceExpr);
      if round.Stop? {
        return round.result;
      }
      b := b + e[prev..m.0] + round.head;
      resourceExpr, prev := round.resourceExpr, m.1;
    }
    return Finish(rc, Ok((b + e[prev..], resourceExpr)));
  }

  /** One round, on the scan still to read. */
  lemma RoundAssembles(rc: Context, left: Scan, text: string, raw: string, rest: Scan, b: string, src: string, whole: bool)
    requires left.texts == [text] + rest.texts && left.exprs == [raw] + rest.exprs
    requires |rest.texts| == |rest.exprs| + 1
    requires whole ==> !IsParams(TrimSpace(raw))
    ensures var round := RoundOf(rc, TrimSpace(raw), whole, src);
            Finish(rc, Extend(b, Assemble(rc, left, src))) ==
            if round.Stop? then round.result
            else Finish(rc, Extend(b + text + round.head, Assemble(rc, rest, round.resourceExpr)))
  {
    hide Param, TrimSpace;
    assert left.texts[1..] == rest.texts && left.exprs[1..] == rest.exprs;
    var round := RoundOf(rc, TrimSpace(raw), whole, src);
    if round.Go? {
      assert Assemble(rc, left, src) == Extend(text + round.head, Assemble(rc, rest, round.resourceExpr));
      ExtendTwice(b, text, round.head, Assemble(rc, rest, round.resourceExpr));
    }
  }

  /** The rounds assemble the scan. */
  lemma {:induction false} RoundsAssemble(rc: Context, e: string, prev: nat, b: string, src: string, whole: bool)
    requires prev <= |e| && ScanFrom(e, prev).Some? && Ordered(e, prev, Matches(e, prev))
    requires whole ==> ScanFrom(e, prev).value.exprs == [] || !IsParams(TrimSpace(ScanFrom(e, prev).value.exprs[0]))
    requires whole ==> |Matches(e, prev)| <= 1
    ensures Rounds(rc, e, prev, Matches(e, prev), b, src, whole)
         == Finish(rc, Extend(b, Assemble(rc, ScanFrom(e, prev).value, src)))
    decreases |e| - prev
  {
    hide RoundOf, Finish, IsParams, Classify, NextMatch, TrimSpace, IndexOf;
    var left := ScanFrom(e, prev).value;
    if NextMatch(e, prev).Some? {
      var m := NextMatch(e, prev).value;
      var rest := ScanFrom(e, m.1).value;
      var text, raw := e[prev..m.0], e[m.0 + 2..m.1 - 1];
      assert Matches(e, prev)[1..] == Matches(e, m.1);
      RoundAssembles(rc, left, text, raw, rest, b, src, whole);
      var round := RoundOf(rc, TrimSpace(raw), whole, src);
      if round.Go? {
        RoundsAssemble(rc, e, m.1, b + text + round.head, round.resourceExpr, whole);
      }
    }
  }

  lemma WholeParamStops(rc: Context, expr: string)
    requires IsParams(expr)
    ensures RoundOf(rc, expr, true, "") ==
            Stop(match Param(rc, expr) case None => Failed(ParamNotFound) case Some(v) => Literal(v))
  {
  }

  lemma RoundsRender(rc: Context, e: string, whole: bool)
    requires ScanExprs(e).Some? && Matches(e, 0) != [] && Ordered(e, 0, Matches(e, 0))
    requires whole <==> |Matches(e, 0)| == 1 && Matches(e, 0)[0].0 == 0 && Matches(e, 0)[0].1 == |e|
    ensures ScanExprs(e).value.exprs != []
    ensures Rounds(rc, e, 0, Matches(e, 0), "", "", whole) == RenderScan(rc, ScanExprs(e).value)
  {
    hide RoundOf, Finish, IsParams, NextMatch, TrimSpace, IndexOf, Assemble;
    WholeMatches(e);
    var m := NextMatch(e, 0).value;
    var sc := ScanExprs(e).value;
    assert sc.exprs[0] == e[m.0 + 2..m.1 - 1];
    if IsWholeParam(sc) {
      WholeParamStops(rc, TrimSpace(sc.exprs[0]));
    } else {
      RoundsAssemble(rc, e, 0, "", "", whole);
      ExtendNone(Assemble(rc, sc, ""));
    }
  }

  /** renderString as it runs. */
  method RenderStringLoop(rc: Context, s: string) returns (r: Compiled)
    ensures r == RenderString(rc, s)
  {
    var escaped := EscapeOpens(s);
    var matches := Matches(escaped, 0);
    var terminated := CheckUnterminated(escaped, matches);
    if !terminated {
      return Failed(Unterminated);
    }
    if |matches| == 0 {
      assert escaped[0..] == escaped;
      return Literal(Str(Unescape(escaped)));
    }
    var whole := |matches| == 1 && matches[0].0 == 0 && matches[0].1 == |escaped|;
    MatchesOrdered(escaped, 0);
    RoundsRender(rc, escaped, whole);
    r := AssembleLoop(rc, escaped, matches, whole);
  }
}
