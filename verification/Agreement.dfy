/**
 The two evaluators of a string agree: compiling it to a reference and expanding
 the reference's template later gives the text that resolving it directly gives.
 */
module Agreement {
  import opened Strings
  import opened Json
  import opened Markers
  import opened Templates
  import opened Outputs

  // ------------------------------------------------------- pieces of a string

  /**
   The texts around the sibling placeholders, with every other expression already
   rendered into them.
   */
  function Pieces(rc: Context, sc: Scan): (us: seq<string>)
    requires |sc.texts| == |sc.exprs| + 1
    ensures us != []
    decreases |sc.exprs|
  {
    if sc.exprs == [] then [sc.texts[0]]
    else
      var rest := Pieces(rc, Scan(sc.texts[1..], sc.exprs[1..]));
      match Classify(rc, TrimSpace(sc.exprs[0]))
      case Immediate(v) => [sc.texts[0] + RenderScalar(v) + rest[0]] + rest[1..]
      case _ => [sc.texts[0]] + rest
  }

  lemma JoinHead(head: string, ts: seq<string>, sep: string)
    requires ts != []
    ensures Join([head + ts[0]] + ts[1..], sep) == head + Join(ts, sep)
  {
    var us := [head + ts[0]] + ts[1..];
    assert us[1..] == ts[1..];
    if |ts| > 1 {
      assert head + ts[0] + sep + Join(ts[1..], sep) == head + (ts[0] + sep + Join(ts[1..], sep));
    }
  }

  lemma JoinCons(t: string, ts: seq<string>, sep: string)
    requires ts != []
    ensures Join([t] + ts, sep) == t + sep + Join(ts, sep)
  {
    assert ([t] + ts)[1..] == ts;
  }

  /** The assembled text joins the pieces with the value marker; one sibling expression at most is seen. */
  lemma {:induction false} AssembleIsJoin(rc: Context, sc: Scan, src: string)
    requires |sc.texts| == |sc.exprs| + 1 && Assemble(rc, sc, src).Ok?
    ensures var (text, last) := Assemble(rc, sc, src).value;
            text == Join(Pieces(rc, sc), VALUE_MARK)
            && (src != "" ==> last == src)
            && (|Pieces(rc, sc)| == 1 ==> last == src)
            && (|Pieces(rc, sc)| > 1 ==> last != "")
    decreases |sc.exprs|
  {
    hide IsParams, Param, TrimSpace, RenderScalar;
    if sc.exprs != [] {
      var expr := TrimSpace(sc.exprs[0]);
      var rest := Scan(sc.texts[1..], sc.exprs[1..]);
      var us := Pieces(rc, rest);
      match Classify(rc, expr)
      case Immediate(v) =>
        AssembleIsJoin(rc, rest, src);
        JoinHead(sc.texts[0] + RenderScalar(v), us, VALUE_MARK);
      case Sibling =>
        AssembleIsJoin(rc, rest, expr);
        JoinCons(sc.texts[0], us, VALUE_MARK);
      case Bad(_) =>
    }
  }

  /** With the sibling's value at hand, the direct evaluator joins the same pieces with the rendered value. */
  lemma {:induction false} InterpolateIsJoin(rc: Context, observed: map<string, Source>, sc: Scan, src: string, last: string, v: Json)
    requires |sc.texts| == |sc.exprs| + 1 && Assemble(rc, sc, src).Ok? && Assemble(rc, sc, src).value.1 == last
    requires last != "" ==> ResolveOutputExpr(rc, observed, last) == Ready(v)
    ensures Interpolate(rc, observed, sc) == Ready(Join(Pieces(rc, sc), RenderScalar(v)))
    decreases |sc.exprs|
  {
    hide IsParams, Param, TrimSpace, RenderScalar;
    if sc.exprs != [] {
      var expr := TrimSpace(sc.exprs[0]);
      var rest := Scan(sc.texts[1..], sc.exprs[1..]);
      var us := Pieces(rc, rest);
      match Classify(rc, expr)
      case Immediate(w) =>
        InterpolateIsJoin(rc, observed, rest, src, last, v);
        JoinHead(sc.texts[0] + RenderScalar(w), us, RenderScalar(v));
      case Sibling =>
        AssembleIsJoin(rc, rest, expr);
        assert last == expr;
        InterpolateIsJoin(rc, observed, rest, expr, last, v);
        JoinCons(sc.texts[0], us, RenderScalar(v));
      case Bad(_) =>
    }
  }

  // ------------------------------------------------------ NUL-free surroundings

  /** Parameters, names and status values hold no NUL (no Kubernetes API string does). */
  predicate CleanContext(rc: Context) {
    CleanJson(Obj(rc.params)) && NulFree(rc.name) && NulFree(rc.namespace)
  }

  lemma {:induction false} GetAtClean(v: Json, segs: seq<Paths.Seg>)
    requires CleanJson(v) && Trees.GetAt(v, segs).Some?
    ensures CleanJson(Trees.GetAt(v, segs).value)
    decreases |segs|
  {
    if segs != [] { GetAtClean(Trees.Child(v, segs[0]).value, segs[1..]); }
  }

  lemma ClassifyClean(rc: Context, expr: string)
    requires CleanContext(rc)
    ensures Classify(rc, expr).Immediate? ==> NulFree(RenderScalar(Classify(rc, expr).v))
  {
    if IsParams(expr) && Param(rc, expr).Some? {
      var root := Obj(map["params" := Obj(rc.params)]);
      GetAtClean(root, Paths.ParsePath(expr).value);
      RenderScalarNulFree(Param(rc, expr).value);
    }
  }

  /** Escaping "$${" in NUL-free text leaves NULs only in whole escape markers. */
  lemma {:induction false} EscapeOpensMarked(s: string)
    requires NulFree(s)
    ensures Marked(EscapeOpens(s), ESC_MARK)
    decreases |s|
  {
    if s != "" {
      if ESCAPED_OPEN <= s {
        EscapeOpensMarked(s[3..]);
        MarkedAfterMarker(EscapeOpens(s[3..]), ESC_MARK);
      } else {
        EscapeOpensMarked(s[1..]);
        var r := EscapeOpens(s[1..]);
        assert ([s[0]] + r)[1..] == r;
      }
    }
  }

  /** Every text the scan cuts out is marked: the cuts are at "${" and "}", which no marker contains. */
  lemma {:induction false} ScanMarked(e: string, from: nat)
    requires from <= |e| && Marked(e[from..], ESC_MARK) && ScanFrom(e, from).Some?
    ensures AllMarked(ScanFrom(e, from).value.texts, ESC_MARK)
    decreases |e| - from
  {
    hide Marked;
    if NextMatch(e, from).Some? {
      var m := NextMatch(e, from).value;
      CutsAtMatch(e, from);
      ScanMarked(e, m.1);
    }
  }

  /** A match starts at a "$" and ends at a "}". */
  lemma MatchEnds(e: string, from: nat)
    requires from <= |e| && NextMatch(e, from).Some?
    ensures var m := NextMatch(e, from).value; e[m.0] == '$' && e[m.1 - 1] == '}'
  {
    hide IndexOf;
    var p := IndexOf(e[from..], OPEN);
    IndexOfFirst(e[from..], OPEN);
    assert e[from..][p..][0] == '$';
    var t := e[from + p + 2..];
    IndexOfFirst(t, "}");
    assert t[IndexOf(t, "}")..][0] == '}';
  }

  lemma CutFrom(e: string, from: nat, at: nat)
    requires from <= at < |e| && Marked(e[from..], ESC_MARK) && e[at] !in ESC_MARK
    ensures Marked(e[from..at], ESC_MARK) && Marked(e[at + 1..], ESC_MARK)
  {
    hide Marked;
    var t := e[from..];
    CutMarked(t, at - from, ESC_MARK);
    assert t[..at - from] == e[from..at] && t[at - from + 1..] == e[at + 1..];
  }

  lemma CutsAtMatch(e: string, from: nat)
    requires from <= |e| && Marked(e[from..], ESC_MARK) && NextMatch(e, from).Some?
    ensures var m := NextMatch(e, from).value;
            Marked(e[from..m.0], ESC_MARK) && Marked(e[m.1..], ESC_MARK)
  {
    hide Marked, NextMatch;
    var m := NextMatch(e, from).value;
    MatchEnds(e, from);
    CutFrom(e, from, m.0);
    CutFrom(e, m.0 + 1, m.1 - 1);
  }

  lemma {:induction false} PiecesMarked(rc: Context, sc: Scan)
    requires |sc.texts| == |sc.exprs| + 1 && AllMarked(sc.texts, ESC_MARK) && CleanContext(rc)
    ensures AllMarked(Pieces(rc, sc), ESC_MARK)
    decreases |sc.exprs|
  {
    hide IsParams, Param, TrimSpace, RenderScalar, Marked;
    if sc.exprs != [] {
      var expr := TrimSpace(sc.exprs[0]);
      var rest := Scan(sc.texts[1..], sc.exprs[1..]);
      PiecesMarked(rc, rest);
      ClassifyClean(rc, expr);
      match Classify(rc, expr)
      case Immediate(v) =>
        var r := RenderScalar(v);
        NulFreeIsMarked(r, ESC_MARK);
        MarkedConcat(sc.texts[0], r, ESC_MARK);
        MarkedConcat(sc.texts[0] + r, Pieces(rc, rest)[0], ESC_MARK);
      case _ =>
    }
  }

  // -------------------------------------------------------------- the theorems

  /** The value a compiled reference puts at its path (references.go:99-101). */
  function LinkValue(tpl: string, v: Json): Json {
    if tpl == "" then v else Str(ExpandTemplate(tpl, RenderScalar(v)))
  }

  /** The pieces of a string as the evaluators see them. */
  function StringPieces(rc: Context, s: string): (us: seq<string>)
    ensures us != []
  {
    match ScanExprs(EscapeOpens(s))
    case None => [""]
    case Some(sc) => Pieces(rc, sc)
  }

  /**
   The guard under which a compiled template keeps its meaning: no text right
   before a placeholder ends in "$" (it would turn the placeholder into an
   escape), and no text right after one is the word inside the escape marker.
   */
  predicate Faithful(rc: Context, s: string) {
    var us := StringPieces(rc, s);
    NoDollarBeforeHole(UnescapeAll(us)) && !Collides(us)
  }

  lemma StringPiecesMarked(rc: Context, s: string)
    requires NulFree(s) && CleanContext(rc)
    ensures AllMarked(StringPieces(rc, s), ESC_MARK)
  {
    hide Pieces, Marked, EscapeOpens;
    var e := EscapeOpens(s);
    EscapeOpensMarked(s);
    assert e[0..] == e;
    if ScanExprs(e).Some? {
      ScanMarked(e, 0);
      PiecesMarked(rc, ScanExprs(e).value);
    } else {
      NulFreeIsMarked("", ESC_MARK);
    }
  }

  lemma {:induction false} ReplaceNotEmpty(text: string, pat: string, rep: string)
    requires text != "" && pat != "" && rep != ""
    ensures ReplaceAll(text, pat, rep) != ""
  {
  }

  lemma TemplateNotEmpty(us: seq<string>)
    requires |us| > 1
    ensures ToTemplate(Unescape(Join(us, VALUE_MARK))) != ""
  {
    var text := Join(us, VALUE_MARK);
    ReplaceNotEmpty(text, ESC_MARK, OPEN);
    ReplaceNotEmpty(Unescape(text), PLACEHOLDER, ESCAPED_PLACEHOLDER);
    ReplaceNotEmpty(EscapePlaceholders(Unescape(text)), VALUE_MARK, PLACEHOLDER);
  }

  /** What compiling yields, in terms of the pieces. */
  lemma CompiledShape(rc: Context, s: string)
    requires RenderString(rc, s).Linked?
    ensures var us := StringPieces(rc, s);
            var tpl := ToTemplate(Unescape(Join(us, VALUE_MARK)));
            RenderString(rc, s).tpl == (if tpl == PLACEHOLDER then "" else tpl) && tpl != "" && |us| > 1
  {
    hide Unescape, ToTemplate, TrimSpace, Param, IsParams, ParseResourceExpr, Pieces;
    var sc := ScanExprs(EscapeOpens(s)).value;
    AssembleIsJoin(rc, sc, "");
    TemplateNotEmpty(StringPieces(rc, s));
  }

  predicate IsWhole(s: string) {
    ScanExprs(EscapeOpens(s)).Some? && Whole(ScanExprs(EscapeOpens(s)).value)
  }

  /** What resolving directly yields when the sibling's field holds `v`. */
  function DirectValue(rc: Context, s: string, v: Json): Json {
    if IsWhole(s) then v else Str(Unescape(Join(StringPieces(rc, s), RenderScalar(v))))
  }

  /** The reference of a compiled string reads the value `v`. */
  predicate Yields(observed: map<string, Source>, c: Compiled, v: Json)
    requires c.Linked?
  {
    c.source in observed && ResolveFieldPath(observed[c.source], c.fieldPath) == Present(v)
  }

  lemma DirectlyResolved(rc: Context, observed: map<string, Source>, s: string, v: Json)
    requires RenderString(rc, s).Linked? && Yields(observed, RenderString(rc, s), v)
    ensures RenderOutputString(rc, observed, s) == Ready(DirectValue(rc, s, v))
  {
    hide Unescape, ToTemplate, TrimSpace, Param, IsParams, Pieces, ResolveFieldPath, RenderScalar, ParseResourceExpr;
    var sc := ScanExprs(EscapeOpens(s)).value;
    AssembleIsJoin(rc, sc, "");
    LastIsSibling(rc, sc, "");
    InterpolateIsJoin(rc, observed, sc, "", Assemble(rc, sc, "").value.1, v);
    if Whole(sc) { WholeResolves(rc, sc); }
  }

  lemma {:induction false} LastIsSibling(rc: Context, sc: Scan, src: string)
    requires |sc.texts| == |sc.exprs| + 1 && Assemble(rc, sc, src).Ok?
    ensures var last := Assemble(rc, sc, src).value.1; last == src || Classify(rc, last) == Sibling
    decreases |sc.exprs|
  {
    hide TrimSpace, Param, IsParams, RenderScalar;
    if sc.exprs != [] {
      var rest := Scan(sc.texts[1..], sc.exprs[1..]);
      match Classify(rc, TrimSpace(sc.exprs[0]))
      case Immediate(_) => LastIsSibling(rc, rest, src);
      case Sibling => LastIsSibling(rc, rest, TrimSpace(sc.exprs[0]));
      case Bad(_) =>
    }
  }

  lemma WholeResolves(rc: Context, sc: Scan)
    requires |sc.texts| == |sc.exprs| + 1 && Assemble(rc, sc, "").Ok? && Whole(sc)
    requires Assemble(rc, sc, "").value.1 != ""
    ensures Assemble(rc, sc, "").value.1 == TrimSpace(sc.exprs[0])
  {
    hide TrimSpace, Param, IsParams, RenderScalar, Classify;
    assert sc.exprs[1..] == [];
  }

  /** Direct evaluation unescapes every piece. */
  lemma {:induction false} UnescapeAround(us: seq<string>, r: string)
    requires us != [] && AllMarked(us, ESC_MARK) && NulFree(r)
    ensures Unescape(Join(us, r)) == Join(UnescapeAll(us), r)
  {
    if |us| > 1 {
      UnescapeAround(us[1..], r);
      Associative(us[0], r, Join(us[1..], r));
      ReplaceMarked(us[0], r + Join(us[1..], r), ESC_MARK, OPEN);
      ReplaceAfterText(r, Join(us[1..], r), ESC_MARK, OPEN);
      assert UnescapeAll(us)[1..] == UnescapeAll(us[1..]);
      Associative(Unescape(us[0]), r, Join(UnescapeAll(us[1..]), r));
    }
  }

  lemma {:induction false} JoinNulFree(ts: seq<string>, r: string)
    requires ts != [] && AllNulFree(ts) && NulFree(r)
    ensures NulFree(Join(ts, r))
  {
    if |ts| > 1 {
      JoinNulFree(ts[1..], r);
      NulFreeConcat(ts[0], r);
      NulFreeConcat(ts[0] + r, Join(ts[1..], r));
    }
  }

  /** Expanding the bare placeholder, like having no template, gives the value's text. */
  lemma ExpandBare(r: string)
    requires NulFree(r)
    ensures ExpandTemplate(PLACEHOLDER, r) == r
  {
    ExpandStep("", "", r);
    ExpandLast("", r);
    assert EscapePlaceholders("") + PLACEHOLDER + "" == PLACEHOLDER && "" + r + "" == r;
  }

  /** The text a linked reference renders to. */
  lemma LinkText(rc: Context, s: string, v: Json)
    requires RenderString(rc, s).Linked? && CleanJson(v)
    ensures RenderScalar(LinkValue(RenderString(rc, s).tpl, v))
         == ExpandTemplate(ToTemplate(Unescape(Join(StringPieces(rc, s), VALUE_MARK))), RenderScalar(v))
  {
    hide ExpandTemplate, ToTemplate, Unescape, RenderString, StringPieces;
    CompiledShape(rc, s);
    RenderScalarNulFree(v);
    ExpandBare(RenderScalar(v));
    assert forall t :: RenderScalar(Str(t)) == t;
  }

  lemma DirectText(rc: Context, s: string, v: Json)
    requires RenderString(rc, s).Linked? && NulFree(s) && CleanContext(rc) && CleanJson(v)
    ensures RenderScalar(DirectValue(rc, s, v)) == Join(UnescapeAll(StringPieces(rc, s)), RenderScalar(v))
    ensures NulFree(RenderScalar(DirectValue(rc, s, v)))
    ensures AllNulFree(UnescapeAll(StringPieces(rc, s)))
  {
    hide RenderString, Unescape;
    var us := StringPieces(rc, s);
    StringPiecesMarked(rc, s);
    RenderScalarNulFree(v);
    UnescapeAround(us, RenderScalar(v));
    UnescapeAllNulFree(us);
    JoinNulFree(UnescapeAll(us), RenderScalar(v));
    if IsWhole(s) { WholePieces(rc, s); }
  }

  /** A whole-string sibling expression has two empty pieces. */
  lemma WholePieces(rc: Context, s: string)
    requires RenderString(rc, s).Linked? && IsWhole(s)
    ensures StringPieces(rc, s) == ["", ""]
    ensures UnescapeAll(StringPieces(rc, s)) == ["", ""]
    ensures forall r :: Join(["", ""], r) == r
  {
    hide Unescape, ToTemplate, TrimSpace, Param, ParseResourceExpr, RenderScalar;
    var sc := ScanExprs(EscapeOpens(s)).value;
    AssembleIsJoin(rc, sc, "");
    CompiledShape(rc, s);
    var rest := Scan(sc.texts[1..], sc.exprs[1..]);
    assert rest.exprs == [] && rest.texts == [""];
    assert Pieces(rc, rest) == [""];
    UnescapeClean("");
    forall r: string ensures Join(["", ""], r) == r {
      assert ["", ""][1..] == [""];
      assert "" + r + "" == r;
    }
  }

  /**
   Compiling a string and expanding the template later renders to the same text
   as resolving it directly, for every value of the sibling's field, exactly when
   the string is faithful.
   */
  lemma EvaluatorsAgree(rc: Context, s: string)
    requires NulFree(s) && CleanContext(rc) && RenderString(rc, s).Linked?
    ensures Faithful(rc, s) <==>
            forall v :: CleanJson(v) ==>
              RenderScalar(LinkValue(RenderString(rc, s).tpl, v)) == RenderScalar(DirectValue(rc, s, v))
  {
    hide RenderString, LinkValue, DirectValue, RenderScalar, StringPieces, ExpandTemplate, ToTemplate, Unescape;
    var us := StringPieces(rc, s);
    var ts := UnescapeAll(us);
    StringPiecesMarked(rc, s);
    ExpansionExact(ts);
    if Collides(us) {
      var v := Str("x");
      LinkText(rc, s, v);
      DirectText(rc, s, v);
      RenderScalarNulFree(v);
      CollisionSurvives(us, RenderScalar(v));
    } else {
      forall v | CleanJson(v)
        ensures RenderScalar(LinkValue(RenderString(rc, s).tpl, v)) == Expansion(ts, RenderScalar(v))
        ensures RenderScalar(DirectValue(rc, s, v)) == Join(ts, RenderScalar(v))
      {
        LinkText(rc, s, v);
        DirectText(rc, s, v);
        RenderScalarNulFree(v);
        UnescapeJoined(us);
        TemplateOfPieces(ts);
        ExpandJoined(ts, RenderScalar(v));
      }
      StringRenders("x");
      assert CleanJson(Str("x"));
    }
  }

  /** The text of the value survives compiling and expanding: no hole is swallowed, or the value reads as what is left in them, and no piece collides. */
  predicate TextKept(rc: Context, s: string, text: string) {
    var us := StringPieces(rc, s);
    (NoDollarBeforeHole(UnescapeAll(us)) || text == SWALLOWED) && !Collides(us)
  }

  /** For one value of the field, both evaluators render to the same text if and only if its text is kept. */
  lemma TextsAgree(rc: Context, s: string, v: Json)
    requires NulFree(s) && CleanContext(rc) && RenderString(rc, s).Linked? && CleanJson(v)
    ensures RenderScalar(LinkValue(RenderString(rc, s).tpl, v)) == RenderScalar(DirectValue(rc, s, v)) <==> TextKept(rc, s, RenderScalar(v))
  {
    hide RenderString, LinkValue, DirectValue, RenderScalar, StringPieces, ExpandTemplate, ToTemplate, Unescape;
    var us := StringPieces(rc, s);
    var ts := UnescapeAll(us);
    StringPiecesMarked(rc, s);
    LinkText(rc, s, v);
    DirectText(rc, s, v);
    RenderScalarNulFree(v);
    if Collides(us) {
      CollisionSurvives(us, RenderScalar(v));
    } else {
      UnescapeJoined(us);
      TemplateOfPieces(ts);
      ExpandJoined(ts, RenderScalar(v));
      ExpansionExactAt(ts, RenderScalar(v));
    }
  }

  lemma StringRenders(t: string)
    ensures RenderScalar(Str(t)) == t
  {
  }

  /**
   The values themselves, not just their texts, are equal if and only if the text is kept
   and so is the type: the template is kept, the string is one whole expression, or the
   value is text.
   */
  lemma ValuesAgree(rc: Context, s: string, v: Json)
    requires NulFree(s) && CleanContext(rc) && RenderString(rc, s).Linked? && CleanJson(v)
    ensures LinkValue(RenderString(rc, s).tpl, v) == DirectValue(rc, s, v)
            <==> TextKept(rc, s, RenderScalar(v)) && (RenderString(rc, s).tpl != "" || IsWhole(s) || v.Str?)
  {
    hide RenderString, StringPieces, ExpandTemplate, ToTemplate, Unescape, TextKept;
    TextsAgree(rc, s, v);
    if IsWhole(s) { WholeHasNoTemplate(rc, s); }
  }

  lemma WholeHasNoTemplate(rc: Context, s: string)
    requires RenderString(rc, s).Linked? && IsWhole(s)
    ensures RenderString(rc, s).tpl == ""
  {
    hide RenderString, StringPieces;
    WholePieces(rc, s);
    BareHasNoTemplate(rc, s);
  }

  /** With nothing around the one placeholder no template is kept. */
  lemma BareHasNoTemplate(rc: Context, s: string)
    requires RenderString(rc, s).Linked? && StringPieces(rc, s) == ["", ""]
    ensures RenderString(rc, s).tpl == ""
  {
    hide RenderString, StringPieces, ToTemplate, Unescape;
    CompiledShape(rc, s);
    var us := StringPieces(rc, s);
    NulFreeIsMarked("", ESC_MARK);
    UnescapeClean("");
    assert us[1..] == [""];
    UnescapeJoined(us);
    TemplateOfPieces(["", ""]);
    assert EscapeAll(["", ""]) == ["", ""] by {
      assert ["", ""][1..] == [""] && [""][1..] == [];
      assert EscapeAll([""]) == [""];
    }
  }

  /** A string without sibling expressions compiles to the value that resolving it directly gives. */
  lemma LiteralsAgree(rc: Context, observed: map<string, Source>, s: string)
    requires NulFree(s) && CleanContext(rc) && RenderString(rc, s).Literal?
    ensures RenderOutputString(rc, observed, s) == Ready(RenderString(rc, s).v)
  {
    hide Unescape, ToTemplate, TrimSpace, Param, IsParams, Pieces, ParseResourceExpr, RenderScalar;
    var sc := ScanExprs(EscapeOpens(s)).value;
    if sc.exprs != [] && !IsWholeParam(sc) {
      AssembleIsJoin(rc, sc, "");
      InterpolateIsJoin(rc, observed, sc, "", "", Null);
      StringPiecesMarked(rc, s);
      var u := Pieces(rc, sc)[0];
      PlainAfterUnescape(u);
      if Whole(sc) { WholeSelf(rc, observed, sc); }
    }
  }

  /** A whole string that is no parameter and no sibling is the composite's name or namespace. */
  lemma WholeSelf(rc: Context, observed: map<string, Source>, sc: Scan)
    requires CleanContext(rc) && |sc.texts| == |sc.exprs| + 1 && Whole(sc) && !IsWholeParam(sc)
    requires Assemble(rc, sc, "").Ok? && Assemble(rc, sc, "").value.1 == ""
    ensures ResolveOutputExpr(rc, observed, TrimSpace(sc.exprs[0])) == Ready(Str(Unescape(Pieces(rc, sc)[0])))
  {
    hide Param, TrimSpace, Unescape;
    var expr := TrimSpace(sc.exprs[0]);
    var rest := Scan(sc.texts[1..], sc.exprs[1..]);
    assert rest.exprs == [] && rest.texts == [""];
    assert Assemble(rc, rest, expr) == Ok(("", expr));
    var name := if expr == "self.name" then rc.name else rc.namespace;
    assert Classify(rc, expr) == Immediate(Str(name));
    assert Pieces(rc, rest) == [""];
    assert "" + name + "" == name;
    UnescapeClean(name);
  }

  lemma PlainAfterUnescape(u: string)
    requires Marked(u, ESC_MARK)
    ensures ReplaceAll(Unescape(u), VALUE_MARK, PLACEHOLDER) == Unescape(u)
  {
    UnmarkNulFree(u, ESC_MARK, OPEN);
    ReplaceNoMarker(Unescape(u), VALUE_MARK, PLACEHOLDER);
  }

  lemma UnescapeClean(t: string)
    requires NulFree(t)
    ensures Unescape(t) == t
  {
    ReplaceNoMarker(t, ESC_MARK, OPEN);
  }

  // ------------------------------------------------------------ escaping a text

  /** Writing "$${" for every "${". */
  function EscapeText(t: string): string {
    ReplaceAll(t, OPEN, ESCAPED_OPEN)
  }

  lemma {:induction false} ReplaceShrinks(x: string, p: string)
    requires p != ""
    ensures |ReplaceAll(x, p, "")| <= |x|
    ensures IndexOf(x, p) >= 0 ==> |ReplaceAll(x, p, "")| < |x|
    decreases |x|
  {
    if x != "" {
      if p <= x { ReplaceShrinks(x[|p|..], p); } else { ReplaceShrinks(x[1..], p); }
    }
  }

  /** A text whose every "${" is escaped renders to itself, compiled or directly, for every text. */
  lemma EscapedTextRendersToItself(rc: Context, observed: map<string, Source>, t: string)
    requires NulFree(t)
    ensures RenderString(rc, EscapeText(t)) == Literal(Str(t))
    ensures RenderOutputString(rc, observed, EscapeText(t)) == Ready(Str(t))
  {
    hide ResolveOutputExpr, RenderScan;
    assert "$" + OPEN == ESCAPED_OPEN;
    var e := ReplaceAll(t, OPEN, ESC_MARK);
    MarkEscaped(t, "", OPEN, ESC_MARK);
    assert EscapeText(t) + "" == EscapeText(t) && e + "" == e;
    assert EscapeOpens(EscapeText(t)) == e;
    MarkedHasNone(t, "", OPEN, ESC_MARK, "");
    ReplaceShrinks(e, OPEN);
    assert e[0..] == e;
    assert ScanExprs(e) == Some(Scan([e], []));
    UnmarkRestores(t, "", OPEN, ESC_MARK);
    assert t + "" == t;
    assert Interpolate(rc, observed, Scan([e], [])) == Ready(e);
  }
}
