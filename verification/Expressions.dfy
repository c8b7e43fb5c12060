/**
 What one expression stands for, on the string as the author writes it: the composite's
 name and namespace, a parameter, a field of a sibling, or an error; the same in both
 evaluators.
 */
module Expressions {
  import opened Strings
  import opened Json
  import opened Markers
  import opened Templates
  import opened Outputs
  import opened Agreement
  import Paths
  import Trees

  // ---------------------------------------------------------------- scanning

  /** One step of the scan. */
  lemma ScanStep(e: string, from: nat, m: (nat, nat))
    requires from <= |e| && NextMatch(e, from) == Some(m)
    ensures ScanFrom(e, from) == ScanCons(e[from..m.0], e[m.0 + 2..m.1 - 1], ScanFrom(e, m.1))
  {
    hide NextMatch, IndexOf, ScanCons;
  }

  lemma ScanStops(e: string, from: nat)
    requires from <= |e| && NextMatch(e, from).None?
    ensures ScanFrom(e, from) == if IndexOf(e[from..], OPEN) < 0 then Some(Scan([e[from..]], [])) else None
  {
    hide NextMatch, IndexOf;
  }

  /** Scanning from a position is scanning what follows it. */
  lemma {:induction false} ScanShift(e: string, from: nat)
    requires from <= |e|
    ensures ScanFrom(e, from) == ScanExprs(e[from..])
    decreases |e| - from
  {
    hide NextMatch, IndexOf, ScanFrom, ScanCons;
    var f := e[from..];
    NextShift(e, from);
    assert f[0..] == f;
    match NextMatch(f, 0)
    case None =>
      ScanStops(e, from);
      ScanStops(f, 0);
    case Some(m) =>
      ScanStep(e, from, (from + m.0, from + m.1));
      ScanStep(f, 0, m);
      ScanShift(e, from + m.1);
      ScanShift(f, m.1);
      assert e[from + m.1..] == f[m.1..];
      assert e[from..from + m.0] == f[0..m.0] && e[from + m.0 + 2..from + m.1 - 1] == f[m.0 + 2..m.1 - 1];
  }

  lemma NextShift(e: string, from: nat)
    requires from <= |e|
    ensures var m := NextMatch(e[from..], 0);
            NextMatch(e, from) == if m.None? then None else Some((from + m.value.0, from + m.value.1))
  {
    hide IndexOf;
    var f := e[from..];
    assert f[0..] == f;
    var p := IndexOf(f, OPEN);
    if p >= 0 { assert f[p + 2..] == e[from + p + 2..]; }
  }

  /** A text without "$", then an expression, then the rest. */
  function Expr(x: string): string {
    OPEN + x + "}"
  }

  lemma NextIsExpr(text: string, x: string, rest: string)
    requires '$' !in text && '}' !in x
    ensures NextMatch(text + Expr(x) + rest, 0) == Some((|text|, |text| + |x| + 3))
  {
    var e := text + Expr(x) + rest;
    var tail := x + "}" + rest;
    assert e[0..] == e && e[|text| + 2..] == tail;
    assert OPEN <= e[|text|..];
    forall j | 0 <= j < |text| ensures !(OPEN <= e[j..]) {
      assert e[j..][0] == text[j];
    }
    Paths.IndexOfUnique(e, OPEN, |text|);
    assert "}" <= tail[|x|..];
    forall j | 0 <= j < |x| ensures !("}" <= tail[j..]) {
      assert tail[j..][0] == x[j];
    }
    Paths.IndexOfUnique(tail, "}", |x|);
  }

  lemma ScanLeads(text: string, x: string, rest: string)
    requires '$' !in text && '}' !in x
    ensures ScanExprs(text + Expr(x) + rest) == ScanCons(text, x, ScanExprs(rest))
  {
    hide NextMatch;
    var e := text + Expr(x) + rest;
    NextIsExpr(text, x, rest);
    var m := NextMatch(e, 0).value;
    assert e[0..m.0] == text && e[m.0 + 2..m.1 - 1] == x && e[m.1..] == rest;
    ScanShift(e, m.1);
  }

  lemma ScanEnds()
    ensures ScanExprs("") == Some(Scan([""], []))
  {
  }

  /** Escaping passes over an expression without "$". */
  lemma EscapeLeads(text: string, x: string, rest: string)
    requires '$' !in text && '$' !in x
    ensures EscapeOpens(text + Expr(x) + rest) == text + Expr(x) + EscapeOpens(rest)
  {
    var tail := ['{'] + x + ['}'];
    var e := EscapeOpens(rest);
    assert text + Expr(x) + rest == text + (['$'] + (tail + rest));
    assert text + Expr(x) + e == text + (['$'] + (tail + e));
    ReplaceAfterText(text, ['$'] + (tail + rest), ESCAPED_OPEN, ESC_MARK);
    assert (tail + rest)[0] == '{';
    PrefixOfCons(ESCAPED_OPEN, '$', tail + rest);
    ReplaceMiss('$', tail + rest, ESCAPED_OPEN, ESC_MARK);
    ReplaceAfterText(tail, rest, ESCAPED_OPEN, ESC_MARK);
  }

  /** Two expressions with a text between them. */
  function Pair(a: string, mid: string, b: string): string {
    Expr(a) + (mid + Expr(b))
  }

  /** Characters that mean something to the scanner are in none of the parts. */
  predicate Parts(a: string, mid: string, b: string) {
    forall c :: c in {'$', '}'} ==> c !in a && c !in mid && c !in b
  }

  lemma ScanPair(a: string, mid: string, b: string)
    requires Parts(a, mid, b)
    ensures EscapeOpens(Pair(a, mid, b)) == Pair(a, mid, b)
    ensures ScanExprs(Pair(a, mid, b)) == Some(Scan(["", mid, ""], [a, b]))
  {
    hide ScanExprs, EscapeOpens;
    var rest := mid + Expr(b);
    assert "" + Expr(a) + rest == Pair(a, mid, b) && mid + Expr(b) + "" == rest;
    EscapeLeads("", a, rest);
    EscapeLeads(mid, b, "");
    EscapeNothing();
    ScanLeads("", a, rest);
    ScanLeads(mid, b, "");
    ScanEnds();
    assert [mid] + [""] == [mid, ""] && [b] + [] == [b];
    assert [""] + [mid, ""] == ["", mid, ""] && [a] + [b] == [a, b];
  }

  lemma EscapeNothing()
    ensures EscapeOpens("") == ""
  {
  }

  // ---------------------------------------------------------------- expressions

  /** Letters and digits: a key, a resource or an output name that needs no quoting. */
  predicate Plain(s: string) {
    s != "" && forall i :: 0 <= i < |s| ==> 'a' <= s[i] <= 'z' || 'A' <= s[i] <= 'Z' || '0' <= s[i] <= '9'
  }

  lemma Trimmed(s: string)
    requires s != "" && !IsSpace(s[0]) && !IsSpace(s[|s| - 1])
    ensures TrimSpace(s) == s
  {
  }

  lemma PlainNotSpace(s: string, i: nat)
    requires Plain(s) && i < |s|
    ensures !IsSpace(s[i]) && !Paths.Meta(s[i]) && s[i] !in {'$', '}', '.'}
  {
  }

  function ParamExpr(key: string): string {
    "params." + key
  }

  /** A parameter renders where it stands. */
  lemma ParamIsImmediate(rc: Context, key: string)
    requires Plain(key) && key in rc.params
    ensures var x := ParamExpr(key);
            TrimSpace(x) == x && Classify(rc, x) == Immediate(rc.params[key]) && '$' !in x && '}' !in x
  {
    hide Paths.ParsePath, TrimSpace;
    var x := ParamExpr(key);
    PlainNotSpace(key, |key| - 1);
    assert x[|x| - 1] == key[|key| - 1] && x[0] == 'p';
    Trimmed(x);
    forall i | 0 <= i < |key| ensures key[i] !in {'$', '}'} { PlainNotSpace(key, i); }
    assert '$' !in "params." && '}' !in "params.";
    assert '$' !in key && '}' !in key;
    ParamsPath(key);
    ParamFound(rc, key);
  }

  lemma ParamsPath(key: string)
    requires Plain(key)
    ensures Paths.ParsePath(ParamExpr(key)) == Some([Paths.Key("params"), Paths.Key(key)])
  {
    hide Paths.ParsePath;
    forall i | 0 <= i < |key| ensures !Paths.Meta(key[i]) { PlainNotSpace(key, i); }
    assert Paths.PlainKey("params") && Paths.PlainKey(key);
    Paths.AppendKeyRoundTrip("", "params");
    assert [] + [Paths.Key("params")] == [Paths.Key("params")];
    Paths.AppendKeyRoundTrip("params", key);
    assert "params" + "." + key == ParamExpr(key);
    assert [Paths.Key("params")] + [Paths.Key(key)] == [Paths.Key("params"), Paths.Key(key)];
  }

  lemma ParamFound(rc: Context, key: string)
    requires Paths.ParsePath(ParamExpr(key)) == Some([Paths.Key("params"), Paths.Key(key)]) && key in rc.params
    ensures Param(rc, ParamExpr(key)) == Some(rc.params[key])
  {
    hide Paths.ParsePath;
    var segs := [Paths.Key("params"), Paths.Key(key)];
    assert segs[1..] == [Paths.Key(key)] && segs[1..][1..] == [];
    var inner := Obj(rc.params);
    var root := Obj(map["params" := inner]);
    assert Trees.Child(root, segs[0]) == Some(inner) && Trees.Child(inner, segs[1..][0]) == Some(rc.params[key]);
    assert Trees.GetAt(rc.params[key], segs[1..][1..]) == Some(rc.params[key]);
    assert Trees.GetAt(inner, segs[1..]) == Some(rc.params[key]);
    assert Trees.GetAt(root, segs) == Some(rc.params[key]);
  }

  function SiblingExpr(source: string, output: string): string {
    "resources." + (source + (".outputs." + output))
  }

  /** An output of a sibling is read by a reference. */
  lemma OutputIsSibling(rc: Context, source: string, output: string)
    requires Plain(source) && Plain(output) && source in rc.childName
    ensures var x := SiblingExpr(source, output);
            TrimSpace(x) == x && Classify(rc, x) == Sibling && '$' !in x && '}' !in x && x != "" &&
            ParseResourceExpr(rc, x) == Ok((source, "status.outputs." + output))
  {
    hide TrimSpace, ParseResourceExpr, Classify, Plain;
    var f := OutputField(output);
    assert "." + ("outputs." + output) == ".outputs." + output;
    assert FieldExpr(source, f) == SiblingExpr(source, output);
    FieldCharacters(source, f);
    FieldParsed(rc, source, f);
    assert "status." + ("outputs." + output) == "status.outputs." + output;
  }

  lemma ReadsSibling(rc: Context, x: string, rest: string)
    requires x == "resources." + rest
    ensures Classify(rc, x) == Sibling && "resources." <= x && x[|"resources."|..] == rest
  {
    hide Param;
    assert x[0] == 'r';
    assert "resources." <= x;
  }

  lemma ParsedAt(rc: Context, source: string, tail: string, x: string)
    requires x == "resources." + (source + tail) && x[|"resources."|..] == source + tail && "resources." <= x
    requires tail != "" && IndexOf(source + tail, ".") == |source|
    requires tail[1..] == "id" || "outputs." <= tail[1..]
    ensures ParseResourceExpr(rc, x) == if source in rc.childName then Ok((source, "status." + tail[1..])) else Err(UnknownResource)
  {
    hide IndexOf;
    var rest := source + tail;
    assert rest[..|source|] == source && rest[|source| + 1..] == tail[1..];
    assert "status." + "id" == "status.id";
  }

  lemma DotAfterSource(source: string, tail: string)
    requires Plain(source) && tail != "" && tail[0] == '.'
    ensures IndexOf(source + tail, ".") == |source|
  {
    hide IndexOf;
    var rest := source + tail;
    assert "." <= rest[|source|..];
    forall j | 0 <= j < |source| ensures !("." <= rest[j..]) {
      PlainNotSpace(source, j);
      assert rest[j..][0] == source[j];
    }
    Paths.IndexOfUnique(rest, ".", |source|);
  }

  // ---------------------------------------------------------------- one expression

  /** What begins with a character that is not there is not there. */
  lemma {:induction false} IndexAbsent(s: string, pat: string)
    requires pat != "" && pat[0] !in s
    ensures IndexOf(s, pat) < 0
  {
    if s != "" { IndexAbsent(s[1..], pat); }
  }

  lemma NoMatch(b: string)
    requires '$' !in b
    ensures ScanExprs(b) == Some(Scan([b], [])) && EscapeOpens(b) == b
  {
    IndexAbsent(b, OPEN);
    assert b[0..] == b;
    ReplaceAfterText(b, "", ESCAPED_OPEN, ESC_MARK);
    assert b + "" == b;
  }

  /** A text, an expression, and a text. */
  function Around(a: string, raw: string, b: string): string {
    a + Expr(raw) + b
  }

  lemma ScanAround(a: string, raw: string, b: string)
    requires '$' !in a && '$' !in raw && '}' !in raw && '$' !in b
    ensures EscapeOpens(Around(a, raw, b)) == Around(a, raw, b)
    ensures ScanExprs(Around(a, raw, b)) == Some(Scan([a, b], [raw]))
  {
    hide ScanExprs, EscapeOpens;
    EscapeLeads(a, raw, b);
    ScanLeads(a, raw, b);
    NoMatch(b);
    assert [a] + [b] == [a, b] && [raw] + [] == [raw];
  }

  /** Blanks around an expression do not matter. */
  ghost predicate Blank(s: string) {
    forall i :: 0 <= i < |s| ==> IsSpace(s[i])
  }

  lemma {:induction false} TrimLeftBlank(l: string, x: string)
    requires Blank(l) && x != "" && !IsSpace(x[0])
    ensures TrimLeft(l + x) == x
  {
    if l == "" {
      assert l + x == x;
    } else {
      assert (l + x)[0] == l[0] && (l + x)[1..] == l[1..] + x;
      TrimLeftBlank(l[1..], x);
    }
  }

  lemma {:induction false} TrimRightBlank(x: string, r: string)
    requires Blank(r) && x != "" && !IsSpace(x[|x| - 1])
    ensures TrimRight(x + r) == x
    decreases |r|
  {
    if r == "" {
      assert x + r == x;
    } else {
      assert (x + r)[|x + r| - 1] == r[|r| - 1] && (x + r)[..|x + r| - 1] == x + r[..|r| - 1];
      TrimRightBlank(x, r[..|r| - 1]);
    }
  }

  /** An expression with blanks around it. */
  function Padded(l: string, x: string, r: string): string {
    l + (x + r)
  }

  lemma TrimPadded(l: string, x: string, r: string)
    requires Blank(l) && Blank(r) && x != "" && !IsSpace(x[0]) && !IsSpace(x[|x| - 1])
    ensures TrimSpace(Padded(l, x, r)) == x
    ensures '$' !in x && '}' !in x ==> '$' !in Padded(l, x, r) && '}' !in Padded(l, x, r)
  {
    assert (x + r)[0] == x[0];
    TrimLeftBlank(l, x + r);
    TrimRightBlank(x, r);
  }

  /** The texts around an expression: NUL-free, and without the "$" that would begin another one. */
  ghost predicate Texts(a: string, b: string) {
    NulFree(a) && NulFree(b) && '$' !in a && '$' !in b
  }

  /** The text around a value, or the value itself if there is none. */
  function Embedded(a: string, v: Json, b: string): Json {
    if a == "" && b == "" then v else Str(a + RenderScalar(v) + b)
  }

  /** An expression that has its value already is replaced by it. */
  lemma ImmediateAround(rc: Context, observed: map<string, Source>, a: string, raw: string, b: string, v: Json)
    requires Texts(a, b) && '$' !in raw && '}' !in raw && CleanJson(v)
    requires Classify(rc, TrimSpace(raw)) == Immediate(v) && (!IsParams(TrimSpace(raw)) ==> v.Str?)
    ensures RenderString(rc, Around(a, raw, b)) == Literal(Embedded(a, v, b))
    ensures RenderOutputString(rc, observed, Around(a, raw, b)) == Ready(Embedded(a, v, b))
  {
    hide TrimSpace, ScanExprs, EscapeOpens, RenderScalar, Unescape;
    ScanAround(a, raw, b);
    var sc, rest := Scan([a, b], [raw]), Scan([b], []);
    assert sc.texts[1..] == rest.texts && sc.exprs[1..] == rest.exprs;
    var text := RenderScalar(v);
    RenderScalarNulFree(v);
    assert a + text + b == a + (text + b) && NulFree(a + text + b);
    assert Assemble(rc, rest, "") == Ok((b, ""));
    assert Assemble(rc, sc, "") == Ok((a + text + b, ""));
    assert Interpolate(rc, observed, rest) == Ready(b);
    assert Interpolate(rc, observed, sc) == Ready(a + text + b);
    UnescapeClean(a + text + b);
    ReplaceNoMarker(a + text + b, VALUE_MARK, PLACEHOLDER);
    if v.Str? {
      StringRenders(v.s);
      assert "" + text + "" == text;
    }
    assert Whole(sc) <==> a == "" && b == "";
  }

  /** `${self.name}` is the name of the composite. */
  lemma NameRenders(rc: Context, observed: map<string, Source>, a: string, l: string, r: string, b: string)
    requires Texts(a, b) && Blank(l) && Blank(r) && CleanContext(rc)
    ensures var s := a + "${" + Padded(l, "self.name", r) + "}" + b;
            RenderString(rc, s) == Literal(Str(a + rc.name + b)) && RenderOutputString(rc, observed, s) == Ready(Str(a + rc.name + b))
  {
    SelfRenders(rc, observed, a, l, "self.name", r, b, rc.name);
  }

  /** `${self.namespace}` is its namespace. */
  lemma NamespaceRenders(rc: Context, observed: map<string, Source>, a: string, l: string, r: string, b: string)
    requires Texts(a, b) && Blank(l) && Blank(r) && CleanContext(rc)
    ensures var s := a + "${" + Padded(l, "self.namespace", r) + "}" + b;
            RenderString(rc, s) == Literal(Str(a + rc.namespace + b)) && RenderOutputString(rc, observed, s) == Ready(Str(a + rc.namespace + b))
  {
    SelfRenders(rc, observed, a, l, "self.namespace", r, b, rc.namespace);
  }

  lemma SelfRenders(rc: Context, observed: map<string, Source>, a: string, l: string, x: string, r: string, b: string, text: string)
    requires Texts(a, b) && Blank(l) && Blank(r) && NulFree(text)
    requires (x == "self.name" && text == rc.name) || (x == "self.namespace" && text == rc.namespace)
    ensures var s := a + "${" + Padded(l, x, r) + "}" + b;
            RenderString(rc, s) == Literal(Str(a + text + b)) && RenderOutputString(rc, observed, s) == Ready(Str(a + text + b))
  {
    hide TrimSpace, RenderString, RenderOutputString, Param;
    TrimPadded(l, x, r);
    var raw := Padded(l, x, r);
    assert x[0] == 's' && "params."[0] == 'p';
    assert Classify(rc, x) == Immediate(Str(text));
    ImmediateAround(rc, observed, a, raw, b, Str(text));
    assert a + "${" + raw + "}" + b == Around(a, raw, b);
    StringRenders(text);
    assert "" + text + "" == text;
  }

  /** `${params.key}` is the parameter: itself when it is the whole string, its text otherwise. */
  lemma ParamRenders(rc: Context, observed: map<string, Source>, a: string, l: string, key: string, r: string, b: string)
    requires Texts(a, b) && Blank(l) && Blank(r) && CleanContext(rc) && Plain(key) && key in rc.params
    ensures var s := a + "${" + Padded(l, "params." + key, r) + "}" + b;
            RenderString(rc, s) == Literal(Embedded(a, rc.params[key], b)) &&
            RenderOutputString(rc, observed, s) == Ready(Embedded(a, rc.params[key], b))
  {
    hide TrimSpace, RenderString, RenderOutputString, Param, Classify;
    var x := ParamExpr(key);
    ParamIsImmediate(rc, key);
    PlainNotSpace(key, |key| - 1);
    assert x[0] == 'p' && x[|x| - 1] == key[|key| - 1];
    TrimPadded(l, x, r);
    var raw := Padded(l, x, r);
    assert IsParams(x);
    ImmediateAround(rc, observed, a, raw, b, rc.params[key]);
    assert a + "${" + raw + "}" + b == Around(a, raw, b);
  }

  /** How scalars read inside a text. */
  lemma ScalarsRead(a: string, b: string, t: string)
    requires a + b != ""
    ensures Embedded(a, Null, b) == Str(a + b)
    ensures Embedded(a, Bool(true), b) == Str(a + "true" + b) && Embedded(a, Bool(false), b) == Str(a + "false" + b)
    ensures Embedded(a, Num(t), b) == Str(a + t + b) && Embedded(a, Str(t), b) == Str(a + t + b)
  {
    assert a + "" + b == a + b;
  }

  // ---------------------------------------------------------------- errors

  /** An expression that stands for nothing fails in both evaluators. */
  lemma BadAround(rc: Context, observed: map<string, Source>, a: string, raw: string, b: string, e: Error)
    requires '$' !in a && '$' !in raw && '}' !in raw && '$' !in b
    requires Classify(rc, TrimSpace(raw)) == Bad(e)
    ensures RenderString(rc, Around(a, raw, b)) == Failed(e) && RenderOutputString(rc, observed, Around(a, raw, b)) == Wrong(e)
  {
    hide TrimSpace, ScanExprs, EscapeOpens;
    ScanAround(a, raw, b);
    assert Assemble(rc, Scan([a, b], [raw]), "") == Err(e);
    assert Interpolate(rc, observed, Scan([a, b], [raw])) == Wrong(e);
  }

  /** A parameter that is not given is an error. */
  lemma MissingParam(rc: Context, observed: map<string, Source>, a: string, key: string, b: string)
    requires '$' !in a && '$' !in b && Plain(key) && key !in rc.params
    ensures var s := a + "${params." + key + "}" + b;
            RenderString(rc, s) == Failed(ParamNotFound) && RenderOutputString(rc, observed, s) == Wrong(ParamNotFound)
  {
    hide TrimSpace, RenderString, RenderOutputString, Paths.ParsePath;
    var x := ParamExpr(key);
    PlainNotSpace(key, |key| - 1);
    assert x[0] == 'p' && x[|x| - 1] == key[|key| - 1];
    Trimmed(x);
    ParamsPath(key);
    ParamMissing(rc, key);
    ParamCharacters(key);
    assert IsParams(x);
    BadAround(rc, observed, a, x, b, ParamNotFound);
    assert a + "${params." + key + "}" + b == Around(a, x, b);
  }

  lemma ParamCharacters(key: string)
    requires Plain(key)
    ensures '$' !in ParamExpr(key) && '}' !in ParamExpr(key)
  {
    forall i | 0 <= i < |key| ensures key[i] !in {'$', '}'} { PlainNotSpace(key, i); }
    assert '$' !in "params." && '}' !in "params.";
    assert '$' !in key && '}' !in key;
  }

  lemma ParamMissing(rc: Context, key: string)
    requires Paths.ParsePath(ParamExpr(key)) == Some([Paths.Key("params"), Paths.Key(key)]) && key !in rc.params
    ensures Param(rc, ParamExpr(key)) == None
  {
    hide Paths.ParsePath;
    var segs := [Paths.Key("params"), Paths.Key(key)];
    assert segs[1..] == [Paths.Key(key)];
    var inner := Obj(rc.params);
    var root := Obj(map["params" := inner]);
    assert Trees.Child(root, segs[0]) == Some(inner) && Trees.Child(inner, segs[1..][0]) == None;
    assert Trees.GetAt(inner, segs[1..]) == None;
  }

  /** A word that is none of these is an error. */
  lemma UnknownWord(rc: Context, observed: map<string, Source>, a: string, word: string, b: string)
    requires '$' !in a && '$' !in b && Plain(word) && word != "params"
    ensures var s := a + "${" + word + "}" + b;
            RenderString(rc, s) == Failed(Unsupported) && RenderOutputString(rc, observed, s) == Wrong(Unsupported)
  {
    hide TrimSpace, RenderString, RenderOutputString;
    PlainNotSpace(word, 0);
    PlainNotSpace(word, |word| - 1);
    Trimmed(word);
    forall i | 0 <= i < |word| ensures word[i] !in {'$', '}', '.'} { PlainNotSpace(word, i); }
    assert "params."[6] == '.' && "resources."[9] == '.' && "self.name"[4] == '.' && "self.namespace"[4] == '.';
    assert Classify(rc, word) == Bad(Unsupported);
    BadAround(rc, observed, a, word, b, Unsupported);
    assert a + "${" + word + "}" + b == Around(a, word, b);
  }

  /** An expression that is never closed is an error. */
  lemma NeverClosed(rc: Context, observed: map<string, Source>, a: string, rest: string)
    requires '$' !in a && '$' !in rest && '}' !in rest
    ensures var s := a + "${" + rest; RenderString(rc, s) == Failed(Unterminated) && RenderOutputString(rc, observed, s) == Wrong(Unterminated)
  {
    hide EscapeOpens, IndexOf;
    var s := a + "${" + rest;
    EscapeOpening(a, rest);
    assert s[0..] == s && OPEN <= s[|a|..] && s[|a| + 2..] == rest;
    forall j | 0 <= j < |a| ensures !(OPEN <= s[j..]) {
      assert s[j..][0] == a[j];
    }
    Paths.IndexOfUnique(s, OPEN, |a|);
    IndexAbsent(rest, "}");
    assert NextMatch(s, 0) == None;
    assert ScanExprs(s) == None;
  }

  lemma EscapeOpening(a: string, rest: string)
    requires '$' !in a && '$' !in rest
    ensures EscapeOpens(a + "${" + rest) == a + "${" + rest
  {
    var tail := ['{'] + rest;
    assert a + "${" + rest == a + (['$'] + tail);
    ReplaceAfterText(a, ['$'] + tail, ESCAPED_OPEN, ESC_MARK);
    assert tail[0] == '{' && ESCAPED_OPEN[1..][0] == '$';
    PrefixOfCons(ESCAPED_OPEN, '$', tail);
    ReplaceMiss('$', tail, ESCAPED_OPEN, ESC_MARK);
    ReplaceAfterText(tail, "", ESCAPED_OPEN, ESC_MARK);
    assert tail + "" == tail;
  }

  // ---------------------------------------------------------------- fields of siblings

  /** The field of a sibling: its id, or an output. */
  datatype FieldName = IdField | OutputField(key: string)

  function FieldText(f: FieldName): string {
    match f
    case IdField => "id"
    case OutputField(key) => "outputs." + key
  }

  /** What a sibling holds there, if it is there yet. */
  function FieldValue(src: Source, f: FieldName): Option<Json> {
    match f
    case IdField => if src.id == "" then None else Some(Str(src.id))
    case OutputField(key) => if src.outputs.Some? && key in src.outputs.value then Some(src.outputs.value[key]) else None
  }

  ghost predicate GoodField(f: FieldName) {
    f.OutputField? ==> Plain(f.key)
  }

  function FieldExpr(source: string, f: FieldName): string {
    "resources." + (source + ("." + FieldText(f)))
  }

  lemma FieldCharacters(source: string, f: FieldName)
    requires Plain(source) && GoodField(f)
    ensures var x := FieldExpr(source, f); TrimSpace(x) == x && '$' !in x && '}' !in x && x != ""
  {
    hide TrimSpace;
    var x, t := FieldExpr(source, f), FieldText(f);
    forall i | 0 <= i < |source| ensures source[i] !in {'$', '}'} { PlainNotSpace(source, i); }
    if f.OutputField? {
      forall i | 0 <= i < |f.key| ensures f.key[i] !in {'$', '}'} { PlainNotSpace(f.key, i); }
      PlainNotSpace(f.key, |f.key| - 1);
      assert t[|t| - 1] == f.key[|f.key| - 1];
      assert '$' !in f.key && '}' !in f.key && '$' !in "outputs." && '}' !in "outputs.";
    } else {
      assert t == "id" && t[1] == 'd';
    }
    assert '$' !in source && '}' !in source && '$' !in t && '}' !in t;
    assert '$' !in "resources." && '}' !in "resources.";
    assert x[0] == 'r' && x[|x| - 1] == t[|t| - 1];
    Trimmed(x);
  }

  lemma FieldParsed(rc: Context, source: string, f: FieldName)
    requires Plain(source) && GoodField(f)
    ensures Classify(rc, FieldExpr(source, f)) == Sibling
    ensures ParseResourceExpr(rc, FieldExpr(source, f)) ==
            if source in rc.childName then Ok((source, "status." + FieldText(f))) else Err(UnknownResource)
  {
    hide Param, IndexOf, Plain;
    var tail := "." + FieldText(f);
    ReadsSibling(rc, FieldExpr(source, f), source + tail);
    DotAfterSource(source, tail);
    assert tail[1..] == FieldText(f);
    assert f.OutputField? ==> "outputs." <= FieldText(f);
    ParsedAt(rc, source, tail, FieldExpr(source, f));
  }

  lemma PlainPath(root: Json, key: string)
    requires Plain(key)
    ensures Trees.GetPath(root, key) == Trees.Child(root, Paths.Key(key))
  {
    hide Paths.ParsePath, Trees.Child;
    forall i | 0 <= i < |key| ensures !Paths.Meta(key[i]) { PlainNotSpace(key, i); }
    Paths.AppendKeyRoundTrip("", key);
    var segs := [Paths.Key(key)];
    assert [] + segs == segs && segs[1..] == [];
    assert Paths.ParsePath(key) == Some(segs);
    match Trees.Child(root, segs[0])
    case None =>
    case Some(c) => assert Trees.GetAt(c, segs[1..]) == Some(c);
  }

  /** What the status field path of a compiled reference reads. */
  lemma FieldRead(src: Source, f: FieldName)
    requires GoodField(f)
    ensures ResolveFieldPath(src, "status." + FieldText(f)) == match FieldValue(src, f) case None => Pending case Some(v) => Present(v)
  {
    hide Trees.GetPath;
    if f.OutputField? {
      var path, prefix := "status." + FieldText(f), "status.outputs.";
      assert path == prefix + f.key && prefix <= path && path[|prefix|..] == f.key;
      assert path[7] == 'o' && path != "status.id" && |path| > |"status.outputs"|;
      if src.outputs.Some? { PlainPath(Obj(src.outputs.value), f.key); }
    } else {
      assert "status." + FieldText(f) == "status.id";
    }
  }

  /**
   A field of a sibling: compiled, the child's object is referenced, at the status field of
   that name, with the surrounding text as its template; directly, the evaluator waits until
   the field is there and then puts it into the text.
   */
  lemma FieldRenders(rc: Context, observed: map<string, Source>, a: string, source: string, f: FieldName, b: string)
    requires Texts(a, b) && Plain(source) && GoodField(f) && source in rc.childName
    requires forall src :: src in observed ==> observed[src].outputs.Some? ==> CleanJson(Obj(observed[src].outputs.value))
    requires forall src :: src in observed ==> NulFree(observed[src].id)
    ensures var s := a + "${resources." + source + "." + FieldText(f) + "}" + b;
            && RenderString(rc, s) == Linked(source, "status." + FieldText(f), if a == "" && b == "" then "" else a + "${value}" + b)
            && RenderOutputString(rc, observed, s) ==
               (if source !in observed || FieldValue(observed[source], f).None? then Wait
                else Ready(Embedded(a, FieldValue(observed[source], f).value, b)))
  {
    hide TrimSpace, ScanExprs, EscapeOpens, RenderScalar, Unescape, ToTemplate, ResolveFieldPath, Param, IsParams, ParseResourceExpr, FieldExpr, Plain, FieldText;
    var x := FieldExpr(source, f);
    FieldSpelled(a, source, f, b);
    FieldCharacters(source, f);
    FieldParsed(rc, source, f);
    if source in observed { FieldRead(observed[source], f); }
    ScanAround(a, x, b);
    var sc, rest := Scan([a, b], [x]), Scan([b], []);
    assert sc.texts[1..] == rest.texts && sc.exprs[1..] == rest.exprs;
    assert Assemble(rc, rest, x) == Ok((b, x));
    assert Assemble(rc, sc, "") == Ok((a + VALUE_MARK + b, x));
    TemplateAround(a, b);
    assert Whole(sc) <==> a == "" && b == "";
    assert Interpolate(rc, observed, rest) == Ready(b);
    if source in observed && FieldValue(observed[source], f).Some? {
      var v := FieldValue(observed[source], f).value;
      RenderScalarNulFree(v);
      assert Interpolate(rc, observed, sc) == Ready(a + RenderScalar(v) + b);
      UnescapeClean(a + RenderScalar(v) + b);
    }
  }

  lemma FieldSpelled(a: string, source: string, f: FieldName, b: string)
    ensures a + "${resources." + source + "." + FieldText(f) + "}" + b == Around(a, FieldExpr(source, f), b)
  {
    hide FieldText;
  }

  /** The template of two texts around one placeholder. */
  lemma TemplateAround(a: string, b: string)
    requires Texts(a, b)
    ensures ToTemplate(Unescape(a + VALUE_MARK + b)) == a + PLACEHOLDER + b
    ensures a + PLACEHOLDER + b == PLACEHOLDER <==> a == "" && b == ""
  {
    hide Unescape, ToTemplate;
    var us := [a, b];
    assert us[1..] == [b] && Join([b], VALUE_MARK) == b;
    NulFreeIsMarked(a, ESC_MARK);
    NulFreeIsMarked(b, ESC_MARK);
    assert !Collides(us) by {
      NoTail(b);
      assert !Collides([b]);
    }
    UnescapeJoined(us);
    UnescapeClean(a);
    UnescapeClean(b);
    assert UnescapeAll(us) == us;
    TemplateOfPieces(us);
    PlainTemplate(a);
    PlainTemplate(b);
    assert EscapeAll(us) == us by { assert EscapeAll([b]) == [b]; }
    assert Join(us, PLACEHOLDER) == a + PLACEHOLDER + b;
    assert |a + PLACEHOLDER + b| == |a| + |PLACEHOLDER| + |b|;
  }

  lemma NoTail(b: string)
    requires NulFree(b)
    ensures !(ESC_TAIL <= b)
  {
    assert ESC_TAIL[11] == NUL;
  }

  lemma PlainTemplate(t: string)
    requires '$' !in t
    ensures EscapePlaceholders(t) == t
  {
    ReplaceAfterText(t, "", PLACEHOLDER, ESCAPED_PLACEHOLDER);
    assert t + "" == t;
  }

  /** A name that no template resource has is an error. */
  lemma UnknownSource(rc: Context, observed: map<string, Source>, a: string, source: string, f: FieldName, b: string)
    requires Texts(a, b) && Plain(source) && GoodField(f) && source !in rc.childName
    ensures var s := a + "${resources." + source + "." + FieldText(f) + "}" + b;
            RenderString(rc, s) == Failed(UnknownResource) && RenderOutputString(rc, observed, s) == Wrong(UnknownResource)
  {
    hide TrimSpace, ScanExprs, EscapeOpens, Unescape, ToTemplate, Param, IsParams, ParseResourceExpr, FieldExpr, Plain, FieldText;
    var x := FieldExpr(source, f);
    FieldSpelled(a, source, f, b);
    FieldCharacters(source, f);
    FieldParsed(rc, source, f);
    ScanAround(a, x, b);
    var sc, rest := Scan([a, b], [x]), Scan([b], []);
    assert sc.texts[1..] == rest.texts && sc.exprs[1..] == rest.exprs;
    assert Assemble(rc, rest, x) == Ok((b, x));
    assert Assemble(rc, sc, "") == Ok((a + VALUE_MARK + b, x));
  }

  /** Two different fields in one string are refused by the compiler. */
  lemma TwoFields(rc: Context, s1: string, f1: FieldName, mid: string, s2: string, f2: FieldName)
    requires Plain(s1) && GoodField(f1) && Plain(s2) && GoodField(f2) && '$' !in mid && '}' !in mid
    requires FieldExpr(s1, f1) != FieldExpr(s2, f2)
    ensures RenderString(rc, Pair(FieldExpr(s1, f1), mid, FieldExpr(s2, f2))) == Failed(TwoSources)
  {
    hide TrimSpace, ScanExprs, EscapeOpens, Param, IsParams, ParseResourceExpr, FieldExpr, Plain, FieldText;
    var x, y := FieldExpr(s1, f1), FieldExpr(s2, f2);
    FieldCharacters(s1, f1);
    FieldCharacters(s2, f2);
    FieldParsed(rc, s1, f1);
    FieldParsed(rc, s2, f2);
    ScanPair(x, mid, y);
    var sc, tail := Scan(["", mid, ""], [x, y]), Scan([mid, ""], [y]);
    assert sc.texts[1..] == tail.texts && sc.exprs[1..] == tail.exprs;
    assert Assemble(rc, tail, x) == Err(TwoSources);
  }
}
