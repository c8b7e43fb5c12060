/**
 The inputs on which a compiled string loses its meaning: a parameter that ends in "$"
 right before a sibling expression, the word of the escape marker right after one, and a
 sibling expression whose surroundings render to nothing.
 */
module Pitfalls {
  import opened Strings
  import opened Json
  import opened Markers
  import opened Templates
  import opened Agreement
  import opened Expressions

  // ---------------------------------------------------------------- the inputs

  /** A parameter, then an output of a sibling. */
  function AfterParam(key: string, source: string, output: string): string {
    Pair(ParamExpr(key), "", SiblingExpr(source, output))
  }

  lemma AfterParamCompiles(rc: Context, key: string, source: string, output: string)
    requires Plain(key) && key in rc.params && Plain(source) && Plain(output) && source in rc.childName
    ensures var s := AfterParam(key, source, output);
            RenderString(rc, s).Linked? && !IsWhole(s) && StringPieces(rc, s) == [RenderScalar(rc.params[key]), ""]
  {
    hide ScanExprs, TrimSpace, Param, IsParams, ParseResourceExpr, RenderScalar, EscapeOpens, Unescape, ToTemplate;
    var a, b := ParamExpr(key), SiblingExpr(source, output);
    var text := RenderScalar(rc.params[key]);
    ParamIsImmediate(rc, key);
    OutputIsSibling(rc, source, output);
    ScanPair(a, "", b);
    var sc := Scan(["", "", ""], [a, b]);
    var tail := Scan(["", ""], [b]);
    assert sc.texts[1..] == tail.texts && sc.exprs[1..] == tail.exprs;
    assert tail.texts[1..] == [""] && tail.exprs[1..] == [];
    assert Assemble(rc, Scan([""], []), b) == Ok(("", b));
    assert Assemble(rc, tail, "") == Ok(("" + VALUE_MARK + "", b));
    assert Assemble(rc, sc, "") == Ok(("" + text + ("" + VALUE_MARK + ""), b));
    assert Pieces(rc, Scan([""], [])) == [""];
    assert Pieces(rc, tail) == ["", ""];
    assert Pieces(rc, sc) == ["" + text + ""] + ["", ""][1..];
    assert "" + text + "" == text && ["", ""][1..] == [""];
  }

  /**
   A parameter whose text ends in "$", right before a sibling expression, turns the
   placeholder into an escape: the string compiles, and every value that does not itself
   read "{value}" is lost.
   */
  lemma DollarParameterLosesValue(rc: Context, key: string, source: string, output: string, t: string, v: Json)
    requires Plain(key) && key in rc.params && rc.params[key] == Str(t) && EndsInDollar(t)
    requires Plain(source) && Plain(output) && source in rc.childName && CleanContext(rc) && CleanJson(v)
    ensures var s := AfterParam(key, source, output);
            RenderString(rc, s).Linked? && !Faithful(rc, s) &&
            (RenderScalar(v) != SWALLOWED ==> LinkValue(RenderString(rc, s).tpl, v) != DirectValue(rc, s, v))
  {
    hide RenderString, StringPieces, Unescape, ExpandTemplate;
    var s := AfterParam(key, source, output);
    AfterParamCompiles(rc, key, source, output);
    AfterParamNulFree(key, source, output);
    assert NulFree(t) by { assert CleanJson(rc.params[key]); }
    UnescapeClean(t);
    var us := StringPieces(rc, s);
    assert us == [t, ""];
    assert UnescapeAll(us)[0] == t;
    TextsAgree(rc, s, v);
  }

  lemma AfterParamNulFree(key: string, source: string, output: string)
    requires Plain(key) && Plain(source) && Plain(output)
    ensures NulFree(AfterParam(key, source, output))
  {
  }

  /** An output of a sibling, a text, and the same output again. */
  function Around(source: string, output: string, mid: string): string {
    Pair(SiblingExpr(source, output), mid, SiblingExpr(source, output))
  }

  lemma AroundCompiles(rc: Context, source: string, output: string, mid: string)
    requires Plain(source) && Plain(output) && source in rc.childName && '$' !in mid && '}' !in mid
    ensures RenderString(rc, Around(source, output, mid)).Linked?
    ensures StringPieces(rc, Around(source, output, mid)) == ["", mid, ""]
  {
    hide ScanExprs, TrimSpace, Param, IsParams, ParseResourceExpr, RenderScalar, EscapeOpens, Unescape, ToTemplate;
    var b := SiblingExpr(source, output);
    OutputIsSibling(rc, source, output);
    ScanPair(b, mid, b);
    var sc := Scan(["", mid, ""], [b, b]);
    var tail := Scan([mid, ""], [b]);
    assert sc.texts[1..] == tail.texts && sc.exprs[1..] == tail.exprs;
    assert tail.texts[1..] == [""] && tail.exprs[1..] == [];
    assert Assemble(rc, Scan([""], []), b) == Ok(("", b));
    assert Assemble(rc, tail, b) == Ok((mid + VALUE_MARK + "", b));
    assert Assemble(rc, sc, "") == Ok(("" + VALUE_MARK + (mid + VALUE_MARK + ""), b));
    assert Pieces(rc, Scan([""], [])) == [""];
    assert Pieces(rc, tail) == [mid] + [""];
    assert Pieces(rc, sc) == [""] + ([mid] + [""]);
  }

  /** The word of the escape marker between two placeholders collides with the markers: every value is lost. */
  lemma MarkerWordLosesValue(rc: Context, source: string, output: string, v: Json)
    requires Plain(source) && Plain(output) && source in rc.childName && CleanContext(rc) && CleanJson(v)
    ensures var s := Around(source, output, "DOPLANE_ESC");
            RenderString(rc, s).Linked? && !Faithful(rc, s) && LinkValue(RenderString(rc, s).tpl, v) != DirectValue(rc, s, v)
  {
    hide RenderString, StringPieces, Unescape, ExpandTemplate;
    var s := Around(source, output, "DOPLANE_ESC");
    AroundCompiles(rc, source, output, "DOPLANE_ESC");
    AroundNulFree(source, output, "DOPLANE_ESC");
    var us := StringPieces(rc, s);
    assert us[1..] == ["DOPLANE_ESC", ""] && us[1..][1..] == [""];
    assert Join(us[1..], VALUE_MARK) == "DOPLANE_ESC" + VALUE_MARK + "";
    assert ESC_TAIL <= Join(us[1..], VALUE_MARK);
    assert Collides(us);
    TextsAgree(rc, s, v);
  }

  lemma AroundNulFree(source: string, output: string, mid: string)
    requires Plain(source) && Plain(output) && NulFree(mid)
    ensures NulFree(Around(source, output, mid))
  {
  }

  /** A parameter that renders to nothing leaves a bare placeholder: the value is linked raw, so it differs exactly when it is not text. */
  lemma EmptyParameterKeepsType(rc: Context, key: string, source: string, output: string, v: Json)
    requires Plain(key) && key in rc.params && rc.params[key] == Str("")
    requires Plain(source) && Plain(output) && source in rc.childName && CleanContext(rc) && CleanJson(v)
    ensures var s := AfterParam(key, source, output);
            RenderString(rc, s).Linked? && RenderString(rc, s).tpl == "" && !IsWhole(s) && Faithful(rc, s) &&
            (LinkValue(RenderString(rc, s).tpl, v) == DirectValue(rc, s, v) <==> v.Str?)
  {
    hide RenderString, StringPieces, Unescape, ExpandTemplate, IsWhole;
    var s := AfterParam(key, source, output);
    AfterParamCompiles(rc, key, source, output);
    AfterParamNulFree(key, source, output);
    StringRenders("");
    UnescapeClean("");
    var us := StringPieces(rc, s);
    assert us == ["", ""];
    assert us[1..] == [""] && [""][1..] == [];
    assert UnescapeAll(us)[0] == "";
    assert Join([""], VALUE_MARK) == "";
    assert !Collides([""]) && !Collides(us);
    BareHasNoTemplate(rc, s);
    ValuesAgree(rc, s, v);
  }

  // ---------------------------------------------------------------- one definition

  /** A composite with a currency sign and an empty prefix among its parameters. */
  function Shop(): (rc: Context)
    ensures CleanContext(rc) && "db" in rc.childName
    ensures "currency" in rc.params && rc.params["currency"] == Str("US$")
    ensures "prefix" in rc.params && rc.params["prefix"] == Str("")
  {
    Context("shop", "default", map["currency" := Str("US$"), "prefix" := Str("")], map["db" := "shop-db"])
  }

  /** The names used below. */
  lemma PlainNames()
    ensures Plain("currency") && Plain("prefix") && Plain("db") && Plain("id") && Plain("port")
  {
  }

  lemma Spell(key: string, source: string, output: string, a: string, b: string)
    requires a == "${" + ("params." + key) + "}" && b == "${" + ("resources." + (source + (".outputs." + output))) + "}"
    ensures AfterParam(key, source, output) == a + b
  {
    assert "" + b == b;
  }

  lemma SpellAround(source: string, output: string, mid: string, b: string)
    requires b == "${" + ("resources." + (source + (".outputs." + output))) + "}"
    ensures Around(source, output, mid) == b + (mid + b)
  {
  }

  lemma CurrencyText()
    ensures "${" + ("params." + "currency") + "}" == "${params.currency}"
    ensures "${params.currency}" + "${resources.db.outputs.id}" == "${params.currency}${resources.db.outputs.id}"
    ensures EndsInDollar("US$")
  {
  }

  lemma IdText()
    ensures "${" + ("resources." + ("db" + (".outputs." + "id"))) + "}" == "${resources.db.outputs.id}"
  {
  }

  lemma PortText()
    ensures "${" + ("resources." + ("db" + (".outputs." + "port"))) + "}" == "${resources.db.outputs.port}"
  {
  }

  lemma WordText()
    ensures "${resources.db.outputs.id}" + ("DOPLANE_ESC" + "${resources.db.outputs.id}")
         == "${resources.db.outputs.id}DOPLANE_ESC${resources.db.outputs.id}"
  {
    WordTail();
    WordWhole();
  }

  lemma WordTail()
    ensures "DOPLANE_ESC" + "${resources.db.outputs.id}" == "DOPLANE_ESC${resources.db.outputs.id}"
  {
  }

  lemma WordWhole()
    ensures "${resources.db.outputs.id}" + "DOPLANE_ESC${resources.db.outputs.id}"
         == "${resources.db.outputs.id}DOPLANE_ESC${resources.db.outputs.id}"
  {
  }

  lemma PrefixText()
    ensures "${" + ("params." + "prefix") + "}" == "${params.prefix}"
    ensures "${params.prefix}" + "${resources.db.outputs.port}" == "${params.prefix}${resources.db.outputs.port}"
  {
  }

  lemma CleanLeaves()
    ensures CleanJson(Num("5432"))
  {
  }

  /** A currency sign in front of an output: every value that does not itself read "{value}" is lost. */
  lemma CurrencyLosesId(v: Json)
    requires CleanJson(v)
    ensures var s := "${params.currency}${resources.db.outputs.id}";
            RenderString(Shop(), s).Linked? && !Faithful(Shop(), s) &&
            (RenderScalar(v) != SWALLOWED ==> LinkValue(RenderString(Shop(), s).tpl, v) != DirectValue(Shop(), s, v))
  {
    hide *;
    PlainNames();
    CurrencyText();
    IdText();
    Spell("currency", "db", "id", "${params.currency}", "${resources.db.outputs.id}");
    DollarParameterLosesValue(Shop(), "currency", "db", "id", "US$", v);
  }

  /** The word of the marker between two outputs: every value is lost. */
  lemma WordLosesId(v: Json)
    requires CleanJson(v)
    ensures var s := "${resources.db.outputs.id}DOPLANE_ESC${resources.db.outputs.id}";
            RenderString(Shop(), s).Linked? && !Faithful(Shop(), s) && LinkValue(RenderString(Shop(), s).tpl, v) != DirectValue(Shop(), s, v)
  {
    hide *;
    PlainNames();
    WordText();
    IdText();
    SpellAround("db", "id", "DOPLANE_ESC", "${resources.db.outputs.id}");
    MarkerWordLosesValue(Shop(), "db", "id", v);
  }

  /** An empty prefix in front of a port leaves a number where the direct evaluator yields text. */
  lemma PrefixKeepsPort()
    ensures var s := "${params.prefix}${resources.db.outputs.port}";
            RenderString(Shop(), s).Linked? && Faithful(Shop(), s) &&
            LinkValue(RenderString(Shop(), s).tpl, Num("5432")) != DirectValue(Shop(), s, Num("5432"))
  {
    hide *;
    PlainNames();
    CleanLeaves();
    PrefixText();
    PortText();
    Spell("prefix", "db", "port", "${params.prefix}", "${resources.db.outputs.port}");
    EmptyParameterKeepsType(Shop(), "prefix", "db", "port", Num("5432"));
  }
}
