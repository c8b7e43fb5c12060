/**
 Decoded JSON trees (numbers kept as their literal text, as `UseNumber` does)
 and their text form.
 */
module Json {
  import opened Strings

  datatype Option<+T> = None | Some(value: T)

  datatype Json =
    | Null
    | Bool(b: bool)
    | Num(text: string)
    | Str(s: string)
    | Arr(items: seq<Json>)
    | Obj(fields: map<string, Json>)

  // ------------------------------------------------------------ RenderScalar

  /** path.go:257: how a resolved value reads inside a string. */
  function RenderScalar(v: Json): string {
    match v
    case Null => ""
    case Str(s) => s
    case Num(t) => t
    case Bool(b) => if b then "true" else "false"
    case Arr(_) => Marshal(v)
    case Obj(_) => Marshal(v)
  }

  /** Compact JSON with sorted keys, as `json.Marshal` writes it. */
  function Marshal(v: Json): string
    decreases v, 1, 0
  {
    match v
    case Null => "null"
    case Bool(b) => if b then "true" else "false"
    case Num(t) => t
    case Str(s) => Quote(s)
    case Arr(items) => "[" + MarshalItems(items) + "]"
    case Obj(fields) => "{" + MarshalFields(v, SortedKeys(fields.Keys)) + "}"
  }

  function MarshalItems(items: seq<Json>): string
    decreases items, 0, 0
  {
    if items == [] then ""
    else
      var more := if |items| == 1 then "" else "," + MarshalItems(items[1..]);
      Marshal(items[0]) + more
  }

  function MarshalFields(v: Json, keys: seq<string>): string
    requires v.Obj? && forall k :: k in keys ==> k in v.fields
    decreases v, 0, |keys|
  {
    if keys == [] then ""
    else
      var more := if |keys| == 1 then "" else "," + MarshalFields(v, keys[1..]);
      Quote(keys[0]) + ":" + Marshal(v.fields[keys[0]]) + more
  }

  function Quote(s: string): string {
    "\"" + QuoteChars(s) + "\""
  }

  function QuoteChars(s: string): string {
    if s == "" then "" else QuoteChar(s[0]) + QuoteChars(s[1..])
  }

  function QuoteChar(c: char): string {
    if c == '"' then "\\\""
    else if c == '\\' then "\\\\"
    else if c == '\n' then "\\n"
    else if c == '\r' then "\\r"
    else if c == '\t' then "\\t"
    else if c as int == 8 then "\\b"
    else if c as int == 12 then "\\f"
    else if c as int < 32 || c == '<' || c == '>' || c == '&' then "\\u00" + [Hex(c as int / 16), Hex(c as int % 16)]
    else if c as int == 0x2028 then "\\u2028"
    else if c as int == 0x2029 then "\\u2029"
    else [c]
  }

  function Hex(d: nat): (c: char)
    requires d < 16
    ensures c != NUL
  {
    "0123456789abcdef"[d]
  }

  // -------------------------------------------------------------- shape

  function ItemTexts(items: seq<Json>): (ts: seq<string>)
    ensures |ts| == |items| && forall i :: 0 <= i < |ts| ==> ts[i] == Marshal(items[i])
  {
    if items == [] then [] else [Marshal(items[0])] + ItemTexts(items[1..])
  }

  function FieldTexts(fields: map<string, Json>, keys: seq<string>): (ts: seq<string>)
    requires forall k :: k in keys ==> k in fields
    ensures |ts| == |keys| && forall i :: 0 <= i < |ts| ==> ts[i] == "\"" + QuoteChars(keys[i]) + "\":" + Marshal(fields[keys[i]])
  {
    if keys == [] then []
    else
      ["\"" + QuoteChars(keys[0]) + "\":" + Marshal(fields[keys[0]])] + FieldTexts(fields, keys[1..])
  }

  /** An array is its elements between commas, an object its fields by increasing key; nothing is written between them. */
  lemma MarshalShape(items: seq<Json>, fields: map<string, Json>)
    ensures Marshal(Arr(items)) == "[" + (if items == [] then "" else Join(ItemTexts(items), ",")) + "]"
    ensures Marshal(Obj(fields)) ==
            "{" + (if fields == map[] then "" else Join(FieldTexts(fields, SortedKeys(fields.Keys)), ",")) + "}"
  {
    ItemsJoined(items);
    assert fields == map[] <==> fields.Keys == {};
    FieldsJoined(Obj(fields), SortedKeys(fields.Keys));
    if fields != map[] {
      var k :| k in fields;
      assert k in SortedKeys(fields.Keys);
    }
  }

  lemma {:induction false} ItemsJoined(items: seq<Json>)
    ensures MarshalItems(items) == if items == [] then "" else Join(ItemTexts(items), ",")
  {
    if items != [] {
      ItemsJoined(items[1..]);
      var ts := ItemTexts(items);
      assert ts[1..] == ItemTexts(items[1..]);
      if |items| > 1 { Associative(Marshal(items[0]), ",", MarshalItems(items[1..])); }
    }
  }

  lemma {:induction false} FieldsJoined(v: Json, keys: seq<string>)
    requires v.Obj? && forall k :: k in keys ==> k in v.fields
    ensures MarshalFields(v, keys) == if keys == [] then "" else Join(FieldTexts(v.fields, keys), ",")
    decreases |keys|
  {
    if keys != [] {
      FieldsJoined(v, keys[1..]);
      var ts := FieldTexts(v.fields, keys);
      assert ts[1..] == FieldTexts(v.fields, keys[1..]);
      var value := Marshal(v.fields[keys[0]]);
      assert Quote(keys[0]) + ":" + value == "\"" + QuoteChars(keys[0]) + "\":" + value;
      if |keys| > 1 { Associative(ts[0], ",", MarshalFields(v, keys[1..])); }
    }
  }

  // -------------------------------------------------------------- reading back

  function HexValue(c: char): nat {
    if '0' <= c <= '9' then c as int - '0' as int else if 'a' <= c <= 'f' then c as int - 'a' as int + 10 else 0
  }

  /** The character a JSON escape stands for, and the length of the escape; an unescaped quote ends the string. */
  function Unquoted(s: string): Option<(char, nat)>
    requires s != ""
  {
    if s[0] == '"' then None
    else if s[0] != '\\' then Some((s[0], 1))
    else if |s| < 2 then None
    else if s[1] == 'u' then
      if |s| < 6 then None
      else
        var n := ((HexValue(s[2]) * 16 + HexValue(s[3])) * 16 + HexValue(s[4])) * 16 + HexValue(s[5]);
        if n < 0xD800 then Some((n as char, 6)) else None
    else if s[1] == 'n' then Some(('\n', 2))
    else if s[1] == 'r' then Some(('\r', 2))
    else if s[1] == 't' then Some(('\t', 2))
    else if s[1] == 'b' then Some((8 as char, 2))
    else if s[1] == 'f' then Some((12 as char, 2))
    else if s[1] == '"' || s[1] == '\\' || s[1] == '/' then Some((s[1], 2))
    else None
  }

  lemma HexReads(d: nat)
    requires d < 16
    ensures HexValue(Hex(d)) == d
  {
  }

  /** A four-digit escape reads as its character. */
  lemma HexEscapeReads(c: char, x: char, y: char, z: char, w: char, rest: string)
    requires ((HexValue(x) * 16 + HexValue(y)) * 16 + HexValue(z)) * 16 + HexValue(w) == c as int < 0xD800
    ensures Unquoted("\\u" + [x, y, z, w] + rest) == Some((c, 6))
  {
    var s := "\\u" + [x, y, z, w] + rest;
    assert s[0] == '\\' && s[1] == 'u' && s[2] == x && s[3] == y && s[4] == z && s[5] == w;
  }

  /** A control character, or one that HTML would act on. */
  predicate Hexed(c: char) {
    (c as int < 32 && c != '\n' && c != '\r' && c != '\t' && c as int != 8 && c as int != 12) || c == '<' || c == '>' || c == '&'
  }

  lemma HexedReads(c: char, rest: string)
    requires Hexed(c)
    ensures Unquoted(QuoteChar(c) + rest) == Some((c, |QuoteChar(c)|))
  {
    var n := c as int;
    HexReads(n / 16);
    HexReads(n % 16);
    HexEscapeReads(c, '0', '0', Hex(n / 16), Hex(n % 16), rest);
    assert "\\u00" + [Hex(n / 16), Hex(n % 16)] == "\\u" + ['0', '0', Hex(n / 16), Hex(n % 16)];
  }

  /** A JSON reader gets back each character. */
  lemma QuoteReads(c: char, rest: string)
    ensures Unquoted(QuoteChar(c) + rest) == Some((c, |QuoteChar(c)|))
  {
    hide HexValue, Hex;
    if Hexed(c) {
      HexedReads(c, rest);
    } else if c as int == 0x2028 || c as int == 0x2029 {
      LineReads(c, rest);
    } else {
      var q := QuoteChar(c);
      assert (q + rest)[0] == q[0] && (|q| > 1 ==> (q + rest)[1] == q[1]);
    }
  }

  lemma LineReads(c: char, rest: string)
    requires c as int == 0x2028 || c as int == 0x2029
    ensures Unquoted(QuoteChar(c) + rest) == Some((c, |QuoteChar(c)|))
  {
    var w := if c as int == 0x2028 then '8' else '9';
    HexEscapeReads(c, '2', '0', '2', w, rest);
    assert QuoteChar(c) == "\\u" + ['2', '0', '2', w];
  }

  /** No character that HTML or a line reader would act on is written as it is. */
  lemma QuoteSafe(c: char)
    ensures forall x :: x in QuoteChar(c) ==> x !in {'<', '>', '&'} && x as int >= 32 && x as int != 0x2028 && x as int != 0x2029
  {
    hide Hex;
    var n := c as int;
    if Hexed(c) {
      HexWritten(n / 16);
      HexWritten(n % 16);
    }
  }

  lemma HexWritten(d: nat)
    requires d < 16
    ensures '0' <= Hex(d) <= '9' || 'a' <= Hex(d) <= 'f'
  {
  }

  /** The whole text of a quoted string. */
  function UnquoteChars(s: string): Option<string>
    decreases |s|
  {
    if s == "" then None
    else if s[0] == '"' then (if s == "\"" then Some("") else None)
    else
      match Unquoted(s)
      case None => None
      case Some((c, n)) =>
        if n > |s| then None
        else
          match UnquoteChars(s[n..])
          case None => None
          case Some(t) => Some([c] + t)
  }

  /** Quoting loses nothing: a JSON reader gets back the string, whatever it holds. */
  lemma {:induction false} QuoteRoundTrip(s: string)
    ensures UnquoteChars(QuoteChars(s) + "\"") == Some(s)
  {
    if s == "" {
      assert QuoteChars(s) + "\"" == "\"";
    } else {
      var q, rest := QuoteChar(s[0]), QuoteChars(s[1..]) + "\"";
      assert QuoteChars(s) + "\"" == q + rest;
      QuoteReads(s[0], rest);
      assert (q + rest)[|q|..] == rest;
      QuoteRoundTrip(s[1..]);
      QuoteStarts(s[0], rest);
      assert [s[0]] + s[1..] == s;
    }
  }

  lemma QuoteStarts(c: char, rest: string)
    ensures QuoteChar(c) != "" && (QuoteChar(c) + rest)[0] != '"' && |QuoteChar(c)| <= |QuoteChar(c) + rest|
  {
  }

  // -------------------------------------------------------------- NUL-freedom

  /** No string and no number text in the tree holds a NUL. */
  predicate CleanJson(v: Json) {
    match v
    case Null => true
    case Bool(_) => true
    case Num(t) => NulFree(t)
    case Str(s) => NulFree(s)
    case Arr(items) => forall i :: 0 <= i < |items| ==> CleanJson(items[i])
    case Obj(fields) => forall k :: k in fields ==> CleanJson(fields[k])
  }

  lemma {:induction false} QuoteNulFree(s: string)
    ensures NulFree(QuoteChars(s))
  {
    if s != "" {
      QuoteNulFree(s[1..]);
      assert NulFree(QuoteChar(s[0]));
      NulFreeConcat(QuoteChar(s[0]), QuoteChars(s[1..]));
    }
  }

  /** Marshalling escapes every NUL inside strings and keys. */
  lemma {:induction false} MarshalNulFree(v: Json)
    requires CleanJson(v)
    ensures NulFree(Marshal(v))
    decreases v, 1, 0
  {
    match v
    case Null =>
    case Bool(_) =>
    case Num(_) =>
    case Str(s) => QuoteNulFree(s);
    case Arr(items) => MarshalItemsNulFree(items);
    case Obj(fields) => MarshalFieldsNulFree(v, SortedKeys(fields.Keys));
  }

  lemma {:induction false} MarshalItemsNulFree(items: seq<Json>)
    requires forall i :: 0 <= i < |items| ==> CleanJson(items[i])
    ensures NulFree(MarshalItems(items))
    decreases items, 0, 0
  {
    if items != [] {
      MarshalNulFree(items[0]);
      MarshalItemsNulFree(items[1..]);
    }
  }

  lemma {:induction false} MarshalFieldsNulFree(v: Json, keys: seq<string>)
    requires v.Obj? && CleanJson(v) && forall k :: k in keys ==> k in v.fields
    ensures NulFree(MarshalFields(v, keys))
    decreases v, 0, |keys|
  {
    if keys != [] {
      QuoteNulFree(keys[0]);
      MarshalNulFree(v.fields[keys[0]]);
      MarshalFieldsNulFree(v, keys[1..]);
    }
  }

  /** A clean value renders to NUL-free text. */
  lemma RenderScalarNulFree(v: Json)
    requires CleanJson(v)
    ensures NulFree(RenderScalar(v))
  {
    if v.Arr? || v.Obj? { MarshalNulFree(v); }
  }
}
