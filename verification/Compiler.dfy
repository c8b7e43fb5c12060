/**
 Whole property trees: renderValue (composite_render.go) compiles one into a
 literal tree and references, renderOutputValue (composite_outputs.go) resolves
 one directly, and resolveReferences (references.go) links the references later.
 */
module Compiler {
  import opened Strings
  import opened Json
  import opened Paths
  import opened Trees
  import opened Templates
  import opened Outputs
  import opened Agreement

  /** A reference of a child: the path it sets and the field of the sibling it reads. */
  datatype Reference = Reference(toPath: string, from: string, fieldPath: string, tpl: string)

  datatype Rendered<+T> = Failure(error: Error) | Done(value: T, refs: seq<Reference>)

  // -------------------------------------------------------------- renderValue

  /** renderValue (composite_render.go:159); None is removedValue. */
  function RenderValue(rc: Context, v: Json, path: string): Rendered<Option<Json>>
    decreases v, 1, 0
  {
    match v
    case Str(s) =>
      (match RenderString(rc, s)
       case Failed(e) => Failure(e)
       case Literal(w) => Done(Some(w), [])
       case Linked(source, field, tpl) => Done(None, [Reference(path, rc.childName[source], field, tpl)]))
    case Obj(fields) =>
      (match RenderFields(rc, v, SortedKeys(fields.Keys), path)
       case Failure(e) => Failure(e)
       case Done(out, refs) => Done(Some(Obj(out)), refs))
    case Arr(items) =>
      (match RenderItems(rc, v, 0, path)
       case Failure(e) => Failure(e)
       case Done(out, refs) => Done(Some(Arr(out)), refs))
    case _ => Done(Some(v), [])
  }

  /** The map loop: a removed entry is left out. */
  function RenderFields(rc: Context, v: Json, keys: seq<string>, path: string): Rendered<map<string, Json>>
    requires v.Obj? && forall k :: k in keys ==> k in v.fields
    decreases v, 0, |keys|
  {
    if keys == [] then Done(map[], [])
    else
      match RenderValue(rc, v.fields[keys[0]], AppendKeySegment(path, keys[0]))
      case Failure(e) => Failure(e)
      case Done(rv, refs) =>
        match RenderFields(rc, v, keys[1..], path)
        case Failure(e) => Failure(e)
        case Done(out, more) => Done(if rv.Some? then out[keys[0] := rv.value] else out, refs + more)
  }

  /** The array loop from element `i` on: a removed element leaves a placeholder. */
  function RenderItems(rc: Context, v: Json, i: nat, path: string): Rendered<seq<Json>>
    requires v.Arr? && i <= |v.items|
    decreases v, 0, |v.items| - i
  {
    if i == |v.items| then Done([], [])
    else
      match RenderValue(rc, v.items[i], AppendIndex(path, i))
      case Failure(e) => Failure(e)
      case Done(rv, refs) =>
        match RenderItems(rc, v, i + 1, path)
        case Failure(e) => Failure(e)
        case Done(out, more) => Done([if rv.Some? then rv.value else Str("")] + out, refs + more)
  }

  // -------------------------------------------------------- renderOutputValue

  /** renderOutputValue (composite_outputs.go:90). */
  function RenderOutputValue(rc: Context, observed: map<string, Source>, v: Json): Resolved<Json>
    decreases v, 1, 0
  {
    match v
    case Str(s) => RenderOutputString(rc, observed, s)
    case Obj(fields) =>
      (match RenderOutputFields(rc, observed, v, SortedKeys(fields.Keys))
       case Wrong(e) => Wrong(e)
       case Wait => Wait
       case Ready(out) => Ready(Obj(out)))
    case Arr(items) =>
      (match RenderOutputItems(rc, observed, v, 0)
       case Wrong(e) => Wrong(e)
       case Wait => Wait
       case Ready(out) => Ready(Arr(out)))
    case _ => Ready(v)
  }

  function RenderOutputFields(rc: Context, observed: map<string, Source>, v: Json, keys: seq<string>): Resolved<map<string, Json>>
    requires v.Obj? && forall k :: k in keys ==> k in v.fields
    decreases v, 0, |keys|
  {
    if keys == [] then Ready(map[])
    else
      match RenderOutputValue(rc, observed, v.fields[keys[0]])
      case Wrong(e) => Wrong(e)
      case Wait => Wait
      case Ready(rv) =>
        match RenderOutputFields(rc, observed, v, keys[1..])
        case Wrong(e) => Wrong(e)
        case Wait => Wait
        case Ready(out) => Ready(out[keys[0] := rv])
  }

  function RenderOutputItems(rc: Context, observed: map<string, Source>, v: Json, i: nat): Resolved<seq<Json>>
    requires v.Arr? && i <= |v.items|
    decreases v, 0, |v.items| - i
  {
    if i == |v.items| then Ready([])
    else
      match RenderOutputValue(rc, observed, v.items[i])
      case Wrong(e) => Wrong(e)
      case Wait => Wait
      case Ready(rv) =>
        match RenderOutputItems(rc, observed, v, i + 1)
        case Wrong(e) => Wrong(e)
        case Wait => Wait
        case Ready(out) => Ready([rv] + out)
  }

  // -------------------------------------------------------- resolveReferences

  /** The namespace as the linker reads it: sources by object name, and their declared outputs where a schema is known. */
  datatype Cluster = Cluster(sources: map<string, Source>, declared: map<string, set<string>>)

  datatype Linking = Refused | Linking(waiting: seq<string>, props: Json)

  /** checkOutputPath (references.go:122): a first segment that no schema output has can never resolve. */
  predicate OutputPathKnown(c: Cluster, name: string, fieldPath: string) {
    var prefix := "status.outputs.";
    if !(prefix <= fieldPath) || fieldPath == prefix || name !in c.declared || c.declared[name] == {} then true
    else
      var rest := fieldPath[|prefix|..];
      var n := BareLen(rest);
      var first := if 0 < n then rest[..n] else rest;
      first == "id" || first in c.declared[name]
  }

  /** resolveReferences (references.go:73). */
  function ResolveReferences(c: Cluster, refs: seq<Reference>, props: Json): Linking
    decreases |refs|
  {
    if refs == [] then Linking([], props)
    else
      var ref := refs[0];
      if ref.from !in c.sources then Waiting(ref.from, ResolveReferences(c, refs[1..], props))
      else
        match ResolveFieldPath(c.sources[ref.from], ref.fieldPath)
        case Invalid => Refused
        case Pending =>
          if OutputPathKnown(c, ref.from, ref.fieldPath)
          then Waiting(ref.from, ResolveReferences(c, refs[1..], props)) else Refused
        case Present(v) =>
          var set_ := SetPath(props, ref.toPath, LinkValue(ref.tpl, v));
          if set_.ok then ResolveReferences(c, refs[1..], set_.tree) else Refused
  }

  function Waiting(name: string, r: Linking): Linking {
    match r
    case Refused => Refused
    case Linking(waiting, props) => Linking([name] + waiting, props)
  }

  // --------------------------------------------------- renderValue, as it runs

  /** Outputs so far, in front of what the rest of a loop yields. */
  function MoreFields(out: map<string, Json>, refs: seq<Reference>, rest: Rendered<map<string, Json>>): Rendered<map<string, Json>> {
    match rest
    case Failure(e) => Failure(e)
    case Done(more, later) => Done(out + more, refs + later)
  }

  function MoreItems(out: seq<Json>, refs: seq<Reference>, rest: Rendered<seq<Json>>): Rendered<seq<Json>> {
    match rest
    case Failure(e) => Failure(e)
    case Done(more, later) => Done(out + more, refs + later)
  }

  /** The references of a result behind those already collected. */
  function Onto<T>(refs: seq<Reference>, r: Rendered<T>): Rendered<T> {
    match r
    case Failure(e) => Failure(e)
    case Done(value, more) => Done(value, refs + more)
  }

  /** renderValue as it runs: references are appended to one list while maps and slices are filled. */
  method RenderValueLoop(rc: Context, v: Json, path: string, refs: seq<Reference>)
    returns (r: Rendered<Option<Json>>)
    ensures r == Onto(refs, RenderValue(rc, v, path))
    decreases v, 1
  {
    hide RenderString, RenderFields, RenderItems, SortedKeys;
    match v {
      case Str(s) =>
        var compiled := RenderStringLoop(rc, s);
        match compiled {
          case Failed(e) => return Failure(e);
          case Literal(w) =>
            assert refs + [] == refs;
            return Done(Some(w), refs);
          case Linked(source, field, tpl) =>
            return Done(None, refs + [Reference(path, rc.childName[source], field, tpl)]);
        }
      case Obj(fields) =>
        var out := RenderFieldsLoop(rc, v, path, refs);
        FieldsFromNone(refs, RenderFields(rc, v, SortedKeys(fields.Keys), path));
        match out {
          case Failure(e) => return Failure(e);
          case Done(m, all) => return Done(Some(Obj(m)), all);
        }
      case Arr(items) =>
        var out := RenderItemsLoop(rc, v, path, refs);
        ItemsFromNone(refs, RenderItems(rc, v, 0, path));
        match out {
          case Failure(e) => return Failure(e);
          case Done(xs, all) => return Done(Some(Arr(xs)), all);
        }
      case _ =>
        assert refs + [] == refs;
        return Done(Some(v), refs);
    }
  }

  method RenderFieldsLoop(rc: Context, v: Json, path: string, refs: seq<Reference>) returns (r: Rendered<map<string, Json>>)
    requires v.Obj?
    ensures r == MoreFields(map[], refs, RenderFields(rc, v, SortedKeys(v.fields.Keys), path))
    decreases v, 0
  {
    hide RenderString, AppendKeySegment, RenderValue, RenderFields, MoreFields, Less;
    var keys := SortedKeys(v.fields.Keys);
    var out: map<string, Json> := map[];
    var all := refs;
    assert keys[0..] == keys;
    for i := 0 to |keys|
      invariant forall k :: k in out ==> k in keys[..i]
      invariant MoreFields(map[], refs, RenderFields(rc, v, keys, path))
             == MoreFields(out, all, RenderFields(rc, v, keys[i..], path))
    {
      var k := keys[i];
      ghost var todo := keys[i..];
      assert todo[0] == k && todo[1..] == keys[i + 1..];
      var rv := RenderValueLoop(rc, v.fields[k], AppendKeySegment(path, k), all);
      NoRepeat(keys, i);
      FieldsStep(rc, v, todo, path, out, all);
      if rv.Failure? {
        return Failure(rv.error);
      }
      if rv.value.Some? {
        out := out[k := rv.value.value];
      }
      all := rv.refs;
      assert keys[..i + 1] == keys[..i] + [k];
    }
    assert keys[|keys|..] == [];
    FieldsEnd(rc, v, path, out, all);
    return Done(out, all);
  }

  lemma FieldsEnd(rc: Context, v: Json, path: string, out: map<string, Json>, refs: seq<Reference>)
    requires v.Obj?
    ensures MoreFields(out, refs, RenderFields(rc, v, [], path)) == Done(out, refs)
  {
    assert out + map[] == out && refs + [] == refs;
  }

  /** Sorted keys do not repeat. */
  lemma NoRepeat(keys: seq<string>, i: nat)
    requires i < |keys| && forall a, b :: 0 <= a < b < |keys| ==> Less(keys[a], keys[b])
    ensures keys[i] !in keys[i + 1..]
    ensures forall k :: k in keys[..i] ==> k !in keys[i..]
  {
    hide Less;
    forall a, b | 0 <= a < b < |keys| ensures keys[a] != keys[b] {
      LessTrichotomy(keys[a], keys[b]);
    }
  }

  /** One round of the map loop. */
  lemma FieldsStep(rc: Context, v: Json, todo: seq<string>, path: string, out: map<string, Json>, refs: seq<Reference>)
    requires v.Obj? && todo != [] && forall k :: k in todo ==> k in v.fields
    requires forall k :: k in out ==> k !in todo
    requires todo[0] !in todo[1..]
    ensures MoreFields(out, refs, RenderFields(rc, v, todo, path)) ==
            match RenderValue(rc, v.fields[todo[0]], AppendKeySegment(path, todo[0]))
            case Failure(e) => Failure(e)
            case Done(rv, more) =>
              MoreFields(if rv.Some? then out[todo[0] := rv.value] else out, refs + more, RenderFields(rc, v, todo[1..], path))
  {
    hide RenderString, AppendKeySegment, RenderValue;
    var r := RenderValue(rc, v.fields[todo[0]], AppendKeySegment(path, todo[0]));
    var rest := RenderFields(rc, v, todo[1..], path);
    if r.Done? && rest.Done? {
      FieldsKeys(rc, v, todo[1..], path);
      assert refs + (r.refs + rest.refs) == refs + r.refs + rest.refs;
      if r.value.Some? {
        assert out + rest.value[todo[0] := r.value.value] == out[todo[0] := r.value.value] + rest.value;
      }
    }
  }

  lemma {:induction false} FieldsKeys(rc: Context, v: Json, keys: seq<string>, path: string)
    requires v.Obj? && forall k :: k in keys ==> k in v.fields
    ensures var r := RenderFields(rc, v, keys, path); r.Done? ==> forall k :: k in r.value ==> k in keys
    decreases |keys|
  {
    hide RenderString, AppendKeySegment, RenderValue;
    if keys != [] { FieldsKeys(rc, v, keys[1..], path); }
  }

  method RenderItemsLoop(rc: Context, v: Json, path: string, refs: seq<Reference>) returns (r: Rendered<seq<Json>>)
    requires v.Arr?
    ensures r == MoreItems([], refs, RenderItems(rc, v, 0, path))
    decreases v, 0
  {
    var out: seq<Json> := [];
    var all := refs;
    for i := 0 to |v.items|
      invariant MoreItems([], refs, RenderItems(rc, v, 0, path)) == MoreItems(out, all, RenderItems(rc, v, i, path))
    {
      var rv := RenderValueLoop(rc, v.items[i], AppendIndex(path, i), all);
      if rv.Failure? {
        return Failure(rv.error);
      }
      ItemsStep(rc, v, i, path, out, all);
      out := out + [if rv.value.Some? then rv.value.value else Str("")];
      all := rv.refs;
    }
    assert out + [] == out && all + [] == all;
    return Done(out, all);
  }

  lemma ItemsFromNone(refs: seq<Reference>, r: Rendered<seq<Json>>)
    ensures MoreItems([], refs, r) == Onto(refs, r)
  {
    if r.Done? { assert [] + r.value == r.value; }
  }

  lemma FieldsFromNone(refs: seq<Reference>, r: Rendered<map<string, Json>>)
    ensures MoreFields(map[], refs, r) == Onto(refs, r)
  {
    if r.Done? { assert map[] + r.value == r.value; }
  }

  /** One round of the array loop. */
  lemma ItemsStep(rc: Context, v: Json, i: nat, path: string, out: seq<Json>, refs: seq<Reference>)
    requires v.Arr? && i < |v.items|
    requires RenderValue(rc, v.items[i], AppendIndex(path, i)).Done?
    ensures var Done(rv, more) := RenderValue(rc, v.items[i], AppendIndex(path, i));
            MoreItems(out, refs, RenderItems(rc, v, i, path)) ==
            MoreItems(out + [if rv.Some? then rv.value else Str("")], refs + more, RenderItems(rc, v, i + 1, path))
  {
    hide RenderString, AppendIndex;
    var Done(rv, more) := RenderValue(rc, v.items[i], AppendIndex(path, i));
    var rest := RenderItems(rc, v, i + 1, path);
    if rest.Done? {
      var x := if rv.Some? then rv.value else Str("");
      assert refs + (more + rest.refs) == refs + more + rest.refs;
      assert out + ([x] + rest.value) == out + [x] + rest.value;
    }
  }
}
