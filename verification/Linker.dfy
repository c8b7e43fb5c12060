/**
 resolveReferences (references.go:73) and deleteState (delete_state.go:33) as they
 run: loops that update one decoded property tree in place.
 */
module Linker {
  import opened Json
  import opened Paths
  import opened Trees
  import opened Outputs
  import opened Agreement
  import opened Compiler
  import opened PropertyHeap

  /** Names already waited for, in front of what the rest of the loop yields. */
  function WaitingAll(names: seq<string>, r: Linking): Linking {
    match r
    case Refused => Refused
    case Linking(waiting, props) => Linking(names + waiting, props)
  }

  lemma WaitingSnoc(names: seq<string>, name: string, r: Linking)
    ensures WaitingAll(names, Waiting(name, r)) == WaitingAll(names + [name], r)
    ensures WaitingAll([], r) == r
  {
    if r.Linking? {
      assert names + ([name] + r.waiting) == names + [name] + r.waiting;
      assert [] + r.waiting == r.waiting;
    }
  }

  /** What one reference does to the rest of the loop. */
  lemma ResolveStep(c: Cluster, refs: seq<Reference>, props: Json)
    requires refs != []
    ensures ResolveReferences(c, refs, props) ==
            if refs[0].from !in c.sources then Waiting(refs[0].from, ResolveReferences(c, refs[1..], props))
            else if ResolveFieldPath(c.sources[refs[0].from], refs[0].fieldPath).Invalid? then Refused
            else if ResolveFieldPath(c.sources[refs[0].from], refs[0].fieldPath).Pending? then
              (if OutputPathKnown(c, refs[0].from, refs[0].fieldPath)
               then Waiting(refs[0].from, ResolveReferences(c, refs[1..], props)) else Refused)
            else
              var set_ := SetPath(props, refs[0].toPath,
                                  LinkValue(refs[0].tpl, ResolveFieldPath(c.sources[refs[0].from], refs[0].fieldPath).v));
              if set_.ok then ResolveReferences(c, refs[1..], set_.tree) else Refused
  {
  }

  /**
   resolveReferences, in place: with no error the heap holds the linked tree and
   the sources waited for are listed; otherwise the linking is refused.
   */
  method ResolveReferencesInPlace(c: Cluster, refs: seq<Reference>, props: MapNode, ghost s: Shape, ghost repr: set<object>)
    returns (ok: bool, waiting: seq<string>, ghost s2: Shape)
    requires Tree(MapV(props), s) && s.Map? && repr == Foot(s)
    modifies Foot(s)
    ensures Tree(MapV(props), s2) && SameRoot(s, s2) && fresh(Foot(s2) - repr)
    ensures ResolveReferences(c, refs, Value(s)) == if ok then Linking(waiting, Value(s2)) else Refused
  {
    hide Foot, Value, Tree, ResolveReferences, ResolveFieldPath, LinkValue, OutputPathKnown, SetPath;
    s2 := s;
    waiting := [];
    ghost var own := repr;
    assert refs[0..] == refs;
    WaitingSnoc([], "", ResolveReferences(c, refs, Value(s)));
    for i := 0 to |refs|
      invariant Tree(MapV(props), s2) && s2.Map? && SameRoot(s, s2)
      invariant own == Foot(s2) && fresh(own - repr)
      invariant ResolveReferences(c, refs, Value(s)) == WaitingAll(waiting, ResolveReferences(c, refs[i..], Value(s2)))
    {
      var ref := refs[i];
      assert refs[i..][0] == ref && refs[i..][1..] == refs[i + 1..];
      ResolveStep(c, refs[i..], Value(s2));
      WaitingSnoc(waiting, ref.from, ResolveReferences(c, refs[i + 1..], Value(s2)));
      if ref.from !in c.sources {
        waiting := waiting + [ref.from];
        continue;
      }
      var field := ResolveFieldPath(c.sources[ref.from], ref.fieldPath);
      if field.Invalid? {
        return false, [], s2;
      }
      if field.Pending? {
        if !OutputPathKnown(c, ref.from, ref.fieldPath) {
          return false, [], s2;
        }
        waiting := waiting + [ref.from];
        continue;
      }
      var value, vs := Decode(LinkValue(ref.tpl, field.v));
      var done;
      ghost var before := own + Foot(vs);
      assert fresh(before - repr);
      label Before:
      done, s2 := SetPathInPlace(props, ref.toPath, value, s2, vs, before);
      own := Foot(s2);
      assert forall o :: o in own && o !in before ==> !old@Before(allocated(o));
      if !done {
        return false, [], s2;
      }
    }
    assert refs[|refs|..] == [];
    ResolveNone(c, Value(s2), waiting);
    ok := true;
  }

  lemma ResolveNone(c: Cluster, props: Json, waiting: seq<string>)
    ensures WaitingAll(waiting, ResolveReferences(c, [], props)) == Linking(waiting, props)
  {
    assert waiting + [] == waiting;
  }

  // ---------------------------------------------------------------- what is waited for

  /** The value the reference reads is there. */
  ghost predicate Arrived(c: Cluster, ref: Reference) {
    ref.from in c.sources && ResolveFieldPath(c.sources[ref.from], ref.fieldPath).Present?
  }

  /** It can never be: the path names no status field, or an output that the source's schema does not declare. */
  ghost predicate Hopeless(c: Cluster, ref: Reference) {
    ref.from in c.sources &&
    match ResolveFieldPath(c.sources[ref.from], ref.fieldPath)
    case Invalid => true
    case Pending => !OutputPathKnown(c, ref.from, ref.fieldPath)
    case Present(_) => false
  }

  /** The sources of the values that are not there, in the order of the references. */
  ghost function Awaited(c: Cluster, refs: seq<Reference>): seq<string> {
    if refs == [] then []
    else (if Arrived(c, refs[0]) then [] else [refs[0].from]) + Awaited(c, refs[1..])
  }

  /** The values that are there, set one after the other. */
  ghost function Filled(c: Cluster, refs: seq<Reference>, props: Json): Option<Json>
    decreases |refs|
  {
    if refs == [] then Some(props)
    else if !Arrived(c, refs[0]) then Filled(c, refs[1..], props)
    else
      var v := ResolveFieldPath(c.sources[refs[0].from], refs[0].fieldPath).v;
      var set_ := SetPath(props, refs[0].toPath, if refs[0].tpl == "" then v else LinkValue(refs[0].tpl, v));
      if set_.ok then Filled(c, refs[1..], set_.tree) else None
  }

  /**
   What the loop decides: it refuses if and only if some reference is hopeless or some value
   cannot be set; otherwise it waits for exactly the values that are not there, and has set
   all the others.
   */
  lemma {:induction false} LinkingExact(c: Cluster, refs: seq<Reference>, props: Json)
    ensures var r := ResolveReferences(c, refs, props);
            && (r.Refused? <==> (exists i :: 0 <= i < |refs| && Hopeless(c, refs[i])) || Filled(c, refs, props).None?)
            && (r.Linking? ==> r.waiting == Awaited(c, refs) && Some(r.props) == Filled(c, refs, props))
    decreases |refs|
  {
    hide ResolveFieldPath, OutputPathKnown, SetPath, LinkValue;
    if refs != [] {
      var ref := refs[0];
      var next := if !Arrived(c, ref) then props else SetPath(props, ref.toPath, LinkValue(ref.tpl, ResolveFieldPath(c.sources[ref.from], ref.fieldPath).v)).tree;
      BareLink(ref.tpl, if Arrived(c, ref) then ResolveFieldPath(c.sources[ref.from], ref.fieldPath).v else Null);
      LinkingExact(c, refs[1..], next);
      assert (exists i :: 0 <= i < |refs| && Hopeless(c, refs[i])) <==> Hopeless(c, ref) || exists i :: 0 <= i < |refs[1..]| && Hopeless(c, refs[1..][i]) by {
        assert forall i :: 0 <= i < |refs[1..]| ==> refs[1..][i] == refs[i + 1];
        if i :| 0 <= i < |refs| && Hopeless(c, refs[i]) && i > 0 { assert refs[1..][i - 1] == refs[i]; }
      }
    }
  }

  lemma BareLink(tpl: string, v: Json)
    ensures tpl == "" ==> LinkValue(tpl, v) == v
  {
  }

  /** With a schema at hand, a path into an output can resolve one day exactly when its first key is declared, or is the id. */
  lemma DeclaredOutputs(c: Cluster, name: string, key: string, rest: string)
    requires PlainKey(key) && (rest == "" || rest[0] == '.' || rest[0] == '[')
    requires name in c.declared && c.declared[name] != {}
    ensures OutputPathKnown(c, name, "status.outputs." + key + rest) <==> key == "id" || key in c.declared[name]
  {
    var prefix := "status.outputs.";
    var path := prefix + key + rest;
    assert path == prefix + (key + rest) && path[|prefix|..] == key + rest && prefix <= path;
    BareLenPlain(key);
    if rest == "" {
      assert key + rest == key;
    } else {
      BareLenConcat(key, rest);
    }
    assert (key + rest)[..|key|] == key;
  }

  /** Nothing is waited for exactly when every value is there. */
  lemma {:induction false} NoneAwaited(c: Cluster, refs: seq<Reference>)
    ensures Awaited(c, refs) == [] <==> forall i :: 0 <= i < |refs| ==> Arrived(c, refs[i])
  {
    hide Arrived;
    if refs != [] {
      NoneAwaited(c, refs[1..]);
      assert forall i :: 0 <= i < |refs[1..]| ==> refs[1..][i] == refs[i + 1];
      if Arrived(c, refs[0]) && forall i :: 0 <= i < |refs[1..]| ==> Arrived(c, refs[1..][i]) {
        forall i | 0 <= i < |refs| ensures Arrived(c, refs[i]) {
          if i > 0 { assert refs[1..][i - 1] == refs[i]; }
        }
      }
    }
  }

  // ---------------------------------------------------------------- deleteState

  /** Every listed path deleted, one after the other; a path that cannot be parsed deletes nothing. */
  function Strip(t: Json, paths: seq<string>): Json
    decreases |paths|
  {
    if paths == [] then t else Strip(DeletePath(t, paths[0]).tree, paths[1..])
  }

  /** deleteState: no recorded outputs, or none left to decode, is no state. */
  method DeleteState(outputs: Option<map<string, Json>>, valuesFrom: seq<string>) returns (state: Option<MapNode>, ghost s: Shape)
    ensures state.None? <==> outputs.None? || outputs.value == map[]
    ensures state.Some? ==> Tree(MapV(state.value), s) && Value(s) == Strip(Obj(outputs.value), valuesFrom) && fresh(Foot(s))
  {
    hide Foot, Value, Tree, DeletePath;
    s := Scalar(Null);
    if outputs.None? || outputs.value == map[] {
      return None, s;
    }
    var v;
    v, s := DecodeFields(Obj(outputs.value));
    assert valuesFrom[0..] == valuesFrom;
    ghost var own := Foot(s);
    for i := 0 to |valuesFrom|
      invariant Tree(v, s) && s.Map? && s.m == v.m && v.MapV? && fresh(Foot(s)) && own == Foot(s)
      invariant Strip(Obj(outputs.value), valuesFrom) == Strip(Value(s), valuesFrom[i..])
    {
      assert valuesFrom[i..][0] == valuesFrom[i] && valuesFrom[i..][1..] == valuesFrom[i + 1..];
      var found;
      found, s := DeletePathInPlace(v.m, valuesFrom[i], s, own);
      own := Foot(s);
    }
    return Some(v.m), s;
  }

  /** The positions a list of paths names; a path that starts with an index names none. */
  ghost predicate Names(paths: seq<string>, p: seq<Seg>) {
    exists path :: path in paths && ParsePath(path) == Some(p) && p[0].Key?
  }

  lemma {:induction false} StripKeepsCleared(t: Json, paths: seq<string>, q: seq<Seg>)
    requires q != [] && Cleared(t, q)
    ensures Cleared(Strip(t, paths), q)
    decreases |paths|
  {
    hide ParsePath;
    if paths != [] {
      var segs := ParsePath(paths[0]);
      if segs.Some? && !segs.value[0].Idx? { DeleteFrame(t, segs.value, q); }
      StripKeepsCleared(DeletePath(t, paths[0]).tree, paths[1..], q);
    }
  }

  /**
   No secret is left: whatever the order, overlap and syntax errors of the listed
   paths, each of them ends up resolving to nothing or to null.
   */
  lemma {:induction false} StripClears(t: Json, paths: seq<string>, path: string)
    requires t.Obj? && path in paths
    ensures GetPath(Strip(t, paths), path) in {None, Some(Null)}
    decreases |paths|
  {
    hide ParsePath;
    if path == paths[0] {
      var segs := ParsePath(path);
      if segs.Some? {
        if segs.value[0].Idx? {
          StripKeepsObject(t, paths);
        } else {
          DeleteClears(t, segs.value);
          StripKeepsCleared(DeletePath(t, path).tree, paths[1..], segs.value);
        }
      }
    } else {
      StripKeepsObject(t, [paths[0]]);
      StripClears(DeletePath(t, paths[0]).tree, paths[1..], path);
    }
  }

  lemma {:induction false} StripKeepsObject(t: Json, paths: seq<string>)
    requires t.Obj?
    ensures Strip(t, paths).Obj?
    ensures paths != [] ==> DeletePath(t, paths[0]).tree.Obj?
    decreases |paths|
  {
    hide ParsePath;
    if paths != [] {
      StripKeepsObject(DeletePath(t, paths[0]).tree, paths[1..]);
    }
  }

  /** A deletion keeps every scalar that is not at or below its position. */
  lemma {:induction false} DeleteKeepsScalar(v: Json, p: seq<Seg>, q: seq<Seg>)
    requires p != [] && !(p <= q) && GetAt(v, q).Some? && IsScalar(GetAt(v, q).value)
    ensures GetAt(DeleteAt(v, p).tree, q) == GetAt(v, q)
    decreases |p|
  {
    if q <= p {
      ScalarStops(v, p, q);
    } else {
      DeleteFrame(v, p, q);
    }
  }

  /** A path through a scalar leads nowhere, so deleting along it changes nothing. */
  lemma {:induction false} ScalarStops(v: Json, p: seq<Seg>, q: seq<Seg>)
    requires q < p && GetAt(v, q).Some? && IsScalar(GetAt(v, q).value)
    ensures DeleteAt(v, p).tree == v
    decreases |q|
  {
    if q != [] {
      assert q[0] == p[0] && q[1..] < p[1..];
      var c := Child(v, p[0]).value;
      ScalarStops(c, p[1..], q[1..]);
      if v.Obj? {
        assert v.fields[p[0].key := c] == v.fields;
      } else {
        assert v.items[p[0].index := c] == v.items;
      }
    }
  }

  /** Every scalar that is not at or below a listed path is kept. */
  lemma {:induction false} StripKeepsScalars(t: Json, paths: seq<string>, q: seq<Seg>)
    requires GetAt(t, q).Some? && IsScalar(GetAt(t, q).value)
    requires forall p :: Names(paths, p) ==> !(p <= q)
    ensures GetAt(Strip(t, paths), q) == GetAt(t, q)
    decreases |paths|
  {
    hide ParsePath;
    if paths != [] {
      var segs := ParsePath(paths[0]);
      if segs.Some? && !segs.value[0].Idx? {
        assert Names(paths, segs.value);
        DeleteKeepsScalar(t, segs.value, q);
      }
      forall p | Names(paths[1..], p) ensures !(p <= q) {
        assert Names(paths, p);
      }
      StripKeepsScalars(DeletePath(t, paths[0]).tree, paths[1..], q);
    }
  }

  /** Every position that is neither on the way to a listed path nor at or below one keeps its whole value. */
  lemma {:induction false} StripFrame(t: Json, paths: seq<string>, q: seq<Seg>)
    requires forall p :: Names(paths, p) ==> Incomparable(p, q)
    ensures GetAt(Strip(t, paths), q) == GetAt(t, q)
    decreases |paths|
  {
    hide ParsePath;
    if paths != [] {
      var segs := ParsePath(paths[0]);
      if segs.Some? && !segs.value[0].Idx? {
        assert Names(paths, segs.value);
        DeleteFrame(t, segs.value, q);
      }
      forall p | Names(paths[1..], p) ensures Incomparable(p, q) {
        assert Names(paths, p);
      }
      StripFrame(DeletePath(t, paths[0]).tree, paths[1..], q);
    }
  }
}
