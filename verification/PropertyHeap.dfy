/**
 Decoded properties as the source holds them: maps and slices on the heap,
 updated in place by SetPath and DeletePath. A ghost shape names the objects of
 a tree; it gives the tree's value and its footprint.
 */
module PropertyHeap {
  import opened Strings
  import opened Json
  import opened Paths
  import opened Trees

  /** map[string]any. */
  class MapNode {
    var entries: map<string, Any>

    constructor ()
      ensures entries == map[]
    {
      entries := map[];
    }
  }

  /** `any`, as decoding JSON fills it. */
  datatype Any =
    | NilV
    | BoolV(b: bool)
    | NumV(text: string)
    | StrV(s: string)
    | SliceV(a: array<Any>)
    | MapV(m: MapNode)

  ghost predicate IsScalar(v: Json) {
    !v.Arr? && !v.Obj?
  }

  /** Which objects make up a tree. A hole stands for a part that is described elsewhere. */
  datatype Shape =
    | Scalar(v: Json)
    | Hole(at: Any)
    | Slice(a: array<Any>, items: seq<Shape>)
    | Map(m: MapNode, fields: map<string, Shape>)

  /** The objects of a tree. */
  ghost function Foot(s: Shape): (r: set<object>)
    ensures s.Slice? ==> s.a in r && forall i :: 0 <= i < |s.items| ==> Foot(s.items[i]) <= r
    ensures s.Map? ==> s.m in r && forall k :: k in s.fields ==> Foot(s.fields[k]) <= r
    decreases s, 1, 0
  {
    match s
    case Scalar(_) => {}
    case Hole(_) => {}
    case Slice(a, items) => {a} + FootItems(s, 0)
    case Map(m, fields) => {m} + FootFields(s, SortedKeys(fields.Keys))
  }

  ghost function FootItems(s: Shape, i: nat): (r: set<object>)
    requires s.Slice? && i <= |s.items|
    ensures forall j :: i <= j < |s.items| ==> Foot(s.items[j]) <= r
    decreases s, 0, |s.items| - i
  {
    if i == |s.items| then {} else Foot(s.items[i]) + FootItems(s, i + 1)
  }

  ghost function FootFields(s: Shape, keys: seq<string>): (r: set<object>)
    requires s.Map? && forall k :: k in keys ==> k in s.fields
    ensures forall k :: k in keys ==> Foot(s.fields[k]) <= r
    decreases s, 0, |keys|
  {
    if keys == [] then {} else Foot(s.fields[keys[0]]) + FootFields(s, keys[1..])
  }

  /** The value a shape stands for. */
  ghost function Value(s: Shape): Json {
    match s
    case Scalar(v) => v
    case Hole(_) => Null
    case Slice(_, items) => Arr(seq(|items|, i requires 0 <= i < |items| => Value(items[i])))
    case Map(_, fields) => Obj(map k | k in fields :: Value(fields[k]))
  }

  /** No object occurs twice in the tree: decoding never shares. */
  ghost predicate Separate(s: Shape) {
    match s
    case Scalar(v) => IsScalar(v)
    case Hole(_) => false
    case Slice(a, items) =>
      && (forall i :: 0 <= i < |items| ==> Separate(items[i]) && a !in Foot(items[i]))
      && (forall i, j :: 0 <= i < |items| && 0 <= j < |items| && i != j ==> Foot(items[i]) !! Foot(items[j]))
    case Map(m, fields) =>
      && (forall k :: k in fields ==> Separate(fields[k]) && m !in Foot(fields[k]))
      && (forall k, l :: k in fields && l in fields && k != l ==> Foot(fields[k]) !! Foot(fields[l]))
  }

  ghost predicate HoldsScalar(v: Any, j: Json) {
    match j
    case Null => v == NilV
    case Bool(b) => v == BoolV(b)
    case Num(t) => v == NumV(t)
    case Str(s) => v == StrV(s)
    case _ => false
  }

  /** The heap holds the tree of shape `s` at `v`. */
  ghost predicate Holds(v: Any, s: Shape)
    reads Foot(s)
    decreases s
  {
    match s
    case Scalar(j) => HoldsScalar(v, j)
    case Hole(x) => v == x
    case Slice(a, items) => v == SliceV(a) && a.Length == |items| && forall i :: 0 <= i < |items| ==> Holds(a[i], items[i])
    case Map(m, fields) => v == MapV(m) && m.entries.Keys == fields.Keys && forall k :: k in fields ==> Holds(m.entries[k], fields[k])
  }

  // ------------------------------------------------------------ shapes, one step

  ghost function Kid(s: Shape, seg: Seg): Option<Shape> {
    if s.Map? && seg.Key? && seg.key in s.fields then Some(s.fields[seg.key])
    else if s.Slice? && seg.Idx? && seg.index < |s.items| then Some(s.items[seg.index])
    else None
  }

  ghost predicate Accepts(s: Shape, seg: Seg) {
    (s.Map? && seg.Key?) || (s.Slice? && seg.Idx? && seg.index < |s.items|)
  }

  ghost function PutKid(s: Shape, seg: Seg, c: Shape): Shape
    requires Accepts(s, seg)
  {
    if s.Map? then Map(s.m, s.fields[seg.key := c]) else Slice(s.a, s.items[seg.index := c])
  }

  /** The object at the root of a container. */
  ghost function Root(s: Shape): object
    requires s.Map? || s.Slice?
  {
    if s.Map? then s.m else s.a
  }

  lemma ValueKid(s: Shape, seg: Seg)
    ensures Accepts(s, seg) <==> Fits(Value(s), seg) && (s.Map? || s.Slice?)
    ensures Kid(s, seg).Some? ==> Child(Value(s), seg) == Some(Value(Kid(s, seg).value))
    ensures Kid(s, seg).None? && (s.Map? || s.Slice?) ==> Child(Value(s), seg) == None
  {
  }

  lemma ValuePutKid(s: Shape, seg: Seg, c: Shape)
    requires Accepts(s, seg)
    ensures Fits(Value(s), seg) && Value(PutKid(s, seg, c)) == Put(Value(s), seg, Value(c))
  {
    if s.Map? {
      ValuePutField(s, seg.key, c);
    } else {
      assert Value(PutKid(s, seg, c)).items == Put(Value(s), seg, Value(c)).items;
    }
  }

  lemma ValuePutField(s: Shape, key: string, c: Shape)
    requires s.Map?
    ensures Value(Map(s.m, s.fields[key := c])) == Obj(Value(s).fields[key := Value(c)])
  {
    var put, old_ := Value(Map(s.m, s.fields[key := c])).fields, Value(s).fields;
    assert put.Keys == s.fields.Keys + {key} == old_[key := Value(c)].Keys;
    forall k | k in put ensures put[k] == old_[key := Value(c)][k] {
      if k != key { assert old_[k] == Value(s.fields[k]); }
    }
    assert put == old_[key := Value(c)];
  }

  lemma FootKid(s: Shape, seg: Seg)
    requires Kid(s, seg).Some?
    ensures Foot(Kid(s, seg).value) <= Foot(s)
    ensures Separate(s) ==> Separate(Kid(s, seg).value) && Root(s) !in Foot(Kid(s, seg).value)
  {
  }

  lemma FootPutKid(s: Shape, seg: Seg, c: Shape)
    requires Accepts(s, seg)
    ensures Foot(PutKid(s, seg, c)) <= Foot(s) + Foot(c)
  {
    var r := PutKid(s, seg, c);
    if s.Map? {
      FieldsWithin(r, SortedKeys(r.fields.Keys), Foot(s) + Foot(c));
    } else {
      ItemsWithin(r, 0, Foot(s) + Foot(c));
    }
  }

  lemma {:induction false} FieldsWithin(s: Shape, keys: seq<string>, o: set<object>)
    requires s.Map? && (forall k :: k in keys ==> k in s.fields) && forall k :: k in keys ==> Foot(s.fields[k]) <= o
    ensures FootFields(s, keys) <= o
    decreases |keys|
  {
    if keys != [] { FieldsWithin(s, keys[1..], o); }
  }

  lemma {:induction false} ItemsWithin(s: Shape, i: nat, o: set<object>)
    requires s.Slice? && i <= |s.items| && forall j :: i <= j < |s.items| ==> Foot(s.items[j]) <= o
    ensures FootItems(s, i) <= o
    decreases |s.items| - i
  {
    if i < |s.items| { ItemsWithin(s, i + 1, o); }
  }

  /** A subtree made of its old objects and of new ones keeps the tree free of sharing. */
  lemma SeparatePutKid(s: Shape, seg: Seg, c: Shape)
    requires Accepts(s, seg) && Separate(s) && Separate(c)
    requires if Kid(s, seg).Some? then Foot(c) * Foot(s) <= Foot(Kid(s, seg).value) else Foot(c) !! Foot(s)
    ensures Separate(PutKid(s, seg, c))
  {
    hide Foot;
    RootInFoot(s);
    OthersApart(s, seg, c);
    if s.Map? { PutFieldSeparate(s, seg.key, c); } else { PutItemSeparate(s, seg.index, c); }
  }

  lemma PutFieldSeparate(s: Shape, key: string, c: Shape)
    requires s.Map? && Separate(s) && Separate(c) && s.m !in Foot(c)
    requires forall t :: t != Key(key) && Kid(s, t).Some? ==> Foot(Kid(s, t).value) !! Foot(c)
    ensures Separate(PutKid(s, Key(key), c))
  {
    hide Foot;
    var r := s.fields[key := c];
    forall k | k in r ensures Separate(r[k]) && s.m !in Foot(r[k]) {
    }
    forall k, l | k in r && l in r && k != l ensures Foot(r[k]) !! Foot(r[l]) {
      assert k != key ==> Kid(s, Key(k)) == Some(r[k]);
      assert l != key ==> Kid(s, Key(l)) == Some(r[l]);
    }
  }

  lemma PutItemSeparate(s: Shape, index: nat, c: Shape)
    requires s.Slice? && index < |s.items| && Separate(s) && Separate(c) && s.a !in Foot(c)
    requires forall t :: t != Idx(index) && Kid(s, t).Some? ==> Foot(Kid(s, t).value) !! Foot(c)
    ensures Separate(PutKid(s, Idx(index), c))
  {
    hide Foot;
    assert forall i :: 0 <= i < |s.items| && i != index ==> Kid(s, Idx(i)) == Some(s.items[i]);
  }

  lemma OthersApart(s: Shape, seg: Seg, c: Shape)
    requires Accepts(s, seg) && Separate(s)
    requires if Kid(s, seg).Some? then Foot(c) * Foot(s) <= Foot(Kid(s, seg).value) else Foot(c) !! Foot(s)
    ensures Root(s) !in Foot(c)
    ensures forall t :: t != seg && Kid(s, t).Some? ==> Foot(Kid(s, t).value) !! Foot(c)
  {
    hide Foot;
    KidsApart(s, seg);
    RootInFoot(s);
    if Kid(s, seg).Some? { FootKid(s, seg); }
    forall t | Kid(s, t).Some? && t != seg ensures Foot(Kid(s, t).value) !! Foot(c) {
      FootKid(s, t);
    }
  }

  lemma RootInFoot(s: Shape)
    requires s.Map? || s.Slice?
    ensures Root(s) in Foot(s)
  {
  }

  lemma KidsApart(s: Shape, seg: Seg)
    requires Separate(s)
    ensures Kid(s, seg).Some? ==>
              forall t :: t != seg && Kid(s, t).Some? ==> Foot(Kid(s, t).value) !! Foot(Kid(s, seg).value)
  {
    hide Foot;
  }

  // ---------------------------------------------------------- shapes, at a depth

  ghost function At(s: Shape, pos: seq<Seg>): Option<Shape> {
    if pos == [] then Some(s)
    else
      match Kid(s, pos[0])
      case None => None
      case Some(c) => At(c, pos[1..])
  }

  ghost function Replace(s: Shape, pos: seq<Seg>, c: Shape): Shape
    requires At(s, pos).Some?
    decreases |pos|
  {
    if pos == [] then c else PutKid(s, pos[0], Replace(Kid(s, pos[0]).value, pos[1..], c))
  }

  lemma {:induction false} FootAt(s: Shape, pos: seq<Seg>)
    requires At(s, pos).Some?
    ensures Foot(At(s, pos).value) <= Foot(s)
    ensures Separate(s) ==> Separate(At(s, pos).value)
    decreases |pos|
  {
    if pos != [] {
      FootKid(s, pos[0]);
      FootAt(Kid(s, pos[0]).value, pos[1..]);
    }
  }

  lemma {:induction false} FootReplace(s: Shape, pos: seq<Seg>, c: Shape)
    requires At(s, pos).Some?
    ensures Foot(Replace(s, pos, c)) <= Foot(s) + Foot(c)
    decreases |pos|
  {
    if pos != [] {
      var kid := Kid(s, pos[0]).value;
      FootKid(s, pos[0]);
      FootReplace(kid, pos[1..], c);
      FootPutKid(s, pos[0], Replace(kid, pos[1..], c));
    }
  }

  lemma {:induction false} SeparateReplace(s: Shape, pos: seq<Seg>, c: Shape)
    requires At(s, pos).Some? && Separate(s) && Separate(c)
    requires Foot(c) * Foot(s) <= Foot(At(s, pos).value)
    ensures Separate(Replace(s, pos, c))
    decreases |pos|
  {
    if pos != [] {
      var kid := Kid(s, pos[0]).value;
      FootKid(s, pos[0]);
      FootAt(kid, pos[1..]);
      SeparateReplace(kid, pos[1..], c);
      FootReplace(kid, pos[1..], c);
      SeparatePutKid(s, pos[0], Replace(kid, pos[1..], c));
    }
  }

  /** What replacing a part of a shape does to its value. */
  ghost function Graft(v: Json, pos: seq<Seg>, x: Json): Json
    requires GetAt(v, pos).Some?
    decreases |pos|
  {
    if pos == [] then x else Put(v, pos[0], Graft(Child(v, pos[0]).value, pos[1..], x))
  }

  lemma {:induction false} ValueAt(s: Shape, pos: seq<Seg>)
    requires At(s, pos).Some?
    ensures GetAt(Value(s), pos) == Some(Value(At(s, pos).value))
    decreases |pos|
  {
    if pos != [] {
      ValueKid(s, pos[0]);
      ValueAt(Kid(s, pos[0]).value, pos[1..]);
    }
  }

  lemma {:induction false} ValueReplace(s: Shape, pos: seq<Seg>, c: Shape)
    requires At(s, pos).Some?
    ensures GetAt(Value(s), pos).Some? && Value(Replace(s, pos, c)) == Graft(Value(s), pos, Value(c))
    decreases |pos|
  {
    ValueAt(s, pos);
    if pos != [] {
      var kid := Kid(s, pos[0]).value;
      ValueKid(s, pos[0]);
      ValueReplace(kid, pos[1..], c);
      ValuePutKid(s, pos[0], Replace(kid, pos[1..], c));
    }
  }

  lemma {:induction false} GraftSnoc(v: Json, pos: seq<Seg>, seg: Seg, x: Json)
    requires GetAt(v, pos).Some? && Child(GetAt(v, pos).value, seg).Some?
    ensures GetAt(v, pos + [seg]) == Child(GetAt(v, pos).value, seg)
    ensures Graft(v, pos + [seg], x) == Graft(v, pos, Put(GetAt(v, pos).value, seg, x))
    decreases |pos|
  {
    if pos == [] {
      assert [] + [seg] == [seg] && [seg][1..] == [];
    } else {
      GraftSnoc(Child(v, pos[0]).value, pos[1..], seg, x);
      assert (pos + [seg])[1..] == pos[1..] + [seg];
    }
  }

  lemma {:induction false} GraftTwice(v: Json, pos: seq<Seg>, x: Json, y: Json)
    requires GetAt(v, pos).Some?
    ensures GetAt(Graft(v, pos, x), pos) == Some(x)
    ensures Graft(Graft(v, pos, x), pos, y) == Graft(v, pos, y)
    ensures Graft(v, pos, GetAt(v, pos).value) == v
    decreases |pos|
  {
    if pos != [] {
      var c := Child(v, pos[0]).value;
      GraftTwice(c, pos[1..], x, y);
      ChildAfterPut(v, pos[0], Graft(c, pos[1..], x), pos[0]);
      PutTwice(v, pos[0], Graft(c, pos[1..], x), pos[0], Graft(c, pos[1..], y));
      if v.Obj? {
        assert v.fields[pos[0].key := c] == v.fields;
      } else {
        assert v.items[pos[0].index := c] == v.items;
      }
    }
  }

  // ------------------------------------------------------- trees with a hole

  lemma {:induction false} ReplaceSnoc(s: Shape, pos: seq<Seg>, seg: Seg, x: Shape)
    requires At(s, pos).Some? && Kid(At(s, pos).value, seg).Some?
    ensures At(s, pos + [seg]) == Kid(At(s, pos).value, seg)
    ensures Replace(s, pos + [seg], x) == Replace(s, pos, PutKid(At(s, pos).value, seg, x))
    decreases |pos|
  {
    if pos == [] {
      assert [] + [seg] == [seg] && [seg][1..] == [];
    } else {
      ReplaceSnoc(Kid(s, pos[0]).value, pos[1..], seg, x);
      assert (pos + [seg])[1..] == pos[1..] + [seg];
    }
  }

  lemma {:induction false} ReplaceTwice(s: Shape, pos: seq<Seg>, x: Shape, y: Shape)
    requires At(s, pos).Some?
    ensures At(Replace(s, pos, x), pos) == Some(x)
    ensures Replace(Replace(s, pos, x), pos, y) == Replace(s, pos, y)
    decreases |pos|
  {
    if pos != [] {
      var kid := Kid(s, pos[0]).value;
      ReplaceTwice(kid, pos[1..], x, y);
      var a, b := Replace(kid, pos[1..], x), Replace(kid, pos[1..], y);
      if s.Map? {
        assert s.fields[pos[0].key := a][pos[0].key := b] == s.fields[pos[0].key := b];
      } else {
        assert s.items[pos[0].index := a][pos[0].index := b] == s.items[pos[0].index := b];
      }
    }
  }

  /** The rest of a tree around a hole shares nothing with what was there. */
  lemma {:induction false} HoleApart(s: Shape, pos: seq<Seg>, x: Any)
    requires At(s, pos).Some? && Separate(s)
    ensures Foot(Replace(s, pos, Hole(x))) !! Foot(At(s, pos).value)
    ensures Foot(Replace(s, pos, Hole(x))) <= Foot(s)
    decreases |pos|
  {
    FootReplace(s, pos, Hole(x));
    if pos != [] {
      var kid := Kid(s, pos[0]).value;
      FootKid(s, pos[0]);
      FootAt(kid, pos[1..]);
      HoleApart(kid, pos[1..], x);
      KidsApart(s, pos[0]);
      PutKidApart(s, pos[0], Replace(kid, pos[1..], Hole(x)), Foot(At(s, pos).value));
    }
  }

  lemma PutKidApart(s: Shape, seg: Seg, c: Shape, o: set<object>)
    requires Accepts(s, seg) && Root(s) !in o && Foot(c) !! o
    requires forall t :: t != seg && Kid(s, t).Some? ==> Foot(Kid(s, t).value) !! o
    ensures Foot(PutKid(s, seg, c)) !! o
  {
    var r := PutKid(s, seg, c);
    if s.Map? {
      forall k | k in r.fields ensures Foot(r.fields[k]) !! o {
        if k != seg.key { assert Kid(s, Key(k)).Some?; }
      }
      FieldsApart(r, SortedKeys(r.fields.Keys), o);
    } else {
      forall i | 0 <= i < |r.items| ensures Foot(r.items[i]) !! o {
        if i != seg.index { assert Kid(s, Idx(i)).Some?; }
      }
      ItemsApart(r, 0, o);
    }
  }

  lemma {:induction false} FieldsApart(s: Shape, keys: seq<string>, o: set<object>)
    requires s.Map? && (forall k :: k in keys ==> k in s.fields) && forall k :: k in keys ==> Foot(s.fields[k]) !! o
    ensures FootFields(s, keys) !! o
    decreases |keys|
  {
    if keys != [] { FieldsApart(s, keys[1..], o); }
  }

  lemma {:induction false} ItemsApart(s: Shape, i: nat, o: set<object>)
    requires s.Slice? && i <= |s.items| && forall j :: i <= j < |s.items| ==> Foot(s.items[j]) !! o
    ensures FootItems(s, i) !! o
    decreases |s.items| - i
  {
    if i < |s.items| { ItemsApart(s, i + 1, o); }
  }

  /** Filling the hole with what the heap holds there. */
  lemma {:induction false} Plug(v: Any, s: Shape, pos: seq<Seg>, cur: Any, c: Shape)
    requires At(s, pos).Some? && Holds(v, Replace(s, pos, Hole(cur))) && Holds(cur, c)
    ensures Holds(v, Replace(s, pos, c))
    decreases |pos|
  {
    if pos != [] {
      var seg, kid := pos[0], Kid(s, pos[0]).value;
      if s.Map? {
        Plug(s.m.entries[seg.key], kid, pos[1..], cur, c);
      } else {
        Plug(s.a[seg.index], kid, pos[1..], cur, c);
      }
    }
  }

  /** Going one step down: the hole moves to the child. */
  lemma StepDown(v: Any, s: Shape, pos: seq<Seg>, cur: Any, seg: Seg, next: Any)
    requires At(s, pos).Some? && Kid(At(s, pos).value, seg).Some?
    requires Holds(v, Replace(s, pos, Hole(cur))) && Holds(cur, At(s, pos).value)
    requires next == if At(s, pos).value.Map? then At(s, pos).value.m.entries[seg.key] else At(s, pos).value.a[seg.index]
    ensures At(s, pos + [seg]) == Kid(At(s, pos).value, seg)
    ensures Holds(v, Replace(s, pos + [seg], Hole(next))) && Holds(next, At(s, pos + [seg]).value)
  {
    var c := At(s, pos).value;
    ReplaceSnoc(s, pos, seg, Hole(next));
    assert Holds(cur, PutKid(c, seg, Hole(next)));
    Plug(v, s, pos, cur, PutKid(c, seg, Hole(next)));
  }

  // ------------------------------------------------------------ the tree, owned

  /** The heap holds a tree without sharing at `v`. */
  ghost predicate Tree(v: Any, s: Shape)
    reads Foot(s)
  {
    Separate(s) && Holds(v, s)
  }

  /** Replacing the part under the cursor by a container that the heap now holds there. */
  lemma Written(root: Any, s: Shape, pos: seq<Seg>, cur: Any, c: Shape)
    requires At(s, pos).Some? && Separate(s) && Separate(c)
    requires Holds(root, Replace(s, pos, Hole(cur))) && Holds(cur, c)
    requires Foot(c) * Foot(s) <= Foot(At(s, pos).value)
    ensures Tree(root, Replace(s, pos, c))
    ensures GetAt(Value(s), pos).Some? && Value(Replace(s, pos, c)) == Graft(Value(s), pos, Value(c))
    ensures Foot(Replace(s, pos, c)) <= Foot(s) + Foot(c)
  {
    ValueAt(s, pos);
    Plug(root, s, pos, cur, c);
    SeparateReplace(s, pos, c);
    ValueReplace(s, pos, c);
    FootReplace(s, pos, c);
  }

  // -------------------------------------------------------------------- SetPath

  /** What remains of an update once the cursor stands at `pos`. */
  ghost function Remaining(t: Json, pos: seq<Seg>, sub: Update): Update
    requires GetAt(t, pos).Some?
  {
    Update(Graft(t, pos, sub.tree), sub.ok)
  }

  lemma RemainingAll(t: Json, sub: Update)
    ensures GetAt(t, []) == Some(t) && Remaining(t, [], sub) == sub
  {
  }

  lemma SetDescends(t: Json, pos: seq<Seg>, rest: seq<Seg>, value: Json)
    requires GetAt(t, pos).Some? && |rest| > 1
    requires Child(GetAt(t, pos).value, rest[0]).Some? && !Creates(GetAt(t, pos).value, rest[0])
    ensures GetAt(t, pos + [rest[0]]) == Child(GetAt(t, pos).value, rest[0])
    ensures Remaining(t, pos, SetAt(GetAt(t, pos).value, rest, value))
         == Remaining(t, pos + [rest[0]], SetAt(Child(GetAt(t, pos).value, rest[0]).value, rest[1..], value))
  {
    GraftSnoc(t, pos, rest[0], SetAt(Child(GetAt(t, pos).value, rest[0]).value, rest[1..], value).tree);
  }

  /** Creating the missing object first does not change what the update comes to. */
  lemma SetCreates(t: Json, pos: seq<Seg>, rest: seq<Seg>, value: Json)
    requires GetAt(t, pos).Some? && |rest| > 1 && rest[0].Key? && !rest[1].Idx?
    requires Creates(GetAt(t, pos).value, rest[0])
    ensures var t2 := Graft(t, pos, Put(GetAt(t, pos).value, rest[0], Obj(map[])));
            GetAt(t2, pos + [rest[0]]) == Some(Obj(map[]))
            && Remaining(t, pos, SetAt(GetAt(t, pos).value, rest, value))
            == Remaining(t2, pos + [rest[0]], SetAt(Obj(map[]), rest[1..], value))
  {
    var v, seg := GetAt(t, pos).value, rest[0];
    var w := Put(v, seg, Obj(map[]));
    var t2 := Graft(t, pos, w);
    var x := SetAt(Obj(map[]), rest[1..], value).tree;
    GraftTwice(t, pos, w, Put(w, seg, x));
    ChildAfterPut(v, seg, Obj(map[]), seg);
    GraftSnoc(t2, pos, seg, x);
    PutTwice(v, seg, Obj(map[]), seg, x);
  }

  lemma Unchanged(t: Json, pos: seq<Seg>)
    requires GetAt(t, pos).Some?
    ensures Graft(t, pos, GetAt(t, pos).value) == t
  {
    GraftTwice(t, pos, Null, Null);
  }

  /** A cursor at `pos` of the tree at `root`: `cur` is what the heap holds there. */
  ghost predicate Standing(root: Any, s: Shape, pos: seq<Seg>, cur: Any)
    reads Foot(s)
  {
    Separate(s) && At(s, pos).Some?
    && (HoleApart(s, pos, cur); FootAt(s, pos);
        Holds(root, Replace(s, pos, Hole(cur))) && Holds(cur, At(s, pos).value))
  }

  /** The same tree object at the root. */
  ghost predicate SameRoot(s: Shape, s2: Shape) {
    s.Map? ==> s2.Map? && s2.m == s.m
  }

  lemma SameRootReplace(s: Shape, pos: seq<Seg>, seg: Seg, c: Shape)
    requires At(s, pos).Some? && Accepts(At(s, pos).value, seg)
    ensures SameRoot(s, Replace(s, pos, PutKid(At(s, pos).value, seg, c)))
  {
  }

  /** What a write below the cursor makes of the tree. */
  ghost predicate PutBelow(root: Any, s: Shape, pos: seq<Seg>, cur: Any, seg: Seg, vs: Shape, s2: Shape)
    reads Foot(s2)
  {
    Standing(root, s2, pos, cur) && SameRoot(s, s2) && Foot(s2) <= Foot(s) + Foot(vs)
    && At(s, pos).Some? && Accepts(At(s, pos).value, seg) && At(s2, pos) == Some(PutKid(At(s, pos).value, seg, vs))
    && GetAt(Value(s), pos).Some? && Fits(GetAt(Value(s), pos).value, seg)
    && Value(s2) == Graft(Value(s), pos, Put(GetAt(Value(s), pos).value, seg, Value(vs)))
  }

  lemma PutBelowHolds(root: Any, s: Shape, pos: seq<Seg>, cur: Any, seg: Seg, vs: Shape)
    requires At(s, pos).Some? && Separate(s) && Accepts(At(s, pos).value, seg)
    requires Separate(vs) && Foot(vs) !! Foot(s)
    requires Holds(root, Replace(s, pos, Hole(cur))) && Holds(cur, PutKid(At(s, pos).value, seg, vs))
    ensures PutBelow(root, s, pos, cur, seg, vs, Replace(s, pos, PutKid(At(s, pos).value, seg, vs)))
  {
    var c := At(s, pos).value;
    var c2 := PutKid(c, seg, vs);
    FootAt(s, pos);
    FootPutKid(c, seg, vs);
    if Kid(c, seg).Some? { FootKid(c, seg); }
    SeparatePutKid(c, seg, vs);
    Written(root, s, pos, cur, c2);
    ValueAt(s, pos);
    ValuePutKid(c, seg, vs);
    ReplaceTwice(s, pos, c2, Hole(cur));
    SameRootReplace(s, pos, seg, vs);
  }

  ghost predicate MapUnder(m: MapNode, c: Shape)
    reads Foot(c)
  {
    c.Map? && c.m == m && m in Foot(c) && m.entries.Keys == c.fields.Keys
    && forall k :: k in c.fields ==> Holds(m.entries[k], c.fields[k]) && m !in Foot(c.fields[k])
  }

  ghost predicate SliceUnder(a: array<Any>, c: Shape)
    reads Foot(c)
  {
    c.Slice? && c.a == a && a in Foot(c) && a.Length == |c.items|
    && forall i :: 0 <= i < |c.items| ==> Holds(a[i], c.items[i]) && a !in Foot(c.items[i])
  }

  /** The container under the cursor, and that no other part of the tree contains its object. */
  lemma UnderCursor(root: Any, s: Shape, pos: seq<Seg>, cur: Any)
    requires Standing(root, s, pos, cur)
    ensures Separate(s) && At(s, pos).Some? && Holds(root, Replace(s, pos, Hole(cur)))
    ensures Separate(At(s, pos).value) && Holds(cur, At(s, pos).value) && Foot(At(s, pos).value) <= Foot(s)
    ensures cur.MapV? ==> MapUnder(cur.m, At(s, pos).value) && cur.m !in Foot(Replace(s, pos, Hole(cur)))
    ensures cur.SliceV? ==> SliceUnder(cur.a, At(s, pos).value) && cur.a !in Foot(Replace(s, pos, Hole(cur)))
  {
    HoleApart(s, pos, cur);
    FootAt(s, pos);
  }

  /** node[key] = value, below the cursor. */
  method PutEntry(node: MapNode, key: string, value: Any, ghost root: Any, ghost s: Shape, ghost pos: seq<Seg>, ghost vs: Shape)
    returns (ghost s2: Shape)
    requires Standing(root, s, pos, MapV(node)) && Tree(value, vs) && Foot(vs) !! Foot(s)
    modifies node
    ensures PutBelow(root, s, pos, MapV(node), Key(key), vs, s2)
  {
    hide Foot, Replace, Value, Standing, Separate, Holds, PutBelow, At;
    UnderCursor(root, s, pos, MapV(node));
    ghost var c := At(s, pos).value;
    node.entries := node.entries[key := value];
    EntryHeld(node, key, value, c, vs);
    PutBelowHolds(root, s, pos, MapV(node), Key(key), vs);
    s2 := Replace(s, pos, PutKid(c, Key(key), vs));
  }

  lemma EntryHeld(node: MapNode, key: string, value: Any, c: Shape, vs: Shape)
    requires c.Map? && c.m == node && Separate(c) && key in node.entries && node.entries[key] == value && Holds(value, vs)
    requires node.entries.Keys == c.fields.Keys + {key}
    requires forall k :: k in c.fields && k != key ==> Holds(node.entries[k], c.fields[k])
    ensures Holds(MapV(node), PutKid(c, Key(key), vs))
  {
  }

  /** node[index] = value, below the cursor. */
  method PutItem(node: array<Any>, index: nat, value: Any, ghost root: Any, ghost s: Shape, ghost pos: seq<Seg>, ghost vs: Shape)
    returns (ghost s2: Shape)
    requires Standing(root, s, pos, SliceV(node)) && Tree(value, vs) && Foot(vs) !! Foot(s)
    requires index < node.Length
    modifies node
    ensures PutBelow(root, s, pos, SliceV(node), Idx(index), vs, s2)
  {
    hide Foot, Replace, Value, Standing, Separate, PutBelow, At;
    UnderCursor(root, s, pos, SliceV(node));
    ghost var c := At(s, pos).value;
    node[index] := value;
    assert Holds(SliceV(node), PutKid(c, Idx(index), vs));
    PutBelowHolds(root, s, pos, SliceV(node), Idx(index), vs);
    s2 := Replace(s, pos, PutKid(c, Idx(index), vs));
  }

  /** Leaving the tree as it is. */
  lemma Finish(root: Any, s: Shape, pos: seq<Seg>, cur: Any)
    requires At(s, pos).Some? && Holds(root, Replace(s, pos, Hole(cur))) && Holds(cur, At(s, pos).value)
    ensures Holds(root, s) && GetAt(Value(s), pos) == Some(Value(At(s, pos).value))
    ensures Graft(Value(s), pos, Value(At(s, pos).value)) == Value(s)
  {
    Plug(root, s, pos, cur, At(s, pos).value);
    ReplaceSame(s, pos);
    ValueAt(s, pos);
    Unchanged(Value(s), pos);
  }

  lemma {:induction false} ReplaceSame(s: Shape, pos: seq<Seg>)
    requires At(s, pos).Some?
    ensures Replace(s, pos, At(s, pos).value) == s
    decreases |pos|
  {
    if pos != [] {
      var kid := Kid(s, pos[0]).value;
      ReplaceSame(kid, pos[1..]);
      if s.Map? {
        assert s.fields[pos[0].key := kid] == s.fields;
      } else {
        assert s.items[pos[0].index := kid] == s.items;
      }
    }
  }

  // ----------------------------------------------------- SetPath and DeletePath

  /** What the cursor's Go value says about the value at its position. */
  lemma CursorValue(root: Any, s: Shape, pos: seq<Seg>, cur: Any, seg: Seg)
    requires Standing(root, s, pos, cur)
    ensures GetAt(Value(s), pos).Some?
    ensures cur.MapV? ==> cur.m in Foot(s) && (Fits(GetAt(Value(s), pos).value, seg) <==> seg.Key?)
    ensures cur.MapV? && seg.Key? ==>
              (Creates(GetAt(Value(s), pos).value, seg) <==> seg.key !in cur.m.entries || cur.m.entries[seg.key].NilV?)
              && (Child(GetAt(Value(s), pos).value, seg).Some? <==> seg.key in cur.m.entries)
    ensures cur.MapV? && seg.Idx? ==> Child(GetAt(Value(s), pos).value, seg).None?
    ensures cur.SliceV? ==>
              cur.a in Foot(s) && (Fits(GetAt(Value(s), pos).value, seg) <==> seg.Idx? && seg.index < cur.a.Length)
              && !Creates(GetAt(Value(s), pos).value, seg)
              && (Child(GetAt(Value(s), pos).value, seg).Some? <==> Fits(GetAt(Value(s), pos).value, seg))
    ensures cur.SliceV? ==> GetAt(Value(s), pos).value.Arr? && (seg.Idx? && seg.index < cur.a.Length ==> seg.index < |GetAt(Value(s), pos).value.items|)
    ensures !cur.MapV? && !cur.SliceV? ==>
              !Fits(GetAt(Value(s), pos).value, seg) && Child(GetAt(Value(s), pos).value, seg) == None
  {
    ValueAt(s, pos);
    UnderCursor(root, s, pos, cur);
    var c := At(s, pos).value;
    ValueKid(c, seg);
    if cur.MapV? && seg.Key? && seg.key in c.fields {
      NullIsNil(cur.m.entries[seg.key], c.fields[seg.key]);
    }
  }

  lemma NullIsNil(v: Any, s: Shape)
    requires Holds(v, s) && Separate(s)
    ensures Value(s).Null? <==> v.NilV?
  {
  }

  /** Going one step down keeps the cursor standing. */
  lemma Descend(root: Any, s: Shape, pos: seq<Seg>, cur: Any, seg: Seg, next: Any)
    requires Standing(root, s, pos, cur)
    requires (cur.MapV? && seg.Key? && seg.key in cur.m.entries && next == cur.m.entries[seg.key])
          || (cur.SliceV? && seg.Idx? && seg.index < cur.a.Length && next == cur.a[seg.index])
    ensures Standing(root, s, pos + [seg], next)
    ensures At(s, pos).Some? && At(s, pos + [seg]) == Kid(At(s, pos).value, seg)
    ensures GetAt(Value(s), pos) == Some(Value(At(s, pos).value))
    ensures GetAt(Value(s), pos + [seg]) == Child(Value(At(s, pos).value), seg)
  {
    UnderCursor(root, s, pos, cur);
    StepDown(root, s, pos, cur, seg, next);
    ValueAt(s, pos);
    ValueAt(s, pos + [seg]);
    ValueKid(At(s, pos).value, seg);
  }

  lemma StandAtRoot(root: Any, s: Shape)
    requires Tree(root, s)
    ensures Standing(root, s, [], root)
  {
  }

  lemma StandingTree(root: Any, s: Shape, pos: seq<Seg>, cur: Any)
    requires Standing(root, s, pos, cur)
    ensures Tree(root, s)
    ensures At(s, pos).Some? && GetAt(Value(s), pos) == Some(Value(At(s, pos).value))
    ensures Graft(Value(s), pos, Value(At(s, pos).value)) == Value(s)
  {
    Finish(root, s, pos, cur);
  }

  /**
   SetPath (path.go:129), in place: the heap ends up holding exactly the tree that
   the update yields. `repr` names the objects of the tree and of the value.
   */
  method SetPathInPlace(props: MapNode, path: string, value: Any, ghost s: Shape, ghost vs: Shape, ghost repr: set<object>)
    returns (ok: bool, ghost s2: Shape)
    requires Tree(MapV(props), s) && s.Map? && Tree(value, vs) && Foot(vs) !! Foot(s) && repr == Foot(s) + Foot(vs)
    modifies Foot(s)
    ensures Tree(MapV(props), s2) && SameRoot(s, s2)
    ensures Update(Value(s2), ok) == SetPath(Value(s), path, Value(vs))
    ensures fresh(Foot(s2) - repr)
  {
    hide Foot, Holds, Separate, Value, SetAt, ParsePath;
    s2 := s;
    var parsed := ParsePathLoop(path);
    if parsed.None? || parsed.value[0].Idx? {
      return false, s2;
    }
    label Parsed:
    ok, s2 := SetSegments(props, parsed.value, value, s, vs, repr);
    assert forall o :: o in Foot(s2) && o !in repr ==> !old@Parsed(allocated(o));
  }

  /** The loop of SetPath: a cursor walks down, creating missing objects, and writes at the last segment. */
  method SetSegments(props: MapNode, segs: seq<Seg>, value: Any, ghost s: Shape, ghost vs: Shape, ghost repr: set<object>)
    returns (ok: bool, ghost s2: Shape)
    requires Tree(MapV(props), s) && s.Map? && Tree(value, vs) && Foot(vs) !! Foot(s) && segs != []
    requires repr == Foot(s) + Foot(vs)
    modifies Foot(s)
    ensures Tree(MapV(props), s2) && SameRoot(s, s2)
    ensures Update(Value(s2), ok) == SetAt(Value(s), segs, Value(vs))
    ensures fresh(Foot(s2) - repr)
  {
    hide Foot, Holds, Separate, Replace, Value, At, Graft, SetAt, Standing, PutKid, Kid, Child, Fits, Put, Creates, GetAt, SetPath;
    var root, cur := MapV(props), MapV(props);
    var i := 0;
    ghost var pos: seq<Seg> := [];
    ghost var own := repr;
    s2 := s;
    StandAtRoot(root, s);
    CursorValue(root, s, pos, cur, segs[0]);
    assert segs[0..] == segs;
    RemainingAll(Value(s), SetAt(Value(s), segs, Value(vs)));
    while true
      invariant 0 <= i < |segs|
      invariant SameRoot(s, s2) && fresh(Foot(s2) - Foot(s)) && Foot(s2) + Foot(vs) <= own && fresh(own - repr)
      invariant Standing(root, s2, pos, cur) && Tree(value, vs) && Foot(vs) !! Foot(s2)
      invariant GetAt(Value(s2), pos).Some?
      invariant SetAt(Value(s), segs, Value(vs))
             == Remaining(Value(s2), pos, SetAt(GetAt(Value(s2), pos).value, segs[i..], Value(vs)))
      decreases |segs| - i
    {
      var seg, last := segs[i], i == |segs| - 1;
      ghost var t := GetAt(Value(s2), pos).value;
      ghost var rest := segs[i..];
      assert rest[0] == seg && rest[1..] == segs[i + 1..] && (!last ==> rest[1] == segs[i + 1]);
      CursorValue(root, s2, pos, cur, seg);
      StandingTree(root, s2, pos, cur);
      SetUnfold(t, rest, Value(vs));
      if last {
        match cur {
          case MapV(node) =>
            if seg.Idx? {
              return false, s2;
            }
            s2 := PutEntry(node, seg.key, value, root, s2, pos, vs);
            StandingTree(root, s2, pos, cur);
            return true, s2;
          case SliceV(node) =>
            if !seg.Idx? || seg.index >= node.Length {
              return false, s2;
            }
            s2 := PutItem(node, seg.index, value, root, s2, pos, vs);
            StandingTree(root, s2, pos, cur);
            return true, s2;
          case _ =>
            return false, s2;
        }
      }
      var stepped, next;
      stepped, next, s2, own := Advance(cur, seg, segs[i + 1], root, s2, pos, rest, Value(vs), own);
      if !stepped {
        return false, s2;
      }
      pos, cur, i := pos + [seg], next, i + 1;
    }
  }

  /** One step of the walk that is not the last: the cursor goes down, onto a new object where an entry is missing. */
  method Advance(cur: Any, seg: Seg, after: Seg, ghost root: Any, ghost s: Shape, ghost pos: seq<Seg>, ghost rest: seq<Seg>, ghost value: Json, ghost own: set<object>)
    returns (ok: bool, next: Any, ghost s2: Shape, ghost own2: set<object>)
    requires Standing(root, s, pos, cur) && Foot(s) <= own && GetAt(Value(s), pos).Some?
    requires |rest| > 1 && rest[0] == seg && rest[1] == after
    modifies Foot(s)
    ensures SameRoot(s, s2) && Foot(s2) <= Foot(s) + (own2 - own) && own <= own2 && fresh(own2 - own)
    ensures !ok ==> s2 == s && Tree(root, s) && SetAt(GetAt(Value(s), pos).value, rest, value) == Update(GetAt(Value(s), pos).value, false)
    ensures ok ==> Standing(root, s2, pos + [seg], next) && GetAt(Value(s2), pos + [seg]).Some?
    ensures ok ==> (Remaining(Value(s), pos, SetAt(GetAt(Value(s), pos).value, rest, value))
                    == Remaining(Value(s2), pos + [seg], SetAt(GetAt(Value(s2), pos + [seg]).value, rest[1..], value)))
  {
    hide Foot, Holds, Separate, Replace, Value, At, Graft, SetAt, Standing, PutKid, Kid, Child, Fits, Put, Creates, GetAt, SetPath;
    ok, next, s2, own2 := false, cur, s, own;
    CursorValue(root, s, pos, cur, seg);
    StandingTree(root, s, pos, cur);
    SetUnfold(GetAt(Value(s), pos).value, rest, value);
    match cur {
      case MapV(node) =>
        if seg.Idx? {
          return;
        }
        if seg.key !in node.entries || node.entries[seg.key].NilV? {
          if after.Idx? {
            return;
          }
          SetCreates(Value(s), pos, rest, value);
          var m;
          m, s2 := CreateBelow(node, seg.key, root, s, pos, own);
          own2 := own + {m};
          ok, next := true, MapV(m);
          return;
        }
        next := node.entries[seg.key];
      case SliceV(node) =>
        if !seg.Idx? || seg.index >= node.Length {
          return;
        }
        next := node[seg.index];
      case _ =>
        return;
    }
    Descend(root, s, pos, cur, seg, next);
    SetDescends(Value(s), pos, rest, value);
    ok := true;
  }

  lemma EmptyMapTree(m: MapNode)
    requires m.entries == map[]
    ensures Tree(MapV(m), Map(m, map[])) && Foot(Map(m, map[])) == {m} && Value(Map(m, map[])) == Obj(map[])
  {
    assert Value(Map(m, map[])).fields == map[];
  }

  /** A missing entry is created as an empty object, and the cursor stands on it. */
  method CreateBelow(node: MapNode, key: string, ghost root: Any, ghost s: Shape, ghost pos: seq<Seg>, ghost own: set<object>)
    returns (m: MapNode, ghost s2: Shape)
    requires Standing(root, s, pos, MapV(node)) && Foot(s) <= own
    modifies node
    ensures fresh(m) && SameRoot(s, s2) && Foot(s2) <= Foot(s) + {m}
    ensures Standing(root, s2, pos + [Key(key)], MapV(m))
    ensures GetAt(Value(s), pos).Some? && Fits(GetAt(Value(s), pos).value, Key(key))
    ensures Value(s2) == Graft(Value(s), pos, Put(GetAt(Value(s), pos).value, Key(key), Obj(map[])))
  {
    hide Foot, Holds, Separate, Replace, Value, At, Graft, PutKid, Kid;
    m := new MapNode();
    EmptyMapTree(m);
    s2 := PutEntry(node, key, MapV(m), root, s, pos, Map(m, map[]));
    CreatedBelow(root, s, pos, MapV(node), key, m, s2);
  }

  /** The cursor can step onto the object just created. */
  lemma CreatedBelow(root: Any, s: Shape, pos: seq<Seg>, cur: Any, key: string, m: MapNode, s2: Shape)
    requires cur.MapV? && PutBelow(root, s, pos, cur, Key(key), Map(m, map[]), s2)
    ensures Standing(root, s2, pos + [Key(key)], MapV(m))
    ensures GetAt(Value(s), pos).Some? && Fits(GetAt(Value(s), pos).value, Key(key))
    ensures Value(s2) == Graft(Value(s), pos, Put(GetAt(Value(s), pos).value, Key(key), Obj(map[])))
  {
    UnderCursor(root, s2, pos, cur);
    var c := At(s2, pos).value;
    assert c.fields[key] == Map(m, map[]);
    assert Holds(cur.m.entries[key], c.fields[key]);
    Descend(root, s2, pos, cur, Key(key), MapV(m));
    assert Value(Map(m, map[])) == Obj(map[]) by { assert Value(Map(m, map[])).fields == map[]; }
  }

  lemma SetUnfold(t: Json, rest: seq<Seg>, value: Json)
    requires rest != []
    ensures !Fits(t, rest[0]) ==> SetAt(t, rest, value) == Update(t, false)
    ensures Fits(t, rest[0]) && |rest| == 1 ==> SetAt(t, rest, value) == Update(Put(t, rest[0], value), true)
    ensures Fits(t, rest[0]) && |rest| > 1 && Creates(t, rest[0]) && rest[1].Idx? ==> SetAt(t, rest, value) == Update(t, false)
  {
  }

  // ----------------------------------------------------------------- DeletePath

  ghost function DropKid(c: Shape, key: string): Shape
    requires c.Map?
  {
    Map(c.m, c.fields - {key})
  }

  lemma DropKidSeparate(c: Shape, key: string)
    requires c.Map? && Separate(c) && key in c.fields
    ensures Separate(DropKid(c, key))
  {
    hide Foot;
    var f := c.fields - {key};
    assert forall k :: k in f ==> k in c.fields && f[k] == c.fields[k];
  }

  lemma DropKidFoot(c: Shape, key: string)
    requires c.Map? && key in c.fields
    ensures Foot(DropKid(c, key)) <= Foot(c)
  {
    var d := DropKid(c, key);
    FieldsWithin(d, SortedKeys(d.fields.Keys), Foot(c));
  }

  lemma DropKidValue(c: Shape, key: string)
    requires c.Map? && key in c.fields
    ensures Child(Value(c), Key(key)).Some? && Value(DropKid(c, key)) == Remove(Value(c), Key(key))
  {
    assert Value(DropKid(c, key)).fields == Value(c).fields - {key};
  }

  /** delete(node, key), below the cursor. */
  method RemoveEntry(node: MapNode, key: string, ghost root: Any, ghost s: Shape, ghost pos: seq<Seg>) returns (ghost s2: Shape)
    requires Standing(root, s, pos, MapV(node)) && key in node.entries
    modifies node
    ensures Tree(root, s2) && SameRoot(s, s2) && Foot(s2) <= Foot(s)
    ensures GetAt(Value(s), pos).Some? && Child(GetAt(Value(s), pos).value, Key(key)).Some?
    ensures Value(s2) == Graft(Value(s), pos, Remove(GetAt(Value(s), pos).value, Key(key)))
  {
    hide Foot, Replace, Value, Standing, Separate, Holds, At;
    UnderCursor(root, s, pos, MapV(node));
    ghost var c := At(s, pos).value;
    ghost var d := DropKid(c, key);
    DropKidSeparate(c, key);
    DropKidFoot(c, key);
    DropKidValue(c, key);
    ValueAt(s, pos);
    node.entries := node.entries - {key};
    EntryGone(node, key, c);
    Written(root, s, pos, MapV(node), d);
    SameRootDrop(s, pos, key);
    s2 := Replace(s, pos, d);
  }

  lemma EntryGone(node: MapNode, key: string, c: Shape)
    requires c.Map? && c.m == node && node.entries.Keys == c.fields.Keys - {key}
    requires forall k :: k in c.fields && k != key ==> Holds(node.entries[k], c.fields[k])
    ensures Holds(MapV(node), DropKid(c, key))
  {
  }

  lemma SameRootDrop(s: Shape, pos: seq<Seg>, key: string)
    requires At(s, pos).Some? && At(s, pos).value.Map?
    ensures SameRoot(s, Replace(s, pos, DropKid(At(s, pos).value, key)))
  {
  }

  lemma DeleteUnfold(t: Json, rest: seq<Seg>)
    requires rest != []
    ensures Child(t, rest[0]).None? ==> DeleteAt(t, rest) == Update(t, false)
    ensures Child(t, rest[0]).Some? && |rest| == 1 ==> DeleteAt(t, rest) == Update(Remove(t, rest[0]), true)
  {
  }

  lemma DeleteDescends(t: Json, pos: seq<Seg>, rest: seq<Seg>)
    requires GetAt(t, pos).Some? && |rest| > 1 && Child(GetAt(t, pos).value, rest[0]).Some?
    ensures GetAt(t, pos + [rest[0]]) == Child(GetAt(t, pos).value, rest[0])
    ensures Remaining(t, pos, DeleteAt(GetAt(t, pos).value, rest))
         == Remaining(t, pos + [rest[0]], DeleteAt(Child(GetAt(t, pos).value, rest[0]).value, rest[1..]))
  {
    GraftSnoc(t, pos, rest[0], DeleteAt(Child(GetAt(t, pos).value, rest[0]).value, rest[1..]).tree);
  }

  /** Removing an array element is putting null there. */
  lemma RemoveItemIsPut(t: Json, index: nat)
    requires t.Arr? && index < |t.items|
    ensures Remove(t, Idx(index)) == Put(t, Idx(index), Null)
  {
  }

  /** DeletePath (path.go:183), in place. */
  method DeletePathInPlace(props: MapNode, path: string, ghost s: Shape, ghost repr: set<object>)
    returns (ok: bool, ghost s2: Shape)
    requires Tree(MapV(props), s) && s.Map? && repr == Foot(s)
    modifies Foot(s)
    ensures Tree(MapV(props), s2) && SameRoot(s, s2) && Foot(s2) <= Foot(s)
    ensures Update(Value(s2), ok) == DeletePath(Value(s), path)
  {
    hide Foot, Holds, Separate, Value, DeleteAt, ParsePath;
    s2 := s;
    var parsed := ParsePathLoop(path);
    if parsed.None? || parsed.value[0].Idx? {
      return false, s2;
    }
    var segs := parsed.value;
    ok, s2 := DeleteSegments(props, segs, s);
  }

  method DeleteSegments(props: MapNode, segs: seq<Seg>, ghost s: Shape) returns (ok: bool, ghost s2: Shape)
    requires Tree(MapV(props), s) && s.Map? && segs != []
    modifies Foot(s)
    ensures Tree(MapV(props), s2) && SameRoot(s, s2) && Foot(s2) <= Foot(s)
    ensures Update(Value(s2), ok) == DeleteAt(Value(s), segs)
  {
    hide Foot, Holds, Separate, Replace, Value, At, Graft, DeleteAt, Standing, PutKid, Kid, Child, Fits, Put, GetAt;
    var root, cur := MapV(props), MapV(props);
    var i := 0;
    ghost var pos: seq<Seg> := [];
    s2 := s;
    StandAtRoot(root, s);
    CursorValue(root, s, pos, cur, segs[0]);
    assert segs[0..] == segs;
    RemainingAll(Value(s), DeleteAt(Value(s), segs));
    while true
      invariant 0 <= i < |segs|
      invariant Standing(root, s, pos, cur) && GetAt(Value(s), pos).Some?
      invariant DeleteAt(Value(s), segs) == Remaining(Value(s), pos, DeleteAt(GetAt(Value(s), pos).value, segs[i..]))
      decreases |segs| - i
    {
      var seg, last := segs[i], i == |segs| - 1;
      ghost var t := GetAt(Value(s), pos).value;
      ghost var rest := segs[i..];
      assert rest[0] == seg && rest[1..] == segs[i + 1..];
      CursorValue(root, s, pos, cur, seg);
      StandingTree(root, s, pos, cur);
      DeleteUnfold(t, rest);
      match cur {
        case MapV(node) =>
          if seg.Idx? || seg.key !in node.entries {
            return false, s2;
          }
          if last {
            s2 := RemoveEntry(node, seg.key, root, s, pos);
            return true, s2;
          }
          var next := node.entries[seg.key];
          Descend(root, s, pos, cur, seg, next);
          DeleteDescends(Value(s), pos, rest);
          pos, cur, i := pos + [seg], next, i + 1;
        case SliceV(node) =>
          if !seg.Idx? || seg.index >= node.Length {
            return false, s2;
          }
          if last {
            NullTree();
            s2 := PutItem(node, seg.index, NilV, root, s, pos, Scalar(Null));
            StandingTree(root, s2, pos, cur);
            RemoveItemIsPut(t, seg.index);
            return true, s2;
          }
          var next := node[seg.index];
          Descend(root, s, pos, cur, seg, next);
          DeleteDescends(Value(s), pos, rest);
          pos, cur, i := pos + [seg], next, i + 1;
        case _ =>
          return false, s2;
      }
    }
  }

  lemma NullTree()
    ensures Tree(NilV, Scalar(Null)) && Foot(Scalar(Null)) == {} && Value(Scalar(Null)) == Null
  {
  }

  // ------------------------------------------------------------------- decoding

  /** Decoding allocates a tree of its own. */
  method Decode(j: Json) returns (v: Any, ghost s: Shape)
    ensures Tree(v, s) && Value(s) == j && fresh(Foot(s))
    decreases j, 1
  {
    match j {
      case Null => v, s := NilV, Scalar(j);
      case Bool(b) => v, s := BoolV(b), Scalar(j);
      case Num(t) => v, s := NumV(t), Scalar(j);
      case Str(t) => v, s := StrV(t), Scalar(j);
      case Arr(items) => v, s := DecodeItems(j);
      case Obj(fields) => v, s := DecodeFields(j);
    }
  }

  method DecodeFields(j: Json) returns (v: Any, ghost s: Shape)
    requires j.Obj?
    ensures Tree(v, s) && Value(s) == j && fresh(Foot(s)) && v.MapV? && s.Map? && s.m == v.m
    decreases j, 0
  {
    hide Foot, Separate, Holds, Standing, PutBelow, Value, Less, SortedKeys, Picked;
    var m := new MapNode();
    EmptyMapTree(m);
    v, s := MapV(m), Map(m, map[]);
    StandAtRoot(v, s);
    var keys := SortedKeys(j.fields.Keys);
    ghost var own: set<object> := {m};
    PickedAll(j.fields, keys);
    for i := 0 to |keys|
      invariant Standing(v, s, [], v) && s.Map? && s.m == m && Foot(s) <= own && fresh(own)
      invariant Value(s) == Obj(Picked(j.fields, keys[..i]))
    {
      var k := keys[i];
      var kv, ks := Decode(j.fields[k]);
      ghost var before := s;
      s := PutEntry(m, k, kv, v, s, [], ks);
      own := own + Foot(ks);
      PutAtRoot(v, before, k, ks, s);
      PickedSnoc(j.fields, keys, i);
    }
    StandingTree(v, s, [], v);
  }

  /** The fields under the given keys. */
  ghost function Picked(fields: map<string, Json>, keys: seq<string>): map<string, Json> {
    map k | k in fields && k in keys :: fields[k]
  }

  lemma PickedSnoc(fields: map<string, Json>, keys: seq<string>, i: nat)
    requires i < |keys| && keys[i] in fields
    ensures Picked(fields, keys[..i + 1]) == Picked(fields, keys[..i])[keys[i] := fields[keys[i]]]
  {
    assert keys[..i + 1] == keys[..i] + [keys[i]];
  }

  lemma PickedAll(fields: map<string, Json>, keys: seq<string>)
    requires forall k :: k in fields ==> k in keys
    ensures Picked(fields, keys[..|keys|]) == fields && Picked(fields, keys[..0]) == map[]
  {
    assert keys[..|keys|] == keys;
  }

  lemma PutAtRoot(v: Any, s: Shape, key: string, ks: Shape, s2: Shape)
    requires s.Map? && v.MapV? && PutBelow(v, s, [], v, Key(key), ks, s2)
    ensures Value(s2) == Obj(Value(s).fields[key := Value(ks)]) && s2.Map? && s2.m == s.m
    ensures Standing(v, s2, [], v) && Foot(s2) <= Foot(s) + Foot(ks)
  {
  }

  method DecodeItems(j: Json) returns (v: Any, ghost s: Shape)
    requires j.Arr?
    ensures Tree(v, s) && Value(s) == j && fresh(Foot(s))
    decreases j, 0
  {
    hide Foot, Holds, Value;
    var n := |j.items|;
    var a := new Any[n](_ => NilV);
    v := SliceV(a);
    s := Slice(a, seq(n, _ => Scalar(Null)));
    NullSlice(a, n);
    ghost var own: set<object> := {a};
    StandAtRoot(v, s);
    for i := 0 to n
      invariant Standing(v, s, [], v) && s.Slice? && s.a == a && |s.items| == n && Foot(s) <= own && fresh(own)
      invariant forall l :: 0 <= l < i ==> Value(s.items[l]) == j.items[l]
    {
      var iv, kid := Decode(j.items[i]);
      ghost var before := s;
      s := PutItem(a, i, iv, v, s, [], kid);
      own := own + Foot(kid);
      assert s == Slice(a, before.items[i := kid]);
    }
    StandingTree(v, s, [], v);
    SliceValue(s, j);
  }

  lemma SliceValue(s: Shape, j: Json)
    requires s.Slice? && j.Arr? && |s.items| == |j.items|
    requires forall l :: 0 <= l < |j.items| ==> Value(s.items[l]) == j.items[l]
    ensures Value(s) == j
  {
    assert Value(s).items == j.items;
  }

  lemma NullSlice(a: array<Any>, n: nat)
    requires a.Length == n && forall i :: 0 <= i < n ==> a[i] == NilV
    ensures var s := Slice(a, seq(n, _ => Scalar(Null))); Tree(SliceV(a), s) && Foot(s) == {a}
  {
    var s := Slice(a, seq(n, _ => Scalar(Null)));
    ItemsWithin(s, 0, {});
  }
}
