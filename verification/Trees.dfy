/**
 Reading, setting and deleting at a path of a JSON tree (runnerops/path.go), as
 functions on values, and the laws that relate them.
 */
module Trees {
  import opened Json
  import opened Paths

  /** What an update leaves behind: the tree, and whether it succeeded. */
  datatype Update = Update(tree: Json, ok: bool)

  // ------------------------------------------------------------ one step down

  /** The value one segment below `v`, if there is one. */
  function Child(v: Json, seg: Seg): Option<Json> {
    if v.Obj? && seg.Key? && seg.key in v.fields then Some(v.fields[seg.key])
    else if v.Arr? && seg.Idx? && seg.index < |v.items| then Some(v.items[seg.index])
    else None
  }

  /** A key addresses any entry of an object, an index only an existing element. */
  predicate Fits(v: Json, seg: Seg) {
    (v.Obj? && seg.Key?) || (v.Arr? && seg.Idx? && seg.index < |v.items|)
  }

  function Put(v: Json, seg: Seg, c: Json): Json
    requires Fits(v, seg)
  {
    if v.Obj? then Obj(v.fields[seg.key := c]) else Arr(v.items[seg.index := c])
  }

  /** A map entry goes, an array element becomes null. */
  function Remove(v: Json, seg: Seg): Json
    requires Child(v, seg).Some?
  {
    if v.Obj? then Obj(v.fields - {seg.key}) else Arr(v.items[seg.index := Null])
  }

  // --------------------------------------------------------------- operations

  /** The loop of GetPath (path.go:231-252). */
  function GetAt(v: Json, segs: seq<Seg>): Option<Json> {
    if segs == [] then Some(v)
    else
      match Child(v, segs[0])
      case None => None
      case Some(c) => GetAt(c, segs[1..])
  }

  /** SetPath creates an object for a missing or null map entry, never for an array element. */
  predicate Creates(v: Json, seg: Seg) {
    v.Obj? && (Child(v, seg).None? || Child(v, seg).value.Null?)
  }

  /** The node SetPath descends into. */
  function Below(v: Json, seg: Seg): Json
    requires Fits(v, seg)
  {
    if Creates(v, seg) then Obj(map[]) else Child(v, seg).value
  }

  /**
   The loop of SetPath (path.go:137-176). A failure keeps the intermediate
   objects that were created on the way.
   */
  function SetAt(v: Json, segs: seq<Seg>, value: Json): Update
    requires segs != []
    decreases |segs|
  {
    if !Fits(v, segs[0]) then Update(v, false)
    else if |segs| == 1 then Update(Put(v, segs[0], value), true)
    else if Creates(v, segs[0]) && segs[1].Idx? then Update(v, false)
    else
      var sub := SetAt(Below(v, segs[0]), segs[1..], value);
      Update(Put(v, segs[0], sub.tree), sub.ok)
  }

  /** The loop of DeletePath (path.go:191-221). */
  function DeleteAt(v: Json, segs: seq<Seg>): Update
    requires segs != []
    decreases |segs|
  {
    match Child(v, segs[0])
    case None => Update(v, false)
    case Some(c) =>
      if |segs| == 1 then Update(Remove(v, segs[0]), true)
      else
        var sub := DeleteAt(c, segs[1..]);
        Update(Put(v, segs[0], sub.tree), sub.ok)
  }

  function GetPath(v: Json, path: string): Option<Json> {
    match ParsePath(path)
    case None => None
    case Some(segs) => GetAt(v, segs)
  }

  function SetPath(props: Json, path: string, value: Json): Update {
    match ParsePath(path)
    case None => Update(props, false)
    case Some(segs) => if segs[0].Idx? then Update(props, false) else SetAt(props, segs, value)
  }

  function DeletePath(props: Json, path: string): Update {
    match ParsePath(path)
    case None => Update(props, false)
    case Some(segs) => if segs[0].Idx? then Update(props, false) else DeleteAt(props, segs)
  }

  /** GetPath's cursor loop. */
  method GetPathLoop(v: Json, path: string) returns (r: Option<Json>)
    ensures r == GetPath(v, path)
  {
    var parsed := ParsePathLoop(path);
    if parsed.None? {
      return None;
    }
    var segs := parsed.value;
    var cur := v;
    assert segs[0..] == segs;
    for i := 0 to |segs|
      invariant GetAt(v, segs) == GetAt(cur, segs[i..])
    {
      var seg := segs[i];
      assert segs[i..][0] == seg && segs[i..][1..] == segs[i + 1..];
      match cur {
        case Obj(fields) =>
          if seg.Idx? || seg.key !in fields {
            return None;
          }
          cur := fields[seg.key];
        case Arr(items) =>
          if !seg.Idx? || seg.index >= |items| {
            return None;
          }
          cur := items[seg.index];
        case _ =>
          return None;
      }
    }
    return Some(cur);
  }

  // --------------------------------------------------------------------- laws

  /** Neither position is at or below the other. */
  predicate Incomparable(p: seq<Seg>, q: seq<Seg>) {
    !(p <= q) && !(q <= p)
  }

  lemma IncomparableTail(p: seq<Seg>, q: seq<Seg>)
    requires p != [] && q != [] && p[0] == q[0]
    ensures p[1..] <= q[1..] <==> p <= q
    ensures Incomparable(p[1..], q[1..]) <==> Incomparable(p, q)
  {
    assert p == [p[0]] + p[1..] && q == [q[0]] + q[1..];
  }

  lemma ChildAfterPut(v: Json, s: Seg, c: Json, t: Seg)
    requires Fits(v, s)
    ensures Child(Put(v, s, c), t) == if t == s then Some(c) else Child(v, t)
    ensures Fits(Put(v, s, c), t) == Fits(v, t)
  {
  }

  lemma PutTwice(v: Json, s: Seg, c: Json, t: Seg, d: Json)
    requires Fits(v, s) && Fits(v, t)
    ensures Fits(Put(v, s, c), t) && Fits(Put(v, t, d), s)
    ensures s == t ==> Put(Put(v, s, c), t, d) == Put(v, t, d)
    ensures s != t ==> Put(Put(v, s, c), t, d) == Put(Put(v, t, d), s, c)
  {
    if v.Obj? {
      var f := v.fields;
      assert s == t ==> f[s.key := c][t.key := d] == f[t.key := d];
      assert s != t ==> f[s.key := c][t.key := d] == f[t.key := d][s.key := c];
    } else {
      var f := v.items;
      assert s == t ==> f[s.index := c][t.index := d] == f[t.index := d];
      assert s != t ==> f[s.index := c][t.index := d] == f[t.index := d][s.index := c];
    }
  }

  /** Set, then get, at the same position. */
  lemma {:induction false} GetAfterSet(v: Json, segs: seq<Seg>, value: Json)
    requires segs != [] && SetAt(v, segs, value).ok
    ensures GetAt(SetAt(v, segs, value).tree, segs) == Some(value)
    decreases |segs|
  {
    if |segs| == 1 {
      ChildAfterPut(v, segs[0], value, segs[0]);
      assert segs[1..] == [];
    } else {
      var sub := SetAt(Below(v, segs[0]), segs[1..], value);
      GetAfterSet(Below(v, segs[0]), segs[1..], value);
      ChildAfterPut(v, segs[0], sub.tree, segs[0]);
    }
  }

  /** Setting, whether it succeeds or fails, changes nothing at an incomparable position. */
  lemma {:induction false} SetFrame(v: Json, p: seq<Seg>, value: Json, q: seq<Seg>)
    requires p != [] && Incomparable(p, q)
    ensures GetAt(SetAt(v, p, value).tree, q) == GetAt(v, q)
    decreases |p|
  {
    if Fits(v, p[0]) && !(Creates(v, p[0]) && |p| > 1 && p[1].Idx?) {
      if p[0] == q[0] {
        IncomparableTail(p, q);
        var sub := SetAt(Below(v, p[0]), p[1..], value);
        SetFrame(Below(v, p[0]), p[1..], value, q[1..]);
        ChildAfterPut(v, p[0], sub.tree, p[0]);
        assert GetAt(Obj(map[]), q[1..]) == None && GetAt(Null, q[1..]) == None;
      } else {
        ChildAfterPut(v, p[0], if |p| == 1 then value else SetAt(Below(v, p[0]), p[1..], value).tree, q[0]);
      }
    }
  }

  /** What a successful update puts below its first segment. */
  function NewChild(v: Json, p: seq<Seg>, value: Json): Json
    requires p != [] && Fits(v, p[0])
  {
    if |p| == 1 then value else SetAt(Below(v, p[0]), p[1..], value).tree
  }

  lemma SetUnfolds(v: Json, p: seq<Seg>, value: Json)
    requires p != [] && SetAt(v, p, value).ok
    ensures Fits(v, p[0]) && SetAt(v, p, value).tree == Put(v, p[0], NewChild(v, p, value))
    ensures |p| > 1 ==> SetAt(Below(v, p[0]), p[1..], value).ok && !NewChild(v, p, value).Null?
  {
  }

  /** An update through a child that another update just put there. */
  lemma SetThrough(v: Json, s: Seg, x: Json, q: seq<Seg>, b: Json)
    requires |q| > 1 && q[0] == s && Fits(v, s) && !x.Null?
    ensures SetAt(Put(v, s, x), q, b) == Update(Put(v, s, SetAt(x, q[1..], b).tree), SetAt(x, q[1..], b).ok)
  {
    ChildAfterPut(v, s, x, s);
    PutTwice(v, s, x, s, SetAt(x, q[1..], b).tree);
    assert x.Arr? || x.Obj? || !SetAt(x, q[1..], b).ok;
  }

  /** An update beside a child that another update just put there. */
  lemma SetBeside(v: Json, s: Seg, x: Json, q: seq<Seg>, b: Json)
    requires q != [] && q[0] != s && Fits(v, s) && SetAt(v, q, b).ok
    ensures SetAt(Put(v, s, x), q, b) == Update(Put(Put(v, s, x), q[0], NewChild(v, q, b)), true)
  {
    ChildAfterPut(v, s, x, q[0]);
  }

  /** Two updates at incomparable positions that both succeed can be made in either order. */
  lemma {:induction false} SetsCommute(v: Json, p: seq<Seg>, a: Json, q: seq<Seg>, b: Json)
    requires p != [] && Incomparable(p, q)
    requires SetAt(v, p, a).ok && SetAt(v, q, b).ok
    ensures SetAt(SetAt(v, p, a).tree, q, b).ok && SetAt(SetAt(v, q, b).tree, p, a).ok
    ensures SetAt(SetAt(v, p, a).tree, q, b).tree == SetAt(SetAt(v, q, b).tree, p, a).tree
    decreases |p|
  {
    var s, t := p[0], q[0];
    SetUnfolds(v, p, a);
    SetUnfolds(v, q, b);
    var x, y := NewChild(v, p, a), NewChild(v, q, b);
    if s == t {
      IncomparableTail(p, q);
      SetsCommute(Below(v, s), p[1..], a, q[1..], b);
      SetThrough(v, s, x, q, b);
      SetThrough(v, s, y, p, a);
    } else {
      SetBeside(v, s, x, q, b);
      SetBeside(v, t, y, p, a);
      PutTwice(v, s, x, t, y);
    }
  }

  // ------------------------------------------------------------------ deletion

  lemma ChildAfterRemove(v: Json, s: Seg, t: Seg)
    requires Child(v, s).Some?
    ensures t != s ==> Child(Remove(v, s), t) == Child(v, t)
    ensures Child(Remove(v, s), s) in {None, Some(Null)}
  {
  }

  /** Nothing, or null, at the position. */
  predicate Cleared(v: Json, p: seq<Seg>) {
    GetAt(v, p) == None || GetAt(v, p) == Some(Null)
  }

  /** After a deletion, whether it found something or not, its position holds nothing or null. */
  lemma {:induction false} DeleteClears(v: Json, p: seq<Seg>)
    requires p != []
    ensures Cleared(DeleteAt(v, p).tree, p)
    ensures DeleteAt(v, p).ok <==> GetAt(v, p).Some?
    decreases |p|
  {
    match Child(v, p[0])
    case None =>
    case Some(c) =>
      assert |p| == 1 ==> p[1..] == [];
      if |p| == 1 {
        ChildAfterRemove(v, p[0], p[0]);
      } else {
        DeleteClears(c, p[1..]);
        ChildAfterPut(v, p[0], DeleteAt(c, p[1..]).tree, p[0]);
      }
  }

  /** A deletion changes nothing at an incomparable position, and never makes a cleared position hold something. */
  lemma {:induction false} DeleteFrame(v: Json, p: seq<Seg>, q: seq<Seg>)
    requires p != []
    ensures Incomparable(p, q) ==> GetAt(DeleteAt(v, p).tree, q) == GetAt(v, q)
    ensures q != [] && Cleared(v, q) ==> Cleared(DeleteAt(v, p).tree, q)
    decreases |p|
  {
    match Child(v, p[0])
    case None =>
    case Some(c) =>
      if q != [] {
        if |p| == 1 {
          ChildAfterRemove(v, p[0], q[0]);
          assert GetAt(Null, q[1..]) == if q[1..] == [] then Some(Null) else None;
        } else {
          ChildAfterPut(v, p[0], DeleteAt(c, p[1..]).tree, q[0]);
          if p[0] == q[0] {
            IncomparableTail(p, q);
            DeleteFrame(c, p[1..], q[1..]);
            if |q| == 1 {
              assert q[1..] == [] && GetAt(v, q) == Some(c);
              assert c.Null? ==> DeleteAt(c, p[1..]).tree == Null;
              assert GetAt(DeleteAt(v, p).tree, q) == Some(DeleteAt(c, p[1..]).tree);
            }
          }
        }
      }
  }

  /** The arrays at and above the deleted position keep their length. */
  lemma {:induction false} DeleteKeepsArrays(v: Json, p: seq<Seg>, q: seq<Seg>)
    requires p != [] && q < p && GetAt(v, q).Some? && GetAt(v, q).value.Arr?
    ensures GetAt(DeleteAt(v, p).tree, q).Some? && GetAt(DeleteAt(v, p).tree, q).value.Arr?
    ensures |GetAt(DeleteAt(v, p).tree, q).value.items| == |GetAt(v, q).value.items|
    decreases |p|
  {
    if q != [] {
      var c := Child(v, p[0]).value;
      assert q[0] == p[0] && q[1..] < p[1..];
      DeleteKeepsArrays(c, p[1..], q[1..]);
      ChildAfterPut(v, p[0], DeleteAt(c, p[1..]).tree, q[0]);
    }
  }

  // --------------------------------------------------------- what succeeds

  /** What a deletion leaves at its position: an entry is gone, an element is null. */
  lemma {:induction false} DeleteRemoves(v: Json, p: seq<Seg>)
    requires p != []
    ensures GetAt(DeleteAt(v, p).tree, p) == if GetAt(v, p).Some? && p[|p| - 1].Idx? then Some(Null) else None
    decreases |p|
  {
    match Child(v, p[0])
    case None =>
    case Some(c) =>
      if |p| == 1 {
        assert p[1..] == [] && GetAt(v, p) == Some(c);
        RemovedChild(v, p[0]);
      } else {
        assert p[1..][|p[1..]| - 1] == p[|p| - 1];
        DeleteRemoves(c, p[1..]);
        ChildAfterPut(v, p[0], DeleteAt(c, p[1..]).tree, p[0]);
      }
  }

  lemma RemovedChild(v: Json, seg: Seg)
    requires Child(v, seg).Some?
    ensures Child(Remove(v, seg), seg) == if seg.Key? then None else Some(Null)
  {
  }

  /** An object is created at every key of a path that leads into nothing. */
  lemma {:induction false} SetIntoNothing(p: seq<Seg>, value: Json)
    requires p != []
    ensures SetAt(Obj(map[]), p, value).ok <==> forall j :: 0 <= j < |p| ==> p[j].Key?
    decreases |p|
  {
    if |p| > 1 {
      SetIntoNothing(p[1..], value);
      assert forall j :: 0 <= j < |p[1..]| ==> p[1..][j] == p[j + 1];
      if p[0].Key? && forall j :: 0 <= j < |p[1..]| ==> p[1..][j].Key? {
        forall j | 0 <= j < |p| ensures p[j].Key? {
          if j > 0 { assert p[1..][j - 1].Key?; }
        }
      }
    }
  }

  /** The value that is there, one step before the position ends or before it leads into nothing. */
  ghost predicate SettableAt(v: Json, p: seq<Seg>, n: nat)
    requires n < |p|
  {
    match GetAt(v, p[..n])
    case None => false
    case Some(Obj(_)) =>
      p[n].Key? && (n == |p| - 1 || (GetAt(v, p[..n + 1]) in {None, Some(Null)} && forall j :: n < j < |p| ==> p[j].Key?))
    case Some(Arr(items)) => n == |p| - 1 && p[n].Idx? && p[n].index < |items|
    case Some(_) => false
  }

  lemma SettableBelow(v: Json, p: seq<Seg>, n: nat)
    requires |p| > 1 && n < |p| - 1 && Child(v, p[0]).Some?
    ensures SettableAt(v, p, n + 1) <==> SettableAt(Child(v, p[0]).value, p[1..], n)
  {
    var c, q := Child(v, p[0]).value, p[1..];
    assert p[..n + 1][0] == p[0] && p[..n + 1][1..] == q[..n];
    assert p[..n + 2][0] == p[0] && p[..n + 2][1..] == q[..n + 1];
    assert GetAt(v, p[..n + 1]) == GetAt(c, q[..n]) && GetAt(v, p[..n + 2]) == GetAt(c, q[..n + 1]);
    assert forall j :: n < j < |q| ==> q[j] == p[j + 1];
    assert (forall j :: n + 1 < j < |p| ==> p[j].Key?) <==> forall j :: n < j < |q| ==> q[j].Key? by {
      if forall j :: n < j < |q| ==> q[j].Key? {
        forall j | n + 1 < j < |p| ensures p[j].Key? { assert q[j - 1].Key?; }
      }
    }
  }

  /**
   When a set succeeds: its position ends at a key of an object, or at an element that
   exists; or it leaves what is there at a missing or null entry of an object, by keys only.
   */
  lemma {:induction false} SetSucceeds(v: Json, p: seq<Seg>, value: Json)
    requires p != []
    ensures SetAt(v, p, value).ok <==> exists n: nat :: n < |p| && SettableAt(v, p, n)
    decreases |p|
  {
    SettableHere(v, p);
    if |p| > 1 && Fits(v, p[0]) {
      if Creates(v, p[0]) {
        SetIntoNothing(p[1..], value);
        CreatesHere(v, p);
      } else {
        SetSucceeds(Child(v, p[0]).value, p[1..], value);
        if n: nat :| n < |p| && SettableAt(v, p, n) {
          if n > 0 { SettableBelow(v, p, n - 1); }
        }
        if n: nat :| n < |p[1..]| && SettableAt(Child(v, p[0]).value, p[1..], n) {
          SettableBelow(v, p, n);
        }
      }
    } else if n: nat :| 0 < n < |p| && SettableAt(v, p, n) {
      assert p[..n][0] == p[0];
    }
  }

  lemma SettableHere(v: Json, p: seq<Seg>)
    requires p != []
    ensures |p| == 1 ==> (SettableAt(v, p, 0) <==> Fits(v, p[0]))
    ensures |p| > 1 ==> (SettableAt(v, p, 0) <==> Fits(v, p[0]) && Creates(v, p[0]) && forall j :: 0 < j < |p| ==> p[j].Key?)
  {
    assert p[..0] == [];
    if |p| > 1 {
      assert p[..1] == [p[0]] && [p[0]][1..] == [];
      assert GetAt(v, p[..1]) == Child(v, p[0]);
    }
  }

  /** Beyond a missing or null entry nothing can be set but from there. */
  lemma CreatesHere(v: Json, p: seq<Seg>)
    requires |p| > 1 && Fits(v, p[0]) && Creates(v, p[0])
    ensures forall n: nat :: 0 < n < |p| ==> !SettableAt(v, p, n)
    ensures (forall j :: 0 <= j < |p[1..]| ==> p[1..][j].Key?) <==> forall j :: 0 < j < |p| ==> p[j].Key?
  {
    forall n: nat | 0 < n < |p| ensures !SettableAt(v, p, n) {
      var q := p[..n];
      assert q[0] == p[0];
      assert GetAt(v, q) == match Child(v, p[0]) case None => None case Some(c) => GetAt(Null, q[1..]);
      assert GetAt(Null, q[1..]) == if q[1..] == [] then Some(Null) else None;
    }
    assert forall j :: 0 <= j < |p[1..]| ==> p[1..][j] == p[j + 1];
    if forall j :: 0 <= j < |p[1..]| ==> p[1..][j].Key? {
      forall j | 0 < j < |p| ensures p[j].Key? { assert p[1..][j - 1].Key?; }
    }
  }
}
