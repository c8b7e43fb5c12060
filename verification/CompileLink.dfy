/**
 Compiling a property tree and linking its references later, in any order, gives
 the tree that direct substitution of every expression gives.
 */
module CompileLink {
  import opened Strings
  import opened Json
  import opened Paths
  import opened Trees
  import opened Templates
  import opened Outputs
  import opened Agreement
  import opened Compiler

  // ------------------------------------------------------------ sites of a tree

  predicate IsLinked(rc: Context, s: string) {
    RenderString(rc, s).Linked?
  }

  /** `q` leads to a string of `t` that compiles to a reference. */
  predicate SiteOf(rc: Context, t: Json, q: seq<Seg>, s: string) {
    GetAt(t, q) == Some(Str(s)) && IsLinked(rc, s)
  }

  /** The reference a site compiles to. */
  function RefAt(rc: Context, pos: seq<Seg>, s: string): Reference
    requires IsLinked(rc, s)
  {
    var c := RenderString(rc, s);
    Reference(PathString(pos), rc.childName[c.source], c.fieldPath, c.tpl)
  }

  type Site = (seq<Seg>, string)

  /** The sites in the order renderValue meets them. */
  function Sites(rc: Context, t: Json, pos: seq<Seg>): seq<Site>
    decreases t, 1, 0
  {
    match t
    case Str(s) => if IsLinked(rc, s) then [(pos, s)] else []
    case Obj(fields) => FieldSites(rc, t, SortedKeys(fields.Keys), pos)
    case Arr(items) => ItemSites(rc, t, 0, pos)
    case _ => []
  }

  function FieldSites(rc: Context, t: Json, keys: seq<string>, pos: seq<Seg>): seq<Site>
    requires t.Obj? && forall k :: k in keys ==> k in t.fields
    decreases t, 0, |keys|
  {
    if keys == [] then []
    else Sites(rc, t.fields[keys[0]], pos + [Key(keys[0])]) + FieldSites(rc, t, keys[1..], pos)
  }

  function ItemSites(rc: Context, t: Json, i: nat, pos: seq<Seg>): seq<Site>
    requires t.Arr? && i <= |t.items|
    decreases t, 0, |t.items| - i
  {
    if i == |t.items| then []
    else Sites(rc, t.items[i], pos + [Idx(i)]) + ItemSites(rc, t, i + 1, pos)
  }

  lemma GetAtCons(t: Json, seg: Seg, c: Json, q: seq<Seg>)
    requires Child(t, seg) == Some(c)
    ensures GetAt(t, [seg] + q) == GetAt(c, q)
  {
    assert ([seg] + q)[1..] == q;
  }

  /** A listed site lies below `pos` and is a site of the tree. */
  ghost predicate Located(rc: Context, t: Json, pos: seq<Seg>, site: Site) {
    pos <= site.0 && SiteOf(rc, t, site.0[|pos|..], site.1)
  }

  lemma LocatedBelow(rc: Context, t: Json, pos: seq<Seg>, seg: Seg, c: Json, site: Site)
    requires Child(t, seg) == Some(c) && Located(rc, c, pos + [seg], site)
    ensures Located(rc, t, pos, site)
  {
    var q := site.0[|pos| + 1..];
    GetAtCons(t, seg, c, q);
    assert site.0[|pos|..] == [seg] + q;
  }

  lemma {:induction false} SitesLocated(rc: Context, t: Json, pos: seq<Seg>)
    ensures forall site :: site in Sites(rc, t, pos) ==> Located(rc, t, pos, site)
    decreases t, 1, 0
  {
    match t
    case Str(s) => assert pos[|pos|..] == [];
    case Obj(fields) => FieldSitesLocated(rc, t, SortedKeys(fields.Keys), pos);
    case Arr(items) => ItemSitesLocated(rc, t, 0, pos);
    case _ =>
  }

  lemma {:induction false} FieldSitesLocated(rc: Context, t: Json, keys: seq<string>, pos: seq<Seg>)
    requires t.Obj? && forall k :: k in keys ==> k in t.fields
    ensures forall site :: site in FieldSites(rc, t, keys, pos) ==> Located(rc, t, pos, site)
    decreases t, 0, |keys|
  {
    if keys != [] {
      var seg, c := Key(keys[0]), t.fields[keys[0]];
      SitesLocated(rc, c, pos + [seg]);
      FieldSitesLocated(rc, t, keys[1..], pos);
      forall site | site in Sites(rc, c, pos + [seg]) ensures Located(rc, t, pos, site) {
        LocatedBelow(rc, t, pos, seg, c, site);
      }
    }
  }

  lemma {:induction false} ItemSitesLocated(rc: Context, t: Json, i: nat, pos: seq<Seg>)
    requires t.Arr? && i <= |t.items|
    ensures forall site :: site in ItemSites(rc, t, i, pos) ==> Located(rc, t, pos, site)
    decreases t, 0, |t.items| - i
  {
    if i < |t.items| {
      var seg, c := Idx(i), t.items[i];
      SitesLocated(rc, c, pos + [seg]);
      ItemSitesLocated(rc, t, i + 1, pos);
      forall site | site in Sites(rc, c, pos + [seg]) ensures Located(rc, t, pos, site) {
        LocatedBelow(rc, t, pos, seg, c, site);
      }
    }
  }

  /** Every site of the tree is listed. */
  lemma {:induction false} SitesComplete(rc: Context, t: Json, pos: seq<Seg>, q: seq<Seg>, s: string)
    requires SiteOf(rc, t, q, s)
    ensures (pos + q, s) in Sites(rc, t, pos)
    decreases |q|
  {
    hide RenderString, SortedKeys, FieldSites, ItemSites, Less;
    if q == [] {
      assert pos + q == pos;
    } else {
      var c := Child(t, q[0]).value;
      SitesComplete(rc, c, pos + [q[0]], q[1..], s);
      assert pos + [q[0]] + q[1..] == pos + q;
      if t.Obj? {
        InFieldSites(rc, t, SortedKeys(t.fields.Keys), pos, q[0].key, (pos + q, s));
      } else {
        InItemSites(rc, t, 0, pos, q[0].index, (pos + q, s));
      }
    }
  }

  lemma {:induction false} InFieldSites(rc: Context, t: Json, keys: seq<string>, pos: seq<Seg>, k: string, site: Site)
    requires t.Obj? && (forall l :: l in keys ==> l in t.fields) && k in keys
    requires site in Sites(rc, t.fields[k], pos + [Key(k)])
    ensures site in FieldSites(rc, t, keys, pos)
    decreases |keys|
  {
    if keys[0] != k { InFieldSites(rc, t, keys[1..], pos, k, site); }
  }

  lemma {:induction false} InItemSites(rc: Context, t: Json, i: nat, pos: seq<Seg>, j: nat, site: Site)
    requires t.Arr? && i <= j < |t.items|
    requires site in Sites(rc, t.items[j], pos + [Idx(j)])
    ensures site in ItemSites(rc, t, i, pos)
    decreases j - i
  {
    if i < j { InItemSites(rc, t, i + 1, pos, j, site); }
  }

  // ----------------------------------------------- renderValue lists the sites

  function RefsAt(rc: Context, sites: seq<Site>): (refs: seq<Reference>)
    requires forall site :: site in sites ==> IsLinked(rc, site.1)
    ensures |refs| == |sites|
    ensures forall i :: 0 <= i < |sites| ==> refs[i] == RefAt(rc, sites[i].0, sites[i].1)
  {
    if sites == [] then [] else [RefAt(rc, sites[0].0, sites[0].1)] + RefsAt(rc, sites[1..])
  }

  lemma PathStringCons(pos: seq<Seg>, seg: Seg)
    ensures PathString(pos + [seg]) ==
            if seg.Key? then AppendKeySegment(PathString(pos), seg.key) else AppendIndex(PathString(pos), seg.index)
  {
    assert (pos + [seg])[..|pos|] == pos;
  }

  /** The references of a rendered tree are those of its sites, at their positions. */
  ghost predicate RefsMatch(rc: Context, refs: seq<Reference>, sites: seq<Site>) {
    (forall site :: site in sites ==> IsLinked(rc, site.1)) && refs == RefsAt(rc, sites)
  }

  lemma RefsMatchConcat(rc: Context, a: seq<Reference>, b: seq<Reference>, x: seq<Site>, y: seq<Site>)
    requires RefsMatch(rc, a, x) && RefsMatch(rc, b, y)
    ensures RefsMatch(rc, a + b, x + y)
  {
    hide RenderString, PathString, RefAt, RefsAt, IsLinked;
    assert forall site :: site in x + y ==> site in x || site in y;
    var refs := RefsAt(rc, x + y);
    forall i | 0 <= i < |refs| ensures refs[i] == (a + b)[i] {
      if i < |x| {
        assert (x + y)[i] == x[i];
      } else {
        assert (x + y)[i] == y[i - |x|];
      }
    }
  }

  lemma {:induction false} RenderedRefs(rc: Context, t: Json, pos: seq<Seg>)
    ensures var r := RenderValue(rc, t, PathString(pos)); r.Done? ==> RefsMatch(rc, r.refs, Sites(rc, t, pos))
    decreases t, 1, 0
  {
    hide PathString;
    match t
    case Str(s) =>
    case Obj(fields) => FieldRefs(rc, t, SortedKeys(fields.Keys), pos);
    case Arr(items) => ItemRefs(rc, t, 0, pos);
    case _ =>
  }

  lemma {:induction false} FieldRefs(rc: Context, t: Json, keys: seq<string>, pos: seq<Seg>)
    requires t.Obj? && forall k :: k in keys ==> k in t.fields
    ensures var r := RenderFields(rc, t, keys, PathString(pos)); r.Done? ==> RefsMatch(rc, r.refs, FieldSites(rc, t, keys, pos))
    decreases t, 0, |keys|
  {
    hide PathString, RefsMatch, AppendKeySegment;
    if keys == [] {
      RefsMatchNone(rc);
    } else {
      PathStringCons(pos, Key(keys[0]));
      RenderedRefs(rc, t.fields[keys[0]], pos + [Key(keys[0])]);
      FieldRefs(rc, t, keys[1..], pos);
      var a := RenderValue(rc, t.fields[keys[0]], AppendKeySegment(PathString(pos), keys[0]));
      var b := RenderFields(rc, t, keys[1..], PathString(pos));
      if a.Done? && b.Done? {
        RefsMatchConcat(rc, a.refs, b.refs, Sites(rc, t.fields[keys[0]], pos + [Key(keys[0])]), FieldSites(rc, t, keys[1..], pos));
      }
    }
  }

  lemma {:induction false} ItemRefs(rc: Context, t: Json, i: nat, pos: seq<Seg>)
    requires t.Arr? && i <= |t.items|
    ensures var r := RenderItems(rc, t, i, PathString(pos)); r.Done? ==> RefsMatch(rc, r.refs, ItemSites(rc, t, i, pos))
    decreases t, 0, |t.items| - i
  {
    hide PathString, RefsMatch, AppendIndex;
    if i == |t.items| {
      RefsMatchNone(rc);
    } else {
      PathStringCons(pos, Idx(i));
      RenderedRefs(rc, t.items[i], pos + [Idx(i)]);
      ItemRefs(rc, t, i + 1, pos);
      var a := RenderValue(rc, t.items[i], AppendIndex(PathString(pos), i));
      var b := RenderItems(rc, t, i + 1, PathString(pos));
      if a.Done? && b.Done? {
        RefsMatchConcat(rc, a.refs, b.refs, Sites(rc, t.items[i], pos + [Idx(i)]), ItemSites(rc, t, i + 1, pos));
      }
    }
  }

  lemma RefsMatchNone(rc: Context)
    ensures RefsMatch(rc, [], [])
  {
  }

  // ------------------------------------------------------ partly linked trees

  /** The value of a field, Null when it cannot be read. */
  function FieldValue(c: Cluster, from: string, fieldPath: string): Json {
    if from in c.sources && ResolveFieldPath(c.sources[from], fieldPath).Present?
    then ResolveFieldPath(c.sources[from], fieldPath).v else Null
  }

  /** What a string becomes once its reference is linked. */
  function LinkLeaf(rc: Context, c: Cluster, s: string): Json {
    match RenderString(rc, s)
    case Failed(_) => Null
    case Literal(v) => v
    case Linked(source, field, tpl) => LinkValue(tpl, FieldValue(c, rc.childName[source], field))
  }

  function Slot(o: Option<Json>): Json {
    if o.Some? then o.value else Str("")
  }

  /** The tree with the sites in `filled` linked and the others still removed or placeholders. */
  ghost function Partial(rc: Context, c: Cluster, t: Json, pos: seq<Seg>, filled: set<seq<Seg>>): Option<Json>
    decreases t
  {
    match t
    case Str(s) => if IsLinked(rc, s) && pos !in filled then None else Some(LinkLeaf(rc, c, s))
    case Obj(fields) =>
      Some(Obj(map k | k in fields && Partial(rc, c, fields[k], pos + [Key(k)], filled).Some?
                  :: Partial(rc, c, fields[k], pos + [Key(k)], filled).value))
    case Arr(items) =>
      Some(Arr(seq(|items|, i requires 0 <= i < |items| => Slot(Partial(rc, c, items[i], pos + [Idx(i)], filled)))))
    case _ => Some(t)
  }

  /** renderValue yields the tree with nothing linked yet. */
  lemma {:induction false} RenderedIsPartial(rc: Context, c: Cluster, t: Json, pos: seq<Seg>, path: string)
    requires RenderValue(rc, t, path).Done?
    ensures RenderValue(rc, t, path).value == Partial(rc, c, t, pos, {})
    decreases t, 1, 0
  {
    hide AppendKeySegment, AppendIndex, RenderString, SortedKeys, Less, LinkValue, FieldValue;
    match t
    case Str(s) =>
    case Obj(fields) =>
      FieldsArePartial(rc, c, t, SortedKeys(fields.Keys), pos, path);
      assert RenderFields(rc, t, SortedKeys(fields.Keys), path).value == Partial(rc, c, t, pos, {}).value.fields;
    case Arr(items) =>
      ItemsArePartial(rc, c, t, 0, pos, path);
      assert RenderItems(rc, t, 0, path).value == Partial(rc, c, t, pos, {}).value.items;
    case _ =>
  }

  lemma {:induction false} FieldsArePartial(rc: Context, c: Cluster, t: Json, keys: seq<string>, pos: seq<Seg>, path: string)
    requires t.Obj? && (forall k :: k in keys ==> k in t.fields) && RenderFields(rc, t, keys, path).Done?
    ensures var out := RenderFields(rc, t, keys, path).value;
            forall k :: (k in out <==> k in keys && Partial(rc, c, t.fields[k], pos + [Key(k)], {}).Some?)
                        && (k in out ==> out[k] == Partial(rc, c, t.fields[k], pos + [Key(k)], {}).value)
    decreases t, 0, |keys|
  {
    hide AppendKeySegment, RenderValue, Partial;
    if keys != [] {
      RenderedIsPartial(rc, c, t.fields[keys[0]], pos + [Key(keys[0])], AppendKeySegment(path, keys[0]));
      FieldsArePartial(rc, c, t, keys[1..], pos, path);
    }
  }

  lemma {:induction false} ItemsArePartial(rc: Context, c: Cluster, t: Json, i: nat, pos: seq<Seg>, path: string)
    requires t.Arr? && i <= |t.items| && RenderItems(rc, t, i, path).Done?
    ensures var out := RenderItems(rc, t, i, path).value;
            |out| == |t.items| - i
            && forall j :: i <= j < |t.items| ==> out[j - i] == Slot(Partial(rc, c, t.items[j], pos + [Idx(j)], {}))
    decreases t, 0, |t.items| - i
  {
    hide AppendIndex, RenderValue, Partial, Slot;
    if i < |t.items| {
      RenderedIsPartial(rc, c, t.items[i], pos + [Idx(i)], AppendIndex(path, i));
      ItemsArePartial(rc, c, t, i + 1, pos, path);
      SlotOf(RenderValue(rc, t.items[i], AppendIndex(path, i)).value);
    }
  }

  lemma SlotOf(o: Option<Json>)
    ensures Slot(o) == if o.Some? then o.value else Str("")
  {
  }

  /** Filling a position elsewhere does not change the subtree. */
  lemma {:induction false} PartialFrame(rc: Context, c: Cluster, t: Json, pos: seq<Seg>, filled: set<seq<Seg>>, p: seq<Seg>)
    requires !(pos <= p)
    ensures Partial(rc, c, t, pos, filled + {p}) == Partial(rc, c, t, pos, filled)
    decreases t
  {
    match t
    case Obj(fields) =>
      forall k | k in fields
        ensures Partial(rc, c, fields[k], pos + [Key(k)], filled + {p}) == Partial(rc, c, fields[k], pos + [Key(k)], filled)
      {
        PrefixStep(pos, Key(k), p);
        PartialFrame(rc, c, fields[k], pos + [Key(k)], filled, p);
      }
      assert Partial(rc, c, t, pos, filled + {p}).value.fields == Partial(rc, c, t, pos, filled).value.fields;
    case Arr(items) =>
      forall i | 0 <= i < |items|
        ensures Partial(rc, c, items[i], pos + [Idx(i)], filled + {p}) == Partial(rc, c, items[i], pos + [Idx(i)], filled)
      {
        PrefixStep(pos, Idx(i), p);
        PartialFrame(rc, c, items[i], pos + [Idx(i)], filled, p);
      }
      assert Partial(rc, c, t, pos, filled + {p}).value.items == Partial(rc, c, t, pos, filled).value.items;
    case _ =>
  }

  lemma PrefixStep(pos: seq<Seg>, seg: Seg, p: seq<Seg>)
    ensures pos + [seg] <= p <==> pos <= p && |pos| < |p| && p[|pos|] == seg
  {
    if pos <= p && |pos| < |p| && p[|pos|] == seg {
      assert p[..|pos| + 1] == pos + [seg];
    }
    if pos + [seg] <= p {
      assert (pos + [seg])[..|pos|] == pos && (pos + [seg])[|pos|] == seg;
    }
  }

  /** Putting the newly filled child into the partly linked tree gives the tree with that position filled. */
  lemma PutPartial(rc: Context, c: Cluster, t: Json, pos: seq<Seg>, filled: set<seq<Seg>>, p: seq<Seg>, w: Json)
    requires pos < p && Child(t, p[|pos|]).Some?
    requires Partial(rc, c, Child(t, p[|pos|]).value, pos + [p[|pos|]], filled + {p}) == Some(w)
    ensures var r := Partial(rc, c, t, pos, filled);
            r.Some? && Fits(r.value, p[|pos|])
            && Partial(rc, c, t, pos, filled + {p}) == Some(Put(r.value, p[|pos|], w))
  {
    var seg := p[|pos|];
    var r := Partial(rc, c, t, pos, filled).value;
    if t.Obj? {
      forall k | k in t.fields && k != seg.key
        ensures Partial(rc, c, t.fields[k], pos + [Key(k)], filled + {p}) == Partial(rc, c, t.fields[k], pos + [Key(k)], filled)
      {
        PrefixStep(pos, Key(k), p);
        PartialFrame(rc, c, t.fields[k], pos + [Key(k)], filled, p);
      }
      assert Partial(rc, c, t, pos, filled + {p}).value.fields == r.fields[seg.key := w];
    } else {
      forall i | 0 <= i < |t.items| && i != seg.index
        ensures Partial(rc, c, t.items[i], pos + [Idx(i)], filled + {p}) == Partial(rc, c, t.items[i], pos + [Idx(i)], filled)
      {
        PrefixStep(pos, Idx(i), p);
        PartialFrame(rc, c, t.items[i], pos + [Idx(i)], filled, p);
      }
      assert Partial(rc, c, t, pos, filled + {p}).value.items == r.items[seg.index := w];
    }
  }

  /** Setting a site's value in the partly linked tree links that site and nothing else. */
  lemma {:induction false} SetSite(rc: Context, c: Cluster, t: Json, pos: seq<Seg>, filled: set<seq<Seg>>, q: seq<Seg>, s: string)
    requires q != [] && SiteOf(rc, t, q, s)
    ensures var r := Partial(rc, c, t, pos, filled);
            r.Some? && Partial(rc, c, t, pos, filled + {pos + q}).Some?
            && SetAt(r.value, q, LinkLeaf(rc, c, s)) == Update(Partial(rc, c, t, pos, filled + {pos + q}).value, true)
    decreases |q|
  {
    hide LinkLeaf, RenderString;
    var p, seg, ch := pos + q, q[0], Child(t, q[0]).value;
    assert p[|pos|] == seg;
    var r := Partial(rc, c, t, pos, filled).value;
    if |q| == 1 {
      assert q[1..] == [] && p == pos + [seg];
      assert GetAt(ch, q[1..]) == Some(Str(s));
      PutPartial(rc, c, t, pos, filled, p, LinkLeaf(rc, c, s));
    } else {
      SetSite(rc, c, ch, pos + [seg], filled, q[1..], s);
      assert pos + [seg] + q[1..] == p;
      PutPartial(rc, c, t, pos, filled, p, Partial(rc, c, ch, pos + [seg], filled + {p}).value);
      ContainerBelow(rc, c, t, pos, filled, seg, ch, q[1..]);
    }
  }

  lemma ContainerBelow(rc: Context, c: Cluster, t: Json, pos: seq<Seg>, filled: set<seq<Seg>>, seg: Seg, ch: Json, q: seq<Seg>)
    requires Child(t, seg) == Some(ch) && q != [] && GetAt(ch, q).Some?
    ensures var r := Partial(rc, c, t, pos, filled).value;
            Fits(r, seg) && !Creates(r, seg) && Below(r, seg) == Partial(rc, c, ch, pos + [seg], filled).value
  {
    assert ch.Obj? || ch.Arr?;
  }

  /** The tree with every string linked. */
  ghost function LinkedTree(rc: Context, c: Cluster, t: Json): Json
    decreases t
  {
    match t
    case Str(s) => LinkLeaf(rc, c, s)
    case Obj(fields) => Obj(map k | k in fields :: LinkedTree(rc, c, fields[k]))
    case Arr(items) => Arr(seq(|items|, i requires 0 <= i < |items| => LinkedTree(rc, c, items[i])))
    case _ => t
  }

  /** With all sites filled nothing is missing. */
  lemma {:induction false} AllFilled(rc: Context, c: Cluster, t: Json, pos: seq<Seg>, filled: set<seq<Seg>>)
    requires forall q, s :: SiteOf(rc, t, q, s) ==> pos + q in filled
    ensures Partial(rc, c, t, pos, filled) == Some(LinkedTree(rc, c, t))
    decreases t
  {
    match t
    case Str(s) =>
      if IsLinked(rc, s) {
        assert SiteOf(rc, t, [], s) && pos + [] == pos;
      }
    case Obj(fields) =>
      forall k | k in fields
        ensures Partial(rc, c, fields[k], pos + [Key(k)], filled) == Some(LinkedTree(rc, c, fields[k]))
      {
        SitesBelow(rc, t, pos, filled, Key(k), fields[k]);
        AllFilled(rc, c, fields[k], pos + [Key(k)], filled);
      }
      assert Partial(rc, c, t, pos, filled).value.fields == LinkedTree(rc, c, t).fields;
    case Arr(items) =>
      forall i | 0 <= i < |items|
        ensures Partial(rc, c, items[i], pos + [Idx(i)], filled) == Some(LinkedTree(rc, c, items[i]))
      {
        SitesBelow(rc, t, pos, filled, Idx(i), items[i]);
        AllFilled(rc, c, items[i], pos + [Idx(i)], filled);
      }
      assert Partial(rc, c, t, pos, filled).value.items == LinkedTree(rc, c, t).items;
    case _ =>
  }

  lemma SitesBelow(rc: Context, t: Json, pos: seq<Seg>, filled: set<seq<Seg>>, seg: Seg, ch: Json)
    requires Child(t, seg) == Some(ch)
    requires forall q, s :: SiteOf(rc, t, q, s) ==> pos + q in filled
    ensures forall q, s :: SiteOf(rc, ch, q, s) ==> pos + [seg] + q in filled
  {
    forall q, s | SiteOf(rc, ch, q, s) ensures pos + [seg] + q in filled {
      GetAtCons(t, seg, ch, q);
      assert SiteOf(rc, t, [seg] + q, s);
      assert pos + [seg] + q == pos + ([seg] + q);
    }
  }

  // ---------------------------------------------------------- linking, any order

  /** No array is longer than the platform's largest index allows. */
  predicate FitsPlatform(t: Json) {
    match t
    case Obj(fields) => forall k :: k in fields ==> FitsPlatform(fields[k])
    case Arr(items) => |items| <= MAX_INT + 1 && forall i :: 0 <= i < |items| ==> FitsPlatform(items[i])
    case _ => true
  }

  lemma {:induction false} PositionsAddressable(t: Json, q: seq<Seg>)
    requires FitsPlatform(t) && GetAt(t, q).Some?
    ensures Addressable(q)
    decreases |q|
  {
    if q != [] {
      PositionsAddressable(Child(t, q[0]).value, q[1..]);
      assert forall i :: 1 <= i < |q| ==> q[i] == q[1..][i - 1];
    }
  }

  /** The reference's source exists and its field has a value. */
  predicate SourceReady(c: Cluster, r: Reference) {
    r.from in c.sources && ResolveFieldPath(c.sources[r.from], r.fieldPath).Present?
  }

  /** The reference of the listed site. */
  ghost predicate RefOf(rc: Context, t: Json, r: Reference, site: Site) {
    site in Sites(rc, t, []) && IsLinked(rc, site.1) && r == RefAt(rc, site.0, site.1)
  }

  ghost predicate RefsOf(rc: Context, t: Json, refs: seq<Reference>) {
    forall r :: r in refs ==> exists site :: RefOf(rc, t, r, site)
  }

  /** Linking one reference fills its site. */
  lemma LinkOne(rc: Context, c: Cluster, t: Json, filled: set<seq<Seg>>, r: Reference, site: Site)
    requires t.Obj? && FitsPlatform(t) && SourceReady(c, r) && RefOf(rc, t, r, site)
    ensures Partial(rc, c, t, [], filled).Some? && Partial(rc, c, t, [], filled + {site.0}).Some?
    ensures SetPath(Partial(rc, c, t, [], filled).value, r.toPath, LinkValue(r.tpl, ResolveFieldPath(c.sources[r.from], r.fieldPath).v))
         == Update(Partial(rc, c, t, [], filled + {site.0}).value, true)
  {
    hide RenderString, Partial, PathString, ParsePath, SetAt, LinkValue, ResolveFieldPath, Sites;
    var p, s := site.0, site.1;
    SitesLocated(rc, t, []);
    assert p[0..] == p;
    assert SiteOf(rc, t, p, s);
    assert p != [] && p[0].Key?;
    PositionsAddressable(t, p);
    PathRoundTrip(p);
    SetSite(rc, c, t, [], filled, p, s);
    assert [] + p == p;
  }

  /** The positions of the sites whose references have been linked. */
  ghost function Targets(refs: seq<Reference>): set<seq<Seg>> {
    set r | r in refs && ParsePath(r.toPath).Some? :: ParsePath(r.toPath).value
  }

  lemma TargetOf(rc: Context, t: Json, r: Reference, site: Site)
    requires t.Obj? && FitsPlatform(t) && RefOf(rc, t, r, site)
    ensures ParsePath(r.toPath) == Some(site.0)
  {
    hide RenderString, PathString, ParsePath, Sites;
    SitesLocated(rc, t, []);
    assert site.0[0..] == site.0;
    PositionsAddressable(t, site.0);
    PathRoundTrip(site.0);
  }

  /** Linking a list of references fills exactly their targets. */
  lemma {:induction false} LinkAll(rc: Context, c: Cluster, t: Json, filled: set<seq<Seg>>, order: seq<Reference>)
    requires t.Obj? && FitsPlatform(t) && RefsOf(rc, t, order)
    requires forall r :: r in order ==> SourceReady(c, r)
    requires Partial(rc, c, t, [], filled).Some?
    ensures Partial(rc, c, t, [], filled + Targets(order)).Some?
    ensures ResolveReferences(c, order, Partial(rc, c, t, [], filled).value)
         == Linking([], Partial(rc, c, t, [], filled + Targets(order)).value)
    decreases |order|
  {
    hide RenderString, Partial, PathString, ParsePath, SetPath, LinkValue, ResolveFieldPath, RefOf, FitsPlatform;
    if order == [] {
      assert filled + Targets(order) == filled;
    } else {
      var r := order[0];
      assert r in order;
      var site :| RefOf(rc, t, r, site);
      LinkOne(rc, c, t, filled, r, site);
      TargetOf(rc, t, r, site);
      assert forall x :: x in order[1..] ==> x in order;
      LinkAll(rc, c, t, filled + {site.0}, order[1..]);
      assert filled + {site.0} + Targets(order[1..]) == filled + Targets(order);
    }
  }

  /** The references renderValue yields are those of the tree's sites, and every site has one. */
  lemma RenderedRefsAreSites(rc: Context, t: Json)
    requires RenderValue(rc, t, "").Done?
    ensures RefsOf(rc, t, RenderValue(rc, t, "").refs)
    ensures forall site :: site in Sites(rc, t, []) ==> IsLinked(rc, site.1) && RefAt(rc, site.0, site.1) in RenderValue(rc, t, "").refs
  {
    hide RenderString, PathString, RenderValue, Sites;
    RenderedRefs(rc, t, []);
    assert PathString([]) == "" by { EmptyPath(); }
    var refs, sites := RenderValue(rc, t, "").refs, Sites(rc, t, []);
    assert refs == RefsAt(rc, sites);
    forall r | r in refs ensures exists site :: RefOf(rc, t, r, site) {
      var i :| 0 <= i < |refs| && refs[i] == r;
      assert RefOf(rc, t, r, sites[i]);
    }
    forall site | site in sites ensures RefAt(rc, site.0, site.1) in refs {
      var i :| 0 <= i < |sites| && sites[i] == site;
      assert refs[i] == RefAt(rc, site.0, site.1);
    }
  }

  lemma EmptyPath()
    ensures PathString([]) == ""
  {
  }

  /**
   Linking the references of a compiled tree, in whatever order and with whatever
   repetition, succeeds without waiting and yields the tree with every string
   replaced by its linked value: nothing else is touched, nothing is missing.
   */
  lemma CompileThenLink(rc: Context, c: Cluster, t: Json, order: seq<Reference>)
    requires t.Obj? && FitsPlatform(t) && RenderValue(rc, t, "").Done?
    requires forall r :: r in order <==> r in RenderValue(rc, t, "").refs
    requires forall r :: r in order ==> SourceReady(c, r)
    ensures RenderValue(rc, t, "").value.Some?
    ensures ResolveReferences(c, order, RenderValue(rc, t, "").value.value) == Linking([], LinkedTree(rc, c, t))
  {
    hide RenderString, RenderValue, Partial, PathString, ParsePath, ResolveReferences, LinkedTree, FitsPlatform;
    RenderedIsPartial(rc, c, t, [], "");
    RenderedRefsAreSites(rc, t);
    ObjectsStay(rc, c, t);
    LinkAll(rc, c, t, {}, order);
    var all := {} + Targets(order);
    forall q, s | SiteOf(rc, t, q, s) ensures [] + q in all {
      SitesComplete(rc, t, [], q, s);
      assert [] + q == q;
      var r := RefAt(rc, q, s);
      assert r in order;
      assert RefOf(rc, t, r, (q, s));
      TargetOf(rc, t, r, (q, s));
    }
    AllFilled(rc, c, t, [], all);
  }

  lemma ObjectsStay(rc: Context, c: Cluster, t: Json)
    requires t.Obj?
    ensures Partial(rc, c, t, [], {}).Some?
  {
  }

  // -------------------------------------------------- linking is direct evaluation

  /** The children as the composite controller observes them, by template name. */
  function Observed(rc: Context, c: Cluster): map<string, Source> {
    map source | source in rc.childName && rc.childName[source] in c.sources :: c.sources[rc.childName[source]]
  }

  /** What the direct evaluator makes of a string that is ready. */
  function DirectLeaf(rc: Context, c: Cluster, s: string): Json {
    match RenderOutputString(rc, Observed(rc, c), s)
    case Ready(v) => v
    case _ => Null
  }

  ghost function DirectTree(rc: Context, c: Cluster, t: Json): Json
    decreases t
  {
    match t
    case Str(s) => DirectLeaf(rc, c, s)
    case Obj(fields) => Obj(map k | k in fields :: DirectTree(rc, c, fields[k]))
    case Arr(items) => Arr(seq(|items|, i requires 0 <= i < |items| => DirectTree(rc, c, items[i])))
    case _ => t
  }

  /** `q` leads to the string `s`. */
  predicate LeafOf(t: Json, q: seq<Seg>, s: string) {
    GetAt(t, q) == Some(Str(s))
  }

  lemma LeavesBelow(t: Json, seg: Seg, ch: Json)
    requires Child(t, seg) == Some(ch)
    ensures forall q, s :: LeafOf(ch, q, s) ==> LeafOf(t, [seg] + q, s)
  {
    forall q, s | LeafOf(ch, q, s) ensures LeafOf(t, [seg] + q, s) { GetAtCons(t, seg, ch, q); }
  }

  /** When every string is ready, the direct evaluator yields the substituted tree. */
  lemma {:induction false} DirectlyEvaluated(rc: Context, c: Cluster, t: Json)
    requires forall q, s :: LeafOf(t, q, s) ==> RenderOutputString(rc, Observed(rc, c), s).Ready?
    ensures RenderOutputValue(rc, Observed(rc, c), t) == Ready(DirectTree(rc, c, t))
    decreases t, 1, 0
  {
    hide RenderOutputString, Observed;
    match t
    case Str(s) => assert LeafOf(t, [], s);
    case Obj(fields) =>
      FieldsEvaluated(rc, c, t, SortedKeys(fields.Keys));
      assert RenderOutputFields(rc, Observed(rc, c), t, SortedKeys(fields.Keys)).value == DirectTree(rc, c, t).fields;
    case Arr(items) =>
      ItemsEvaluated(rc, c, t, 0);
      assert RenderOutputItems(rc, Observed(rc, c), t, 0).value == DirectTree(rc, c, t).items;
    case _ =>
  }

  lemma {:induction false} FieldsEvaluated(rc: Context, c: Cluster, t: Json, keys: seq<string>)
    requires t.Obj? && forall k :: k in keys ==> k in t.fields
    requires forall q, s :: LeafOf(t, q, s) ==> RenderOutputString(rc, Observed(rc, c), s).Ready?
    ensures var r := RenderOutputFields(rc, Observed(rc, c), t, keys);
            r.Ready? && forall k :: (k in r.value <==> k in keys) && (k in r.value ==> r.value[k] == DirectTree(rc, c, t.fields[k]))
    decreases t, 0, |keys|
  {
    hide RenderOutputString, RenderOutputValue, Observed, DirectTree, LeafOf;
    if keys != [] {
      LeavesBelow(t, Key(keys[0]), t.fields[keys[0]]);
      DirectlyEvaluated(rc, c, t.fields[keys[0]]);
      FieldsEvaluated(rc, c, t, keys[1..]);
    }
  }

  lemma {:induction false} ItemsEvaluated(rc: Context, c: Cluster, t: Json, i: nat)
    requires t.Arr? && i <= |t.items|
    requires forall q, s :: LeafOf(t, q, s) ==> RenderOutputString(rc, Observed(rc, c), s).Ready?
    ensures var r := RenderOutputItems(rc, Observed(rc, c), t, i);
            r.Ready? && |r.value| == |t.items| - i
            && forall j :: i <= j < |t.items| ==> r.value[j - i] == DirectTree(rc, c, t.items[j])
    decreases t, 0, |t.items| - i
  {
    hide RenderOutputString, RenderOutputValue, Observed, DirectTree, LeafOf;
    if i < |t.items| {
      LeavesBelow(t, Idx(i), t.items[i]);
      DirectlyEvaluated(rc, c, t.items[i]);
      ItemsEvaluated(rc, c, t, i + 1);
    }
  }

  /** Linking and direct evaluation give the same value for every string of the tree. */
  ghost predicate LeavesAgree(rc: Context, c: Cluster, t: Json) {
    forall q, s :: LeafOf(t, q, s) ==> LinkLeaf(rc, c, s) == DirectLeaf(rc, c, s)
  }

  /** The two trees are equal exactly when they agree on every string. */
  lemma {:induction false} TreesEqual(rc: Context, c: Cluster, t: Json)
    ensures LinkedTree(rc, c, t) == DirectTree(rc, c, t) <==> LeavesAgree(rc, c, t)
    decreases t
  {
    hide LinkLeaf, DirectLeaf;
    match t
    case Str(s) => assert LeafOf(t, [], s);
    case Obj(fields) =>
      forall k | k in fields
        ensures LinkedTree(rc, c, fields[k]) == DirectTree(rc, c, fields[k]) <==> LeavesAgree(rc, c, fields[k])
      {
        TreesEqual(rc, c, fields[k]);
      }
      LeavesSplit(rc, c, t);
      var a, b := LinkedTree(rc, c, t).fields, DirectTree(rc, c, t).fields;
      assert a == b <==> forall k :: k in fields ==> a[k] == b[k];
    case Arr(items) =>
      forall i | 0 <= i < |items|
        ensures LinkedTree(rc, c, items[i]) == DirectTree(rc, c, items[i]) <==> LeavesAgree(rc, c, items[i])
      {
        TreesEqual(rc, c, items[i]);
      }
      LeavesSplit(rc, c, t);
      var a, b := LinkedTree(rc, c, t).items, DirectTree(rc, c, t).items;
      assert forall i :: 0 <= i < |items| ==> a[i] == LinkedTree(rc, c, items[i]) && b[i] == DirectTree(rc, c, items[i]);
      assert (forall i :: 0 <= i < |items| ==> a[i] == b[i]) ==> a == b;
    case _ =>
  }

  /** A container's strings are those of its children. */
  lemma LeavesSplit(rc: Context, c: Cluster, t: Json)
    ensures t.Obj? ==> (LeavesAgree(rc, c, t) <==> forall k :: k in t.fields ==> LeavesAgree(rc, c, t.fields[k]))
    ensures t.Arr? ==> (LeavesAgree(rc, c, t) <==> forall i :: 0 <= i < |t.items| ==> LeavesAgree(rc, c, t.items[i]))
  {
    hide LinkLeaf, DirectLeaf;
    forall seg | Child(t, seg).Some?
      ensures LeavesAgree(rc, c, t) ==> LeavesAgree(rc, c, Child(t, seg).value)
    {
      LeavesBelow(t, seg, Child(t, seg).value);
    }
    if t.Obj? {
      forall k | k in t.fields ensures LeavesAgree(rc, c, t) ==> LeavesAgree(rc, c, t.fields[k]) {
        assert Child(t, Key(k)) == Some(t.fields[k]);
      }
    }
    if t.Arr? {
      forall i | 0 <= i < |t.items| ensures LeavesAgree(rc, c, t) ==> LeavesAgree(rc, c, t.items[i]) {
        assert Child(t, Idx(i)) == Some(t.items[i]);
      }
    }
    forall q, s | LeafOf(t, q, s) && (t.Obj? || t.Arr?)
      ensures q != [] && Child(t, q[0]).Some? && LeafOf(Child(t, q[0]).value, q[1..], s)
    {
    }
  }

  // -------------------------------------------------------------- the main theorem

  /** No status value of the namespace holds a NUL. */
  ghost predicate CleanCluster(c: Cluster) {
    forall name :: name in c.sources ==>
      NulFree(c.sources[name].id) && (c.sources[name].outputs.Some? ==> CleanJson(Obj(c.sources[name].outputs.value)))
  }

  /** A string whose reference means what the direct evaluator makes of it: the text of the value is kept, and its type. */
  predicate LeafSafe(rc: Context, c: Cluster, s: string) {
    match RenderString(rc, s)
    case Linked(source, field, tpl) =>
      var v := FieldValue(c, rc.childName[source], field);
      TextKept(rc, s, RenderScalar(v)) && (tpl != "" || IsWhole(s) || v.Str?)
    case _ => true
  }

  lemma FieldClean(src: Source, fieldPath: string)
    requires NulFree(src.id) && (src.outputs.Some? ==> CleanJson(Obj(src.outputs.value)))
    ensures ResolveFieldPath(src, fieldPath).Present? ==> CleanJson(ResolveFieldPath(src, fieldPath).v)
  {
    hide ParsePath;
    if src.outputs.Some? && "status.outputs." <= fieldPath {
      var path := fieldPath[|"status.outputs."|..];
      var root := Obj(src.outputs.value);
      if GetPath(root, path).Some? { GetAtClean(root, ParsePath(path).value); }
    }
  }

  lemma {:induction false} LeafClean(t: Json, q: seq<Seg>, s: string)
    requires CleanJson(t) && LeafOf(t, q, s)
    ensures NulFree(s)
    decreases |q|
  {
    GetAtClean(t, q);
  }

  /** One string: ready for the direct evaluator, and with the same value exactly under the guard. */
  lemma LeafAgrees(rc: Context, c: Cluster, s: string)
    requires NulFree(s) && CleanContext(rc) && CleanCluster(c) && !RenderString(rc, s).Failed?
    requires RenderString(rc, s).Linked? ==>
               var r := RenderString(rc, s);
               rc.childName[r.source] in c.sources && ResolveFieldPath(c.sources[rc.childName[r.source]], r.fieldPath).Present?
    ensures RenderOutputString(rc, Observed(rc, c), s).Ready?
    ensures LeafSafe(rc, c, s) <==> LinkLeaf(rc, c, s) == DirectLeaf(rc, c, s)
  {
    hide RenderString, RenderOutputString, TextKept, LinkValue, DirectValue, ResolveFieldPath;
    match RenderString(rc, s)
    case Literal(v) => LiteralsAgree(rc, Observed(rc, c), s);
    case Linked(source, field, tpl) =>
      var src := c.sources[rc.childName[source]];
      var v := ResolveFieldPath(src, field).v;
      FieldClean(src, field);
      assert Yields(Observed(rc, c), RenderString(rc, s), v);
      DirectlyResolved(rc, Observed(rc, c), s, v);
      ValuesAgree(rc, s, v);
  }

  /**
   Compile, then link in any order, is direct evaluation: for every template
   whose referenced fields all resolve, the linked tree is the tree the direct
   evaluator yields, if and only if every string keeps the text and the type of
   the value it refers to.
   */
  lemma CompileThenLinkIsDirect(rc: Context, c: Cluster, t: Json, order: seq<Reference>)
    requires t.Obj? && FitsPlatform(t) && RenderValue(rc, t, "").Done?
    requires CleanJson(t) && CleanContext(rc) && CleanCluster(c)
    requires forall r :: r in order <==> r in RenderValue(rc, t, "").refs
    requires forall r :: r in order ==> SourceReady(c, r)
    ensures RenderValue(rc, t, "").value.Some? && RenderOutputValue(rc, Observed(rc, c), t).Ready?
    ensures ResolveReferences(c, order, RenderValue(rc, t, "").value.value)
              == Linking([], RenderOutputValue(rc, Observed(rc, c), t).value)
            <==> forall q, s :: LeafOf(t, q, s) ==> LeafSafe(rc, c, s)
  {
    hide RenderString, RenderValue, RenderOutputValue, RenderOutputString, ResolveReferences, LinkedTree, DirectTree,
      TextKept, LinkLeaf, DirectLeaf, FitsPlatform, Observed, Sites, PathString;
    CompileThenLink(rc, c, t, order);
    RenderedRefsAreSites(rc, t);
    forall q, s | LeafOf(t, q, s)
      ensures RenderOutputString(rc, Observed(rc, c), s).Ready?
      ensures LeafSafe(rc, c, s) <==> LinkLeaf(rc, c, s) == DirectLeaf(rc, c, s)
    {
      LeafClean(t, q, s);
      LeafCompiles(rc, t, "", q, s);
      if IsLinked(rc, s) {
        SitesComplete(rc, t, [], q, s);
        assert RefAt(rc, [] + q, s) in order;
      }
      LeafAgrees(rc, c, s);
    }
    DirectlyEvaluated(rc, c, t);
    TreesEqual(rc, c, t);
  }

  /** When the tree compiles, so does every string in it. */
  lemma {:induction false} LeafCompiles(rc: Context, t: Json, path: string, q: seq<Seg>, s: string)
    requires RenderValue(rc, t, path).Done? && LeafOf(t, q, s)
    ensures !RenderString(rc, s).Failed?
    decreases |q|
  {
    hide RenderString, AppendKeySegment, AppendIndex, SortedKeys, Less;
    if q != [] {
      if t.Obj? {
        FieldCompiles(rc, t, SortedKeys(t.fields.Keys), path, q[0].key);
        LeafCompiles(rc, t.fields[q[0].key], AppendKeySegment(path, q[0].key), q[1..], s);
      } else {
        ItemCompiles(rc, t, 0, path, q[0].index);
        LeafCompiles(rc, t.items[q[0].index], AppendIndex(path, q[0].index), q[1..], s);
      }
    }
  }

  lemma {:induction false} FieldCompiles(rc: Context, t: Json, keys: seq<string>, path: string, k: string)
    requires t.Obj? && (forall l :: l in keys ==> l in t.fields) && RenderFields(rc, t, keys, path).Done? && k in keys
    ensures RenderValue(rc, t.fields[k], AppendKeySegment(path, k)).Done?
    decreases |keys|
  {
    hide RenderValue, AppendKeySegment;
    if keys[0] != k { FieldCompiles(rc, t, keys[1..], path, k); }
  }

  lemma {:induction false} ItemCompiles(rc: Context, t: Json, i: nat, path: string, j: nat)
    requires t.Arr? && i <= j < |t.items| && RenderItems(rc, t, i, path).Done?
    ensures RenderValue(rc, t.items[j], AppendIndex(path, j)).Done?
    decreases j - i
  {
    hide RenderValue, AppendIndex;
    if i < j { ItemCompiles(rc, t, i + 1, path, j); }
  }

  /** Every string of the tree compiles. */
  ghost predicate AllCompile(rc: Context, t: Json) {
    forall q, s :: LeafOf(t, q, s) ==> !RenderString(rc, s).Failed?
  }

  /** A tree compiles if and only if all its strings do: nothing else in it can fail. */
  lemma CompilesExactly(rc: Context, t: Json, path: string)
    ensures RenderValue(rc, t, path).Done? <==> AllCompile(rc, t)
  {
    hide RenderValue, RenderString, LeafOf;
    if AllCompile(rc, t) {
      TreeCompiles(rc, t, path);
    } else {
      var q, s :| LeafOf(t, q, s) && RenderString(rc, s).Failed?;
      if RenderValue(rc, t, path).Done? { LeafCompiles(rc, t, path, q, s); }
    }
  }

  lemma {:induction false} TreeCompiles(rc: Context, t: Json, path: string)
    requires AllCompile(rc, t)
    ensures RenderValue(rc, t, path).Done?
    decreases t, 1, 0
  {
    hide RenderString, SortedKeys, Less;
    match t
    case Str(s) => assert LeafOf(t, [], s);
    case Obj(fields) => FieldsCompile(rc, t, SortedKeys(fields.Keys), path);
    case Arr(items) => ItemsCompile(rc, t, 0, path);
    case _ =>
  }

  lemma {:induction false} FieldsCompile(rc: Context, t: Json, keys: seq<string>, path: string)
    requires t.Obj? && (forall k :: k in keys ==> k in t.fields) && AllCompile(rc, t)
    ensures RenderFields(rc, t, keys, path).Done?
    decreases t, 0, |keys|
  {
    hide RenderString, RenderValue, LeafOf, AppendKeySegment;
    if keys != [] {
      LeavesBelow(t, Key(keys[0]), t.fields[keys[0]]);
      TreeCompiles(rc, t.fields[keys[0]], AppendKeySegment(path, keys[0]));
      FieldsCompile(rc, t, keys[1..], path);
    }
  }

  lemma {:induction false} ItemsCompile(rc: Context, t: Json, i: nat, path: string)
    requires t.Arr? && i <= |t.items| && AllCompile(rc, t)
    ensures RenderItems(rc, t, i, path).Done?
    decreases t, 0, |t.items| - i
  {
    hide RenderString, RenderValue, LeafOf, AppendIndex;
    if i < |t.items| {
      LeavesBelow(t, Idx(i), t.items[i]);
      TreeCompiles(rc, t.items[i], AppendIndex(path, i));
      ItemsCompile(rc, t, i + 1, path);
    }
  }

  /** The direct evaluator yields a tree if and only if it yields a value for every string. */
  lemma EvaluatesExactly(rc: Context, c: Cluster, t: Json)
    ensures RenderOutputValue(rc, Observed(rc, c), t).Ready? <==>
            forall q, s :: LeafOf(t, q, s) ==> RenderOutputString(rc, Observed(rc, c), s).Ready?
  {
    hide RenderOutputValue, RenderOutputString, LeafOf, DirectTree, Observed;
    if forall q, s :: LeafOf(t, q, s) ==> RenderOutputString(rc, Observed(rc, c), s).Ready? {
      DirectlyEvaluated(rc, c, t);
    } else {
      var q, s :| LeafOf(t, q, s) && !RenderOutputString(rc, Observed(rc, c), s).Ready?;
      if RenderOutputValue(rc, Observed(rc, c), t).Ready? { LeafReady(rc, Observed(rc, c), t, q, s); }
    }
  }

  lemma {:induction false} LeafReady(rc: Context, observed: map<string, Source>, t: Json, q: seq<Seg>, s: string)
    requires RenderOutputValue(rc, observed, t).Ready? && LeafOf(t, q, s)
    ensures RenderOutputString(rc, observed, s).Ready?
    decreases |q|
  {
    hide RenderOutputString, SortedKeys, Less;
    if q != [] {
      if t.Obj? {
        FieldReady(rc, observed, t, SortedKeys(t.fields.Keys), q[0].key);
        LeafReady(rc, observed, t.fields[q[0].key], q[1..], s);
      } else {
        ItemReady(rc, observed, t, 0, q[0].index);
        LeafReady(rc, observed, t.items[q[0].index], q[1..], s);
      }
    }
  }

  lemma {:induction false} FieldReady(rc: Context, observed: map<string, Source>, t: Json, keys: seq<string>, k: string)
    requires t.Obj? && (forall l :: l in keys ==> l in t.fields) && RenderOutputFields(rc, observed, t, keys).Ready? && k in keys
    ensures RenderOutputValue(rc, observed, t.fields[k]).Ready?
    decreases |keys|
  {
    hide RenderOutputValue;
    if keys[0] != k { FieldReady(rc, observed, t, keys[1..], k); }
  }

  lemma {:induction false} ItemReady(rc: Context, observed: map<string, Source>, t: Json, i: nat, j: nat)
    requires t.Arr? && i <= j < |t.items| && RenderOutputItems(rc, observed, t, i).Ready?
    ensures RenderOutputValue(rc, observed, t.items[j]).Ready?
    decreases j - i
  {
    hide RenderOutputValue;
    if i < j { ItemReady(rc, observed, t, i + 1, j); }
  }
}
