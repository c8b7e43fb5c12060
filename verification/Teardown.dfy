/**
 Blocking teardown (references.go:186-265, doresource_controller.go:310-356): which
 dependents hold a deletion back, what a teardown reconcile does, and what follows
 over whole runs: an order, and no deadlock within the search limit.
 */
module Teardown {
  import opened Strings
  import opened Graph

  /** A DoUsage: the resource it protects, and whether it is itself being deleted. */
  datatype Usage = Usage(of: string, deleting: bool)

  /** What the provider answers to a delete. */
  datatype Outcome = Deleted | Missing | Refusal

  datatype Entry = Attempt(name: string, outcome: Outcome) | Release(name: string)

  /** The namespace, and what reconciles have done to it: external deletes issued and finalizers released. */
  datatype World = World(objects: Graph, usages: seq<Usage>, log: seq<Entry>)

  // ---------------------------------------------------------------- blocking

  ghost predicate InUse(usages: seq<Usage>, res: string) {
    exists i :: 0 <= i < |usages| && usages[i].of == res && !usages[i].deleting
  }

  /** `dep` references `res`, and must be torn down first. */
  predicate Blocks(g: Graph, res: string, dep: string) {
    && dep in g && dep != res && res in g[dep].refs
    && !(g[dep].deleting && (g[dep].id == "" || (Reaches(g, res, dep) && Less(dep, res))))
  }

  ghost predicate Blocked(w: World, res: string) {
    InUse(w.usages, res) || exists dep :: Blocks(w.objects, res, dep)
  }

  /** A listing of the namespace names each of its objects. */
  ghost predicate Lists(g: Graph, items: seq<string>) {
    forall x :: x in items <==> x in g
  }

  /** dependentsOf (references.go:186), over a fresh list. */
  method DependentsOf(g: Graph, items: seq<string>, res: string) returns (names: seq<string>)
    requires Lists(g, items)
    ensures forall x :: x in names <==> x in g && x != res && res in g[x].refs
  {
    names := [];
    for i := 0 to |items|
      invariant forall x :: x in names <==> x in items[..i] && x != res && res in g[x].refs
    {
      var item := items[i];
      assert items[..i + 1] == items[..i] + [item];
      if item == res {
        continue;
      }
      var refs := g[item].refs;
      var j := 0;
      while j < |refs| && refs[j] != res
        invariant 0 <= j <= |refs| && res !in refs[..j]
      {
        j := j + 1;
      }
      if j < |refs| {
        names := names + [item];
      }
      assert j == |refs| ==> refs[..j] == refs;
    }
    assert items[..|items|] == items;
  }

  method BlockingUsages(usages: seq<Usage>, res: string) returns (count: nat)
    ensures count > 0 <==> InUse(usages, res)
  {
    count := 0;
    for i := 0 to |usages|
      invariant count > 0 <==> exists k :: 0 <= k < i && usages[k].of == res && !usages[k].deleting
    {
      if usages[i].of != res || usages[i].deleting {
        continue;
      }
      count := count + 1;
    }
  }

  /** blockingDependents (references.go:213): the live usages are counted, the blocking dependents listed. */
  method BlockingDependents(w: World, items: seq<string>, res: string) returns (usages: nat, blocking: seq<string>)
    requires Lists(w.objects, items)
    ensures usages > 0 <==> InUse(w.usages, res)
    ensures forall x :: x in blocking <==> Blocks(w.objects, res, x)
    ensures usages > 0 || blocking != [] <==> Blocked(w, res)
  {
    hide Reaches, Less;
    var deps := DependentsOf(w.objects, items, res);
    usages := BlockingUsages(w.usages, res);
    blocking := [];
    for i := 0 to |deps|
      invariant forall x :: x in blocking <==> x in deps[..i] && Blocks(w.objects, res, x)
    {
      var name := deps[i];
      assert deps[..i + 1] == deps[..i] + [name];
      if name !in w.objects {
        continue;
      }
      var dep := w.objects[name];
      if dep.deleting {
        if dep.id == "" {
          continue;
        }
        var reached := ReachesLoop(w.objects, res, name);
        if reached && Less(name, res) {
          continue;
        }
      }
      blocking := blocking + [name];
    }
    assert deps[..|deps|] == deps;
    assert blocking != [] ==> Blocks(w.objects, res, blocking[0]);
  }

  // ---------------------------------------------------------------- one reconcile

  /** The reconcile of `name` gets as far as its teardown. */
  predicate Terminating(g: Graph, name: string) {
    name in g && g[name].deleting && g[name].held && !g[name].paused
  }

  /** Its finalizer goes only with an external object that is kept on purpose, was never there, or is gone. */
  ghost predicate Removable(w: World, name: string) {
    Terminating(w.objects, name) && !Blocked(w, name)
  }

  predicate External(n: Node) {
    !n.orphan && n.id != ""
  }

  /** reconcileDelete (doresource_controller.go:310) on the store, with the provider's answer. */
  ghost function TeardownStep(w: World, name: string, outcome: Outcome): World {
    if !Removable(w, name) then w
    else if External(w.objects[name]) && outcome == Refusal then w.(log := w.log + [Attempt(name, outcome)])
    else if External(w.objects[name]) then World(w.objects - {name}, w.usages, w.log + [Attempt(name, outcome), Release(name)])
    else World(w.objects - {name}, w.usages, w.log + [Release(name)])
  }

  /** The API server, and the provider behind it. */
  class Store {
    var objects: Graph
    var usages: seq<Usage>
    var log: seq<Entry>

    ghost function State(): World
      reads this
    {
      World(objects, usages, log)
    }

    /** The provider deletes the object with the recorded id; its answer is an input. */
    method Delete(name: string, outcome: Outcome) returns (ok: bool)
      modifies this`log
      ensures ok == (outcome != Refusal) && log == old(log) + [Attempt(name, outcome)]
    {
      log := log + [Attempt(name, outcome)];
      match outcome {
        case Deleted => return true;
        case Missing => return true;
        case Refusal => return false;
      }
    }

    method Reconcile(name: string, items: seq<string>, outcome: Outcome)
      requires Lists(objects, items) && (name in objects ==> objects[name].deleting)
      modifies this
      ensures State() == TeardownStep(old(State()), name, outcome)
    {
      hide Blocks;
      if name !in objects || objects[name].paused || !objects[name].held {
        return;
      }
      var res := objects[name];
      var inUse, deps := BlockingDependents(World(objects, usages, log), items, name);
      if inUse > 0 || deps != [] {
        return;
      }
      if !res.orphan && res.id != "" {
        var ok := Delete(name, outcome);
        if !ok {
          return;
        }
      }
      objects := objects - {name};
      log := log + [Release(name)];
    }
  }

  // ---------------------------------------------------------------- no deadlock

  /** The resources of `s` that reach `r`, and `r`. */
  ghost function Above(g: Graph, s: set<string>, r: string): set<string> {
    set x | x in s && (x == r || References(g, x, r))
  }

  /** Resources that are all being torn down, with everything that references them; those on a cycle are within the search limit. */
  ghost predicate Draining(w: World, s: set<string>) {
    && (forall x :: x in s ==> Terminating(w.objects, x) && !InUse(w.usages, x))
    && (forall x, d :: x in s && d in w.objects && x in w.objects[d].refs ==> d in s)
    && (forall x :: x in s && References(w.objects, x, x) ==> |Involved(w.objects, x)| <= SEARCH_LIMIT)
  }

  /** No resource of `s` has fewer resources above it. */
  ghost predicate Topmost(g: Graph, s: set<string>, r: string) {
    r in s && forall x :: x in s ==> |Above(g, s, r)| <= |Above(g, s, x)|
  }

  lemma {:induction false} TopmostExists(g: Graph, s: set<string>, r: string)
    requires r in s
    ensures exists top :: Topmost(g, s, top)
    decreases |Above(g, s, r)|
  {
    hide Above;
    if !Topmost(g, s, r) {
      var x :| x in s && |Above(g, s, x)| < |Above(g, s, r)|;
      TopmostExists(g, s, x);
    }
  }

  /** What is above a dependent is above the resource; with nothing fewer above, the two reach each other. */
  lemma DependentOfTopmost(g: Graph, s: set<string>, r: string, d: string)
    requires Topmost(g, s, r) && d in s && r in Refs(g, d)
    ensures Above(g, s, d) == Above(g, s, r)
  {
    forall x | x in Above(g, s, d) ensures x in Above(g, s, r) {
      OneStep(g, d, r);
      if x != d { Transitive(g, x, d, r); }
    }
    SubsetSize(Above(g, s, d), Above(g, s, r));
  }

  /** The greatest name among those with the same resources above them is not held back. */
  lemma NoDeadlock(w: World, s: set<string>)
    requires Draining(w, s) && s != {}
    ensures exists r :: r in s && Removable(w, r)
  {
    hide Reaches, Above, Involved, Less;
    var g := w.objects;
    var any :| any in s;
    TopmostExists(g, s, any);
    var top :| Topmost(g, s, top);
    var peers := set x | x in s && Above(g, s, x) == Above(g, s, top);
    assert top in peers;
    ExtremesExist(peers);
    var r :| IsGreatest(r, peers);
    assert Topmost(g, s, r);
    forall d | d in g && d != r && r in g[d].refs ensures !Blocks(g, r, d) {
      DependentYields(g, s, r, d, peers);
    }
    assert Removable(w, r);
  }

  lemma DependentYields(g: Graph, s: set<string>, r: string, d: string, peers: set<string>)
    requires Topmost(g, s, r) && d in s && r in Refs(g, d) && d != r
    requires peers == (set x | x in s && Above(g, s, x) == Above(g, s, r)) && IsGreatest(r, peers)
    requires Terminating(g, d) && (References(g, r, r) ==> |Involved(g, r)| <= SEARCH_LIMIT)
    ensures !Blocks(g, r, d)
  {
    hide Reaches, Involved, Less;
    DependentOfTopmost(g, s, r, d);
    assert r in Above(g, s, d);
    OneStep(g, d, r);
    Transitive(g, r, d, r);
    ReachesExact(g, r, d);
    assert d in peers;
  }

  /** Two resources, terminating, that reference each other. */
  ghost predicate Mutual(w: World, a: string, b: string) {
    && w.objects.Keys == {a, b} && a != b && w.usages == []
    && w.objects[a].refs == [b] && w.objects[b].refs == [a]
    && w.objects[a].id != "" && w.objects[b].id != ""
    && Terminating(w.objects, a) && Terminating(w.objects, b)
  }

  /** Of two resources that reference each other exactly the one with the greater name may go first. */
  lemma MutualTeardown(w: World, a: string, b: string)
    requires Mutual(w, a, b)
    ensures Draining(w, {a, b})
    ensures Removable(w, a) <==> Less(b, a)
  {
    hide Reaches, Involved, Less;
    MutualInvolved(w, a, b);
    MutualInvolved(w, b, a);
    LessTrichotomy(a, b);
    OneStep(w.objects, a, b);
    OneStep(w.objects, b, a);
    ReachesExact(w.objects, a, b);
    assert !InUse(w.usages, a) && !InUse(w.usages, b);
    assert Blocks(w.objects, a, b) <==> !Less(b, a);
    assert forall d :: Blocks(w.objects, a, d) ==> d == b;
  }

  lemma MutualInvolved(w: World, a: string, b: string)
    requires Mutual(w, a, b)
    ensures |Involved(w.objects, a)| <= 2
  {
    assert forall x, y :: x in w.objects && y in w.objects[x].refs ==> y in {a, b};
    SubsetSize(Involved(w.objects, a), {a, b});
  }
}
