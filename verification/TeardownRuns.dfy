/**
 Teardown over whole runs: n rounds of reconciling everyone remove n resources, and
 the order in which external objects go.
 */
module TeardownRuns {
  import Strings
  import opened Graph
  import opened Cycles
  import opened Teardown

  // ---------------------------------------------------------------- runs

  /** One reconcile of a run, and what the provider would answer. */
  datatype Turn = Turn(name: string, outcome: Outcome)

  ghost function Round(w: World, turns: seq<Turn>): World
    decreases |turns|
  {
    if turns == [] then w else Round(TeardownStep(w, turns[0].name, turns[0].outcome), turns[1..])
  }

  ghost function Rounds(w: World, rounds: seq<seq<Turn>>): World
    decreases |rounds|
  {
    if rounds == [] then w else Rounds(Round(w, rounds[0]), rounds[1..])
  }

  /** Each resource of `s` gets a turn and its delete succeeds; no other resource being torn down does. */
  ghost predicate Covers(w: World, turns: seq<Turn>, s: set<string>) {
    && (forall x :: x in s ==> exists i :: 0 <= i < |turns| && turns[i].name == x)
    && (forall i :: 0 <= i < |turns| ==> Served(w, turns[i], s))
  }

  ghost predicate Served(w: World, turn: Turn, s: set<string>) {
    turn.outcome != Refusal && (turn.name in s || !Terminating(w.objects, turn.name))
  }

  /** `now` holds some of the objects of `before`, unchanged. */
  ghost predicate Fewer(now: Graph, before: Graph) {
    forall x :: x in now ==> x in before && now[x] == before[x]
  }

  lemma FewerReferences(now: Graph, before: Graph, a: string, b: string)
    requires Fewer(now, before) && References(now, a, b)
    ensures References(before, a, b)
  {
    var p :| WalkFrom(now, p, a, b);
    forall i | 0 <= i < |p| - 1 ensures p[i + 1] in Refs(before, p[i]) {
      assert p[i + 1] in Refs(now, p[i]);
    }
    assert WalkFrom(before, p, a, b);
  }

  lemma FewerInvolved(now: Graph, before: Graph, a: string)
    requires Fewer(now, before)
    ensures |Involved(now, a)| <= |Involved(before, a)|
  {
    forall b | b in Involved(now, a) ensures b in Involved(before, a) {
      if b != a {
        FewerReferences(now, before, a, b);
        InvolvedClosed(before, a);
      }
    }
    SubsetSize(Involved(now, a), Involved(before, a));
  }

  /** What is left of a draining set keeps draining. */
  lemma DrainingKept(w: World, s: set<string>, now: World)
    requires Draining(w, s) && Fewer(now.objects, w.objects) && now.usages == w.usages
    ensures Draining(now, s * now.objects.Keys)
  {
    hide Involved;
    forall x | x in s * now.objects.Keys && References(now.objects, x, x) ensures |Involved(now.objects, x)| <= SEARCH_LIMIT {
      FewerReferences(now.objects, w.objects, x, x);
      FewerInvolved(now.objects, w.objects, x);
    }
  }

  lemma StillServed(w: World, turns: seq<Turn>, s: set<string>, next: World)
    requires turns != [] && Fewer(next.objects, w.objects) && forall i :: 0 <= i < |turns| ==> Served(w, turns[i], s)
    ensures forall i :: 0 <= i < |turns[1..]| ==> Served(next, turns[1..][i], s)
  {
    forall i | 0 <= i < |turns[1..]| ensures Served(next, turns[1..][i], s) {
      assert Served(w, turns[i + 1], s);
    }
  }

  lemma {:induction false} RoundFewer(w: World, turns: seq<Turn>, s: set<string>)
    requires forall i :: 0 <= i < |turns| ==> Served(w, turns[i], s)
    ensures var now := Round(w, turns);
            Fewer(now.objects, w.objects) && now.usages == w.usages && forall x :: x in w.objects && x !in s ==> x in now.objects
    decreases |turns|
  {
    hide Blocked;
    if turns != [] {
      var next := TeardownStep(w, turns[0].name, turns[0].outcome);
      assert Served(w, turns[0], s);
      StillServed(w, turns, s, next);
      RoundFewer(next, turns[1..], s);
    }
  }

  /** Before the turn of a removable resource comes, it or another one of the set is gone. */
  lemma {:induction false} RoundRemoves(w: World, turns: seq<Turn>, s: set<string>, r: string, i: nat)
    requires forall k :: 0 <= k < |turns| ==> Served(w, turns[k], s)
    requires r in s && Removable(w, r) && i < |turns| && turns[i].name == r
    ensures exists x :: x in s && x in w.objects && x !in Round(w, turns).objects
    decreases |turns|
  {
    hide Blocked;
    var turn := turns[0];
    var next := TeardownStep(w, turn.name, turn.outcome);
    assert Served(w, turn, s);
    if next == w {
      RoundRemoves(w, turns[1..], s, r, i - 1);
    } else {
      StillServed(w, turns, s, next);
      RoundFewer(next, turns[1..], s);
      assert turn.name in s && turn.name in w.objects && turn.name !in next.objects;
    }
  }

  lemma RoundProgress(w: World, turns: seq<Turn>, s: set<string>)
    requires Draining(w, s) && s != {} && Covers(w, turns, s)
    ensures var left := s * Round(w, turns).objects.Keys; Draining(Round(w, turns), left) && |left| < |s|
  {
    hide Draining, Blocked, Round;
    NoDeadlock(w, s);
    var r :| r in s && Removable(w, r);
    var i :| 0 <= i < |turns| && turns[i].name == r;
    RoundRemoves(w, turns, s, r, i);
    RoundFewer(w, turns, s);
    var now := Round(w, turns);
    DrainingKept(w, s, now);
    var x :| x in s && x in w.objects && x !in now.objects;
    SubsetSize(s * now.objects.Keys, s - {x});
  }

  /** Every round reaches every resource of the set, in any order. */
  ghost predicate AllCover(w: World, rounds: seq<seq<Turn>>, s: set<string>) {
    forall i :: 0 <= i < |rounds| ==> Covers(w, rounds[i], s)
  }

  lemma CoversLess(w: World, turns: seq<Turn>, s: set<string>, now: World, left: set<string>)
    requires Covers(w, turns, s) && Fewer(now.objects, w.objects) && left == s * now.objects.Keys
    ensures Covers(now, turns, left)
  {
    forall i | 0 <= i < |turns| ensures Served(now, turns[i], left) {
      assert Served(w, turns[i], s);
    }
  }

  /**
   Teardown never deadlocks: with cycles within the search limit, and deletes that succeed,
   as many rounds as there are resources remove them all, reference cycles included, and
   nothing else.
   */
  lemma {:induction false} TeardownCompletes(w: World, s: set<string>, rounds: seq<seq<Turn>>)
    requires Draining(w, s) && |rounds| >= |s| && AllCover(w, rounds, s)
    ensures Rounds(w, rounds).objects == w.objects - s
    decreases |rounds|
  {
    hide Draining, Covers, Round, Fewer;
    if rounds == [] {
      assert s == {};
      assert w.objects - s == w.objects;
    } else {
      assert Covers(w, rounds[0], s);
      var now := Round(w, rounds[0]);
      var left := s * now.objects.Keys;
      OneRound(w, rounds[0], s);
      forall i | 0 <= i < |rounds[1..]| ensures Covers(now, rounds[1..][i], left) {
        CoversLess(w, rounds[i + 1], s, now, left);
      }
      TeardownCompletes(now, left, rounds[1..]);
      LeftOver(w, s, now, left);
    }
  }

  lemma LeftOver(w: World, s: set<string>, now: World, left: set<string>)
    requires Fewer(now.objects, w.objects) && left == s * now.objects.Keys
    requires forall x :: x in w.objects && x !in s ==> x in now.objects
    ensures now.objects - left == w.objects - s
  {
  }

  /** A round over a draining set takes at least one resource of it, if there is one, and nothing else. */
  lemma OneRound(w: World, turns: seq<Turn>, s: set<string>)
    requires Draining(w, s) && Covers(w, turns, s)
    ensures var now := Round(w, turns);
            var left := s * now.objects.Keys;
            Draining(now, left) && |left| <= |s| && (s != {} ==> |left| < |s|) &&
            Fewer(now.objects, w.objects) && forall x :: x in w.objects && x !in s ==> x in now.objects
  {
    hide Draining, Round, Served;
    RoundFewer(w, turns, s);
    if s != {} {
      RoundProgress(w, turns, s);
    } else {
      DrainingKept(w, s, Round(w, turns));
      assert s * Round(w, turns).objects.Keys == {};
    }
  }

  // ---------------------------------------------------------------- order

  /** Anything that can happen to resources that are neither created nor edited. */
  datatype Event =
    | Mark(name: string)
    | Pause(name: string, paused: bool)
    | Use(usages: seq<Usage>)
    | Reconciled(name: string, outcome: Outcome)

  ghost function Step(w: World, e: Event): World {
    match e
    case Mark(name) => if name in w.objects then w.(objects := w.objects[name := w.objects[name].(deleting := true)]) else w
    case Pause(name, paused) => if name in w.objects then w.(objects := w.objects[name := w.objects[name].(paused := paused)]) else w
    case Use(usages) => w.(usages := usages)
    case Reconciled(name, outcome) => TeardownStep(w, name, outcome)
  }

  ghost function Run(w: World, events: seq<Event>): World
    decreases |events|
  {
    if events == [] then w else Run(Step(w, events[0]), events[1..])
  }

  /**
   One reconcile: it goes to the provider or releases a finalizer only if no live usage
   targets the resource, and every existing other dependent is terminating and has no
   recorded id, or is on a reference cycle with it and has a smaller name.
   */
  lemma TeardownOrder(w: World, name: string, outcome: Outcome)
    ensures var now := TeardownStep(w, name, outcome);
            now != w ==> (!InUse(w.usages, name) && forall d :: Dependent(w.objects, name, d) ==> Yields(w.objects, name, d))
  {
    hide Reaches, Strings.Less;
    forall d | Dependent(w.objects, name, d) && !Blocks(w.objects, name, d) ensures Yields(w.objects, name, d) {
      ReachesExact(w.objects, name, d);
      OneStep(w.objects, d, name);
    }
  }

  /**
   What one reconcile does, in both directions: it acts on a resource that is being deleted,
   is not paused and not held back; it asks the provider if and only if there is an id that
   the policy does not keep; and it releases the finalizer unless the provider refused.
   */
  lemma TeardownActs(w: World, name: string, outcome: Outcome)
    ensures var now := TeardownStep(w, name, outcome);
            var acts := name in w.objects && w.objects[name].deleting && w.objects[name].held && !w.objects[name].paused && !Blocked(w, name);
            var asks := acts && !w.objects[name].orphan && w.objects[name].id != "";
            && w.log <= now.log && now.usages == w.usages
            && (Attempt(name, outcome) in now.log[|w.log|..] <==> asks)
            && (Release(name) in now.log[|w.log|..] <==> acts && !(asks && outcome == Refusal))
            && (!acts ==> now.log == w.log)
            && now.objects == if acts && !(asks && outcome == Refusal) then w.objects - {name} else w.objects
  {
    hide Blocked;
    var more := TeardownStep(w, name, outcome).log[|w.log|..];
    assert TeardownStep(w, name, outcome).log == w.log + more;
  }

  ghost predicate Dependent(g: Graph, name: string, d: string) {
    d in g && d != name && name in g[d].refs
  }

  ghost predicate Yields(g: Graph, name: string, d: string) {
    d in g && g[d].deleting && (g[d].id == "" || (References(g, name, d) && References(g, d, name) && Strings.Less(d, name)))
  }

  /** Within the search limit, what holds a resource back is exactly a live usage or a dependent that does not yield. */
  lemma BlockedExactly(w: World, name: string)
    requires |Involved(w.objects, name)| <= SEARCH_LIMIT
    ensures Blocked(w, name) <==> InUse(w.usages, name) || exists d :: Dependent(w.objects, name, d) && !Yields(w.objects, name, d)
  {
    hide Reaches, Strings.Less, Involved, References;
    forall d | Dependent(w.objects, name, d) ensures Blocks(w.objects, name, d) <==> !Yields(w.objects, name, d) {
      ReachesExact(w.objects, name, d);
      OneStep(w.objects, d, name);
    }
    if d :| Dependent(w.objects, name, d) && !Yields(w.objects, name, d) {
      assert Blocks(w.objects, name, d);
    }
  }

  /** The resources of `g0` that are left still have their references, policy and id. */
  ghost predicate Kept(now: Graph, g0: Graph) {
    forall x :: x in now ==> x in g0 && now[x].refs == g0[x].refs && now[x].orphan == g0[x].orphan && now[x].id == g0[x].id
  }

  ghost predicate ReleasedBefore(log: seq<Entry>, i: nat, d: string) {
    exists j :: 0 <= j < i && j < |log| && log[j] == Release(d)
  }

  /** At its place in the log, each dependent with an external object is gone, or shares a cycle and has a smaller name. */
  ghost predicate InOrder(g0: Graph, log: seq<Entry>, i: nat)
    requires i < |log|
  {
    var s := log[i].name;
    forall d :: Dependent(g0, s, d) && g0[d].id != "" ==> ReleasedBefore(log, i, d) || (References(g0, s, d) && Strings.Less(d, s))
  }

  /**
   A finalizer goes on Orphan, with no id recorded, or right after the provider deleted or
   missed the object; and the provider is asked to delete only what has an id and is not kept
   on purpose.
   */
  ghost predicate Clean(g0: Graph, log: seq<Entry>, i: nat)
    requires i < |log|
  {
    var x := log[i].name;
    x in g0 &&
    match log[i]
    case Attempt(_, _) => !g0[x].orphan && g0[x].id != ""
    case Release(_) =>
      g0[x].orphan || g0[x].id == "" || (i > 0 && log[i - 1].Attempt? && log[i - 1].name == x && log[i - 1].outcome != Refusal)
  }

  ghost predicate History(g0: Graph, w: World) {
    && Kept(w.objects, g0)
    && (forall x :: x in g0 && x !in w.objects ==> ReleasedBefore(w.log, |w.log|, x))
    && (forall i :: 0 <= i < |w.log| ==> InOrder(g0, w.log, i) && Clean(g0, w.log, i))
  }

  lemma KeptReferences(now: Graph, g0: Graph, a: string, b: string)
    requires Kept(now, g0) && References(now, a, b)
    ensures References(g0, a, b)
  {
    var p :| WalkFrom(now, p, a, b);
    forall i | 0 <= i < |p| - 1 ensures p[i + 1] in Refs(g0, p[i]) {
      assert p[i + 1] in Refs(now, p[i]);
    }
    assert WalkFrom(g0, p, a, b);
  }

  /** More entries at the end change nothing before them. */
  lemma Appended(g0: Graph, log: seq<Entry>, more: seq<Entry>)
    ensures forall x :: ReleasedBefore(log, |log|, x) ==> ReleasedBefore(log + more, |log|, x) && ReleasedBefore(log + more, |log + more|, x)
    ensures forall i :: 0 <= i < |log| && InOrder(g0, log, i) ==> InOrder(g0, log + more, i)
    ensures forall i :: 0 <= i < |log| && Clean(g0, log, i) ==> Clean(g0, log + more, i)
  {
    var all := log + more;
    forall x, i: nat | i <= |log| && ReleasedBefore(log, i, x)
      ensures ReleasedBefore(all, i, x) && ReleasedBefore(all, |all|, x)
    {
      var j :| 0 <= j < i && j < |log| && log[j] == Release(x);
      assert all[j] == Release(x);
    }
    forall i | 0 <= i < |log| && InOrder(g0, log, i) ensures InOrder(g0, all, i) {
      assert all[i] == log[i];
    }
  }

  lemma HistoryKept(g0: Graph, w: World, e: Event)
    requires History(g0, w)
    ensures History(g0, Step(w, e))
  {
    hide InOrder, Clean, ReleasedBefore, Removable;
    if e.Reconciled? && Removable(w, e.name) {
      var now := Step(w, e);
      var more := now.log[|w.log|..];
      assert now.log == w.log + more;
      Appended(g0, w.log, more);
      LastEntries(g0, w, e);
    }
  }

  /** The entries a teardown adds are in order and clean. */
  lemma LastEntries(g0: Graph, w: World, e: Event)
    requires History(g0, w) && e.Reconciled? && Removable(w, e.name)
    ensures var log := Step(w, e).log;
            (forall i :: |w.log| <= i < |log| ==> InOrder(g0, log, i) && Clean(g0, log, i)) &&
            (e.name !in Step(w, e).objects ==> ReleasedBefore(log, |log|, e.name))
  {
    hide Strings.Less, Blocked;
    var now := Step(w, e);
    var more := now.log[|w.log|..];
    assert now.log == w.log + more;
    Appended(g0, w.log, more);
    TeardownOrder(w, e.name, e.outcome);
    forall i, d | |w.log| <= i < |now.log| && Dependent(g0, e.name, d) && g0[d].id != ""
      ensures ReleasedBefore(now.log, i, d) || (References(g0, e.name, d) && Strings.Less(d, e.name))
    {
      if d in w.objects {
        assert Dependent(w.objects, e.name, d);
        KeptReferences(w.objects, g0, e.name, d);
      } else {
        assert ReleasedBefore(now.log, |w.log|, d);
      }
    }
    forall i | |w.log| <= i < |now.log| ensures InOrder(g0, now.log, i) && Clean(g0, now.log, i) {
      assert now.log[i].name == e.name;
    }
    if e.name !in now.objects { assert now.log[|now.log| - 1] == Release(e.name); }
  }

  lemma {:induction false} RunHistory(g0: Graph, w: World, events: seq<Event>)
    requires History(g0, w)
    ensures History(g0, Run(w, events))
    decreases |events|
  {
    hide History, Step;
    if events != [] {
      HistoryKept(g0, w, events[0]);
      RunHistory(g0, Step(w, events[0]), events[1..]);
    }
  }

  /**
   Reverse-topological order on acyclic graphs: over every run, when the external object
   of a resource goes, or its finalizer, each resource that references it and has an
   external object of its own has already been released. Finalizers go cleanly, and what
   the policy keeps is never deleted.
   */
  lemma RunOrder(w: World, events: seq<Event>)
    requires w.log == [] && Acyclic(w.objects)
    ensures var log := Run(w, events).log;
            forall i, d :: 0 <= i < |log| && Dependent(w.objects, log[i].name, d) && w.objects[d].id != "" ==> ReleasedBefore(log, i, d)
    ensures var log := Run(w, events).log;
            forall i :: 0 <= i < |log| ==> Clean(w.objects, log, i)
  {
    hide Strings.Less, Run, Step;
    var g0, log := w.objects, Run(w, events).log;
    RunHistory(g0, w, events);
    forall i, d | 0 <= i < |log| && Dependent(g0, log[i].name, d) && g0[d].id != "" ensures ReleasedBefore(log, i, d) {
      assert InOrder(g0, log, i);
      if References(g0, log[i].name, d) {
        OneStep(g0, d, log[i].name);
        Transitive(g0, d, log[i].name, d);
      }
    }
  }

  // ---------------------------------------------------------------- wake-ups

  /** mapGraphNeighbors (doresource_controller.go:548): the names an event of `res` enqueues. */
  method MapGraphNeighbors(g: Graph, items: seq<string>, res: string) returns (reqs: seq<string>)
    requires Lists(g, items) && res in g
    ensures forall x :: x in reqs <==> Dependent(g, res, x) || (g[res].deleting && x != res && x in g[res].refs)
  {
    reqs := DependentsOf(g, items, res);
    if g[res].deleting {
      var refs := g[res].refs;
      for i := 0 to |refs|
        invariant forall x :: x in reqs <==> Dependent(g, res, x) || (x != res && x in refs[..i])
      {
        assert refs[..i + 1] == refs[..i] + [refs[i]];
        if refs[i] == res {
          continue;
        }
        reqs := reqs + [refs[i]];
      }
      assert refs[..|refs|] == refs;
    }
  }

  ghost predicate Wakes(g: Graph, a: string, b: string) {
    a in g && (Dependent(g, a, b) || (g[a].deleting && b != a && b in g[a].refs))
  }

  /** Each event wakes the next resource, and none but the last is terminating. */
  ghost predicate WakeChain(g: Graph, chain: seq<string>) {
    chain != [] && forall i :: 0 <= i < |chain| - 1 ==> Wakes(g, chain[i], chain[i + 1]) && !g[chain[i]].deleting
  }

  /**
   Wake-ups terminate: on an acyclic graph such a chain, read backwards, walks along
   references and never comes back to a resource, so it is no longer than the graph is large.
   */
  lemma WakeUpsTerminate(g: Graph, chain: seq<string>)
    requires Acyclic(g) && WakeChain(g, chain) && chain[0] in g
    ensures Walk(g, Backwards(chain)) && Distinct(chain) && |chain| <= |g.Keys|
  {
    var back := Backwards(chain);
    forall i | 0 <= i < |back| - 1 ensures back[i + 1] in Refs(g, back[i]) {
      assert Wakes(g, chain[|chain| - 2 - i], chain[|chain| - 2 - i + 1]);
    }
    forall i, j | 0 <= i < j < |chain| ensures chain[i] != chain[j] {
      Descends(g, chain, i, j);
    }
    forall x | x in chain ensures x in g.Keys {
      var i :| 0 <= i < |chain| && chain[i] == x;
      if i > 0 { assert Wakes(g, chain[i - 1], chain[i - 1 + 1]); }
    }
    DistinctFits(chain, g.Keys);
  }

  ghost function Backwards(chain: seq<string>): (r: seq<string>)
    ensures |r| == |chain| && forall i :: 0 <= i < |chain| ==> r[i] == chain[|chain| - 1 - i]
  {
    if chain == [] then [] else Backwards(chain[1..]) + [chain[0]]
  }

  /** Every resource woken later in the chain references those woken earlier. */
  lemma {:induction false} Descends(g: Graph, chain: seq<string>, i: nat, j: nat)
    requires WakeChain(g, chain) && i < j < |chain|
    ensures References(g, chain[j], chain[i])
    decreases j
  {
    assert Wakes(g, chain[j - 1], chain[j - 1 + 1]);
    OneStep(g, chain[j], chain[j - 1]);
    if i < j - 1 {
      Descends(g, chain, i, j - 1);
      Transitive(g, chain[j], chain[j - 1], chain[i]);
    }
  }
}
