/**
 The bounds of the two searches bite exactly: what no short walk closes is not found, on
 rings of references both limits are sharp, and short cycles are missed as well when the
 search meets enough other names first.
 */
module Rings {
  import opened Graph
  import opened Cycles
  import opened Teardown
  import opened Json

  // ---------------------------------------------------------------- long cycles

  /** A dependent with an external object that the resource reaches back by no walk of 64 names or fewer. */
  ghost predicate FarDependent(g: Graph, x: string, d: string) {
    d in g && d != x && x in g[d].refs && g[d].id != "" && !Near(g, x, d, SEARCH_LIMIT - 1)
  }

  /** Resources of which each has such a dependent wait for one another, whatever else they reference. */
  lemma LongCyclesWedge(w: World, s: set<string>)
    requires forall x :: x in s ==> exists d :: FarDependent(w.objects, x, d)
    ensures forall x :: x in s ==> !Removable(w, x)
  {
    hide Near, Reaches;
    forall x | x in s ensures !Removable(w, x) {
      var d :| FarDependent(w.objects, x, d);
      ReachesShort(w.objects, x, d);
      assert Blocks(w.objects, x, d);
    }
  }

  // ---------------------------------------------------------------- rings

  /** Each name references exactly the next one. */
  ghost predicate Chain(g: Graph, chain: seq<string>) {
    Distinct(chain) && forall i :: 0 <= i < |chain| - 1 ==> Refs(g, chain[i]) == [chain[i + 1]]
  }

  /** A walk from the start of a chain follows it. */
  lemma {:induction false} WalkFollows(g: Graph, chain: seq<string>, p: seq<string>, k: nat)
    requires Chain(g, chain) && chain != [] && Walk(g, p) && p[0] == chain[0] && k < |p| && k < |chain|
    ensures p[k] == chain[k]
    decreases k
  {
    if k > 0 {
      WalkFollows(g, chain, p, k - 1);
      assert p[(k - 1) + 1] in Refs(g, p[k - 1]) && Refs(g, chain[k - 1]) == [chain[(k - 1) + 1]];
    }
  }

  /** From the first name of a chain it takes all its steps to reach the last one, and one more to come back. */
  lemma ChainIsFar(g: Graph, chain: seq<string>, n: nat)
    requires Chain(g, chain) && |chain| > 1 && n < |chain|
    ensures n < |chain| - 1 ==> !Near(g, chain[0], chain[|chain| - 1], n)
    ensures !Near(g, chain[0], chain[0], n)
  {
    forall p, b | b in {chain[0], chain[|chain| - 1]} && WalkFrom(g, p, chain[0], b) ensures |p| > |chain| - if b == chain[0] then 0 else 1 {
      if |p| <= |chain| { WalkFollows(g, chain, p, |p| - 1); }
    }
  }

  /** The chain itself is a walk. */
  lemma ChainReferences(g: Graph, chain: seq<string>)
    requires Chain(g, chain) && |chain| > 1
    ensures References(g, chain[0], chain[|chain| - 1])
  {
    assert WalkFrom(g, chain, chain[0], chain[|chain| - 1]);
  }

  ghost function Successor(at: nat, n: nat): (r: nat)
    requires at < n
    ensures r == (at + 1) % n
  {
    if at + 1 == n then 0 else at + 1
  }

  /** The `i`-th resource references exactly the next one and has an external object. */
  ghost predicate Linked(g: Graph, ring: seq<string>, i: nat)
    requires i < |ring|
  {
    ring[i] in g && g[ring[i]].id != "" && g[ring[i]].refs == [ring[Successor(i, |ring|)]]
  }

  /** A ring of references. */
  ghost predicate Ring(g: Graph, ring: seq<string>) {
    Distinct(ring) && ring != [] && forall i :: 0 <= i < |ring| ==> Linked(g, ring, i)
  }

  /** The ring, read from one of its names on. */
  ghost function From(ring: seq<string>, i: nat): (chain: seq<string>)
    requires i < |ring|
    ensures |chain| == |ring|
    ensures forall k :: 0 <= k < |ring| ==> chain[k] == ring[if k < |ring| - i then i + k else i + k - |ring|]
  {
    ring[i..] + ring[..i]
  }

  lemma FromDistinct(ring: seq<string>, i: nat)
    requires i < |ring| && Distinct(ring)
    ensures Distinct(From(ring, i))
  {
  }

  /** Read from one name on a ring is a chain, whose last name references the first. */
  lemma RingIsChain(g: Graph, ring: seq<string>, i: nat)
    requires Ring(g, ring) && i < |ring|
    ensures var chain := From(ring, i);
            chain[0] == ring[i] && Chain(g, chain) && chain[|ring| - 1] in g && g[chain[|ring| - 1]].id != "" &&
            g[chain[|ring| - 1]].refs == [ring[i]]
  {
    FromDistinct(ring, i);
    hide Distinct, From;
    var n, chain := |ring|, From(ring, i);
    forall k | 0 <= k < n - 1 ensures Refs(g, chain[k]) == [chain[k + 1]] {
      assert Linked(g, ring, if k < n - i then i + k else i + k - n);
    }
    assert Linked(g, ring, if i == 0 then n - 1 else i - 1);
  }

  lemma RingReturns(g: Graph, ring: seq<string>, i: nat)
    requires Ring(g, ring) && i < |ring|
    ensures References(g, ring[i], ring[i])
  {
    hide Ring;
    var chain := From(ring, i);
    var last := chain[|ring| - 1];
    RingIsChain(g, ring, i);
    OneStep(g, last, ring[i]);
    if |ring| > 1 {
      ChainReferences(g, chain);
      Transitive(g, ring[i], last, ring[i]);
    }
  }

  /** Beyond the limit every resource of a ring waits for the one that references it. */
  lemma LongRingWedges(w: World, ring: seq<string>, i: nat)
    requires Ring(w.objects, ring) && |ring| > SEARCH_LIMIT && i < |ring|
    ensures Blocked(w, ring[i])
  {
    hide Ring, Near, Reaches;
    var g, chain := w.objects, From(ring, i);
    RingIsChain(g, ring, i);
    ChainIsFar(g, chain, SEARCH_LIMIT - 1);
    ReachesShort(g, ring[i], chain[|ring| - 1]);
    assert chain[|ring| - 1] != chain[0];
    assert Blocks(g, ring[i], chain[|ring| - 1]);
  }

  ghost function NamesOf(p: seq<string>): set<string> {
    set x | x in p
  }

  /** The names of a ring are all that a search from one of them can meet. */
  lemma RingInvolves(g: Graph, ring: seq<string>, i: nat)
    requires Ring(g, ring) && i < |ring|
    ensures |Involved(g, ring[i])| <= |ring|
  {
    var names := NamesOf(ring);
    assert Closed(g, names) by {
      forall x, y | x in names && y in Refs(g, x) ensures y in names {
        var k :| 0 <= k < |ring| && ring[k] == x;
        assert Linked(g, ring, k);
      }
    }
    forall b | b in Involved(g, ring[i]) ensures b in names {
      if b != ring[i] { ClosedReferences(g, names, ring[i], b); }
    }
    SubsetSize(Involved(g, ring[i]), names);
    FewerNames(ring);
  }

  lemma {:induction false} FewerNames(p: seq<string>)
    ensures |NamesOf(p)| <= |p|
  {
    if p != [] {
      var last := p[|p| - 1];
      FewerNames(p[..|p| - 1]);
      SubsetSize(NamesOf(p), NamesOf(p[..|p| - 1]) + {last});
    }
  }

  /** A namespace that is one ring, all of it terminating. */
  ghost predicate RingWorld(w: World, ring: seq<string>) {
    && Ring(w.objects, ring)
    && (forall x :: x in w.objects <==> x in ring)
    && (forall x :: x in ring ==> Terminating(w.objects, x) && !InUse(w.usages, x))
  }

  lemma ShortRingDrains(w: World, ring: seq<string>)
    requires RingWorld(w, ring) && |ring| <= SEARCH_LIMIT
    ensures Draining(w, NamesOf(ring)) && ring[0] in NamesOf(ring)
  {
    hide Involved, Terminating, InUse, Distinct, References;
    forall x | x in NamesOf(ring) ensures |Involved(w.objects, x)| <= SEARCH_LIMIT {
      var i :| 0 <= i < |ring| && ring[i] == x;
      RingInvolves(w.objects, ring, i);
    }
    forall x, d | x in NamesOf(ring) && d in w.objects && x in w.objects[d].refs ensures d in NamesOf(ring) {
      assert d in ring;
    }
  }

  /** The limit of reaches is sharp: a ring of terminating resources can be torn down if and only if it has at most 64 names. */
  lemma RingTornDown(w: World, ring: seq<string>)
    requires RingWorld(w, ring)
    ensures (exists x :: x in ring && Removable(w, x)) <==> |ring| <= 64
  {
    hide Removable, Draining, Ring;
    if |ring| > SEARCH_LIMIT {
      forall x | x in ring ensures !Removable(w, x) {
        LongRingStuck(w, ring, x);
      }
    } else {
      ShortRingDrains(w, ring);
      NoDeadlock(w, NamesOf(ring));
      var r :| r in NamesOf(ring) && Removable(w, r);
      assert r in ring;
    }
  }

  lemma LongRingStuck(w: World, ring: seq<string>, x: string)
    requires Ring(w.objects, ring) && |ring| > SEARCH_LIMIT && x in ring
    ensures !Removable(w, x)
  {
    hide Ring, Blocked;
    var i :| 0 <= i < |ring| && ring[i] == x;
    LongRingWedges(w, ring, i);
  }

  /** The limit of detectCycle is sharp: a ring is reported, from any of its names, if and only if it has at most 33. */
  lemma RingReported(g: Graph, ring: seq<string>, i: nat)
    requires Ring(g, ring) && i < |ring|
    ensures DetectCycle(g, ring[i]).Some? <==> |ring| <= 33
  {
    hide Ring, Near, DetectCycle, Involved;
    if |ring| > PATH_LIMIT + 1 {
      RingIsChain(g, ring, i);
      ChainIsFar(g, From(ring, i), PATH_LIMIT + 1);
      LongCyclesMissed(g, ring[i]);
    } else {
      RingReturns(g, ring, i);
      RingInvolves(g, ring, i);
      DetectCycleExact(g, ring[i]);
    }
  }

  // ---------------------------------------------------------------- crowded pairs

  /** Names that refer to nothing, none of them visited or the target, fill the search up before what follows them is read. */
  lemma {:induction false} LeavesExhaust(g: Graph, target: string, visited: set<string>, leaves: seq<string>, rest: seq<string>)
    requires Distinct(leaves) && forall x :: x in leaves ==> Refs(g, x) == [] && x != target && x !in visited
    requires |visited| + |leaves| >= SEARCH_LIMIT
    ensures !Search(g, target, visited, leaves + rest)
    decreases |leaves|
  {
    if |visited| < SEARCH_LIMIT {
      var leaf, queue := leaves[0], leaves + rest;
      assert queue[0] == leaf && leaf in leaves && queue[1..] + Refs(g, leaf) == leaves[1..] + rest;
      assert forall j :: 0 <= j < |leaves[1..]| ==> leaves[1..][j] == leaves[j + 1] && leaves[j + 1] in leaves;
      LeavesExhaust(g, target, visited + {leaf}, leaves[1..], rest);
    }
  }

  /** Two terminating resources reference each other, and before that the same names, which refer to nothing. */
  ghost predicate CrowdedPair(w: World, a: string, b: string, leaves: seq<string>) {
    && w.objects.Keys == {a, b} && a != b && Distinct(leaves) && a !in leaves && b !in leaves
    && w.objects[a].refs == leaves + [b] && w.objects[b].refs == leaves + [a]
    && (forall x :: x in {a, b} ==> Terminating(w.objects, x) && !InUse(w.usages, x) && w.objects[x].id != "")
  }

  lemma PairSwaps(w: World, a: string, b: string, leaves: seq<string>)
    requires CrowdedPair(w, a, b, leaves)
    ensures CrowdedPair(w, b, a, leaves)
  {
  }

  lemma CrowdedBlocks(w: World, a: string, b: string, leaves: seq<string>)
    requires CrowdedPair(w, a, b, leaves) && |leaves| + 2 > SEARCH_LIMIT
    ensures Blocked(w, a)
  {
    hide Search;
    LeavesExhaust(w.objects, b, {a}, leaves, [b]);
    assert Blocks(w.objects, a, b);
  }

  lemma PairInvolves(w: World, a: string, b: string, leaves: seq<string>)
    requires CrowdedPair(w, a, b, leaves)
    ensures |Involved(w.objects, a)| <= |leaves| + 2
  {
    var g, names := w.objects, NamesOf(leaves + [a, b]);
    assert Closed(g, names);
    forall x | x in Involved(g, a) ensures x in names {
      assert a in leaves + [a, b];
      if x != a { ClosedReferences(g, names, a, x); }
    }
    SubsetSize(Involved(g, a), names);
    FewerNames(leaves + [a, b]);
  }

  /**
   The limit of reaches counts names, not steps: a pair that references each other can be torn
   down if and only if the names it involves are at most 64, so that no weaker bound than
   that of NoDeadlock would do.
   */
  lemma CrowdedPairTornDown(w: World, a: string, b: string, leaves: seq<string>)
    requires CrowdedPair(w, a, b, leaves)
    ensures (exists x :: x in {a, b} && Removable(w, x)) <==> |leaves| + 2 <= 64
    ensures |Involved(w.objects, a)| <= |leaves| + 2 && |Involved(w.objects, b)| <= |leaves| + 2
  {
    hide Blocked, Involved, References;
    PairSwaps(w, a, b, leaves);
    PairInvolves(w, a, b, leaves);
    PairInvolves(w, b, a, leaves);
    if |leaves| + 2 > SEARCH_LIMIT {
      CrowdedBlocks(w, a, b, leaves);
      CrowdedBlocks(w, b, a, leaves);
    } else {
      assert Draining(w, {a, b});
      assert a in {a, b};
      NoDeadlock(w, {a, b});
    }
  }

  // ---------------------------------------------------------------- detours

  /** The start references `line[1]` and the last name; the others reference the next one, and the last one the start. */
  ghost predicate Detour(g: Graph, line: seq<string>) {
    && |line| > 2 && Distinct(line) && (forall x :: x in line ==> x in g)
    && g[line[0]].refs == [line[1], line[|line| - 1]] && g[line[|line| - 1]].refs == [line[0]]
    && forall i :: 1 <= i < |line| - 1 ==> g[line[i]].refs == [line[i + 1]]
  }

  /** The names of the line up to the `k`-th, without the start. */
  ghost function Passed(line: seq<string>, k: nat): set<string>
    requires k < |line|
  {
    set i | 1 <= i <= k :: line[i]
  }

  /** The walk goes down the line, and marks the name on which it gives up. */
  lemma {:induction false} DownTheLine(g: Graph, line: seq<string>, k: nat)
    requires Detour(g, line) && 1 <= k < |line| && k <= PATH_LIMIT + 1
    ensures var f := DepthFirst(g, line[0], line[k], line[..k], Passed(line, k));
            if |line| <= PATH_LIMIT + 1 then f.cycle.Some? else f == Found(None, Passed(line, PATH_LIMIT + 1))
    decreases PATH_LIMIT + 1 - k
  {
    if k <= PATH_LIMIT && k < |line| - 1 {
      var next, more := line[k + 1], Passed(line, k + 1);
      assert line[..k] + [line[k]] == line[..k + 1] && Passed(line, k) + {next} == more && next !in Passed(line, k);
      DownTheLine(g, line, k + 1);
      var deeper := DepthFirst(g, line[0], next, line[..k + 1], more);
      assert [next][1..] == [];
      assert deeper.cycle.None? ==> DepthFirstRefs(g, line[0], line[k], line[..k], deeper.visited, []) == Found(None, deeper.visited);
    }
  }

  /**
   The limit of detectCycle loses short cycles too: with a detour from the start to the name
   that closes a cycle of two, that cycle is reported unless the detour has just the length
   at which the walk marks the name and gives up. 34 names are involved then, so that no
   weaker bound than that of DetectCycleExact would do.
   */
  lemma DetourReported(g: Graph, line: seq<string>)
    requires Detour(g, line)
    ensures DetectCycle(g, line[0]).Some? <==> |line| != 34
    ensures References(g, line[0], line[0]) && |Involved(g, line[0])| <= |line|
  {
    DetourInvolves(g, line);
    hide Involved, References, DepthFirst, Distinct;
    var start, last, refs := line[0], line[|line| - 1], [line[1], line[|line| - 1]];
    assert {line[1]} == Passed(line, 1) && {} + {line[1]} == {line[1]} && line[..1] == [start] && [] + [start] == [start];
    assert refs[0] == line[1] && refs[1..] == [last];
    FromStart(g, line);
    DownTheLine(g, line, 1);
    var deeper := DepthFirst(g, start, line[1], [start], Passed(line, 1));
    LastReference(g, line, deeper.visited);
    if deeper.cycle.None? { PassedLast(line); }
  }

  lemma FromStart(g: Graph, line: seq<string>)
    requires Detour(g, line)
    ensures line[1] != line[0] && DetectCycle(g, line[0]) == DepthFirstRefs(g, line[0], line[0], [], {}, [line[1], line[|line| - 1]]).cycle
  {
    hide DepthFirstRefs;
  }

  /** Of the start's references the last one closes the cycle, unless it is visited. */
  lemma LastReference(g: Graph, line: seq<string>, visited: set<string>)
    requires Detour(g, line)
    ensures DepthFirstRefs(g, line[0], line[0], [], visited, [line[|line| - 1]]).cycle.Some? <==> line[|line| - 1] !in visited
  {
    var start, last := line[0], line[|line| - 1];
    assert [last][1..] == [] && [] + [start] == [start];
    assert DepthFirst(g, start, last, [start], visited + {last}).cycle.Some?;
  }

  lemma PassedLast(line: seq<string>)
    requires Distinct(line) && |line| > PATH_LIMIT + 1
    ensures line[|line| - 1] in Passed(line, PATH_LIMIT + 1) <==> |line| == PATH_LIMIT + 2
  {
  }

  lemma DetourInvolves(g: Graph, line: seq<string>)
    requires Detour(g, line)
    ensures References(g, line[0], line[0]) && |Involved(g, line[0])| <= |line|
  {
    var names, start, last := NamesOf(line), line[0], line[|line| - 1];
    OneStep(g, start, last);
    OneStep(g, last, start);
    Transitive(g, start, last, start);
    assert Closed(g, names) by {
      forall x, y | x in names && y in Refs(g, x) ensures y in names {
        var k :| 0 <= k < |line| && line[k] == x;
        assert y in [line[0], line[1], last] || y == line[k + 1];
      }
    }
    forall x | x in Involved(g, start) ensures x in names {
      if x != start { ClosedReferences(g, names, start, x); }
    }
    SubsetSize(Involved(g, start), names);
    FewerNames(line);
  }
}
