/**
 detectCycle (references.go:310): a depth-first walk with a shared visited map that
 gives up on paths of more than 32 names, and the rings on which the bounds bite.
 */
module Cycles {
  import opened Strings
  import opened Json
  import opened Graph

  const PATH_LIMIT := 32

  /** The cycle found, if any, and the names visited so far. */
  datatype Found = Found(cycle: Option<seq<string>>, visited: set<string>)

  /** One call of `walk`. */
  function DepthFirst(g: Graph, start: string, name: string, path: seq<string>, visited: set<string>): Found
    decreases PATH_LIMIT + 1 - |path|, 1, 0
  {
    if |path| > PATH_LIMIT || name !in g then Found(None, visited)
    else DepthFirstRefs(g, start, name, path, visited, g[name].refs)
  }

  /** Its loop over the references of the object read. */
  function DepthFirstRefs(g: Graph, start: string, name: string, path: seq<string>, visited: set<string>, refs: seq<string>): Found
    requires |path| <= PATH_LIMIT
    decreases PATH_LIMIT + 1 - |path|, 0, |refs|
  {
    if refs == [] then Found(None, visited)
    else if refs[0] == start then Found(Some(path + [name, refs[0]]), visited)
    else if refs[0] in visited then DepthFirstRefs(g, start, name, path, visited, refs[1..])
    else
      var deeper := DepthFirst(g, start, refs[0], path + [name], visited + {refs[0]});
      if deeper.cycle.Some? then deeper else DepthFirstRefs(g, start, name, path, deeper.visited, refs[1..])
  }

  function DetectCycle(g: Graph, start: string): Option<seq<string>> {
    DepthFirst(g, start, start, [], {}).cycle
  }

  class CycleFinder {
    const g: Graph
    const start: string
    var visited: set<string>

    constructor (g: Graph, start: string)
      ensures this.g == g && this.start == start && visited == {}
    {
      this.g, this.start, visited := g, start, {};
    }

    method Walk(name: string, path: seq<string>) returns (cycle: Option<seq<string>>)
      modifies this`visited
      ensures Found(cycle, visited) == DepthFirst(g, start, name, path, old(visited))
      decreases PATH_LIMIT + 1 - |path|
    {
      if |path| > PATH_LIMIT {
        return None;
      }
      if name !in g {
        return None;
      }
      var refs := g[name].refs;
      assert refs[0..] == refs;
      for i := 0 to |refs|
        invariant DepthFirst(g, start, name, path, old(visited)) == DepthFirstRefs(g, start, name, path, visited, refs[i..])
      {
        var next := refs[i];
        assert refs[i..][0] == next && refs[i..][1..] == refs[i + 1..];
        if next == start {
          return Some(path + [name, next]);
        }
        if next in visited {
          continue;
        }
        visited := visited + {next};
        cycle := Walk(next, path + [name]);
        if cycle.Some? {
          return;
        }
      }
      return None;
    }
  }

  method DetectCycleFrom(g: Graph, start: string) returns (message: string, cyclic: bool)
    ensures cyclic == DetectCycle(g, start).Some?
    ensures cyclic ==> DetectCycle(g, start).value != [] && message == Join(DetectCycle(g, start).value, " -> ")
  {
    var finder := new CycleFinder(g, start);
    var cycle := finder.Walk(start, []);
    CycleIsWalk(g, start);
    if cycle.None? {
      return "", false;
    }
    return Join(cycle.value, " -> "), true;
  }

  // ---------------------------------------------------------------- soundness

  /** A walk from the start back to it, of at most 33 names. */
  ghost predicate Reported(g: Graph, start: string, cycle: seq<string>) {
    WalkFrom(g, cycle, start, start) && |cycle| <= PATH_LIMIT + 2
  }

  lemma {:induction false} FoundIsWalk(g: Graph, start: string, name: string, path: seq<string>, visited: set<string>)
    requires Walk(g, path + [name]) && (path + [name])[0] == start
    ensures var c := DepthFirst(g, start, name, path, visited).cycle; c.Some? ==> Reported(g, start, c.value)
    decreases PATH_LIMIT + 1 - |path|, 1, 0
  {
    if |path| <= PATH_LIMIT && name in g {
      FoundAmongRefs(g, start, name, path, visited, g[name].refs);
    }
  }

  lemma {:induction false} FoundAmongRefs(g: Graph, start: string, name: string, path: seq<string>, visited: set<string>, refs: seq<string>)
    requires |path| <= PATH_LIMIT && Walk(g, path + [name]) && (path + [name])[0] == start
    requires name in g && forall r :: r in refs ==> r in g[name].refs
    ensures var c := DepthFirstRefs(g, start, name, path, visited, refs).cycle; c.Some? ==> Reported(g, start, c.value)
    decreases PATH_LIMIT + 1 - |path|, 0, |refs|
  {
    if refs != [] {
      var next := refs[0];
      Extended(g, path, name, next);
      if next != start && next !in visited {
        FoundIsWalk(g, start, next, path + [name], visited + {next});
        var deeper := DepthFirst(g, start, next, path + [name], visited + {next});
        FoundAmongRefs(g, start, name, path, deeper.visited, refs[1..]);
      } else {
        FoundAmongRefs(g, start, name, path, visited, refs[1..]);
      }
    }
  }

  lemma Extended(g: Graph, path: seq<string>, name: string, next: string)
    requires Walk(g, path + [name]) && next in Refs(g, name)
    ensures path + [name, next] == path + [name] + [next] && Walk(g, path + [name, next])
    ensures (path + [name, next])[0] == (path + [name])[0]
  {
    var p, q := path + [name], path + [name, next];
    assert q == p + [next];
    forall i | 0 <= i < |q| - 1 ensures q[i + 1] in Refs(g, q[i]) {
      if i < |p| - 1 { assert p[i + 1] in Refs(g, p[i]); }
    }
  }

  lemma CycleIsWalk(g: Graph, start: string)
    ensures DetectCycle(g, start).Some? ==> Reported(g, start, DetectCycle(g, start).value)
  {
    assert [] + [start] == [start];
    FoundIsWalk(g, start, start, [], {});
  }

  // -------------------------------------------------------------- completeness

  ghost predicate Distinct(p: seq<string>) {
    forall i, j :: 0 <= i < j < |p| ==> p[i] != p[j]
  }

  lemma {:induction false} DistinctFits(p: seq<string>, u: set<string>)
    requires Distinct(p) && forall x :: x in p ==> x in u
    ensures |p| <= |u|
  {
    if p != [] {
      var last := p[|p| - 1];
      DistinctFits(p[..|p| - 1], u - {last});
    }
  }

  /** All references of `v` are visited, and none is the start. */
  ghost predicate Explored(g: Graph, start: string, v: string, visited: set<string>) {
    forall r :: r in Refs(g, v) ==> r in visited && r != start
  }

  /** The names on the path to `name`: distinct, met before, among `u`. */
  ghost predicate OnPath(start: string, name: string, path: seq<string>, visited: set<string>, u: set<string>) {
    Distinct(path + [name]) && visited + {start} <= u && forall x :: x in path + [name] ==> x in visited || x == start
  }

  /** What a walk that found nothing has done: it only met names of `u`, and left nothing unexplored. */
  ghost predicate Exhausted(g: Graph, start: string, before: set<string>, after: set<string>, u: set<string>) {
    before <= after <= u && forall v :: v in after - before ==> Explored(g, start, v, after)
  }

  lemma ExhaustedThen(g: Graph, start: string, before: set<string>, next: string, mid: set<string>, after: set<string>, u: set<string>)
    requires Exhausted(g, start, before + {next}, mid, u) && Explored(g, start, next, mid) && Exhausted(g, start, mid, after, u)
    ensures Exhausted(g, start, before, after, u)
  {
    forall v | v in after - before ensures Explored(g, start, v, after) {
      if v in mid {
        assert v == next || v in mid - (before + {next});
        assert Explored(g, start, v, mid);
      }
    }
  }

  /** A walk that has not started, or is over at once. */
  lemma ExhaustedNow(g: Graph, start: string, name: string, path: seq<string>, visited: set<string>, u: set<string>)
    requires OnPath(start, name, path, visited, u)
    ensures Exhausted(g, start, visited, visited, u)
  {
  }

  /** The walk goes on to a name that was not met before. */
  lemma NextOnPath(g: Graph, start: string, name: string, path: seq<string>, visited: set<string>, u: set<string>, next: string)
    requires OnPath(start, name, path, visited, u) && Closed(g, u) && name in u
    requires next in Refs(g, name) && next != start && next !in visited
    ensures OnPath(start, next, path + [name], visited + {next}, u)
  {
    var p := path + [name];
    assert next !in p;
    assert forall x :: x in p + [next] ==> x in p || x == next;
  }

  /** And when it is back, it goes on from there. */
  lemma StaysOnPath(
    g: Graph, start: string, name: string, path: seq<string>, visited: set<string>, u: set<string>, next: string, after: set<string>)
    requires OnPath(start, name, path, visited, u) && Exhausted(g, start, visited + {next}, after, u)
    ensures OnPath(start, name, path, after, u) && next in after
  {
  }

  lemma Includes(g: Graph, start: string, before: set<string>, after: set<string>, u: set<string>)
    requires Exhausted(g, start, before, after, u)
    ensures before <= after
  {
  }

  lemma {:induction false} WalkExhausts(g: Graph, start: string, name: string, path: seq<string>, visited: set<string>, u: set<string>)
    requires Closed(g, u) && |u| <= PATH_LIMIT + 1 && OnPath(start, name, path, visited, u)
    ensures var f := DepthFirst(g, start, name, path, visited);
            f.cycle.None? ==> Exhausted(g, start, visited, f.visited, u) && Explored(g, start, name, f.visited)
    decreases PATH_LIMIT + 1 - |path|, 1, 0
  {
    DistinctFits(path + [name], u);
    if name in g {
      assert name in path + [name];
      RefsExhaust(g, start, name, path, visited, u, g[name].refs);
    }
  }

  lemma {:induction false} RefsExhaust(
    g: Graph, start: string, name: string, path: seq<string>, visited: set<string>, u: set<string>, refs: seq<string>)
    requires |path| <= PATH_LIMIT && Closed(g, u) && |u| <= PATH_LIMIT + 1 && OnPath(start, name, path, visited, u)
    requires name in u && forall r :: r in refs ==> r in Refs(g, name)
    ensures var f := DepthFirstRefs(g, start, name, path, visited, refs);
            f.cycle.None? ==> (Exhausted(g, start, visited, f.visited, u) && forall r :: r in refs ==> r in f.visited && r != start)
    decreases PATH_LIMIT + 1 - |path|, 0, |refs|
  {
    hide DepthFirst, OnPath, Exhausted, Closed, Explored;
    if refs == [] {
      ExhaustedNow(g, start, name, path, visited, u);
    } else {
      var next := refs[0];
      assert forall r :: r in refs ==> r == next || r in refs[1..];
      if next != start && next !in visited {
        NextOnPath(g, start, name, path, visited, u, next);
        var deeper := DepthFirst(g, start, next, path + [name], visited + {next});
        WalkExhausts(g, start, next, path + [name], visited + {next}, u);
        if deeper.cycle.None? {
          StaysOnPath(g, start, name, path, visited, u, next, deeper.visited);
          RefsExhaust(g, start, name, path, deeper.visited, u, refs[1..]);
          var rest := DepthFirstRefs(g, start, name, path, deeper.visited, refs[1..]);
          if rest.cycle.None? {
            ExhaustedThen(g, start, visited, next, deeper.visited, rest.visited, u);
            Includes(g, start, deeper.visited, rest.visited, u);
          }
        }
      } else {
        RefsExhaust(g, start, name, path, visited, u, refs[1..]);
        var rest := DepthFirstRefs(g, start, name, path, visited, refs[1..]);
        if next != start && rest.cycle.None? { Includes(g, start, visited, rest.visited, u); }
      }
    }
  }

  lemma ExploredClosed(g: Graph, start: string, c: set<string>)
    requires start in c && forall v :: v in c ==> Explored(g, start, v, c)
    ensures !References(g, start, start)
  {
    if References(g, start, start) { ClosedReferences(g, c, start, start); }
  }

  /** A cycle through the start that no shorter one shortcuts, and that has 34 names or more, is not reported. */
  lemma LongCyclesMissed(g: Graph, start: string)
    requires !Near(g, start, start, PATH_LIMIT + 1)
    ensures DetectCycle(g, start).None?
  {
    CycleIsWalk(g, start);
  }

  /** detectCycle reports only genuine cycles through the start, and misses none when at most 33 names are involved. */
  lemma DetectCycleExact(g: Graph, start: string)
    ensures DetectCycle(g, start).Some? ==> References(g, start, start)
    ensures |Involved(g, start)| <= PATH_LIMIT + 1 ==> (DetectCycle(g, start).Some? <==> References(g, start, start))
  {
    hide DepthFirst, Involved, Closed;
    CycleIsWalk(g, start);
    var u := Involved(g, start);
    if |u| <= PATH_LIMIT + 1 && DetectCycle(g, start).None? {
      InvolvedClosed(g, start);
      WalkExhausts(g, start, start, [], {}, u);
      var met := DepthFirst(g, start, start, [], {}).visited;
      var c := met + {start};
      forall v | v in c ensures Explored(g, start, v, c) {
        assert v == start || v in met - {};
        assert Explored(g, start, v, met);
      }
      ExploredClosed(g, start, c);
    }
  }
}
