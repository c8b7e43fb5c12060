/**
 The reference graph of a namespace (references.go): walks along references, the
 bounded breadth-first search of `reaches` and the depth-first search of `detectCycle`.
 */
module Graph {

  /** What the graph engine reads of a resource. */
  datatype Node = Node(refs: seq<string>, deleting: bool, held: bool, paused: bool, orphan: bool, id: string)

  type Graph = map<string, Node>

  /** The names a name refers to; an object that cannot be read refers to none. */
  function Refs(g: Graph, name: string): seq<string> {
    if name in g then g[name].refs else []
  }

  // ------------------------------------------------------------------------ walks

  /** Each name of the walk references the next one. */
  ghost predicate Walk(g: Graph, p: seq<string>) {
    p != [] && forall i :: 0 <= i < |p| - 1 ==> p[i + 1] in Refs(g, p[i])
  }

  ghost predicate WalkFrom(g: Graph, p: seq<string>, a: string, b: string) {
    |p| >= 2 && Walk(g, p) && p[0] == a && p[|p| - 1] == b
  }

  /** `a` references `b`, directly or through others. */
  ghost predicate References(g: Graph, a: string, b: string) {
    exists p :: WalkFrom(g, p, a, b)
  }

  ghost predicate Acyclic(g: Graph) {
    forall a :: !References(g, a, a)
  }

  lemma OneStep(g: Graph, a: string, b: string)
    requires b in Refs(g, a)
    ensures References(g, a, b)
  {
    assert WalkFrom(g, [a, b], a, b);
  }

  lemma Transitive(g: Graph, a: string, b: string, c: string)
    requires References(g, a, b) && References(g, b, c)
    ensures References(g, a, c)
  {
    var p :| WalkFrom(g, p, a, b);
    var q :| WalkFrom(g, q, b, c);
    var r := p + q[1..];
    forall i | 0 <= i < |r| - 1 ensures r[i + 1] in Refs(g, r[i]) {
      if i >= |p| - 1 { assert r[i] == q[i - |p| + 1] && r[i + 1] == q[i - |p| + 2]; }
    }
    assert WalkFrom(g, r, a, c);
  }

  /** Every reference out of the set stays in it. */
  ghost predicate Closed(g: Graph, c: set<string>) {
    forall x, y :: x in c && y in Refs(g, x) ==> y in c
  }

  lemma {:induction false} WalkStays(g: Graph, p: seq<string>, c: set<string>)
    requires Walk(g, p) && Closed(g, c) && p[0] in c
    ensures forall i :: 0 <= i < |p| ==> p[i] in c
    decreases |p|
  {
    if |p| > 1 {
      assert p[0 + 1] in Refs(g, p[0]);
      var rest := p[1..];
      assert Walk(g, rest) by {
        forall i | 0 <= i < |rest| - 1 ensures rest[i + 1] in Refs(g, rest[i]) {
          assert p[(i + 1) + 1] in Refs(g, p[i + 1]);
        }
      }
      WalkStays(g, rest, c);
      assert forall i :: 1 <= i < |p| ==> p[i] == rest[i - 1];
    }
  }

  /** A closed set that holds `a` holds all that `a` references; if none of its names references `b`, neither does `a`. */
  lemma ClosedReferences(g: Graph, c: set<string>, a: string, b: string)
    requires Closed(g, c) && a in c && References(g, a, b)
    ensures b in c && exists x :: x in c && b in Refs(g, x)
  {
    var p :| WalkFrom(g, p, a, b);
    WalkStays(g, p, c);
    assert p[(|p| - 2) + 1] in Refs(g, p[|p| - 2]);
  }

  /** All names that occur in the graph. */
  ghost function Names(g: Graph): set<string> {
    g.Keys + set x, y | x in g && y in g[x].refs :: y
  }

  /** The names a search from `a` can meet, with `a` itself. */
  ghost function Involved(g: Graph, a: string): set<string> {
    {a} + set b | b in Names(g) && References(g, a, b)
  }

  lemma InvolvedClosed(g: Graph, a: string)
    ensures Closed(g, Involved(g, a)) && a in Involved(g, a)
    ensures forall b :: References(g, a, b) ==> b in Involved(g, a)
  {
    forall x, y | x in Involved(g, a) && y in Refs(g, x) ensures y in Involved(g, a) {
      OneStep(g, x, y);
      if x != a { Transitive(g, a, x, y); }
      assert x in g && y in g[x].refs;
    }
    forall b | References(g, a, b) ensures b in Involved(g, a) {
      ClosedReferences(g, Involved(g, a), a, b);
    }
  }

  // ---------------------------------------------------------------------- reaches

  const SEARCH_LIMIT := 64

  /** The loop of reaches (references.go:287-305). */
  function Search(g: Graph, target: string, visited: set<string>, queue: seq<string>): bool
    decreases SEARCH_LIMIT - |visited|, |queue|
  {
    if queue == [] || |visited| >= SEARCH_LIMIT then false
    else if queue[0] == target then true
    else if queue[0] in visited then Search(g, target, visited, queue[1..])
    else Search(g, target, visited + {queue[0]}, queue[1..] + Refs(g, queue[0]))
  }

  /** reaches (references.go:281). */
  function Reaches(g: Graph, res: string, target: string): bool {
    Search(g, target, {res}, Refs(g, res))
  }

  method ReachesLoop(g: Graph, res: string, target: string) returns (found: bool)
    ensures found == Reaches(g, res, target)
  {
    var visited, queue := {res}, Refs(g, res);
    while queue != [] && |visited| < SEARCH_LIMIT
      invariant Search(g, target, visited, queue) == Reaches(g, res, target)
      decreases SEARCH_LIMIT - |visited|, |queue|
    {
      var name := queue[0];
      if name == target {
        return true;
      }
      queue := queue[1..];
      if name in visited {
        continue;
      }
      visited := visited + {name};
      queue := queue + Refs(g, name);
    }
    return false;
  }

  /** What the search finds is referenced. */
  lemma {:induction false} SearchSound(g: Graph, target: string, visited: set<string>, queue: seq<string>, c: set<string>)
    requires Search(g, target, visited, queue)
    requires Closed(g, c) && forall q :: q in queue ==> q in c
    ensures target in c
    decreases SEARCH_LIMIT - |visited|, |queue|
  {
    if queue[0] != target {
      if queue[0] in visited {
        SearchSound(g, target, visited, queue[1..], c);
      } else {
        SearchSound(g, target, visited + {queue[0]}, queue[1..] + Refs(g, queue[0]), c);
      }
    }
  }

  /** Every reference of a visited name is queued, or visited and not the target. */
  ghost predicate Swept(g: Graph, target: string, visited: set<string>, queue: seq<string>) {
    forall v :: v in visited ==> forall r :: r in Refs(g, v) ==> r in queue || (r in visited && r != target)
  }

  /** A set that holds `visited` and the queue, is closed, and has no reference to the target. */
  ghost predicate Barrier(g: Graph, target: string, visited: set<string>, c: set<string>) {
    visited <= c && Closed(g, c) && forall x :: x in c ==> target !in Refs(g, x)
  }

  lemma SubsetSize<T>(a: set<T>, b: set<T>)
    requires a <= b
    ensures |a| <= |b| && (|a| == |b| ==> a == b)
  {
    if a != b {
      var x :| x in b && x !in a;
      SubsetSize(a, b - {x});
    }
  }

  /** A search that fails within the limit leaves a barrier around what it saw. */
  lemma {:induction false} SearchMisses(g: Graph, target: string, visited: set<string>, queue: seq<string>, u: set<string>)
    requires !Search(g, target, visited, queue) && Swept(g, target, visited, queue)
    requires Closed(g, u) && visited <= u && forall q :: q in queue ==> q in u
    requires |u| < SEARCH_LIMIT || (|u| == SEARCH_LIMIT && target !in visited)
    ensures exists c :: Barrier(g, target, visited, c)
    decreases SEARCH_LIMIT - |visited|, |queue|
  {
    if queue == [] {
      assert Barrier(g, target, visited, visited);
    } else if |visited| >= SEARCH_LIMIT {
      SubsetSize(visited, u);
      assert Barrier(g, target, visited, u);
    } else if queue[0] in visited {
      assert forall r :: r in queue ==> r in queue[1..] || r == queue[0];
      SearchMisses(g, target, visited, queue[1..], u);
    } else {
      var more := queue[1..] + Refs(g, queue[0]);
      assert forall r :: r in queue ==> r in more || r == queue[0];
      SearchMisses(g, target, visited + {queue[0]}, more, u);
      var c :| Barrier(g, target, visited + {queue[0]}, c);
      assert Barrier(g, target, visited, c);
    }
  }

  /** The bound within which a search from `res` is exact: the target is counted among the names unless it is `res`. */
  ghost predicate WithinLimit(g: Graph, res: string, target: string) {
    |Involved(g, res)| <= if target == res then SEARCH_LIMIT - 1 else SEARCH_LIMIT
  }

  /** reaches is sound, and exact when at most 64 names are involved. */
  lemma ReachesExact(g: Graph, res: string, target: string)
    ensures Reaches(g, res, target) ==> References(g, res, target)
    ensures WithinLimit(g, res, target) ==> (Reaches(g, res, target) <==> References(g, res, target))
  {
    InvolvedClosed(g, res);
    var u := Involved(g, res);
    if Reaches(g, res, target) {
      Referenced(g, res);
      SearchSound(g, target, {res}, Refs(g, res), set b | b in u && References(g, res, b));
    } else if WithinLimit(g, res, target) {
      SearchMisses(g, target, {res}, Refs(g, res), u);
      var c :| Barrier(g, target, {res}, c);
      if References(g, res, target) { ClosedReferences(g, c, res, target); }
    }
  }

  lemma Referenced(g: Graph, a: string)
    ensures var below := set b | b in Involved(g, a) && References(g, a, b); Closed(g, below) && forall b :: b in Refs(g, a) ==> b in below
  {
    InvolvedClosed(g, a);
    var below := set b | b in Involved(g, a) && References(g, a, b);
    forall x, y | x in below && y in Refs(g, x) ensures y in below {
      OneStep(g, x, y);
      Transitive(g, a, x, y);
    }
    forall b | b in Refs(g, a) ensures b in below {
      OneStep(g, a, b);
    }
  }

  /** A walk of at most `n` steps leads from `a` to `b`. */
  ghost predicate Near(g: Graph, a: string, b: string, n: int) {
    exists p :: WalkFrom(g, p, a, b) && |p| <= n + 1
  }

  lemma NearStep(g: Graph, a: string, b: string, n: int, c: string)
    requires (a == b && n >= 0) || Near(g, a, b, n)
    requires c in Refs(g, b)
    ensures Near(g, a, c, n + 1)
  {
    if Near(g, a, b, n) {
      var p :| WalkFrom(g, p, a, b) && |p| <= n + 1;
      assert WalkFrom(g, p + [c], a, c);
    } else {
      assert WalkFrom(g, [a, c], a, c);
    }
  }

  lemma NearWeaker(g: Graph, a: string, b: string, n: int, m: int)
    requires Near(g, a, b, n) && n <= m
    ensures Near(g, a, b, m)
  {
  }

  /** Whatever the search has visited or queued is no more steps away than it has visited names. */
  ghost predicate Frontier(g: Graph, res: string, visited: set<string>, queue: seq<string>) {
    && res in visited
    && (forall v :: v in visited && v != res ==> Near(g, res, v, |visited| - 1))
    && (forall q :: q in queue ==> Near(g, res, q, |visited|))
  }

  lemma {:induction false} SearchShort(g: Graph, res: string, target: string, visited: set<string>, queue: seq<string>)
    requires Search(g, target, visited, queue) && Frontier(g, res, visited, queue)
    ensures Near(g, res, target, SEARCH_LIMIT - 1)
    decreases SEARCH_LIMIT - |visited|, |queue|
  {
    hide Near;
    var name := queue[0];
    if name == target {
      NearWeaker(g, res, target, |visited|, SEARCH_LIMIT - 1);
    } else if name in visited {
      SearchShort(g, res, target, visited, queue[1..]);
    } else {
      var seen, more := visited + {name}, queue[1..] + Refs(g, name);
      forall v | v in seen && v != res ensures Near(g, res, v, |seen| - 1) {
        if v != name { NearWeaker(g, res, v, |visited| - 1, |visited|); }
      }
      forall q | q in more ensures Near(g, res, q, |seen|) {
        if q in queue { NearWeaker(g, res, q, |visited|, |seen|); } else { NearStep(g, res, name, |visited|, q); }
      }
      SearchShort(g, res, target, seen, more);
    }
  }

  /** reaches finds nothing that is 64 or more steps away. */
  lemma ReachesShort(g: Graph, res: string, target: string)
    ensures Reaches(g, res, target) ==> Near(g, res, target, SEARCH_LIMIT - 1)
  {
    if Reaches(g, res, target) {
      forall q | q in Refs(g, res) ensures Near(g, res, q, 1) {
        NearStep(g, res, res, 0, q);
      }
      SearchShort(g, res, target, {res}, Refs(g, res));
    }
  }
}
