/**
 Value propagation through references (doresource_controller.go:179-269, references.go:43-107)
 as a step machine: each reconcile resolves the references of one resource, compares the hash
 with the applied one, and creates, patches or reads. The provider is deterministic,
 its calls work or fail, external objects may vanish, and the applied hash stands for the
 properties it was taken of.
 */
module Propagation {
  import opened Json
  import opened Outputs
  import opened Agreement
  import opened Compiler
  import Trees
  import opened Graph
  import Linker
  import opened Cycles

  datatype Spec = Spec(props: Json, refs: seq<Reference>)

  /** What reconciles record of a resource: the hash is kept as the properties it identifies. */
  datatype Status = Status(id: string, outputs: Option<map<string, Json>>, applied: Option<Json>)

  /** The external object behind a recorded id, if it exists: the properties it was last given. */
  datatype Resource = Resource(status: Status, external: Option<Json>)

  type Live = map<string, Resource>

  /** Ids and observed states are functions of what was applied; the types of some resources cannot be read. */
  datatype Provider = Provider(newId: (string, Json) -> string, observe: (string, Json) -> map<string, Json>, readable: string -> bool) {
    ghost predicate Valid() {
      forall name, props :: newId(name, props) != ""
    }
  }

  /** What does not change during a run. */
  datatype Setup = Setup(specs: map<string, Spec>, declared: map<string, set<string>>, provider: Provider) {
    ghost predicate Valid() {
      provider.Valid()
    }
  }

  function Froms(refs: seq<Reference>): (names: seq<string>)
    ensures |names| == |refs| && forall i :: 0 <= i < |refs| ==> names[i] == refs[i].from
  {
    seq(|refs|, i requires 0 <= i < |refs| => refs[i].from)
  }

  function GraphOf(specs: map<string, Spec>): Graph {
    map n | n in specs :: Node(Froms(specs[n].refs), false, true, false, false, "")
  }

  function Sources(l: Live): map<string, Source> {
    map n | n in l :: Source(l[n].status.id, l[n].status.outputs)
  }

  datatype Inputs = Halt | Inputs(props: Json)

  /** applyReferences (references.go:43): cycles, invalid references and unresolved ones halt the reconcile. */
  function ApplyReferences(s: Setup, l: Live, name: string): Inputs
    requires name in s.specs
  {
    var spec := s.specs[name];
    if !spec.props.Obj? then Halt
    else if spec.refs == [] then Inputs(spec.props)
    else if DetectCycle(GraphOf(s.specs), name).Some? then Halt
    else
      match ResolveReferences(Cluster(Sources(l), s.declared), spec.refs, spec.props)
      case Refused => Halt
      case Linking(waiting, props) => if waiting != [] then Halt else Inputs(props)
  }

  /**
   Create when no id is recorded, patch when the hash differs, read otherwise. An object that
   is gone clears the id; a patch reads first, so a type that cannot be read is never patched.
   */
  function Drive(p: Provider, name: string, r: Resource, props: Json): Resource {
    var id := r.status.id;
    if id == "" then
      var created := p.newId(name, props);
      Resource(Status(created, Some(p.observe(created, props)), Some(props)), Some(props))
    else if !p.readable(name) then r
    else if r.external.None? then Gone()
    else if r.status.applied != Some(props) then
      Resource(Status(id, Some(p.observe(id, props)), Some(props)), Some(props))
    else r.(status := r.status.(outputs := Some(p.observe(id, r.external.value))))
  }

  function Gone(): Resource {
    Resource(Status("", None, None), None)
  }

  /** One reconcile. */
  function Reconciled(s: Setup, l: Live, name: string): Resource
    requires name in s.specs && name in l
  {
    match ApplyReferences(s, l, name)
    case Halt => l[name]
    case Inputs(props) => Drive(s.provider, name, l[name], props)
  }

  ghost predicate Covers(s: Setup, l: Live) {
    l.Keys == s.specs.Keys
  }

  /** The controller and the provider, as one reconcile after the other finds them. */
  class Controller {
    const setup: Setup
    var live: Live

    ghost predicate Valid()
      reads this
    {
      Covers(setup, live)
    }

    /** With the inputs refused, or the provider failing, a reconcile changes nothing of this. */
    method Reconcile(name: string, admitted: bool, answered: bool)
      requires Valid() && name in setup.specs
      modifies this
      ensures Valid() && live == Step(setup, old(live), Attempt(name, admitted && answered))
    {
      var spec := setup.specs[name];
      var res := live[name];
      var props := spec.props;
      assert live[name := res] == live;
      if !props.Obj? {
        return;
      }
      if spec.refs != [] {
        var message, cyclic := DetectCycleFrom(GraphOf(setup.specs), name);
        if cyclic {
          return;
        }
        var linking := ResolveReferences(Cluster(Sources(live), setup.declared), spec.refs, props);
        if linking.Refused? || linking.waiting != [] {
          return;
        }
        props := linking.props;
      }
      if !admitted || !answered {
        return;
      }
      var id := res.status.id;
      if id == "" {
        id := setup.provider.newId(name, props);
        res := Resource(Status(id, Some(setup.provider.observe(id, props)), Some(props)), Some(props));
      } else if res.status.applied != Some(props) {
        if !setup.provider.readable(name) {
          return;
        }
        if res.external.None? {
          res := Gone();
        } else {
          var state := setup.provider.observe(id, props);
          res := Resource(Status(id, Some(state), Some(props)), Some(props));
        }
      } else if setup.provider.readable(name) {
        if res.external.None? {
          res := Gone();
        } else {
          var state := setup.provider.observe(id, res.external.value);
          res := res.(status := res.status.(outputs := Some(state)));
        }
      }
      live := live[name := res];
    }
  }

  // ------------------------------------------------------------------ runs

  /** A reconcile, which works, or whose inputs are refused or provider fails; or an external object disappears. */
  datatype Turn =
    | Attempt(name: string, works: bool)
    | Vanish(name: string)

  function Step(s: Setup, l: Live, turn: Turn): Live {
    match turn
    case Attempt(name, works) =>
      if works && name in s.specs && name in l then l[name := Reconciled(s, l, name)] else l
    case Vanish(name) =>
      if name in l then l[name := l[name].(external := None)] else l
  }

  /** No external object disappears. */
  ghost predicate Calm(turns: seq<Turn>) {
    forall i :: 0 <= i < |turns| ==> turns[i].Attempt?
  }

  function Run(s: Setup, l: Live, turns: seq<Turn>): Live
    decreases |turns|
  {
    if turns == [] then l else Run(s, Step(s, l, turns[0]), turns[1..])
  }

  function Rounds(s: Setup, l: Live, rounds: seq<seq<Turn>>): Live
    decreases |rounds|
  {
    if rounds == [] then l else Rounds(s, Run(s, l, rounds[0]), rounds[1..])
  }

  /** Reconciling it changes nothing. */
  ghost predicate Settled(s: Setup, l: Live, name: string)
    requires name in s.specs && name in l
  {
    Reconciled(s, l, name) == l[name]
  }

  // ------------------------------------------------------------------ waiting

  /** What reconciles read of the namespace. */
  function View(s: Setup, l: Live): Cluster {
    Cluster(Sources(l), s.declared)
  }

  /** The properties with all references resolved, if each value is there and can be set and no cycle is reported. */
  ghost function Resolvable(s: Setup, l: Live, name: string): Option<Json>
    requires name in s.specs
  {
    var spec := s.specs[name];
    if !spec.props.Obj? then None
    else if spec.refs == [] then Some(spec.props)
    else if DetectCycle(GraphOf(s.specs), name).Some? then None
    else if exists i :: 0 <= i < |spec.refs| && !Linker.Arrived(View(s, l), spec.refs[i]) then None
    else Linker.Filled(View(s, l), spec.refs, spec.props)
  }

  /** A reconcile goes on exactly when everything it refers to is there, and then with the values of that. */
  lemma HaltsExactly(s: Setup, l: Live, name: string)
    requires name in s.specs
    ensures ApplyReferences(s, l, name) == match Resolvable(s, l, name) case None => Halt case Some(props) => Inputs(props)
  {
    hide DetectCycle, ResolveReferences, Linker.Filled, Linker.Arrived;
    var spec, c := s.specs[name], View(s, l);
    Linker.LinkingExact(c, spec.refs, spec.props);
    Linker.NoneAwaited(c, spec.refs);
    forall i | 0 <= i < |spec.refs| && Linker.Arrived(c, spec.refs[i]) ensures !Linker.Hopeless(c, spec.refs[i]) {
      ArrivedNotHopeless(c, spec.refs[i]);
    }
  }

  lemma ArrivedNotHopeless(c: Cluster, ref: Reference)
    requires Linker.Arrived(c, ref)
    ensures !Linker.Hopeless(c, ref)
  {
  }

  /**
   Nothing is created, patched or read before its sources are there: a reconcile that changes
   a resource finds every value it refers to, and no cycle through it is reported; what it
   applies, if anything, are the properties with these values set.
   */
  lemma NothingBeforeSources(s: Setup, l: Live, name: string)
    requires name in s.specs && name in l
    ensures var spec := s.specs[name];
            var r, n := l[name], Step(s, l, Attempt(name, true))[name];
            n != r ==>
              && spec.props.Obj?
              && (forall i :: 0 <= i < |spec.refs| ==>
                    spec.refs[i].from in l &&
                    ResolveFieldPath(Source(l[spec.refs[i].from].status.id, l[spec.refs[i].from].status.outputs), spec.refs[i].fieldPath).Present?)
              && (spec.refs != [] ==> DetectCycle(GraphOf(s.specs), name).None?)
              && (n.external in {None, r.external, Linker.Filled(View(s, l), spec.refs, spec.props)})
              && (n.status.applied in {None, r.status.applied, Linker.Filled(View(s, l), spec.refs, spec.props)})
  {
    HaltsExactly(s, l, name);
    hide DetectCycle, ResolveFieldPath, ApplyReferences;
    var spec := s.specs[name];
    assert spec.refs == [] ==> Linker.Filled(View(s, l), spec.refs, spec.props) == Some(spec.props);
    if Resolvable(s, l, name).Some? {
      forall i | 0 <= i < |spec.refs| ensures Linker.Arrived(View(s, l), spec.refs[i]) {}
    }
  }

  /** Whenever everything is there, and the provider answers, a resource without an id is created from exactly that. */
  lemma CreatedFromSources(s: Setup, l: Live, name: string)
    requires name in s.specs && name in l && l[name].status.id == ""
    ensures var n := Step(s, l, Attempt(name, true))[name];
            match Resolvable(s, l, name)
            case None => n == l[name]
            case Some(props) => n.external == Some(props) && n.status.applied == Some(props) && n.status.id == s.provider.newId(name, props)
  {
    HaltsExactly(s, l, name);
    hide Resolvable, ApplyReferences;
  }

  // ------------------------------------------------------------------ depth

  /** The length of the longest walk from a resource to one without existing sources. */
  ghost function Depth(g: Graph, a: string): nat
    requires Acyclic(g)
    decreases |Involved(g, a)|, 1, 0
  {
    DepthOver(g, a, Refs(g, a))
  }

  ghost function DepthOver(g: Graph, a: string, refs: seq<string>): nat
    requires Acyclic(g) && forall r :: r in refs ==> r in Refs(g, a)
    decreases |Involved(g, a)|, 0, |refs|
  {
    if refs == [] then 0
    else
      var rest := DepthOver(g, a, refs[1..]);
      FewerBelow(g, a, refs[0]);
      if refs[0] in g && rest <= Depth(g, refs[0]) then Depth(g, refs[0]) + 1 else rest
  }

  lemma FewerBelow(g: Graph, a: string, b: string)
    requires Acyclic(g) && b in Refs(g, a)
    ensures |Involved(g, b)| < |Involved(g, a)|
  {
    InvolvedClosed(g, a);
    InvolvedClosed(g, b);
    OneStep(g, a, b);
    forall x | x in Involved(g, b) ensures x in Involved(g, a) {
      if x != b { Transitive(g, a, b, x); }
    }
    if a in Involved(g, b) { Transitive(g, a, b, a); }
    SubsetSize(Involved(g, b), Involved(g, a) - {a});
  }

  lemma {:induction false} DepthBounds(g: Graph, a: string, refs: seq<string>, i: nat)
    requires Acyclic(g) && i < |refs| && refs[i] in g && forall r :: r in refs ==> r in Refs(g, a)
    ensures Depth(g, refs[i]) < DepthOver(g, a, refs)
    decreases |refs|
  {
    hide Acyclic;
    if i > 0 {
      assert refs[1..][i - 1] == refs[i];
      DepthBounds(g, a, refs[1..], i - 1);
    }
  }

  ghost function DepthOf(s: Setup, name: string): nat
    requires Acyclic(GraphOf(s.specs))
  {
    Depth(GraphOf(s.specs), name)
  }

  lemma SourceShallower(s: Setup, name: string, i: nat)
    requires Acyclic(GraphOf(s.specs)) && name in s.specs && i < |s.specs[name].refs|
    ensures var from := s.specs[name].refs[i].from; from in s.specs ==> DepthOf(s, from) < DepthOf(s, name)
  {
    var g := GraphOf(s.specs);
    if s.specs[name].refs[i].from in s.specs { DepthBounds(g, name, Refs(g, name), i); }
  }

  // ------------------------------------------------------------------ frames

  /** Linking reads the listed sources only. */
  lemma {:induction false} LinkFrame(a: Cluster, b: Cluster, refs: seq<Reference>, props: Json)
    requires a.declared == b.declared
    requires forall i :: 0 <= i < |refs| ==> var f := refs[i].from; (f in a.sources <==> f in b.sources) && (f in a.sources ==> a.sources[f] == b.sources[f])
    ensures ResolveReferences(a, refs, props) == ResolveReferences(b, refs, props)
    decreases |refs|
  {
    hide ResolveFieldPath, OutputPathKnown, Trees.SetPath, ResolveReferences;
    if refs == [] {
      NothingToLink(a, b, props);
    } else {
      var ref := refs[0];
      Linker.ResolveStep(a, refs, props);
      Linker.ResolveStep(b, refs, props);
      LinkFrame(a, b, refs[1..], props);
      if ref.from in a.sources && ResolveFieldPath(a.sources[ref.from], ref.fieldPath).Present? {
        LinkFrame(a, b, refs[1..], Trees.SetPath(props, ref.toPath, LinkValue(ref.tpl, ResolveFieldPath(a.sources[ref.from], ref.fieldPath).v)).tree);
      }
      KnownFrame(a, b, ref);
    }
  }

  lemma NothingToLink(a: Cluster, b: Cluster, props: Json)
    ensures ResolveReferences(a, [], props) == ResolveReferences(b, [], props)
  {
  }

  lemma KnownFrame(a: Cluster, b: Cluster, ref: Reference)
    requires a.declared == b.declared
    ensures OutputPathKnown(a, ref.from, ref.fieldPath) == OutputPathKnown(b, ref.from, ref.fieldPath)
  {
  }

  /** The sources of `name` are the same in both. */
  ghost predicate SameSources(s: Setup, l: Live, m: Live, name: string)
    requires name in s.specs
  {
    forall i :: 0 <= i < |s.specs[name].refs| ==>
      var f := s.specs[name].refs[i].from; (f in l <==> f in m) && (f in l ==> l[f] == m[f])
  }

  lemma ReconcileFrame(s: Setup, l: Live, m: Live, name: string)
    requires name in s.specs && name in l && name in m && l[name] == m[name] && SameSources(s, l, m, name)
    ensures Reconciled(s, l, name) == Reconciled(s, m, name)
  {
    hide ResolveReferences, DetectCycle;
    LinkFrame(Cluster(Sources(l), s.declared), Cluster(Sources(m), s.declared), s.specs[name].refs, s.specs[name].props);
  }

  lemma ApplyFrame(s: Setup, l: Live, m: Live, name: string)
    requires name in s.specs && SameSources(s, l, m, name)
    ensures ApplyReferences(s, l, name) == ApplyReferences(s, m, name)
  {
    hide ResolveReferences, DetectCycle;
    LinkFrame(Cluster(Sources(l), s.declared), Cluster(Sources(m), s.declared), s.specs[name].refs, s.specs[name].props);
  }

  /** What the applied hash says was applied, if the object exists: nothing was adopted. */
  ghost predicate Honest(l: Live) {
    forall n :: n in l && l[n].status.id != "" && l[n].external.Some? && l[n].status.applied.Some? ==> l[n].external == l[n].status.applied
  }

  lemma HonestKept(s: Setup, l: Live, turn: Turn)
    requires Honest(l)
    ensures Honest(Step(s, l, turn))
  {
    hide ResolveReferences, DetectCycle, ApplyReferences;
  }

  // ------------------------------------------------------------------ vanished objects

  /** Its id is recorded, and a read would find nothing. */
  predicate Missing(s: Setup, name: string, r: Resource) {
    r.status.id != "" && s.provider.readable(name) && r.external.None?
  }

  /** No reconcile will find its object gone. */
  ghost predicate Ready(s: Setup, l: Live, name: string)
    requires name in s.specs && name in l
  {
    Missing(s, name, l[name]) ==> ApplyReferences(s, l, name).Halt?
  }

  ghost predicate Present(s: Setup, l: Live) {
    forall n :: n in l ==> !Missing(s, n, l[n])
  }

  lemma PresentKept(s: Setup, l: Live, turn: Turn)
    requires Present(s, l) && turn.Attempt?
    ensures Present(s, Step(s, l, turn))
  {
    hide ApplyReferences;
  }

  /** A reconcile of a resource reads its sources, not itself. */
  lemma OwnStepFrame(s: Setup, l: Live, name: string)
    requires Acyclic(GraphOf(s.specs)) && name in s.specs && name in l
    ensures ApplyReferences(s, l, name) == ApplyReferences(s, Step(s, l, Attempt(name, true)), name)
  {
    hide ResolveReferences, DetectCycle, Reconciled, ApplyReferences;
    forall i | 0 <= i < |s.specs[name].refs| ensures s.specs[name].refs[i].from != name {
      SourceShallower(s, name, i);
    }
    ApplyFrame(s, l, Step(s, l, Attempt(name, true)), name);
  }

  /** A reconcile makes its resource ready, and settles it if it was ready. */
  lemma StepSettles(s: Setup, l: Live, name: string)
    requires s.Valid() && Acyclic(GraphOf(s.specs)) && Honest(l) && name in s.specs && name in l
    ensures var m := Step(s, l, Attempt(name, true)); Ready(s, m, name) && (Ready(s, l, name) ==> Settled(s, m, name))
  {
    hide ApplyReferences, Acyclic;
    OwnStepFrame(s, l, name);
  }

  /** An id is forgotten, with all that was recorded of its object, exactly when a reconcile finds that object gone. */
  lemma ForgottenExactly(s: Setup, l: Live, name: string)
    requires s.Valid() && name in s.specs && name in l && l[name].status.id != ""
    ensures var n := Step(s, l, Attempt(name, true))[name];
            && (n.status.id != l[name].status.id <==>
                Resolvable(s, l, name).Some? && s.provider.readable(name) && l[name].external.None?)
            && (n.status.id != l[name].status.id ==> n.status == Status("", None, None) && n.external == None)
  {
    HaltsExactly(s, l, name);
    hide Resolvable, ApplyReferences;
  }

  // ------------------------------------------------------------------ convergence

  /** The round that settles a resource of this depth: one per level, or two when objects may be missing. */
  function SettledIn(brisk: bool, depth: nat): nat {
    if brisk then depth else 2 * depth + 1
  }

  /** `at` rounds are over, or it had its turn in the one after them. */
  ghost predicate Due(at: nat, k: nat, done: set<string>, n: string) {
    at < k || (at == k && n in done)
  }

  /** After `k` rounds, and the turns of `done`: what is ready, and what is settled. */
  ghost predicate SettledBelow(s: Setup, l: Live, brisk: bool, k: nat, done: set<string>)
    requires Acyclic(GraphOf(s.specs)) && Covers(s, l)
  {
    && (brisk ==> Present(s, l))
    && (forall n :: n in s.specs && !brisk && Due(2 * DepthOf(s, n), k, done, n) ==> Ready(s, l, n))
    && (forall n :: n in s.specs && Due(SettledIn(brisk, DepthOf(s, n)), k, done, n) ==> Settled(s, l, n))
  }

  /** The state a run keeps. */
  ghost predicate Running(s: Setup, l: Live) {
    s.Valid() && Acyclic(GraphOf(s.specs)) && Covers(s, l) && Honest(l)
  }

  lemma RunningKept(s: Setup, l: Live, turn: Turn)
    requires Running(s, l)
    ensures Running(s, Step(s, l, turn))
  {
    hide Reconciled;
    HonestKept(s, l, turn);
  }

  /** The resource a turn settles, if it works. */
  ghost function SettledBy(turn: Turn): set<string> {
    if turn.Attempt? && turn.works then {turn.name} else {}
  }

  /** A reconcile of anything keeps the settled resources settled, and brings its own forward once its sources are settled. */
  lemma StepSettlesBelow(s: Setup, l: Live, brisk: bool, k: nat, done: set<string>, turn: Turn)
    requires Running(s, l) && SettledBelow(s, l, brisk, k, done) && turn.Attempt?
    ensures Running(s, Step(s, l, turn)) && SettledBelow(s, Step(s, l, turn), brisk, k, done + SettledBy(turn))
  {
    hide Reconciled, Acyclic, DepthOf, ApplyReferences, Settled, Ready;
    RunningKept(s, l, turn);
    var m := Step(s, l, turn);
    if brisk { PresentKept(s, l, turn); }
    if turn.works && turn.name in s.specs {
      forall n | n in s.specs && Due(if brisk then DepthOf(s, n) else 2 * DepthOf(s, n), k, done + {turn.name}, n)
        ensures !brisk ==> Ready(s, m, n)
        ensures Due(SettledIn(brisk, DepthOf(s, n)), k, done + {turn.name}, n) ==> Settled(s, m, n)
      {
        assert turn == Attempt(turn.name, true);
        if n == turn.name {
          if brisk { PresentReady(s, l, n); }
          StepSettles(s, l, n);
        } else {
          SourcesStay(s, l, brisk, k, done, turn.name, n);
          OthersFrame(s, l, m, n);
        }
      }
    }
  }

  lemma PresentReady(s: Setup, l: Live, name: string)
    requires Present(s, l) && name in s.specs && name in l
    ensures Ready(s, l, name)
  {
  }

  lemma OthersFrame(s: Setup, l: Live, m: Live, n: string)
    requires n in s.specs && n in l && n in m && l[n] == m[n] && SameSources(s, l, m, n)
    ensures Ready(s, l, n) == Ready(s, m, n) && Settled(s, l, n) == Settled(s, m, n)
  {
    hide ApplyReferences, Reconciled;
    ApplyFrame(s, l, m, n);
    ReconcileFrame(s, l, m, n);
  }

  /** The sources of a resource whose turn it is are settled, so a reconcile leaves them alone. */
  lemma SourcesStay(s: Setup, l: Live, brisk: bool, k: nat, done: set<string>, name: string, n: string)
    requires Running(s, l) && SettledBelow(s, l, brisk, k, done) && n in s.specs
    requires (if brisk then DepthOf(s, n) else 2 * DepthOf(s, n)) <= k
    ensures SameSources(s, l, Step(s, l, Attempt(name, true)), n)
  {
    hide Reconciled, Acyclic, DepthOf, Ready, Present;
    forall i | 0 <= i < |s.specs[n].refs|
      ensures var f := s.specs[n].refs[i].from; f in s.specs && f == name ==> Settled(s, l, f)
    {
      SourceShallower(s, n, i);
    }
  }

  /** The resources the turns settle. */
  ghost function SettledByAll(turns: seq<Turn>): set<string> {
    set i | 0 <= i < |turns| && turns[i].Attempt? && turns[i].works :: turns[i].name
  }

  lemma SettledByRest(turns: seq<Turn>)
    requires turns != []
    ensures SettledByAll(turns) == SettledBy(turns[0]) + SettledByAll(turns[1..])
  {
    forall n | n in SettledByAll(turns) ensures n in SettledBy(turns[0]) + SettledByAll(turns[1..]) {
      var i :| 0 <= i < |turns| && turns[i].Attempt? && turns[i].works && turns[i].name == n;
      if i > 0 { assert turns[1..][i - 1] == turns[i]; }
    }
    forall n | n in SettledByAll(turns[1..]) ensures n in SettledByAll(turns) {
      var i :| 0 <= i < |turns[1..]| && turns[1..][i].Attempt? && turns[1..][i].works && turns[1..][i].name == n;
      assert turns[i + 1] == turns[1..][i];
    }
  }

  lemma {:induction false} RunSettles(s: Setup, l: Live, brisk: bool, k: nat, done: set<string>, turns: seq<Turn>)
    requires Running(s, l) && SettledBelow(s, l, brisk, k, done) && Calm(turns)
    ensures var m := Run(s, l, turns); Running(s, m) && SettledBelow(s, m, brisk, k, done + SettledByAll(turns))
    decreases |turns|
  {
    hide Step, Running, SettledBelow;
    if turns == [] {
      assert done + SettledByAll(turns) == done;
    } else {
      StepSettlesBelow(s, l, brisk, k, done, turns[0]);
      RunSettles(s, Step(s, l, turns[0]), brisk, k, done + SettledBy(turns[0]), turns[1..]);
      SettledByRest(turns);
      assert done + SettledByAll(turns) == done + SettledBy(turns[0]) + SettledByAll(turns[1..]);
    }
  }

  /** In every round each resource has a turn that works, in any order, any number of times, and among any number of failing ones. */
  ghost predicate Everyone(s: Setup, rounds: seq<seq<Turn>>) {
    forall i :: 0 <= i < |rounds| ==> Calm(rounds[i]) && s.specs.Keys <= SettledByAll(rounds[i])
  }

  lemma {:induction false} RoundsSettle(s: Setup, l: Live, brisk: bool, rounds: seq<seq<Turn>>, k: nat)
    requires Running(s, l) && SettledBelow(s, l, brisk, k, {}) && Everyone(s, rounds)
    ensures var m := Rounds(s, l, rounds); Running(s, m) && SettledBelow(s, m, brisk, k + |rounds|, {})
    decreases |rounds|
  {
    hide Honest, Acyclic, Run, Settled, Ready, Present, DepthOf, SettledByAll, Calm;
    if rounds != [] {
      var m := Run(s, l, rounds[0]);
      assert Calm(rounds[0]);
      RunSettles(s, l, brisk, k, {}, rounds[0]);
      assert forall n :: n in s.specs ==> n in SettledByAll(rounds[0]);
      assert SettledBelow(s, m, brisk, k + 1, {});
      assert forall i :: 0 <= i < |rounds[1..]| ==> rounds[1..][i] == rounds[i + 1];
      RoundsSettle(s, m, brisk, rounds[1..], k + 1);
    }
  }

  lemma {:induction false} RunKeeps(s: Setup, l: Live, brisk: bool, turns: seq<Turn>, k: nat, name: string)
    requires Running(s, l) && SettledBelow(s, l, brisk, k, {}) && Calm(turns) && name in s.specs && SettledIn(brisk, DepthOf(s, name)) < k
    ensures var m := Run(s, l, turns); Running(s, m) && SettledBelow(s, m, brisk, k, {}) && m[name] == l[name]
    decreases |turns|
  {
    hide Honest, Acyclic, DepthOf, Reconciled, Ready, Present;
    if turns != [] {
      var m := Step(s, l, turns[0]);
      StepSettlesBelow(s, l, brisk, k, {}, turns[0]);
      assert m[name] == l[name] by {
        if turns[0].name == name { assert Settled(s, l, name); }
      }
      RunKeeps(s, m, brisk, turns[1..], k, name);
    }
  }

  /** A settled resource whose references resolve and whose type can be read has the resolved properties applied. */
  lemma SettledApplied(s: Setup, l: Live, name: string)
    requires Running(s, l) && name in s.specs && Settled(s, l, name)
    ensures match ApplyReferences(s, l, name)
            case Halt => true
            case Inputs(props) => l[name].status.id != "" && (s.provider.readable(name) ==> Applied(s, name, l[name], props))
  {
    hide ApplyReferences;
  }

  ghost predicate Applied(s: Setup, name: string, r: Resource, props: Json) {
    && r.status.id != "" && r.status.applied == Some(props) && r.external == Some(props)
    && (s.provider.readable(name) ==> r.status.outputs == Some(s.provider.observe(r.status.id, props)))
  }

  /**
   Propagation converges: on an acyclic reference graph, once no more external objects
   disappear, a resource at depth d is settled after d + 1 rounds, or 2d + 2 if some are
   missing, whatever the order within each and whatever fails in between, and no later
   reconcile of anything changes it again. If its references resolve and its type can be
   read, the properties last applied are the reference-resolved ones.
   */
  lemma PropagationConverges(s: Setup, l: Live, rounds: seq<seq<Turn>>, later: seq<Turn>, name: string)
    requires Running(s, l) && Everyone(s, rounds) && Calm(later) && name in s.specs
    requires |rounds| >= if Present(s, l) then DepthOf(s, name) + 1 else 2 * DepthOf(s, name) + 2
    ensures var m := Rounds(s, l, rounds);
            var n := Run(s, m, later);
            Covers(s, m) && Covers(s, n) && n[name] == m[name] && Settled(s, n, name)
    ensures var n := Run(s, Rounds(s, l, rounds), later);
            match ApplyReferences(s, n, name)
            case Halt => true
            case Inputs(props) => name in n && n[name].status.id != "" && (s.provider.readable(name) ==> Applied(s, name, n[name], props))
  {
    hide DepthOf, ApplyReferences, Reconciled, Applied, Run, Rounds, Present;
    var brisk := Present(s, l);
    RoundsSettle(s, l, brisk, rounds, 0);
    var m := Rounds(s, l, rounds);
    RunKeeps(s, m, brisk, later, |rounds|, name);
    SettledApplied(s, Run(s, m, later), name);
  }

  // ------------------------------------------------------------------ types that cannot be read

  /** A resource whose type cannot be read is never patched, nor found gone: its record stays as its create left it. */
  lemma {:induction false} UnreadableKept(s: Setup, l: Live, turns: seq<Turn>, name: string)
    requires name in s.specs && name in l && !s.provider.readable(name) && l[name].status.id != ""
    ensures var n := Run(s, l, turns);
            name in n && n[name].status == l[name].status && (Vanish(name) !in turns ==> n[name] == l[name])
    decreases |turns|
  {
    hide ApplyReferences;
    if turns != [] {
      UnreadableKept(s, Step(s, l, turns[0]), turns[1..], name);
    }
  }

  /** The `i`-th turn creates it, from the references as they resolved then. */
  ghost predicate CreatedAt(s: Setup, l: Live, turns: seq<Turn>, i: nat, name: string, r: Resource)
    requires name in s.specs
  {
    && i < |turns| && turns[i] == Attempt(name, true)
    && match ApplyReferences(s, Run(s, l, turns[..i]), name)
       case Halt => false
       case Inputs(props) =>
         var id := s.provider.newId(name, props);
         r.status == Status(id, Some(s.provider.observe(id, props)), Some(props)) && (Vanish(name) !in turns[i..] ==> r.external == Some(props))
  }

  lemma CreatedLater(s: Setup, l: Live, turns: seq<Turn>, i: nat, name: string, r: Resource)
    requires name in s.specs && turns != [] && CreatedAt(s, Step(s, l, turns[0]), turns[1..], i, name, r)
    ensures CreatedAt(s, l, turns, i + 1, name, r)
  {
    hide ApplyReferences, Step;
    assert turns[..i + 1][0] == turns[0] && turns[..i + 1][1..] == turns[1..][..i];
    assert turns[1..][i..] == turns[i + 1..];
  }

  /** The record of such a resource is that of its one create. */
  lemma {:induction false} UnreadableCreated(s: Setup, l: Live, turns: seq<Turn>, name: string)
    requires s.Valid() && name in s.specs && name in l && !s.provider.readable(name) && l[name].status.id == ""
    ensures var n := Run(s, l, turns);
            name in n && (n[name].status.id == "" || exists i :: CreatedAt(s, l, turns, i, name, n[name]))
    decreases |turns|
  {
    hide ApplyReferences;
    if turns != [] {
      var m := Step(s, l, turns[0]);
      var n := Run(s, l, turns);
      if m[name].status.id == "" {
        UnreadableCreated(s, m, turns[1..], name);
        if i: nat :| CreatedAt(s, m, turns[1..], i, name, n[name]) { CreatedLater(s, l, turns, i, name, n[name]); }
      } else {
        UnreadableKept(s, m, turns[1..], name);
        assert turns[..0] == [] && turns[0..] == turns;
        assert Vanish(name) !in turns ==> Vanish(name) !in turns[1..];
        if m[name].status != l[name].status { assert CreatedAt(s, l, turns, 0, name, n[name]); }
      }
    }
  }

  ghost function Flat(rounds: seq<seq<Turn>>): seq<Turn> {
    if rounds == [] then [] else rounds[0] + Flat(rounds[1..])
  }

  lemma {:induction false} RunAppend(s: Setup, l: Live, turns: seq<Turn>, more: seq<Turn>)
    ensures Run(s, l, turns + more) == Run(s, Run(s, l, turns), more)
    decreases |turns|
  {
    hide Step;
    if turns == [] {
      assert [] + more == more;
    } else {
      assert (turns + more)[1..] == turns[1..] + more;
      RunAppend(s, Step(s, l, turns[0]), turns[1..], more);
    }
  }

  lemma {:induction false} RoundsAreRun(s: Setup, l: Live, rounds: seq<seq<Turn>>)
    ensures Rounds(s, l, rounds) == Run(s, l, Flat(rounds))
    decreases |rounds|
  {
    hide Run;
    if rounds != [] {
      RunAppend(s, l, rounds[0], Flat(rounds[1..]));
      RoundsAreRun(s, Run(s, l, rounds[0]), rounds[1..]);
    } else {
      RunNone(s, l);
    }
  }

  lemma RunNone(s: Setup, l: Live)
    ensures Run(s, l, []) == l
  {
  }

  lemma {:induction false} FlatCalm(s: Setup, rounds: seq<seq<Turn>>)
    requires Everyone(s, rounds)
    ensures Calm(Flat(rounds))
    decreases |rounds|
  {
    hide SettledByAll;
    if rounds != [] {
      assert Calm(rounds[0]);
      assert forall i :: 0 <= i < |rounds[1..]| ==> rounds[1..][i] == rounds[i + 1];
      FlatCalm(s, rounds[1..]);
    }
  }

  /**
   Where propagation stops: a resource that has an id, and whose references resolve in the
   end, gets the resolved properties if and only if its type can be read, or it was given
   them before and its object exists.
   */
  lemma PropagationReaches(s: Setup, l: Live, rounds: seq<seq<Turn>>, later: seq<Turn>, name: string)
    requires Running(s, l) && Everyone(s, rounds) && Calm(later) && name in s.specs && name in l && l[name].status.id != ""
    requires |rounds| >= if Present(s, l) then DepthOf(s, name) + 1 else 2 * DepthOf(s, name) + 2
    ensures var n := Run(s, Rounds(s, l, rounds), later);
            match ApplyReferences(s, n, name)
            case Halt => true
            case Inputs(props) =>
              name in n &&
              (Applied(s, name, n[name], props) <==>
               s.provider.readable(name) || (l[name].status.applied == Some(props) && l[name].external.Some?))
  {
    hide DepthOf, ApplyReferences, Run, Rounds, Present, Calm, Everyone;
    PropagationConverges(s, l, rounds, later, name);
    if !s.provider.readable(name) {
      FlatCalm(s, rounds);
      RoundsAreRun(s, l, rounds);
      RunAppend(s, l, Flat(rounds), later);
      assert Vanish(name) !in Flat(rounds) + later by { CalmNoVanish(Flat(rounds), name); CalmNoVanish(later, name); }
      UnreadableKept(s, l, Flat(rounds) + later, name);
    }
  }

  lemma CalmNoVanish(turns: seq<Turn>, name: string)
    requires Calm(turns)
    ensures Vanish(name) !in turns
  {
  }

  /** One that its own create put there gets them if and only if its references resolved to the same then. */
  lemma UnreadableApplied(s: Setup, l: Live, turns: seq<Turn>, name: string, props: Json)
    requires s.Valid() && name in s.specs && name in l && !s.provider.readable(name) && l[name].status.id == "" && Calm(turns)
    requires name in Run(s, l, turns) && Run(s, l, turns)[name].status.id != ""
    ensures exists i: nat :: CreatedAt(s, l, turns, i, name, Run(s, l, turns)[name]) &&
              (Applied(s, name, Run(s, l, turns)[name], props) <==> ApplyReferences(s, Run(s, l, turns[..i]), name) == Inputs(props))
  {
    hide Run, ApplyReferences;
    UnreadableCreated(s, l, turns, name);
    CalmNoVanish(turns, name);
  }

  /** One resource without references, of a type that cannot be read, whose properties were edited after its create. */
  lemma EditNeverApplied(props: Json, was: Json)
    requires props.Obj? && was != props
    ensures var s := Edited(props);
            var l := map["r" := Resource(Status("id", Some(map[]), Some(was)), Some(was))];
            Running(s, l) && Present(s, l) && forall rounds, later | Everyone(s, rounds) && rounds != [] && Calm(later) ::
              var n := Run(s, Rounds(s, l, rounds), later);
              n == l && Settled(s, n, "r") && ApplyReferences(s, n, "r") == Inputs(props) && !Applied(s, "r", n["r"], props)
  {
    var s := Edited(props);
    var l := map["r" := Resource(Status("id", Some(map[]), Some(was)), Some(was))];
    NoReferencesAcyclic(GraphOf(s.specs));
    forall rounds, later | Everyone(s, rounds) && rounds != [] && Calm(later)
      ensures Run(s, Rounds(s, l, rounds), later) == l
    {
      hide Run, Rounds;
      RoundsAreRun(s, l, rounds);
      RunAppend(s, l, Flat(rounds), later);
      FlatCalm(s, rounds);
      RunStays(s, l, Flat(rounds) + later);
    }
  }

  function Edited(props: Json): Setup {
    Setup(map["r" := Spec(props, [])], map[], Provider((name, given) => "id", (id, given) => map[], name => false))
  }

  lemma NoReferencesAcyclic(g: Graph)
    requires forall x :: Refs(g, x) == []
    ensures Acyclic(g)
  {
    forall a ensures !References(g, a, a) {
      if References(g, a, a) { ClosedReferences(g, {a}, a, a); }
    }
  }

  /** Where every resource is settled, attempts change nothing. */
  lemma {:induction false} RunStays(s: Setup, l: Live, turns: seq<Turn>)
    requires Calm(turns) && forall n :: n in s.specs && n in l ==> Settled(s, l, n)
    ensures Run(s, l, turns) == l
    decreases |turns|
  {
    hide Reconciled;
    if turns != [] {
      var turn := turns[0];
      if turn.name in s.specs && turn.name in l { assert Settled(s, l, turn.name); }
      assert Step(s, l, turn) == l;
      RunStays(s, l, turns[1..]);
    }
  }

  /** With every source resolvable the cycle check is no obstacle: an acyclic graph has none to report. */
  lemma ResolvableApplies(s: Setup, l: Live, name: string)
    requires Acyclic(GraphOf(s.specs)) && name in s.specs && s.specs[name].props.Obj?
    ensures var linking := ResolveReferences(Cluster(Sources(l), s.declared), s.specs[name].refs, s.specs[name].props);
            linking.Linking? && linking.waiting == [] ==> ApplyReferences(s, l, name) == Inputs(linking.props)
  {
    hide DetectCycle, Acyclic;
    DetectCycleExact(GraphOf(s.specs), name);
    assert !References(GraphOf(s.specs), name, name) by { AcyclicAt(GraphOf(s.specs), name); }
  }

  lemma AcyclicAt(g: Graph, a: string)
    requires Acyclic(g)
    ensures !References(g, a, a)
  {
  }

  /** A recorded id is kept over every run in which its object does not disappear. */
  lemma {:induction false} IdKept(s: Setup, l: Live, turns: seq<Turn>, name: string)
    requires name in l && l[name].status.id != "" && l[name].external.Some? && Vanish(name) !in turns
    ensures var m := Run(s, l, turns); name in m && m[name].status.id == l[name].status.id && m[name].external.Some?
    decreases |turns|
  {
    hide ApplyReferences;
    if turns != [] {
      IdKept(s, Step(s, l, turns[0]), turns[1..], name);
    }
  }
}
