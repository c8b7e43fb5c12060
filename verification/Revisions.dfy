/**
 Definition revisions (composite_revision.go:49-181): every edit of a definition is
 snapshotted under "<definition>-v<N>", composites render from the revision their policy
 selects, and old revisions nobody refers to are pruned.
 */
module Revisions {
  import opened Json
  import Paths

  const HISTORY_LIMIT := 10

  datatype Rev = Rev(def: string, number: nat, snapshot: Json)

  type Revs = map<string, Rev>

  /** A composite: its definition, an explicit pin, its update policy, and the revision recorded in its status. */
  datatype Comp = Comp(def: string, pin: Option<string>, manual: bool, revision: string)

  datatype State = State(defs: map<string, Json>, comps: map<string, Comp>, revs: Revs)

  // ---------------------------------------------------------------- names

  function RevName(def: string, n: nat): string {
    def + "-v" + Paths.Itoa(n)
  }

  /** The third revision of "web" is "web-v3". */
  lemma RevNameText(def: string, n: nat)
    requires n < 10
    ensures RevName(def, n) == def + "-v" + [('0' as int + n) as char]
  {
  }

  /** The name of a revision says which definition and which number it is of. */
  lemma RevNameInjective(d: string, n: nat, e: string, m: nat)
    ensures RevName(d, n) == RevName(e, m) <==> d == e && n == m
  {
    if RevName(d, n) == RevName(e, m) {
      if |Paths.Itoa(n)| <= |Paths.Itoa(m)| { SuffixMatches(d, n, e, m); } else { SuffixMatches(e, m, d, n); }
    }
  }

  /** The shorter number ends right after the "v" of the longer one, which holds digits only. */
  lemma SuffixMatches(d: string, n: nat, e: string, m: nat)
    requires RevName(d, n) == RevName(e, m) && |Paths.Itoa(n)| <= |Paths.Itoa(m)|
    ensures d == e && n == m
  {
    hide Paths.Itoa;
    var s, a, b := RevName(d, n), Paths.Itoa(n), Paths.Itoa(m);
    Ends(d, n);
    Ends(e, m);
    assert |a| == |b|;
    assert a == b;
  }

  /** What a name ends in, and what is before that. */
  lemma Ends(d: string, n: nat)
    ensures var s, a := RevName(d, n), Paths.Itoa(n);
            |s| == |d| + 2 + |a| && s[..|s| - |a| - 2] == d && s[|s| - |a|..] == a &&
            s[|s| - |a| - 1] == 'v' && forall k :: |s| - |a| <= k < |s| ==> s[k] != 'v'
  {
    hide Paths.Itoa;
  }

  // ---------------------------------------------------------------- the newest revision

  /** No revision of the definition has a greater number, and there is one of this number, unless it is 0. */
  ghost predicate IsNewest(revs: Revs, def: string, n: nat) {
    && (forall x :: x in revs && revs[x].def == def ==> revs[x].number <= n)
    && (n > 0 ==> RevName(def, n) in revs && revs[RevName(def, n)].def == def && revs[RevName(def, n)].number == n)
  }

  /** Every revision is stored under its name. */
  ghost predicate Named(revs: Revs) {
    forall x :: x in revs ==> revs[x].number > 0 && x == RevName(revs[x].def, revs[x].number)
  }

  lemma {:induction false} NewestExists(revs: Revs, def: string)
    requires Named(revs)
    ensures exists n: nat :: IsNewest(revs, def, n)
    decreases |revs|
  {
    hide RevName;
    if revs == map[] {
      assert IsNewest(revs, def, 0);
    } else {
      var x :| x in revs;
      var rest := revs - {x};
      NewestExists(rest, def);
      var n: nat :| IsNewest(rest, def, n);
      var best := if revs[x].def == def && revs[x].number > n then revs[x].number else n;
      assert forall y :: y in revs ==> y == x || (y in rest && rest[y] == revs[y]);
      assert IsNewest(revs, def, best);
    }
  }

  ghost function Newest(revs: Revs, def: string): (n: nat)
    requires Named(revs)
    ensures IsNewest(revs, def, n)
  {
    NewestExists(revs, def);
    var n: nat :| IsNewest(revs, def, n);
    n
  }

  // ---------------------------------------------------------------- pruning

  /** Names a composite pins or last rendered from. */
  ghost predicate Referenced(comps: map<string, Comp>, name: string) {
    exists c :: c in comps && (comps[c].pin == Some(name) || (comps[c].revision == name && name != ""))
  }

  ghost predicate Prunable(revs: Revs, comps: map<string, Comp>, def: string, newest: nat, name: string) {
    name in revs && revs[name].def == def && revs[name].number + HISTORY_LIMIT <= newest && !Referenced(comps, name)
  }

  /** pruneRevisions; `kept` are the revisions whose deletion fails. */
  ghost function Pruned(revs: Revs, comps: map<string, Comp>, def: string, newest: nat, kept: set<string>): Revs {
    map x | x in revs && !(Prunable(revs, comps, def, newest, x) && x !in kept) :: revs[x]
  }

  /** A fresh list of the stored names. */
  ghost predicate Lists<T>(m: map<string, T>, items: seq<string>) {
    forall x :: x in items <==> x in m
  }

  // ---------------------------------------------------------------- resolving

  /** ensureLatestRevision: the newest snapshot when it is the definition as it stands, else the next one. */
  ghost function Ensured(s: State, def: string, kept: set<string>): (Revs, string)
    requires Named(s.revs) && def in s.defs
  {
    var n := Newest(s.revs, def);
    if n > 0 && s.revs[RevName(def, n)].snapshot == s.defs[def] then (s.revs, RevName(def, n))
    else
      var name := RevName(def, n + 1);
      (Pruned(s.revs[name := Rev(def, n + 1, s.defs[def])], s.comps, def, n + 1, kept), name)
  }

  datatype Resolution = Resolution(revision: string) | Absent | Mismatch

  /** resolveRevision: an explicit pin wins, a Manual composite stays on its recorded revision, others track the newest. */
  ghost function Selected(c: Comp, latest: string): string {
    if c.pin.Some? then c.pin.value
    else if c.manual && c.revision != "" then c.revision
    else latest
  }

  ghost function Resolved(revs: Revs, c: Comp, latest: string): Resolution {
    var name := Selected(c, latest);
    if name == latest then Resolution(name)
    else if name !in revs then Absent
    else if revs[name].def != c.def then Mismatch
    else Resolution(name)
  }

  /** The store behind the controller. */
  class Store {
    var defs: map<string, Json>
    var comps: map<string, Comp>
    var revs: Revs

    ghost function View(): State
      reads this
    {
      State(defs, comps, revs)
    }

    /** The loop that looks for the newest revision of a definition. */
    method FindLatest(def: string, items: seq<string>) returns (latest: Option<string>)
      requires Named(revs) && Lists(revs, items)
      ensures latest == if Newest(revs, def) == 0 then None else Some(RevName(def, Newest(revs, def)))
    {
      hide RevName;
      latest := None;
      for i := 0 to |items|
        invariant latest.Some? ==> latest.value in revs && revs[latest.value].def == def
        invariant forall x :: x in items[..i] && revs[x].def == def ==> latest.Some? && revs[x].number <= revs[latest.value].number
      {
        var rev := items[i];
        assert items[..i + 1] == items[..i] + [rev];
        if revs[rev].def != def {
          continue;
        }
        if latest.None? || revs[rev].number > revs[latest.value].number {
          latest := Some(rev);
        }
      }
      assert items[..|items|] == items;
    }

    method PruneRevisions(def: string, newest: nat, items: seq<string>, names: seq<string>, kept: set<string>)
      requires Lists(revs, items) && Lists(comps, names)
      modifies this`revs
      ensures revs == Pruned(old(revs), comps, def, newest, kept)
    {
      hide Referenced, Named;
      var referenced := References(names);
      ghost var all := revs;
      for i := 0 to |items|
        invariant forall x :: x in all && (x !in items[..i] || !(Prunable(all, comps, def, newest, x) && x !in kept)) ==> x in revs && revs[x] == all[x]
        invariant forall x :: x in revs ==> x in all && (x !in items[..i] || !(Prunable(all, comps, def, newest, x) && x !in kept))
      {
        var rev := items[i];
        assert items[..i + 1] == items[..i] + [rev];
        if rev !in revs {
          continue;
        }
        if revs[rev].def != def || revs[rev].number + HISTORY_LIMIT > newest {
          continue;
        }
        if rev in referenced {
          continue;
        }
        if rev in kept {
          continue;
        }
        revs := revs - {rev};
      }
      assert items[..|items|] == items;
    }

    /** What the listed composites refer to. */
    method References(names: seq<string>) returns (referenced: set<string>)
      requires Lists(comps, names)
      ensures forall x :: x in referenced <==> Referenced(comps, x)
    {
      referenced := {};
      for i := 0 to |names|
        invariant forall x :: x in referenced <==>
          exists c :: c in names[..i] && (comps[c].pin == Some(x) || (comps[c].revision == x && x != ""))
      {
        var comp := comps[names[i]];
        assert names[..i + 1] == names[..i] + [names[i]];
        ghost var before := referenced;
        if comp.pin.Some? {
          referenced := referenced + {comp.pin.value};
        }
        if comp.revision != "" {
          referenced := referenced + {comp.revision};
        }
      }
      assert names[..|names|] == names;
    }

    method EnsureLatestRevision(def: string, items: seq<string>, names: seq<string>, kept: set<string>) returns (latest: string)
      requires Named(revs) && Lists(revs, items) && Lists(comps, names) && def in defs
      modifies this`revs
      ensures (revs, latest) == Ensured(old(View()), def, kept)
    {
      hide RevName, Referenced;
      var found := FindLatest(def, items);
      if found.Some? && revs[found.value].snapshot == defs[def] {
        return found.value;
      }
      var next := if found.Some? then revs[found.value].number + 1 else 1;
      latest := RevName(def, next);
      NewName(revs, def, next);
      revs := revs[latest := Rev(def, next, defs[def])];
      PruneRevisions(def, next, if latest in items then items else items + [latest], names, kept);
    }

    /** resolveRevision (composite_revision.go:49). */
    method ResolveRevision(comp: Comp, items: seq<string>, names: seq<string>, kept: set<string>) returns (r: Resolution)
      requires Named(revs) && Lists(revs, items) && Lists(comps, names) && comp.def in defs
      modifies this`revs
      ensures (revs, r) == (Ensured(old(View()), comp.def, kept).0, Resolved(revs, comp, Ensured(old(View()), comp.def, kept).1))
    {
      hide RevName, Referenced, Ensured;
      var latest := EnsureLatestRevision(comp.def, items, names, kept);
      var pinned := latest;
      if comp.pin.Some? {
        pinned := comp.pin.value;
      } else if comp.manual && comp.revision != "" {
        pinned := comp.revision;
      }
      if pinned == latest {
        return Resolution(latest);
      }
      if pinned !in revs {
        return Absent;
      }
      if revs[pinned].def != comp.def {
        return Mismatch;
      }
      return Resolution(pinned);
    }
  }

  /** With fresh lists the next name is free, so creating it never meets an existing object. */
  lemma NewName(revs: Revs, def: string, next: nat)
    requires Named(revs) && next > Newest(revs, def)
    ensures RevName(def, next) !in revs
  {
    if RevName(def, next) in revs {
      RevNameInjective(def, next, revs[RevName(def, next)].def, revs[RevName(def, next)].number);
    }
  }

  // ---------------------------------------------------------------- runs

  datatype Event =
    | EditDefinition(def: string, spec: Json)
    | EditComposite(comp: string, def: string, pin: Option<string>, manual: bool)
    | DeleteComposite(comp: string)
    | Reconcile(comp: string, kept: set<string>, recorded: bool)

  /** One edit, or one reconcile of a composite; the status is written when the rest of the reconcile succeeds. */
  ghost function Next(s: State, e: Event): State
    requires Named(s.revs)
  {
    match e
    case EditDefinition(def, spec) => s.(defs := s.defs[def := spec])
    case EditComposite(c, def, pin, manual) =>
      s.(comps := s.comps[c := Comp(def, pin, manual, if c in s.comps then s.comps[c].revision else "")])
    case DeleteComposite(c) => s.(comps := s.comps - {c})
    case Reconcile(c, kept, recorded) =>
      if c !in s.comps || s.comps[c].def !in s.defs then s
      else
        var (revs, latest) := Ensured(s, s.comps[c].def, kept);
        var r := Resolved(revs, s.comps[c], latest);
        State(s.defs,
              if recorded && r.Resolution? then s.comps[c := s.comps[c].(revision := r.revision)] else s.comps,
              revs)
  }

  lemma EnsuredNamed(s: State, def: string, kept: set<string>)
    requires Named(s.revs) && def in s.defs
    ensures var (revs, latest) := Ensured(s, def, kept);
            Named(revs) && latest in revs && revs[latest].def == def && revs[latest].snapshot == s.defs[def] && IsNewest(revs, def, revs[latest].number)
  {
    var n := Newest(s.revs, def);
    NewName(s.revs, def, n + 1);
    hide RevName, Referenced;
  }

  lemma NamedKept(s: State, e: Event)
    requires Named(s.revs)
    ensures Named(Next(s, e).revs)
  {
    hide Ensured, Resolved, Named;
    if e.Reconcile? && e.comp in s.comps && s.comps[e.comp].def in s.defs {
      EnsuredNamed(s, s.comps[e.comp].def, e.kept);
    }
  }

  ghost function Run(s: State, events: seq<Event>): (t: State)
    requires Named(s.revs)
    ensures Named(t.revs)
    decreases |events|
  {
    if events == [] then s
    else
      NamedKept(s, events[0]);
      Run(Next(s, events[0]), events[1..])
  }

  // ---------------------------------------------------------------- names denote one snapshot

  /** The definition has reached this number. */
  ghost predicate Reached(revs: Revs, def: string, n: nat) {
    exists x :: x in revs && revs[x].def == def && revs[x].number >= n
  }

  /** What each name of `before` still denotes, if anything; its number is not given out again. */
  ghost predicate Grown(before: Revs, revs: Revs) {
    && Named(revs)
    && (forall x :: x in before && x in revs ==> revs[x] == before[x])
    && (forall x :: x in before ==> Reached(revs, before[x].def, before[x].number))
  }

  /** Pruning never takes the newest revision of a definition. */
  lemma EnsuredGrows(s: State, def: string, kept: set<string>, before: Revs)
    requires Named(s.revs) && def in s.defs && Grown(before, s.revs) && Named(before)
    ensures Grown(before, Ensured(s, def, kept).0)
  {
    var (revs, latest) := Ensured(s, def, kept);
    EnsuredNamed(s, def, kept);
    var n := Newest(s.revs, def);
    NewName(s.revs, def, n + 1);
    hide RevName, Referenced, Newest;
    forall x | x in before ensures Reached(revs, before[x].def, before[x].number) {
      var y :| y in s.revs && s.revs[y].def == before[x].def && s.revs[y].number >= before[x].number;
      if before[x].def == def {
        assert revs[latest].number >= n;
      } else {
        assert y in revs && revs[y] == s.revs[y];
      }
    }
    forall x | x in before && x in revs ensures revs[x] == before[x] {
      if x !in s.revs {
        RevNameInjective(before[x].def, before[x].number, def, n + 1);
      }
    }
  }

  lemma {:induction false} RunGrows(s: State, events: seq<Event>, before: Revs)
    requires Named(s.revs) && Named(before) && Grown(before, s.revs)
    ensures Grown(before, Run(s, events).revs)
    decreases |events|
  {
    hide Ensured, Resolved, Named, Grown;
    if events != [] {
      var e := events[0];
      NamedKept(s, e);
      if e.Reconcile? && e.comp in s.comps && s.comps[e.comp].def in s.defs {
        EnsuredGrows(s, s.comps[e.comp].def, e.kept, before);
      }
      RunGrows(Next(s, e), events[1..], before);
    }
  }

  /** Over every run a name never denotes two snapshots, even when its revision was pruned in between. */
  lemma NameDenotesOneSnapshot(s: State, events: seq<Event>, later: seq<Event>, name: string)
    requires Named(s.revs)
    requires var m := Run(s, events); name in m.revs && name in Run(m, later).revs
    ensures Run(Run(s, events), later).revs[name] == Run(s, events).revs[name]
  {
    var m := Run(s, events);
    assert Grown(m.revs, m.revs) by {
      forall x | x in m.revs ensures Reached(m.revs, m.revs[x].def, m.revs[x].number) {}
    }
    RunGrows(m, later, m.revs);
  }

  // ---------------------------------------------------------------- manual composites

  /** The spec of the composite does not move. */
  ghost predicate Leaves(e: Event, c: string) {
    !(e.EditComposite? && e.comp == c) && !(e.DeleteComposite? && e.comp == c)
  }

  /** The composite renders from a revision of its own definition: pinned, or Manual and recorded. */
  ghost predicate Settled(s: State, c: string, name: string) {
    && c in s.comps && name != ""
    && (if s.comps[c].pin.Some? then s.comps[c].pin == Some(name) else s.comps[c].manual && s.comps[c].revision == name)
    && name in s.revs && s.revs[name].def == s.comps[c].def
  }

  lemma SettledKept(s: State, e: Event, c: string, name: string)
    requires Named(s.revs) && Settled(s, c, name) && Leaves(e, c)
    ensures Settled(Next(s, e), c, name) && Next(s, e).revs[name] == s.revs[name]
  {
    hide RevName;
    assert Referenced(s.comps, name);
    if e.Reconcile? && e.comp in s.comps && s.comps[e.comp].def in s.defs {
      var n := Newest(s.revs, s.comps[e.comp].def);
      NewName(s.revs, s.comps[e.comp].def, n + 1);
    }
  }

  lemma {:induction false} RunSettled(s: State, events: seq<Event>, c: string, name: string)
    requires Named(s.revs) && Settled(s, c, name) && forall i :: 0 <= i < |events| ==> Leaves(events[i], c)
    ensures Settled(Run(s, events), c, name) && Run(s, events).revs[name] == s.revs[name]
    decreases |events|
  {
    hide Next, Settled, Named;
    if events != [] {
      NamedKept(s, events[0]);
      assert Leaves(events[0], c);
      SettledKept(s, events[0], c, name);
      forall i | 0 <= i < |events[1..]| ensures Leaves(events[1..][i], c) {
        assert Leaves(events[i + 1], c);
      }
      RunSettled(Next(s, events[0]), events[1..], c, name);
    }
  }

  /**
   A Manual composite, or a pinned one, keeps rendering the same snapshot whatever happens
   to the definition, to other composites and to old revisions, until its own spec moves.
   */
  lemma ManualKeepsSnapshot(s: State, events: seq<Event>, c: string, name: string, kept: set<string>)
    requires Named(s.revs) && Settled(s, c, name) && forall i :: 0 <= i < |events| ==> Leaves(events[i], c)
    requires var t := Run(s, events); c in t.comps && t.comps[c].def in t.defs
    ensures var t := Run(s, events);
            var (revs, latest) := Ensured(t, t.comps[c].def, kept);
            Resolved(revs, t.comps[c], latest) == Resolution(name) && name in revs && revs[name] == s.revs[name]
  {
    hide RevName, Run;
    var t := Run(s, events);
    RunSettled(s, events, c, name);
    SettledKept(t, Reconcile(c, kept, false), c, name);
  }

  // ---------------------------------------------------------------- what is selected

  /** A snapshot of the definition as it stands is always there, as its newest revision, and a new one is made only for a change. */
  lemma NewestIsCurrent(s: State, def: string, kept: set<string>)
    requires Named(s.revs) && def in s.defs
    ensures var (revs, latest) := Ensured(s, def, kept);
            && latest in revs && revs[latest].def == def && revs[latest].snapshot == s.defs[def] && IsNewest(revs, def, revs[latest].number)
            && (latest in s.revs <==> exists x :: x in s.revs && IsNewest(s.revs, def, s.revs[x].number) && s.revs[x].def == def && s.revs[x].snapshot == s.defs[def])
            && (latest in s.revs ==> revs == s.revs)
  {
    var (revs, latest) := Ensured(s, def, kept);
    EnsuredNamed(s, def, kept);
    NewName(s.revs, def, Newest(s.revs, def) + 1);
    hide RevName, Referenced;
    if latest in s.revs {
      assert IsNewest(s.revs, def, s.revs[latest].number);
    }
  }

  /** An Automatic composite without a pin, and a Manual one that never rendered, render the newest snapshot: the definition as it stands. */
  lemma AutomaticTracksNewest(s: State, c: Comp, kept: set<string>)
    requires Named(s.revs) && c.def in s.defs && c.pin.None? && (c.manual ==> c.revision == "")
    ensures var (revs, latest) := Ensured(s, c.def, kept);
            var r := Resolved(revs, c, latest);
            r.Resolution? && r.revision in revs && revs[r.revision].def == c.def && revs[r.revision].snapshot == s.defs[c.def] &&
            IsNewest(revs, c.def, revs[r.revision].number)
  {
    EnsuredNamed(s, c.def, kept);
    hide RevName, Ensured;
  }

  /** A pin, or the recorded revision of a Manual composite, is rendered if and only if it exists and is of the composite's own definition. */
  lemma HeldExactly(s: State, c: Comp, kept: set<string>, name: string)
    requires Named(s.revs) && c.def in s.defs
    requires c.pin == Some(name) || (c.pin.None? && c.manual && c.revision == name && name != "")
    ensures var (revs, latest) := Ensured(s, c.def, kept);
            var r := Resolved(revs, c, latest);
            && (r == Resolution(name) <==> name in revs && revs[name].def == c.def)
            && (r == Absent <==> name !in revs)
            && (r == Mismatch <==> name in revs && revs[name].def != c.def)
  {
    EnsuredNamed(s, c.def, kept);
    hide RevName, Ensured;
  }

  // ---------------------------------------------------------------- history limit

  /**
   What pruning takes: nothing unless a revision is made, and then exactly the revisions of
   that definition that are ten numbers behind the new one and that nobody refers to, but for
   those whose deletion fails. The newest ten, and those of other definitions, stay.
   */
  lemma PrunedExactly(s: State, def: string, kept: set<string>, x: string)
    requires Named(s.revs) && def in s.defs && x in s.revs
    ensures var (revs, latest) := Ensured(s, def, kept);
            && (x !in revs <==>
                latest !in s.revs && s.revs[x].def == def && s.revs[x].number + 10 <= revs[latest].number && x !in kept &&
                !exists c :: c in s.comps && (s.comps[c].pin == Some(x) || (s.comps[c].revision == x && x != "")))
            && (x in revs ==> revs[x] == s.revs[x])
  {
    EnsuredNamed(s, def, kept);
    NewName(s.revs, def, Newest(s.revs, def) + 1);
    hide RevName;
  }

  ghost function Unreferenced(revs: Revs, comps: map<string, Comp>, def: string): set<string> {
    set x | x in revs && revs[x].def == def && !Referenced(comps, x)
  }

  /** At most as many revisions as there are numbers. */
  lemma {:induction false} FewNumbers(names: set<string>, revs: Revs, def: string, lo: nat, hi: nat)
    requires Named(revs) && lo <= hi
    requires forall x :: x in names ==> x in revs && revs[x].def == def && lo < revs[x].number <= hi
    ensures |names| <= hi - lo
    decreases hi - lo
  {
    hide RevName;
    if lo == hi {
      assert names == {};
    } else {
      var top := RevName(def, hi);
      forall x | x in names - {top} ensures revs[x].number <= hi - 1 {}
      FewNumbers(names - {top}, revs, def, lo, hi - 1);
    }
  }

  /** A creation whose prune deletes all succeed leaves at most ten revisions of the definition that nobody refers to. */
  lemma HistoryBounded(s: State, def: string)
    requires Named(s.revs) && def in s.defs && Ensured(s, def, {}).0 != s.revs
    ensures |Unreferenced(Ensured(s, def, {}).0, s.comps, def)| <= 10
  {
    hide RevName, Referenced;
    var (revs, latest) := Ensured(s, def, {});
    EnsuredNamed(s, def, {});
    var newest := revs[latest].number;
    var names := Unreferenced(revs, s.comps, def);
    FewNumbers(names, revs, def, if newest > HISTORY_LIMIT then newest - HISTORY_LIMIT else 0, newest);
  }
}
