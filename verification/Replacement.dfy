/**
 reconcileReplacement (replacement.go:56): an update that cannot be applied in place swaps
 the external object, create-before-delete where the provider's identity allows it.
 */
module Replacement {
  import opened Json

  type Id = string

  datatype CreateAnswer = Made(id: Id) | AlreadyExists | SecretInId | CreateFailed
  datatype DeleteAnswer = Gone | NotFound | DeleteFailed

  /** The cloud calls and the writes, in the order they are made. */
  datatype Call =
    | Create(created: CreateAnswer)
    | Delete(id: Id, deleted: DeleteAnswer)
    | Annotate(id: Id, ok: bool)
    | Orphaned(id: Id)
    | Record(id: Id, ok: bool)
    | Fail(reason: string, ok: bool)

  /** What the provider and the API server answer: two creates, two deletes, and the writes of annotation, status and failure. */
  datatype Answers = Answers(
    create: CreateAnswer, evict: DeleteAnswer, recreate: CreateAnswer, retire: DeleteAnswer,
    annotated: bool, recorded: bool, noted: bool)

  /** The part of the object the swap reads. */
  datatype Object = Object(status: Id, annotation: Id, protect: Option<bool>, approval: string, generation: string, terminal: bool)

  predicate Protected(o: Object) {
    o.protect != Some(false)
  }

  predicate Approved(o: Object) {
    o.approval == o.generation
  }

  /** Everything a swap does. */
  function Script(o: Object, a: Answers): seq<Call> {
    if Protected(o) && !Approved(o) then [Fail("ReplacementRequired", a.noted)]
    else if o.terminal then []
    else if a.create != AlreadyExists then [Create(a.create)] + Settle(o, a, a.create)
    else if a.evict == DeleteFailed then [Create(a.create), Delete(o.status, a.evict), Fail("ReplaceFailed", a.noted)]
    else [Create(a.create), Delete(o.status, a.evict), Create(a.recreate)] + Settle(o, a, a.recreate)
  }

  /** What follows the create that counts. */
  function Settle(o: Object, a: Answers, created: CreateAnswer): seq<Call> {
    match created
    case SecretInId => [Fail("SecretInputInID", a.noted)]
    case Made(id) =>
      if !a.annotated then [Annotate(id, false)]
      else if id == o.status then [Annotate(id, true), Record(id, a.recorded)]
      else if a.retire == DeleteFailed then [Annotate(id, true), Delete(o.status, a.retire), Orphaned(o.status), Record(id, a.recorded)]
      else [Annotate(id, true), Delete(o.status, a.retire), Record(id, a.recorded)]
    case _ => [Fail("ReplaceFailed", a.noted)]
  }

  /** What one call leaves in the object; a failure that is stored replaces the reason the next reconcile reads. */
  function Effect(o: Object, c: Call): Object {
    match c
    case Annotate(id, ok) => if ok then o.(annotation := id) else o
    case Record(id, ok) => if ok then o.(status := id, terminal := false) else o
    case Fail(reason, ok) => if ok then o.(terminal := reason == "SecretInputInID") else o
    case _ => o
  }

  /** The object after the calls of a log. */
  function After(o: Object, log: seq<Call>): Object
    decreases |log|
  {
    if log == [] then o else After(Effect(o, log[0]), log[1..])
  }

  lemma {:induction false} AfterSnoc(o: Object, log: seq<Call>, c: Call)
    ensures After(o, log + [c]) == Effect(After(o, log), c)
    decreases |log|
  {
    hide Effect;
    if log == [] {
      assert [c][1..] == [] && log + [c] == [c];
    } else {
      assert (log + [c])[1..] == log[1..] + [c];
      AfterSnoc(Effect(o, log[0]), log[1..], c);
    }
  }

  /** The reconciler, with the API object it writes to. */
  class Reconciler {
    var object_: Object
    var log: seq<Call>

    /** The calls since `start`, and the object they leave. */
    ghost predicate Since(start: Object, before: seq<Call>, calls: seq<Call>)
      reads this
    {
      log == before + calls && object_ == After(start, calls)
    }

    /** One call, and its effect on the object. */
    method Do(c: Call, ghost start: Object, ghost before: seq<Call>, ghost calls: seq<Call>) returns (ghost next: seq<Call>)
      requires Since(start, before, calls)
      modifies this
      ensures Since(start, before, next) && next == calls + [c] && object_ == Effect(old(object_), c)
    {
      next := calls + [c];
      log := log + [c];
      match c {
        case Annotate(id, ok) =>
          if ok {
            object_ := object_.(annotation := id);
          }
        case Record(id, ok) =>
          if ok {
            object_ := object_.(status := id, terminal := false);
          }
        case Fail(reason, ok) =>
          if ok {
            object_ := object_.(terminal := reason == "SecretInputInID");
          }
        case _ =>
      }
      AfterSnoc(start, calls, c);
    }

    method ReconcileReplacement(a: Answers)
      modifies this
      ensures Since(old(object_), old(log), Script(old(object_), a))
    {
      hide After, Effect;
      ghost var o, b, calls: seq<Call> := object_, log, [];
      AfterNone(o);
      if Protected(object_) && !Approved(object_) {
        calls := Do(Fail("ReplacementRequired", a.noted), o, b, calls);
        assert calls == Script(o, a);
        return;
      }
      if object_.terminal {
        return;
      }
      var oldId := object_.status;
      var created := a.create;
      calls := Do(Create(created), o, b, calls);
      if created == AlreadyExists {
        calls := Do(Delete(oldId, a.evict), o, b, calls);
        if a.evict == DeleteFailed {
          calls := Do(Fail("ReplaceFailed", a.noted), o, b, calls);
          assert calls == Script(o, a);
          return;
        }
        created := a.recreate;
        calls := Do(Create(created), o, b, calls);
      }
      calls := Swap(a, created, oldId, o, b, calls);
      assert calls == Script(o, a);
    }

    /** The second half: the new id is annotated, then the old object retired, then the status written. */
    method Swap(a: Answers, created: CreateAnswer, oldId: Id, ghost o: Object, ghost b: seq<Call>, ghost calls: seq<Call>)
      returns (ghost next: seq<Call>)
      requires Since(o, b, calls) && oldId == o.status
      modifies this
      ensures Since(o, b, next) && next == calls + Settle(o, a, created)
    {
      hide After, Effect;
      if created == SecretInId {
        next := Do(Fail("SecretInputInID", a.noted), o, b, calls);
        return;
      }
      if !created.Made? {
        next := Do(Fail("ReplaceFailed", a.noted), o, b, calls);
        return;
      }
      var id := created.id;
      next := Do(Annotate(id, a.annotated), o, b, calls);
      if !a.annotated {
        return;
      }
      if id != oldId {
        next := Do(Delete(oldId, a.retire), o, b, next);
        if a.retire == DeleteFailed {
          next := Do(Orphaned(oldId), o, b, next);
        }
      }
      next := Do(Record(id, a.recorded), o, b, next);
    }
  }

  lemma AfterNone(o: Object)
    ensures After(o, []) == o
  {
  }

  /** What one call leaves at the provider. */
  ghost function Lives(alive: set<Id>, c: Call): set<Id> {
    if c.Create? && c.created.Made? then alive + {c.created.id}
    else if c.Delete? && c.deleted != DeleteFailed then alive - {c.id}
    else alive
  }

  /** The external objects alive after the calls of a log. */
  ghost function Alive(alive: set<Id>, log: seq<Call>): set<Id>
    decreases |log|
  {
    if log == [] then alive else Alive(Lives(alive, log[0]), log[1..])
  }

  lemma {:induction false} AliveSnoc(alive: set<Id>, log: seq<Call>, c: Call)
    ensures Alive(alive, log + [c]) == Lives(Alive(alive, log), c)
    decreases |log|
  {
    hide Lives;
    if log == [] {
      assert [c][1..] == [] && log + [c] == [c];
    } else {
      assert (log + [c])[1..] == log[1..] + [c];
      AliveSnoc(Lives(alive, log[0]), log[1..], c);
    }
  }

  // ---------------------------------------------------------------- what holds

  predicate CloudCall(c: Call) {
    c.Create? || c.Delete?
  }

  /** Protected, and not approved for this generation. */
  predicate Gated(o: Object) {
    o.protect != Some(false) && o.approval != o.generation
  }

  /** Without an approval for this generation, or after a refused id, a protected object is not touched. */
  lemma GateHolds(o: Object, a: Answers)
    requires Gated(o) || o.terminal
    ensures forall i :: 0 <= i < |Script(o, a)| ==> !CloudCall(Script(o, a)[i])
  {
  }

  /** The author changes the spec or the approval, or the object is reconciled. */
  datatype Turn =
    | Amend(protect: Option<bool>, approval: string, generation: string)
    | Attempt(answers: Answers)

  /** A refusal counts for the generation it was recorded for. */
  function Taken(o: Object, turn: Turn): Object {
    match turn
    case Amend(protect, approval, generation) =>
      o.(protect := protect, approval := approval, generation := generation, terminal := o.terminal && generation == o.generation)
    case Attempt(answers) => After(o, Script(o, answers))
  }

  /** All the calls of a run. */
  function Log(o: Object, turns: seq<Turn>): seq<Call>
    decreases |turns|
  {
    if turns == [] then []
    else (if turns[0].Attempt? then Script(o, turns[0].answers) else []) + Log(Taken(o, turns[0]), turns[1..])
  }

  ghost predicate NoCloudCalls(log: seq<Call>) {
    forall i :: 0 <= i < |log| ==> !CloudCall(log[i])
  }

  /** After every amendment the object is gated again. */
  ghost predicate StaysGated(o: Object, turns: seq<Turn>) {
    forall i :: 0 <= i < |turns| && turns[i].Amend? ==> Gated(Taken(o, turns[i]))
  }

  lemma GatedStays(o: Object, a: Answers)
    requires Gated(o)
    ensures Gated(After(o, Script(o, a)))
  {
    AfterNone(Effect(o, Fail("ReplacementRequired", a.noted)));
  }

  /** Over every run, whatever the provider answers, a protected object that is never approved for the generation it has is never touched. */
  lemma {:induction false} ProtectedUntouched(o: Object, turns: seq<Turn>)
    requires Gated(o) && StaysGated(o, turns)
    ensures NoCloudCalls(Log(o, turns))
    decreases |turns|
  {
    hide Script, After, Gated;
    if turns != [] {
      var turn := turns[0];
      var next := Taken(o, turn);
      if turn.Attempt? {
        GateHolds(o, turn.answers);
        GatedStays(o, turn.answers);
      } else {
        assert Gated(Taken(o, turns[0]));
      }
      forall i | 0 <= i < |turns[1..]| && turns[1..][i].Amend? ensures Gated(Taken(next, turns[1..][i])) {
        SameAmendment(o, next, turns[i + 1]);
      }
      ProtectedUntouched(next, turns[1..]);
    }
  }

  /** An amendment decides alone whether the object is gated. */
  lemma SameAmendment(o: Object, p: Object, turn: Turn)
    requires turn.Amend?
    ensures Gated(Taken(o, turn)) == Gated(Taken(p, turn))
  {
  }

  /** After a refusal, attempts alone never touch the provider again while the object stays approved or unprotected. */
  lemma {:induction false} RefusedUntouched(o: Object, turns: seq<Turn>)
    requires o.terminal && !Gated(o) && forall i :: 0 <= i < |turns| ==> turns[i].Attempt?
    ensures Log(o, turns) == []
    decreases |turns|
  {
    if turns != [] {
      assert turns[0].Attempt?;
      AfterNone(o);
      RefusedUntouched(o, turns[1..]);
    }
  }

  /** A refusal is terminal only while nothing else fails: an unapproved reconcile whose failure is stored overwrites it, and once approved the create runs again. */
  lemma RefusalForgotten(o: Object, a: Answers, b: Answers)
    requires Gated(o) && o.terminal
    ensures var log := Log(o, [Attempt(a), Amend(o.protect, o.generation, o.generation), Attempt(b)]);
            (exists i :: 0 <= i < |log| && log[i].Create?) <==> a.noted
  {
    hide Settle;
    var failed := Effect(o, Fail("ReplacementRequired", a.noted));
    var approved := failed.(approval := o.generation);
    var amend := Amend(o.protect, o.generation, o.generation);
    AfterNone(failed);
    assert Script(o, a) == [Fail("ReplacementRequired", a.noted)] && [Fail("ReplacementRequired", a.noted)][1..] == [];
    assert After(o, Script(o, a)) == failed;
    assert Taken(o, Attempt(a)) == failed;
    assert Taken(failed, amend) == approved;
    hide Taken;
    LogFrom(o, [Attempt(a), amend, Attempt(b)], [amend, Attempt(b)]);
    LogFrom(failed, [amend, Attempt(b)], [Attempt(b)]);
    LogFrom(approved, [Attempt(b)], []);
    var log := Log(o, [Attempt(a), amend, Attempt(b)]);
    assert log == [Fail("ReplacementRequired", a.noted)] + Script(approved, b);
    if a.noted { assert log[1] == Create(b.create); }
  }

  lemma LogFrom(o: Object, turns: seq<Turn>, rest: seq<Turn>)
    requires turns != [] && turns[1..] == rest
    ensures Log(o, turns) == (if turns[0].Attempt? then Script(o, turns[0].answers) else []) + Log(Taken(o, turns[0]), rest)
    ensures Log(o, []) == []
  {
  }

  /** Just before its `i`-th call. */
  function Before(o: Object, a: Answers, i: nat): Object
    requires i <= |Script(o, a)|
  {
    After(o, Script(o, a)[..i])
  }

  /** The create answered that an object of this identity exists, so the old one goes first. */
  predicate Collides(o: Object, a: Answers) {
    !(Protected(o) && !Approved(o)) && !o.terminal && a.create == AlreadyExists
  }

  /**
   Create before delete: only the old object is ever deleted, and outside the
   already-exists branch only once a new one has been created, is still alive, and is annotated.
   */
  lemma CreateBeforeDelete(o: Object, a: Answers, i: nat, alive: set<Id>)
    requires i < |Script(o, a)| && Script(o, a)[i].Delete?
    ensures Script(o, a)[i].id == o.status
    ensures var now := Before(o, a, i);
            (Collides(o, a) && i == 1) ||
            (now.annotation != o.status && Create(Made(now.annotation)) in Script(o, a)[..i] && now.annotation in Alive(alive, Script(o, a)[..i]))
  {
    DeletesOldOnly(o, a, i);
    hide Script;
    var s := Script(o, a);
    if !(Collides(o, a) && i == 1) {
      var create, annotate := s[i - 2], s[i - 1];
      assert s[..i] == s[..i - 2] + [create] + [annotate];
      AfterSnoc(o, s[..i - 2] + [create], annotate);
      AliveSnoc(alive, s[..i - 2] + [create], annotate);
      AliveSnoc(alive, s[..i - 2], create);
      assert create in s[..i];
    }
  }

  lemma DeletesOldOnly(o: Object, a: Answers, i: nat)
    requires i < |Script(o, a)| && Script(o, a)[i].Delete?
    ensures var s := Script(o, a);
            s[i].id == o.status && ((Collides(o, a) && i == 1) ||
            (i >= 2 && s[i - 1].Annotate? && s[i - 1].ok && s[i - 1].id != o.status && s[i - 2] == Create(Made(s[i - 1].id))))
  {
  }

  /** The id that is annotated is deleted exactly when the old one is and its identity collides. */
  lemma RecordedIdDeleted(o: Object, a: Answers)
    ensures (exists i :: 0 <= i < |Script(o, a)| && DeletesAnnotated(o, a, i)) <==> Collides(o, a) && o.annotation == o.status
  {
    var s := Script(o, a);
    forall i | 0 <= i < |s| && DeletesAnnotated(o, a, i) ensures Collides(o, a) && o.annotation == o.status {
      CreateBeforeDelete(o, a, i, {});
      if i == 1 { FirstWritesNothing(o, a); }
    }
    if Collides(o, a) && o.annotation == o.status {
      FirstWritesNothing(o, a);
      assert DeletesAnnotated(o, a, 1);
    }
  }

  lemma FirstWritesNothing(o: Object, a: Answers)
    requires Collides(o, a)
    ensures |Script(o, a)| >= 2 && Before(o, a, 1) == o && Script(o, a)[1] == Delete(o.status, a.evict)
  {
    AfterNone(o);
    assert Script(o, a)[..1] == [] + [Create(a.create)];
    AfterSnoc(o, [], Create(a.create));
  }

  ghost predicate DeletesAnnotated(o: Object, a: Answers, i: nat)
    requires i < |Script(o, a)|
  {
    Script(o, a)[i].Delete? && Script(o, a)[i].id == Before(o, a, i).annotation
  }

  /**
   When the status is written the swap is complete: the new id is alive and recorded in
   both places, and the old one is gone, is the same, or was reported orphaned.
   */
  lemma SwapComplete(o: Object, a: Answers, i: nat, alive: set<Id>)
    requires i < |Script(o, a)| && Script(o, a)[i].Record? && Script(o, a)[i].ok
    ensures var id := Script(o, a)[i].id;
            var now := After(o, Script(o, a));
            var left := Alive(alive, Script(o, a));
            now.status == id && now.annotation == id && id in left &&
            (o.status == id || o.status !in left || Orphaned(o.status) in Script(o, a))
  {
    var s := Script(o, a);
    var id := s[i].id;
    var k := if a.create == AlreadyExists then 2 else 0;
    assert i == |s| - 1 && s[k] == Create(Made(id)) && s[k + 1] == Annotate(id, true);
    Tail(o, alive, s, k, id, i);
  }

  /** What a log that ends in create, annotate, perhaps delete and orphan, and record leaves. */
  lemma Tail(o: Object, alive: set<Id>, s: seq<Call>, k: nat, id: Id, i: nat)
    requires k + 1 < i == |s| - 1 && s[k] == Create(Made(id)) && s[k + 1] == Annotate(id, true) && s[i] == Record(id, true)
    requires i <= k + 4 && (i == k + 2 ==> id == o.status)
    requires i >= k + 3 ==> id != o.status && s[k + 2].Delete? && s[k + 2].id == o.status
    requires i == k + 4 ==> s[k + 3] == Orphaned(o.status)
    requires i == k + 3 ==> s[k + 2].deleted != DeleteFailed
    ensures After(o, s).status == id && After(o, s).annotation == id && id in Alive(alive, s)
    ensures o.status == id || o.status !in Alive(alive, s) || Orphaned(o.status) in s
  {
    Prefix(o, alive, s, k);
    Prefix(o, alive, s, k + 1);
    if i >= k + 3 { Prefix(o, alive, s, k + 2); }
    if i == k + 4 {
      Prefix(o, alive, s, k + 3);
      assert s[k + 3] in s;
    }
    Prefix(o, alive, s, i);
    assert s[..i + 1] == s;
  }

  lemma Prefix(o: Object, alive: set<Id>, s: seq<Call>, k: nat)
    requires k < |s|
    ensures After(o, s[..k + 1]) == Effect(After(o, s[..k]), s[k])
    ensures Alive(alive, s[..k + 1]) == Lives(Alive(alive, s[..k]), s[k])
  {
    assert s[..k + 1] == s[..k] + [s[k]];
    AfterSnoc(o, s[..k], s[k]);
    AliveSnoc(alive, s[..k], s[k]);
  }

  /** The create whose answer counts: the second one when the first met an existing object that could be deleted. */
  function Decisive(a: Answers): Option<CreateAnswer> {
    if a.create != AlreadyExists then Some(a.create)
    else if a.evict == DeleteFailed then None
    else Some(a.recreate)
  }

  /** Allowed to run: approved or not protected, and not refused. */
  predicate Allowed(o: Object) {
    !(Protected(o) && !Approved(o)) && !o.terminal
  }

  /**
   How a swap that is allowed to run goes, in both directions: it begins with the create; the
   status write comes last, and comes if and only if a resource was made and annotated,
   whatever the retirement answers.
   */
  lemma SwapGoes(o: Object, a: Answers)
    requires Allowed(o)
    ensures var s, made := Script(o, a), Decisive(a);
            && s[0] == Create(a.create)
            && (forall i :: 0 <= i < |s| && s[i].Record? ==> i == |s| - 1)
            && (forall id :: Record(id, a.recorded) in s <==> made == Some(Made(id)) && a.annotated)
            && (forall id :: Annotate(id, a.annotated) in s <==> made == Some(Made(id)))
  {
  }

  /** A swap that made nothing says why. */
  lemma SwapFails(o: Object, a: Answers)
    requires Allowed(o)
    ensures Fail("SecretInputInID", a.noted) in Script(o, a) <==> Decisive(a) == Some(SecretInId)
    ensures Fail("ReplaceFailed", a.noted) in Script(o, a) <==> Decisive(a) in {None, Some(AlreadyExists), Some(CreateFailed)}
  {
  }

  ghost predicate Retires(o: Object, a: Answers, id: Id, i: nat)
    requires i < |Script(o, a)|
  {
    i > 0 && Script(o, a)[i] == Delete(o.status, a.retire) && Script(o, a)[i - 1] == Annotate(id, true)
  }

  /** The old object is retired if and only if another one was made and annotated, and reported if and only if it could not be. */
  lemma SwapRetires(o: Object, a: Answers, id: Id)
    requires Allowed(o)
    ensures (exists i :: 0 <= i < |Script(o, a)| && Retires(o, a, id, i)) <==> Decisive(a) == Some(Made(id)) && a.annotated && id != o.status
    ensures Orphaned(o.status) in Script(o, a) <==>
            a.retire == DeleteFailed && a.annotated && Decisive(a).Some? && Decisive(a).value.Made? && Decisive(a).value.id != o.status
  {
    var s := Script(o, a);
    if Decisive(a) == Some(Made(id)) && a.annotated && id != o.status {
      var k := if a.create == AlreadyExists then 4 else 2;
      assert Retires(o, a, id, k);
    }
    forall i | 0 <= i < |s| && Retires(o, a, id, i) ensures Decisive(a) == Some(Made(id)) && a.annotated && id != o.status {
      assert s[i - 1].Annotate?;
    }
  }

  /** Every id a swap creates is annotated at once; only a failed annotation write loses it. */
  lemma CreatedIsAnnotated(o: Object, a: Answers, i: nat)
    requires i < |Script(o, a)| && Script(o, a)[i].Create? && Script(o, a)[i].created.Made?
    ensures i + 1 < |Script(o, a)| && Script(o, a)[i + 1] == Annotate(Script(o, a)[i].created.id, a.annotated)
  {
  }
}
