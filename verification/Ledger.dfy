/**
 The create path of one live object (annotations.go:85-189, job.go:404-509) as an
 interleaving of its reconciles, its runner Jobs, spec edits, crashes and failed writes,
 and where the id of every external resource it makes can be found afterwards.
 */
module Ledger {
  import opened Json

  type Id = string

  /** The operation document of a create: the resolved properties and what else travels with them. */
  type Op = string

  /**
   What a reconcile reads: the operation, and the generation of the spec. An edit is a new
   generation; a value propagated through a reference, or a rotated secret, changes the
   operation within one.
   */
  datatype Spec = Spec(op: Op, generation: nat)

  /** What a runner pod reports in its envelope. */
  datatype Report = Success | SecretInId | Failure | Garbage

  /** The create Job of one operation, and the external resource its pod made. */
  datatype Job =
    | Waiting
    | Running(made: Option<Id>)
    | Done(report: Report, made: Option<Id>)
    | Broken(made: Option<Id>)

  /** How far the reconcile of the object has come, with the spec it read. */
  datatype Progress =
    | Idle
    | Adopting(spec: Spec)
    | Creating(spec: Spec)
    | Polling(spec: Spec)
    | Reading(spec: Spec, failed: bool)
    | Cleaning(spec: Spec, job: Job)
    | Naming(id: Id)
    | Marking(id: Id)
    | Failing(spec: Spec, refusal: bool)
    | Checking

  /**
   status.id, the external-name annotation, the spec, and the generation whose Synced
   condition reads SecretInputInID, if it does; the Jobs, what the create path made, and
   the ids found gone and not made since.
   */
  datatype State = State(
    status: Id, annotation: Id, spec: Spec, refused: Option<nat>,
    jobs: map<Op, Job>, at: Progress,
    made: set<Id>, superseded: set<Id>)

  datatype Answer = Found | Unsupported | NotFound | Error

  /** A write may also be stored without the client hearing of it. */
  datatype Write = Stored | Lost | Unacknowledged

  datatype Event =
    | Edit(op: Op)          // the author changes the spec
    | Resolve(op: Op)       // a propagated value or a rotated secret changes the operation
    | Overwrite             // another reconcile ends before the create with its own Synced reason: a pause, invalid properties or references
    | Reconcile
    | Adopt(answer: Answer)
    | Ensure(ok: bool)
    | PodStarts(op: Op)
    | PodMakes(op: Op, id: Id)
    | PodReports(op: Op, report: Report)
    | PodBreaks(op: Op)
    | Poll
    | GiveUp                // the operation times out or is cancelled
    | ReadLog(ok: bool)
    | Clean(ok: bool)
    | Fail(write: Write)
    | Name(write: Write)
    | Mark(write: Write)
    | Check(answer: Answer, write: Write)
    | Expire(op: Op)
    | Crash

  function MadeBy(j: Job): Option<Id> {
    match j
    case Waiting => None
    case Running(m) => m
    case Done(_, m) => m
    case Broken(m) => m
  }

  predicate Finished(j: Job) {
    j.Done? || j.Broken?
  }

  // ---------------------------------------------------------------- steps

  /** The object is read; with an id recorded it is checked, with an external name adopted, else created (annotations.go:95-113). */
  function Begin(s: State): State {
    if s.at != Idle then s
    else if s.status != "" then s.(at := Checking)
    else if s.annotation != "" then s.(at := Adopting(s.spec))
    else Proceed(s, s.spec)
  }

  /** secretIDTerminal (annotations.go:85): a refusal recorded for the generation that was read ends the reconcile. */
  function Proceed(s: State, spec: Spec): State {
    s.(at := if s.refused == Some(spec.generation) then Idle else Creating(spec))
  }

  /** adoptExternal (annotations.go:137). */
  function AdoptStep(s: State, answer: Answer): State {
    if !s.at.Adopting? then s
    else
      match answer
      case Found => s.(at := Marking(s.annotation))
      case Unsupported => s.(at := Marking(s.annotation))
      case NotFound => Proceed(s.(superseded := s.superseded + {s.annotation}), s.at.spec)
      case Error => s.(at := Failing(s.at.spec, false))
  }

  /** An external resource of the create path that was not found gone. */
  predicate Live(s: State, x: Id) {
    x in s.made && x !in s.superseded
  }

  /** The Job of an operation runs at most once; what it makes may bear a name that was found gone. */
  function PodStep(s: State, e: Event): State {
    match e
    case PodStarts(op) =>
      if op in s.jobs && s.jobs[op] == Waiting then s.(jobs := s.jobs[op := Running(None)]) else s
    case PodMakes(op, id) =>
      if op in s.jobs && s.jobs[op] == Running(None) && id != "" && !Live(s, id)
      then s.(jobs := s.jobs[op := Running(Some(id))], made := s.made + {id}, superseded := s.superseded - {id}) else s
    case PodReports(op, report) =>
      if op in s.jobs && s.jobs[op].Running? && (report in {Success, SecretInId} ==> s.jobs[op].made.Some?)
      then s.(jobs := s.jobs[op := Done(report, s.jobs[op].made)]) else s
    case PodBreaks(op) =>
      if op in s.jobs && s.jobs[op] == Waiting then s.(jobs := s.jobs[op := Broken(None)])
      else if op in s.jobs && s.jobs[op].Running? then s.(jobs := s.jobs[op := Broken(s.jobs[op].made)]) else s
    case Expire(op) =>
      if op in s.jobs && Finished(s.jobs[op]) then s.(jobs := s.jobs - {op}) else s
    case _ => s
  }

  /** executeOp (job.go:404-509), step by step; every error ends in markSyncFailed. */
  function JobStep(s: State, e: Event): State {
    match e
    case Ensure(ok) =>
      if !s.at.Creating? then s
      else if !ok then s.(at := Failing(s.at.spec, false))
      else s.(at := Polling(s.at.spec), jobs := if s.at.spec.op in s.jobs then s.jobs else s.jobs[s.at.spec.op := Waiting])
    case Poll =>
      if !s.at.Polling? then s
      else if s.at.spec.op !in s.jobs then s.(at := Failing(s.at.spec, false))
      else if s.jobs[s.at.spec.op].Done? then s.(at := Reading(s.at.spec, false))
      else if s.jobs[s.at.spec.op].Broken? then s.(at := Reading(s.at.spec, true))
      else s
    case GiveUp =>
      if !s.at.Polling? then s else s.(at := Failing(s.at.spec, false))
    case ReadLog(ok) =>
      if !s.at.Reading? then s
      else if s.at.spec.op in s.jobs && (s.at.failed || ok) then s.(at := Cleaning(s.at.spec, s.jobs[s.at.spec.op]))
      else s.(at := Failing(s.at.spec, false))
    case Clean(ok) =>
      if !s.at.Cleaning? then s
      else Consumed(if ok then s.(jobs := s.jobs - {s.at.spec.op}) else s, s.at.spec, s.at.job)
    case _ => s
  }

  /** What executeOp returns, once the Job is cleaned up: only a success carries an id. */
  function Consumed(s: State, spec: Spec, job: Job): State {
    if job.Done? && job.report == Success && job.made.Some? then s.(at := Naming(job.made.value))
    else s.(at := Failing(spec, job.Done? && job.report == SecretInId))
  }

  /**
   The writes of the record: the annotation before the status (annotations.go:124-132), and
   with each status the Synced condition (doresource_controller.go:360-416).
   */
  function WriteStep(s: State, e: Event): State {
    match e
    case Fail(write) =>
      if !s.at.Failing? then s
      else s.(at := Idle, refused := if write == Lost then s.refused else if s.at.refusal then Some(s.at.spec.generation) else None)
    case Name(write) =>
      if !s.at.Naming? then s
      else s.(at := if write == Stored then Marking(s.at.id) else Idle, annotation := if write == Lost then s.annotation else s.at.id)
    case Mark(write) =>
      if !s.at.Marking? then s
      else if write == Lost then s.(at := Idle)
      else s.(at := Idle, status := s.at.id, refused := None)
    case Check(answer, write) =>
      if s.at != Checking then s
      else if answer == NotFound then
        s.(at := Idle, superseded := s.superseded + {s.status}, status := if write == Lost then s.status else "")
      else s.(at := Idle, refused := if write == Lost then s.refused else None)
    case _ => s
  }

  function Next(s: State, e: Event): State {
    match e
    case Edit(op) => s.(spec := Spec(op, s.spec.generation + 1))
    case Resolve(op) => s.(spec := Spec(op, s.spec.generation))
    case Overwrite => if s.at == Idle then s.(refused := None) else s
    case Reconcile => Begin(s)
    case Adopt(answer) => AdoptStep(s, answer)
    case Crash => s.(at := Idle)
    case Ensure(_) => JobStep(s, e)
    case Poll => JobStep(s, e)
    case GiveUp => JobStep(s, e)
    case ReadLog(_) => JobStep(s, e)
    case Clean(_) => JobStep(s, e)
    case Fail(_) => WriteStep(s, e)
    case Name(_) => WriteStep(s, e)
    case Mark(_) => WriteStep(s, e)
    case Check(_, _) => WriteStep(s, e)
    case _ => PodStep(s, e)
  }

  function Run(s: State, events: seq<Event>): State
    decreases |events|
  {
    if events == [] then s else Run(Next(s, events[0]), events[1..])
  }

  /** A new object: nothing made yet, and at most an external name its author gave it. */
  ghost predicate Fresh(s: State) {
    s.status == "" && s.jobs == map[] && s.at == Idle && s.made == {} && s.superseded == {} && s.refused.None?
  }

  // ---------------------------------------------------------------- the ledger

  /** The id the controller holds in memory, if its operation succeeded. */
  function InFlight(p: Progress): Option<Id> {
    match p
    case Cleaning(_, job) => if job.Done? && job.report == Success then job.made else None
    case Naming(id) => Some(id)
    case Marking(id) => Some(id)
    case _ => None
  }

  ghost predicate HeldByJob(s: State, x: Id) {
    exists op :: Holds(s, op, x)
  }

  predicate Holds(s: State, op: Op, x: Id) {
    op in s.jobs && MadeBy(s.jobs[op]) == Some(x)
  }

  /** In the status, in the annotation, or found gone. */
  predicate Recorded(s: State, x: Id) {
    x == s.status || x == s.annotation || x in s.superseded
  }

  /** The id is recorded, in flight, held by a Job that was not consumed, or was found gone. */
  ghost predicate Accounted(s: State, x: Id) {
    Recorded(s, x) || InFlight(s.at) == Some(x) || HeldByJob(s, x)
  }

  /** The Job of the operation is the only one that holds the id. */
  ghost predicate HeldOnlyBy(s: State, op: Op, x: Id) {
    Holds(s, op, x) && forall other :: Holds(s, other, x) ==> other == op
  }

  /** The windows in which an id can be lost. */
  ghost predicate Loses(s: State, e: Event, x: Id) {
    LosesName(s, e, x) || (!Recorded(s, x) && LosesUnrecorded(s, e, x))
  }

  /** A resource was made under the annotated name after that name was read, and another id is annotated over it. */
  ghost predicate LosesName(s: State, e: Event, x: Id) {
    && e.Name? && e.write != Lost && s.at.Naming? && s.at.id != x
    && x == s.annotation && x != s.status && x !in s.superseded && !HeldByJob(s, x)
  }

  /** An id that is not recorded yet is lost with what holds it. */
  ghost predicate LosesUnrecorded(s: State, e: Event, x: Id) {
    match e
    // a crash after the Job is gone and before the annotation is stored
    case Crash => InFlight(s.at) == Some(x) && !HeldByJob(s, x)
    // the annotation could not be written
    case Name(write) => write == Lost && s.at == Naming(x) && !HeldByJob(s, x)
    // the Job is consumed, and its outcome is a failure, an unreadable envelope or a refused id
    case Clean(ok) => ok && s.at.Cleaning? && HeldOnlyBy(s, s.at.spec.op, x) && InFlight(s.at) != Some(x)
    // the Job expires before anybody read it
    case Expire(op) => HeldOnlyBy(s, op, x) && Finished(s.jobs[op]) && InFlight(s.at) != Some(x)
    case _ => false
  }

  /** What the reconcile of one object at a time keeps true. */
  ghost predicate Orderly(s: State) {
    && (s.status != "" ==> s.status == s.annotation)
    && (s.refused.Some? ==> s.status == "")
    && OrderlyProgress(s, s.at)
    && (forall op :: op in s.jobs && MadeBy(s.jobs[op]).Some? ==> MadeBy(s.jobs[op]).value in s.made)
    && "" !in s.made
  }

  ghost predicate OrderlyProgress(s: State, at: Progress) {
    match at
    case Idle => true
    case Checking => s.status != ""
    case Adopting(_) => s.status == "" && s.annotation != ""
    case Failing(_, _) => s.status == ""
    case Marking(id) => s.status == "" && s.annotation == id && id != ""
    case Naming(id) => s.status == "" && id in s.made
    case Creating(_) => s.status == ""
    case Polling(_) => s.status == ""
    case Reading(spec, _) => s.status == "" && (spec.op in s.jobs ==> Finished(s.jobs[spec.op]))
    case Cleaning(spec, job) =>
      s.status == "" && Finished(job) && (spec.op in s.jobs ==> s.jobs[spec.op] == job) &&
      (MadeBy(job).Some? ==> MadeBy(job).value in s.made)
  }

  lemma OrderlyKept(s: State, e: Event)
    requires Orderly(s)
    ensures Orderly(Next(s, e))
  {
    hide JobStep, PodStep, WriteStep, AdoptStep, Begin, Orderly;
    JobOrderly(s, e);
    PodOrderly(s, e);
    WriteOrderly(s, e);
    BeginOrderly(s, e);
  }

  lemma JobOrderly(s: State, e: Event)
    requires Orderly(s)
    ensures Orderly(JobStep(s, e))
  {
  }

  lemma PodOrderly(s: State, e: Event)
    requires Orderly(s)
    ensures Orderly(PodStep(s, e))
  {
  }

  lemma WriteOrderly(s: State, e: Event)
    requires Orderly(s)
    ensures Orderly(WriteStep(s, e))
  {
  }

  lemma BeginOrderly(s: State, e: Event)
    requires Orderly(s)
    ensures Orderly(Begin(s)) && (e.Adopt? ==> Orderly(AdoptStep(s, e.answer)))
    ensures e.Edit? || e.Resolve? || e.Overwrite? || e.Crash? ==> Orderly(Next(s, e))
  {
  }

  lemma {:induction false} RunOrderly(s: State, events: seq<Event>)
    requires Orderly(s)
    ensures Orderly(Run(s, events))
    decreases |events|
  {
    hide Next, Orderly;
    if events != [] {
      OrderlyKept(s, events[0]);
      RunOrderly(Next(s, events[0]), events[1..]);
    }
  }

  /** A recorded id is kept until a check finds the resource gone and that is stored; then it counts as gone, and nothing is recorded. */
  lemma StatusKept(s: State, e: Event)
    requires Orderly(s) && s.status != ""
    ensures var t := Next(s, e);
            && (t.status != s.status <==> s.at == Checking && e.Check? && e.answer == NotFound && e.write != Lost)
            && (t.status != s.status ==> t.status == "" && s.status in t.superseded)
  {
    hide PodStep;
    PodKeepsStatus(s, e);
  }

  /** The reconcile of a recorded id checks it: once the resource is gone the id goes, with any other answer it stays and a refusal is forgotten. */
  lemma RecordedIsChecked(s: State, answer: Answer)
    requires s.at == Idle && s.status != ""
    ensures Run(s, [Reconcile, Check(answer, Stored)]) ==
            if answer == NotFound then s.(status := "", superseded := s.superseded + {s.status}) else s.(refused := None)
  {
    var checking := s.(at := Checking);
    var states := [s, checking, if answer == NotFound then s.(status := "", superseded := s.superseded + {s.status}) else s.(refused := None)];
    assert Through(states, [Reconcile, Check(answer, Stored)]);
    hide Next;
    RunThrough(states, [Reconcile, Check(answer, Stored)]);
  }

  lemma PodKeepsStatus(s: State, e: Event)
    ensures PodStep(s, e).status == s.status
  {
  }

  /** The same Jobs hold the id before and after. */
  lemma HoldersSame(s: State, t: State, x: Id)
    requires forall op :: Holds(s, op, x) <==> Holds(t, op, x)
    ensures HeldByJob(s, x) <==> HeldByJob(t, x)
  {
    if HeldByJob(s, x) {
      var op :| Holds(s, op, x);
      assert Holds(t, op, x);
    }
  }

  /** One step keeps an accounted id accounted exactly when it is none of the windows, and brings no lost one back. */
  lemma StepAccounts(s: State, e: Event, x: Id)
    requires Orderly(s) && x in s.made
    ensures Accounted(Next(s, e), x) <==> Accounted(s, x) && !Loses(s, e, x)
  {
    hide JobStep, PodStep, WriteStep, AdoptStep, Begin, Accounted, Orderly, Loses, Recorded;
    match e {
      case Ensure(_) => JobAccounts(s, e, x);
      case Poll => JobAccounts(s, e, x);
      case GiveUp => JobAccounts(s, e, x);
      case ReadLog(_) => JobAccounts(s, e, x);
      case Clean(_) => JobAccounts(s, e, x);
      case Fail(_) => WriteAccounts(s, e, x);
      case Name(_) => WriteAccounts(s, e, x);
      case Mark(_) => WriteAccounts(s, e, x);
      case Check(_, _) => WriteAccounts(s, e, x);
      case PodStarts(_) => PodAccounts(s, e, x);
      case PodMakes(_, _) => PodAccounts(s, e, x);
      case PodReports(_, _) => PodAccounts(s, e, x);
      case PodBreaks(_) => PodAccounts(s, e, x);
      case Expire(_) => PodAccounts(s, e, x);
      case _ => BeginAccounts(s, e, x);
    }
  }

  lemma JobAccounts(s: State, e: Event, x: Id)
    requires Orderly(s) && x in s.made && (e.Ensure? || e.Poll? || e.GiveUp? || e.ReadLog? || e.Clean?)
    ensures Accounted(JobStep(s, e), x) <==> Accounted(s, x) && !Loses(s, e, x)
  {
    var t := JobStep(s, e);
    if e == Clean(true) && s.at.Cleaning? {
      RemovedJob(s, t, s.at.spec.op, x);
    } else {
      HoldersSame(s, t, x);
      if e.ReadLog? && s.at.Reading? && t.at.Cleaning? {
        assert MadeBy(t.at.job) == Some(x) <==> Holds(s, t.at.spec.op, x);
      }
    }
  }

  /** Without one Job the id is held exactly if another one holds it. */
  lemma RemovedJob(s: State, t: State, op: Op, x: Id)
    requires t.jobs == s.jobs - {op}
    ensures HeldByJob(t, x) <==> HeldByJob(s, x) && !HeldOnlyBy(s, op, x)
  {
    assert forall other :: Holds(t, other, x) <==> Holds(s, other, x) && other != op;
  }

  lemma PodAccounts(s: State, e: Event, x: Id)
    requires Orderly(s) && x in s.made
    requires e.PodStarts? || e.PodMakes? || e.PodReports? || e.PodBreaks? || e.Expire?
    ensures Accounted(PodStep(s, e), x) <==> Accounted(s, x) && !Loses(s, e, x)
  {
    var t := PodStep(s, e);
    if e.Expire? && t != s {
      RemovedJob(s, t, e.op, x);
    } else if e.PodMakes? && t != s && e.id == x {
      assert Holds(t, e.op, x);
    } else {
      HoldersSame(s, t, x);
    }
  }

  lemma WriteAccounts(s: State, e: Event, x: Id)
    requires Orderly(s) && x in s.made && (e.Fail? || e.Name? || e.Mark? || e.Check?)
    ensures Accounted(WriteStep(s, e), x) <==> Accounted(s, x) && !Loses(s, e, x)
  {
    HoldersSame(s, WriteStep(s, e), x);
  }

  lemma BeginAccounts(s: State, e: Event, x: Id)
    requires Orderly(s) && x in s.made && (e.Edit? || e.Resolve? || e.Overwrite? || e.Crash? || e.Reconcile? || e.Adopt?)
    ensures Accounted(Next(s, e), x) <==> Accounted(s, x) && !Loses(s, e, x)
  {
    hide JobStep, PodStep, WriteStep;
    HoldersSame(s, Next(s, e), x);
  }

  /** What is made is held by the Job that made it. */
  lemma MadeAccounts(s: State, e: Event, x: Id)
    requires x in Next(s, e).made && x !in s.made
    ensures Accounted(Next(s, e), x)
  {
    assert e.PodMakes? && e.id == x;
    assert Holds(Next(s, e), e.op, x);
  }

  lemma MadeStays(s: State, e: Event, x: Id)
    requires x in s.made
    ensures x in Next(s, e).made
  {
  }

  /** Some step of the run is one of the windows for an id accounted until then. */
  ghost predicate LostAt(s: State, events: seq<Event>, x: Id) {
    exists i :: 0 <= i < |events| && LosesAt(s, events, i, x)
  }

  ghost predicate LosesAt(s: State, events: seq<Event>, i: nat, x: Id)
    requires i < |events|
  {
    var t := Run(s, events[..i]); x in t.made && Accounted(t, x) && Loses(t, events[i], x)
  }

  /** A step later is a step of the whole run. */
  lemma LaterStep(s: State, events: seq<Event>, i: nat, x: Id)
    requires i + 1 < |events|
    ensures LosesAt(Next(s, events[0]), events[1..], i, x) <==> LosesAt(s, events, i + 1, x)
  {
    hide Loses, Next, Accounted;
    assert events[..i + 1][0] == events[0] && events[..i + 1][1..] == events[1..][..i];
  }

  lemma LostNowOrLater(s: State, events: seq<Event>, x: Id)
    requires events != []
    ensures LostAt(s, events, x) <==> (x in s.made && Accounted(s, x) && Loses(s, events[0], x)) || LostAt(Next(s, events[0]), events[1..], x)
  {
    hide Loses, Next, Accounted;
    assert events[..0] == [];
    assert LosesAt(s, events, 0, x) <==> x in s.made && Accounted(s, x) && Loses(s, events[0], x);
    if i: nat :| i < |events| && LosesAt(s, events, i, x) {
      if i > 0 { LaterStep(s, events, i - 1, x); }
    }
    if i: nat :| i < |events[1..]| && LosesAt(Next(s, events[0]), events[1..], i, x) {
      LaterStep(s, events, i, x);
    }
  }

  lemma {:induction false} RunAccounts(s: State, events: seq<Event>, x: Id)
    requires Orderly(s)
    ensures x in s.made ==> x in Run(s, events).made
    ensures x in Run(s, events).made ==>
              (Accounted(Run(s, events), x) <==> (x in s.made ==> Accounted(s, x)) && !LostAt(s, events, x))
    decreases |events|
  {
    hide Loses, Next, Accounted, Orderly;
    if events != [] {
      var e, t := events[0], Next(s, events[0]);
      OrderlyKept(s, e);
      RunAccounts(t, events[1..], x);
      LostNowOrLater(s, events, x);
      if x in s.made {
        MadeStays(s, e, x);
        StepAccounts(s, e, x);
        if !Accounted(t, x) { NotLostTwice(t, events[1..], x); }
      } else if x in t.made {
        MadeAccounts(s, e, x);
      }
    }
  }

  /** An id that is not accounted is not lost again. */
  lemma {:induction false} NotLostTwice(s: State, events: seq<Event>, x: Id)
    requires Orderly(s) && x in s.made && !Accounted(s, x)
    ensures !LostAt(s, events, x)
    decreases |events|
  {
    hide Loses, Next, Accounted, Orderly;
    if events != [] {
      OrderlyKept(s, events[0]);
      MadeStays(s, events[0], x);
      StepAccounts(s, events[0], x);
      NotLostTwice(Next(s, events[0]), events[1..], x);
      LostNowOrLater(s, events, x);
    }
  }

  /**
   The create ledger: over every interleaving of reconciles, Jobs, spec edits, failed
   writes and crashes, each external resource the create path made is recorded in the
   status or the annotation, in flight, held by a Job that was not consumed, or was found
   gone, if and only if none of the named windows lost it.
   */
  lemma CreateLedger(s: State, events: seq<Event>, x: Id)
    requires Fresh(s) && x in Run(s, events).made
    ensures Accounted(Run(s, events), x) <==> !LostAt(s, events, x)
  {
    hide Loses, Next, Accounted;
    RunAccounts(s, events, x);
  }

  // ---------------------------------------------------------------- no double provisioning

  /** The ids the controller keeps: recorded or in flight, and not found gone. */
  ghost predicate Kept(s: State, x: Id) {
    x != "" && x !in s.superseded && (x == s.status || x == s.annotation || InFlight(s.at) == Some(x))
  }

  /** No id is annotated but one found gone. */
  predicate Spent(s: State) {
    s.annotation == "" || s.annotation in s.superseded
  }

  /** An id that is annotated when a reconcile is past its adoption read is the one its own Job made. */
  ghost predicate Agreed(s: State) {
    match s.at
    case Creating(spec) => Spent(s) || Holds(s, spec.op, s.annotation)
    case Polling(spec) => spec.op in s.jobs ==> Spent(s) || Holds(s, spec.op, s.annotation)
    case Reading(spec, _) => spec.op in s.jobs ==> Spent(s) || Holds(s, spec.op, s.annotation)
    case Cleaning(_, job) => Spent(s) || MadeBy(job) == Some(s.annotation)
    case Naming(id) => Spent(s) || id == s.annotation
    case _ => true
  }

  /**
   After the annotated name was read and not found, another operation's Job makes a resource
   of this name; or the reconcile's own Job does, and expires before the create reaches it.
   */
  ghost predicate Disturbs(s: State, e: Event) {
    match e
    case PodMakes(op, id) =>
      id == s.annotation &&
      (s.at.Creating? || s.at.Polling? || s.at.Reading? || s.at.Cleaning? ==> op != s.at.spec.op) &&
      (s.at.Naming? ==> id != s.at.id) &&
      (s.at.Creating? || s.at.Polling? || s.at.Reading? || s.at.Cleaning? || s.at.Naming?)
    case Expire(op) => s.at.Creating? && op == s.at.spec.op && Holds(s, op, s.annotation)
    case _ => false
  }

  ghost predicate Undisturbed(s: State, events: seq<Event>)
    decreases |events|
  {
    events == [] || (!Disturbs(s, events[0]) && Undisturbed(Next(s, events[0]), events[1..]))
  }

  lemma AgreedKept(s: State, e: Event)
    requires Orderly(s) && Agreed(s) && !Disturbs(s, e)
    ensures Agreed(Next(s, e))
  {
    hide JobStep, PodStep;
    JobAgreed(s, e);
    PodAgreed(s, e);
  }

  lemma JobAgreed(s: State, e: Event)
    requires Orderly(s) && Agreed(s)
    ensures Agreed(JobStep(s, e))
  {
  }

  lemma PodAgreed(s: State, e: Event)
    requires Orderly(s) && Agreed(s) && !Disturbs(s, e)
    ensures Agreed(PodStep(s, e))
  {
  }

  lemma {:induction false} RunAgreed(s: State, events: seq<Event>)
    requires Orderly(s) && Agreed(s) && Undisturbed(s, events)
    ensures Orderly(Run(s, events)) && Agreed(Run(s, events))
    decreases |events|
  {
    hide Next, Orderly, Agreed, Disturbs;
    if events != [] {
      OrderlyKept(s, events[0]);
      AgreedKept(s, events[0]);
      RunAgreed(Next(s, events[0]), events[1..]);
    }
  }

  /**
   In every run, edits and losses included, all the ids the controller keeps are one and the
   same, unless a resource of the annotated name is made behind the back of a reconcile that
   has not found it.
   */
  lemma RecordedIdsAgree(s: State, events: seq<Event>, x: Id, y: Id)
    requires Fresh(s) && Undisturbed(s, events) && Kept(Run(s, events), x) && Kept(Run(s, events), y)
    ensures x == y
  {
    hide Next;
    RunAgreed(s, events);
  }

  // ---------------------------------------------------------------- a name made late

  lemma First(s: State, e: Event, more: seq<Event>)
    ensures Run(s, [e] + more) == Run(Next(s, e), more)
  {
    hide Next;
    assert ([e] + more)[1..] == more;
  }

  lemma {:induction false} RunAppend(s: State, events: seq<Event>, more: seq<Event>)
    ensures Run(s, events + more) == Run(Run(s, events), more)
    decreases |events|
  {
    hide Next;
    if events == [] {
      assert [] + more == more;
    } else {
      assert (events + more)[1..] == events[1..] + more;
      RunAppend(Next(s, events[0]), events[1..], more);
    }
  }

  /** A run from state to state. */
  ghost predicate Through(states: seq<State>, events: seq<Event>) {
    |states| == |events| + 1 && forall i :: 0 <= i < |events| ==> Next(states[i], events[i]) == states[i + 1]
  }

  lemma {:induction false} RunThrough(states: seq<State>, events: seq<Event>)
    requires Through(states, events)
    ensures Run(states[0], events) == states[|events|]
    decreases |events|
  {
    hide Next;
    if events != [] {
      var rest, more := states[1..], events[1..];
      forall i | 0 <= i < |more| ensures Next(rest[i], more[i]) == rest[i + 1] {
        assert Next(states[i + 1], events[i + 1]) == states[(i + 1) + 1];
      }
      assert Next(states[0], events[0]) == states[0 + 1];
      RunThrough(rest, more);
    }
  }

  /** An adoption read that finds nothing. */
  const Absent := [Reconcile, Adopt(NotFound)]

  lemma AbsentRuns(s: State)
    requires s.at == Idle && s.status == "" && s.annotation != "" && s.refused.None?
    ensures Run(s, Absent) == s.(superseded := s.superseded + {s.annotation}, at := Creating(s.spec))
  {
    hide PodStep, JobStep, WriteStep;
    var states := [s, s.(at := Adopting(s.spec)), s.(superseded := s.superseded + {s.annotation}, at := Creating(s.spec))];
    assert Through(states, Absent);
    hide Next;
    RunThrough(states, Absent);
  }

  /** A create that is given up before its Job starts. */
  const GivenUp := [Ensure(true), GiveUp, Fail(Stored)]

  lemma GivenUpRuns(s: State)
    requires s.at.Creating? && s.refused.None? && s.at.spec.op !in s.jobs
    ensures Run(s, GivenUp) == s.(at := Idle, jobs := s.jobs[s.at.spec.op := Waiting])
  {
    hide PodStep, AdoptStep, Begin;
    var spec := s.at.spec;
    var waiting := s.(jobs := s.jobs[spec.op := Waiting]);
    var states := [s, waiting.(at := Polling(spec)), waiting.(at := Failing(spec, false)), waiting.(at := Idle)];
    assert Through(states, GivenUp);
    hide Next;
    RunThrough(states, GivenUp);
  }

  /** The pod of a Job makes a resource and reports it. */
  function PodWorks(op: Op, id: Id): seq<Event> {
    [PodStarts(op), PodMakes(op, id), PodReports(op, Success)]
  }

  lemma PodWorksRuns(s: State, op: Op, id: Id)
    requires op in s.jobs && s.jobs[op] == Waiting && id != "" && !Live(s, id)
    ensures Run(s, PodWorks(op, id)) ==
            s.(jobs := s.jobs[op := Done(Success, Some(id))], made := s.made + {id}, superseded := s.superseded - {id})
  {
    hide JobStep, WriteStep, AdoptStep, Begin;
    var made := s.(made := s.made + {id}, superseded := s.superseded - {id});
    var states := [s, s.(jobs := s.jobs[op := Running(None)]), made.(jobs := s.jobs[op := Running(Some(id))]),
      made.(jobs := s.jobs[op := Done(Success, Some(id))])];
    assert Through(states, PodWorks(op, id));
    hide Next;
    RunThrough(states, PodWorks(op, id));
  }

  /** The finished Job is read and consumed. */
  const ReadAndClean := [Poll, ReadLog(true), Clean(true)]

  lemma ReadAndCleanRuns(s: State, id: Id)
    requires s.at.Polling? && s.at.spec.op in s.jobs && s.jobs[s.at.spec.op] == Done(Success, Some(id))
    ensures Run(s, ReadAndClean) == s.(at := Naming(id), jobs := s.jobs - {s.at.spec.op})
  {
    hide PodStep, WriteStep, AdoptStep, Begin;
    var spec := s.at.spec;
    var states := [s, s.(at := Reading(spec, false)), s.(at := Cleaning(spec, s.jobs[spec.op])), s.(at := Naming(id), jobs := s.jobs - {spec.op})];
    assert Through(states, ReadAndClean);
    hide Next;
    RunThrough(states, ReadAndClean);
  }

  /** The annotation and the status are written, and then a Job expires. */
  function RecordAndExpire(op: Op): seq<Event> {
    [Name(Stored), Mark(Stored), Expire(op)]
  }

  lemma RecordAndExpireRuns(s: State, op: Op)
    requires s.at.Naming? && op in s.jobs && Finished(s.jobs[op])
    ensures Run(s, RecordAndExpire(op)) ==
            s.(at := Idle, annotation := s.at.id, status := s.at.id, refused := None, jobs := s.jobs - {op})
  {
    hide JobStep, AdoptStep, Begin;
    var named := s.(annotation := s.at.id, at := Marking(s.at.id));
    var marked := named.(at := Idle, status := s.at.id, refused := None);
    var states := [s, named, marked, marked.(jobs := s.jobs - {op})];
    assert Through(states, RecordAndExpire(op));
    hide Next;
    RunThrough(states, RecordAndExpire(op));
  }

  /** The first create is given up; the operation changes, the name is read again, and only then the older Job makes it. */
  function Late(first: Op, second: Op, b: Id): seq<Event> {
    Absent + (GivenUp + ([Resolve(second)] + (Absent + PodWorks(first, b))))
  }

  lemma LateRuns(s: State, second: Op)
    requires Fresh(s) && s.annotation != "" && second != s.spec.op
    ensures var spec := Spec(second, s.spec.generation);
            Run(s, Late(s.spec.op, second, s.annotation)) ==
            s.(spec := spec, at := Creating(spec), made := {s.annotation}, jobs := map[s.spec.op := Done(Success, Some(s.annotation))])
  {
    hide Run;
    var op, b := s.spec.op, s.annotation;
    var creating := s.(superseded := {b}, at := Creating(s.spec));
    var waiting := s.(superseded := {b}, jobs := map[op := Waiting]);
    var changed := waiting.(spec := Spec(second, s.spec.generation));
    var again := changed.(at := Creating(changed.spec));
    assert Next(waiting, Resolve(second)) == changed;
    assert s.superseded + {b} == {b} && {b} + {b} == {b} && {b} - {b} == s.superseded && s.made + {b} == {b};
    assert s.jobs[op := Waiting] == waiting.jobs && waiting.jobs[op := Done(Success, Some(b))] == map[op := Done(Success, Some(b))];
    hide Next;
    var makes := Absent + PodWorks(op, b);
    AbsentRuns(s);
    RunAppend(s, Absent, GivenUp + ([Resolve(second)] + makes));
    GivenUpRuns(creating);
    RunAppend(creating, GivenUp, [Resolve(second)] + makes);
    First(waiting, Resolve(second), makes);
    AbsentRuns(changed);
    RunAppend(changed, Absent, PodWorks(op, b));
    PodWorksRuns(again, op, b);
  }

  /** The present operation makes `c`. */
  function Own(second: Op, c: Id): seq<Event> {
    [Ensure(true)] + (PodWorks(second, c) + ReadAndClean)
  }

  lemma OwnRuns(s: State, c: Id)
    requires s.at.Creating? && s.at.spec.op !in s.jobs && c != "" && !Live(s, c)
    ensures Run(s, Own(s.at.spec.op, c)) == s.(at := Naming(c), made := s.made + {c}, superseded := s.superseded - {c})
  {
    hide Run;
    var op := s.at.spec.op;
    var polling := s.(at := Polling(s.at.spec), jobs := s.jobs[op := Waiting]);
    var done := polling.(jobs := s.jobs[op := Done(Success, Some(c))], made := s.made + {c}, superseded := s.superseded - {c});
    assert Next(s, Ensure(true)) == polling;
    assert polling.jobs[op := Done(Success, Some(c))] == done.jobs && done.jobs - {op} == s.jobs;
    hide Next;
    First(s, Ensure(true), PodWorks(op, c) + ReadAndClean);
    RunAppend(polling, PodWorks(op, c), ReadAndClean);
    PodWorksRuns(polling, op, c);
    ReadAndCleanRuns(done, c);
  }

  /**
   Without that proviso the name is overwritten: an older operation's Job makes a resource of
   the external name after the name was read and not found, the present create succeeds, and
   with the older Job the resource is lost, though no write failed and nothing crashed.
   */
  lemma LateNameOverwritten(s: State, second: Op, c: Id)
    requires Fresh(s) && s.annotation != "" && second != s.spec.op && c != "" && c != s.annotation
    ensures var twice := Run(s, Late(s.spec.op, second, s.annotation) + Own(second, c)); Kept(twice, s.annotation) && Kept(twice, c)
    ensures var lost := Run(s, Late(s.spec.op, second, s.annotation) + Own(second, c) + RecordAndExpire(s.spec.op));
            Live(lost, s.annotation) && Live(lost, c) && !Accounted(lost, s.annotation)
  {
    hide Next, Run, Late, Own;
    var late, own, last := Late(s.spec.op, second, s.annotation), Own(second, c), RecordAndExpire(s.spec.op);
    LateRuns(s, second);
    OwnRuns(Run(s, late), c);
    RunAppend(s, late, own);
    RecordAndExpireRuns(Run(s, late + own), s.spec.op);
    RunAppend(s, late + own, last);
  }

  /** The operation the reconcile is about. */
  predicate About(at: Progress, op: Op) {
    at.Adopting? || at.Creating? || at.Polling? || at.Reading? || at.Cleaning? ==> at.spec.op == op
  }

  /** One operation, at most one live resource, and none while its Job may still make one. */
  ghost predicate Sole(s: State) {
    && (forall op :: op in s.jobs ==> op == s.spec.op) && About(s.at, s.spec.op)
    && (forall x :: Live(s, x) ==> Accounted(s, x))
    && (forall x, y :: Live(s, x) && Live(s, y) ==> x == y)
    && (s.spec.op in s.jobs && s.jobs[s.spec.op] in {Waiting, Running(None)} ==> forall x :: !Live(s, x))
    && (s.at.Creating? ==> forall x :: Live(s, x) ==> Holds(s, s.spec.op, x))
  }

  /** The Job expires after the annotated name was read and before the create finds the Job. */
  ghost predicate Forgets(s: State, e: Event, x: Id) {
    e.Expire? && s.at.Creating? && x == s.annotation && HeldOnlyBy(s, e.op, x) && Finished(s.jobs[e.op])
  }

  /** The event keeps the operation, and neither loses nor forgets a live resource. */
  ghost predicate Careful(s: State, e: Event) {
    (e.Edit? || e.Resolve? ==> e.op == s.spec.op) && forall x :: Live(s, x) ==> !Loses(s, e, x) && !Forgets(s, e, x)
  }

  lemma SoleKept(s: State, e: Event)
    requires Orderly(s) && Sole(s) && Careful(s, e)
    ensures Sole(Next(s, e))
  {
    hide JobStep, PodStep, WriteStep, AdoptStep, Begin, Accounted, Loses;
    var t := Next(s, e);
    OperationsKept(s, e);
    forall x | Live(t, x) ensures Accounted(t, x) && (!Live(s, x) ==> e == PodMakes(s.spec.op, x)) {
      if Live(s, x) { StepAccounts(s, e, x); } else { BecomesLive(s, e, x); }
    }
    CreatingKept(s, e);
    WaitingKept(s, e);
    NewestIsSole(s, e);
    hide Next, Accounted, Loses, Forgets, Orderly;
  }

  /** What a Job has yet to make is not there. */
  lemma WaitingKept(s: State, e: Event)
    requires Sole(s) && (e.Edit? || e.Resolve? ==> e.op == s.spec.op)
    ensures var t := Next(s, e); s.spec.op in t.jobs && t.jobs[s.spec.op] in {Waiting, Running(None)} ==> forall x :: !Live(t, x)
  {
    hide Accounted, Orderly;
    var t := Next(s, e);
    forall x | Live(t, x) ensures !(s.spec.op in t.jobs && t.jobs[s.spec.op] in {Waiting, Running(None)}) {
      if !Live(s, x) { BecomesLive(s, e, x); }
    }
  }

  /** A resource becomes live when a Job makes it. */
  lemma BecomesLive(s: State, e: Event, x: Id)
    requires Live(Next(s, e), x) && !Live(s, x)
    ensures e.PodMakes? && e.id == x && e.op in s.jobs && s.jobs[e.op] == Running(None)
    ensures Holds(Next(s, e), e.op, x) && Accounted(Next(s, e), x)
  {
    assert Holds(Next(s, e), e.op, x);
  }

  lemma OperationsKept(s: State, e: Event)
    requires Sole(s) && (e.Edit? || e.Resolve? ==> e.op == s.spec.op)
    ensures var t := Next(s, e); t.spec.op == s.spec.op && (forall op :: op in t.jobs ==> op == t.spec.op) && About(t.at, t.spec.op)
  {
    hide Accounted, Live, Recorded, Orderly;
  }

  /** A resource is made only by a Job that has made none, and nothing else is live then. */
  lemma NewestIsSole(s: State, e: Event)
    requires Sole(s)
    ensures var t := Next(s, e); forall x, y :: Live(t, x) && !Live(s, x) && Live(t, y) ==> x == y
  {
    var t := Next(s, e);
    forall x, y | Live(t, x) && !Live(s, x) && Live(t, y) ensures x == y {
      BecomesLive(s, e, x);
      if !Live(s, y) { BecomesLive(s, e, y); }
    }
  }

  /** When a create begins, or is about to, what is live is held by its Job. */
  lemma CreatingKept(s: State, e: Event)
    requires Orderly(s) && Sole(s) && Careful(s, e)
    ensures var t := Next(s, e); t.at.Creating? ==> forall x :: Live(t, x) ==> Holds(t, s.spec.op, x)
  {
    var t := Next(s, e);
    forall x | t.at.Creating? && Live(t, x) ensures Holds(t, s.spec.op, x) {
      if Live(s, x) {
        assert Accounted(s, x);
        assert !Loses(s, e, x) && !Forgets(s, e, x);
      } else {
        BecomesLive(s, e, x);
      }
    }
  }

  /** Every event of the run keeps the operation, and neither loses nor forgets a live resource. */
  ghost predicate AllCareful(s: State, events: seq<Event>)
    decreases |events|
  {
    events == [] || (Careful(s, events[0]) && AllCareful(Next(s, events[0]), events[1..]))
  }

  lemma {:induction false} RunSole(s: State, events: seq<Event>)
    requires Orderly(s) && Sole(s) && AllCareful(s, events)
    ensures Orderly(Run(s, events)) && Sole(Run(s, events))
    decreases |events|
  {
    hide Next, Orderly, Sole, Careful;
    if events != [] {
      OrderlyKept(s, events[0]);
      SoleKept(s, events[0]);
      RunSole(Next(s, events[0]), events[1..]);
    }
  }

  /**
   No double provisioning: in every run in which the operation stays and no live resource is
   lost or forgotten in one of the windows, whatever crashes, timeouts, unreadable logs,
   failed writes and failed cleanups, at most one resource of the create path is live.
   */
  lemma NoDoubleProvisioning(s: State, events: seq<Event>, x: Id, y: Id)
    requires Fresh(s) && AllCareful(s, events)
    requires Live(Run(s, events), x) && Live(Run(s, events), y)
    ensures x == y
  {
    hide Next, Accounted;
    RunSole(s, events);
  }

  /** The window of the forgotten name is one: a create that finds its Job expired makes a second resource, and nothing is lost. */
  lemma ForgottenNameDoubles(s: State, x: Id, y: Id)
    requires Orderly(s) && s.at.Creating? && s.annotation == x && Live(s, x) && y != "" && !Live(s, y)
    requires s.at.spec.op in s.jobs && s.jobs[s.at.spec.op] == Done(Success, Some(x))
    ensures var op := s.at.spec.op;
            var t := Run(s, [Expire(op)] + ([Ensure(true)] + PodWorks(op, y)));
            Live(t, x) && Live(t, y) && Accounted(t, x) && Accounted(t, y) && x != y
  {
    var op := s.at.spec.op;
    var expired := s.(jobs := s.jobs - {op});
    var polling := expired.(at := Polling(s.at.spec), jobs := expired.jobs[op := Waiting]);
    assert Next(s, Expire(op)) == expired && Next(expired, Ensure(true)) == polling;
    hide Next, Run;
    First(s, Expire(op), [Ensure(true)] + PodWorks(op, y));
    First(expired, Ensure(true), PodWorks(op, y));
    PodWorksRuns(polling, op, y);
    assert Holds(Run(polling, PodWorks(op, y)), op, y);
  }

  // ---------------------------------------------------------------- refused ids

  /** The id of the object's create was refused for the present generation, and no Job is at work. */
  ghost predicate Refused(s: State) {
    s.refused == Some(s.spec.generation) && s.at == Idle && s.status == "" && AllFinished(s)
  }

  ghost predicate AllFinished(s: State) {
    forall op :: op in s.jobs ==> Finished(s.jobs[op])
  }

  /** No edit, and no other reconcile that ends with a reason of its own. */
  ghost predicate Unforced(events: seq<Event>) {
    forall i :: 0 <= i < |events| ==> !events[i].Edit? && !events[i].Overwrite?
  }

  /** A refused object between and within its reconciles. */
  ghost predicate Resting(s: State) {
    s.refused == Some(s.spec.generation) && s.status == "" && AllFinished(s) &&
    (s.at == Idle || (s.at.Adopting? && s.at.spec.generation == s.spec.generation))
  }

  /** There is nothing to adopt, or every adoption read says so. */
  ghost predicate NothingToAdopt(s: State, events: seq<Event>) {
    s.annotation == "" || forall i :: 0 <= i < |events| && events[i].Adopt? ==> events[i].answer == NotFound
  }

  lemma RestingStep(s: State, e: Event)
    requires Resting(s) && !e.Edit? && !e.Overwrite? && (s.annotation == "" || (e.Adopt? ==> e.answer == NotFound))
    requires s.annotation == "" ==> s.at == Idle
    ensures Resting(Next(s, e)) && Next(s, e).made == s.made && Next(s, e).annotation == s.annotation
    ensures s.annotation == "" ==> Next(s, e).at == Idle
  {
  }

  /** A refused id stops every further create of its generation, as long as no edit, other condition or adoption intervenes. */
  lemma {:induction false} RefusedStaysTerminal(s: State, events: seq<Event>)
    requires Resting(s) && (s.annotation == "" ==> s.at == Idle) && Unforced(events) && NothingToAdopt(s, events)
    ensures Resting(Run(s, events)) && Run(s, events).made == s.made
    decreases |events|
  {
    hide Next, Resting;
    if events != [] {
      assert !events[0].Edit? && !events[0].Overwrite?;
      RestingStep(s, events[0]);
      RefusedStaysTerminal(Next(s, events[0]), events[1..]);
    }
  }

  /** Some further run, without edits or other reconciles, makes `x`. */
  ghost predicate CanMake(s: State, x: Id) {
    exists events :: Makes(s, events, x)
  }

  ghost predicate Makes(s: State, events: seq<Event>, x: Id) {
    Unforced(events) && x in Run(s, events).made
  }

  lemma CanMakeBefore(s: State, e: Event, x: Id)
    requires CanMake(Next(s, e), x) && !e.Edit? && !e.Overwrite?
    ensures CanMake(s, x)
  {
    hide Next;
    var events :| Makes(Next(s, e), events, x);
    assert ([e] + events)[1..] == events;
    assert Makes(s, [e] + events, x);
  }

  /** A create that has begun can make a resource. */
  lemma CreateMakes(s: State, x: Id)
    requires s.at == Creating(s.spec) && AllFinished(s) && x != "" && x !in s.made
    ensures CanMake(s, x)
  {
    var op := s.spec.op;
    var expired := Next(s, Expire(op));
    var ensured := Next(expired, Ensure(true));
    var started := Next(ensured, PodStarts(op));
    var made := Next(started, PodMakes(op, x));
    assert x in made.made;
    assert Makes(made, [], x);
    hide Next;
    CanMakeBefore(started, PodMakes(op, x), x);
    CanMakeBefore(ensured, PodStarts(op), x);
    CanMakeBefore(expired, Ensure(true), x);
    CanMakeBefore(s, Expire(op), x);
  }

  /** With nothing recorded and no refusal in force, the next reconcile can make a resource. */
  lemma FreeCreates(s: State, x: Id)
    requires s.at == Idle && s.status == "" && s.annotation == "" && s.refused != Some(s.spec.generation)
    requires AllFinished(s) && x != "" && x !in s.made
    ensures CanMake(s, x)
  {
    CreateMakes(Next(s, Reconcile), x);
    CanMakeBefore(s, Reconcile, x);
  }

  /** One failed adoption read overwrites the refusal: when the next one finds nothing, another resource is made. */
  lemma FailedAdoptionRetries(s: State, x: Id)
    requires Refused(s) && s.annotation != "" && x != "" && x !in s.made
    ensures CanMake(s, x)
  {
    var adopting := s.(at := Adopting(s.spec));
    var failing := s.(at := Failing(s.spec, false));
    var forgotten := s.(refused := None);
    var again := forgotten.(at := Adopting(s.spec));
    CreateMakes(Next(again, Adopt(NotFound)), x);
    assert Next(s, Reconcile) == adopting && Next(adopting, Adopt(Error)) == failing;
    assert Next(failing, Fail(Stored)) == forgotten && Next(forgotten, Reconcile) == again;
    hide Next;
    CanMakeBefore(again, Adopt(NotFound), x);
    CanMakeBefore(forgotten, Reconcile, x);
    CanMakeBefore(failing, Fail(Stored), x);
    CanMakeBefore(adopting, Adopt(Error), x);
    CanMakeBefore(s, Reconcile, x);
  }

  /** Another condition in between, such as a pause, overwrites it as well, whether or not there is something to adopt. */
  lemma OverwrittenRefusalRetries(s: State, x: Id)
    requires Refused(s) && x != "" && x !in s.made
    ensures CanMake(Next(s, Overwrite), x)
  {
    var forgotten := s.(refused := None);
    assert Next(s, Overwrite) == forgotten;
    if s.annotation == "" {
      CreateMakes(forgotten.(at := Creating(s.spec)), x);
    } else {
      var again := forgotten.(at := Adopting(s.spec));
      CreateMakes(Next(again, Adopt(NotFound)), x);
      CanMakeBefore(again, Adopt(NotFound), x);
    }
    CanMakeBefore(forgotten, Reconcile, x);
  }

  /** Some length exceeds that of all the ids. */
  lemma {:induction false} LongerThanAll(ids: set<Id>) returns (n: nat)
    ensures forall x :: x in ids ==> |x| < n
  {
    n := 0;
    if ids != {} {
      var y :| y in ids;
      n := LongerThanAll(ids - {y});
      n := if |y| < n then n else |y| + 1;
    }
  }

  lemma NewId(ids: set<Id>) returns (x: Id)
    ensures x != "" && x !in ids
  {
    var n := LongerThanAll(ids);
    x := seq(n + 1, _ => 'x');
  }

  /**
   A refusal is terminal for its generation if and only if the object has no external-name
   annotation: without one no run makes anything more until an edit or another condition;
   with one a failed adoption read is enough.
   */
  lemma RefusalHolds(s: State)
    requires Refused(s)
    ensures (forall events :: Unforced(events) ==> Run(s, events).made == s.made) <==> s.annotation == ""
  {
    hide Next;
    if s.annotation == "" {
      forall events | Unforced(events) ensures Run(s, events).made == s.made {
        RefusedStaysTerminal(s, events);
      }
    } else {
      var x := NewId(s.made);
      FailedAdoptionRetries(s, x);
      var events :| Makes(s, events, x);
      assert Run(s, events).made != s.made;
    }
  }
}
