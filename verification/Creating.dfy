/**
 reconcileCreate with adoptExternal, executeOp and persistExternalName (annotations.go:95-189,
 job.go:404-509), with the status writes of markSynced and markSyncFailed, in their order,
 and the proof that each call is a run of the ledger's machine: what holds of every run
 holds of this code.
 */
module Creating {
  import opened Json
  import opened Ledger

  /** What the surroundings answer during one call, and what happens between polls. */
  datatype Weather = Weather(
    adopted: Answer, accepted: bool, ticks: seq<seq<Event>>, readable: bool, cleaned: bool,
    named: Write, marked: Write, noted: Write)

  predicate PodEvent(e: Event) {
    e.PodStarts? || e.PodMakes? || e.PodReports? || e.PodBreaks? || e.Expire?
  }

  ghost predicate Fair(w: Weather) {
    forall i, e :: 0 <= i < |w.ticks| && e in w.ticks[i] ==> PodEvent(e)
  }

  lemma {:induction false} RunSnoc(s: State, events: seq<Event>, e: Event)
    ensures Run(s, events + [e]) == Next(Run(s, events), e)
    decreases |events|
  {
    hide Next;
    if events == [] {
      assert [e][1..] == [] && [] + [e] == [e];
    } else {
      assert (events + [e])[1..] == events[1..] + [e];
      RunSnoc(Next(s, events[0]), events[1..], e);
    }
  }

  // ---------------------------------------------------------------- what one call does

  /** The calls and writes of one reconcileCreate, and what happens in between. */
  function Script(s: State, w: Weather): seq<Event> {
    [Reconcile] + Started(Next(s, Reconcile), w)
  }

  function Started(s: State, w: Weather): seq<Event> {
    if s.at.Adopting? then [Adopt(w.adopted)] + Attempted(Next(s, Adopt(w.adopted)), w) else Attempted(s, w)
  }

  /** The create, unless the reconcile is past it. */
  function Attempted(s: State, w: Weather): seq<Event> {
    if !s.at.Creating? then Closing(s, w)
    else
      var t := Next(s, Ensure(w.accepted));
      [Ensure(w.accepted)] + if t.at.Polling? then Awaited(t, w) else Closing(t, w)
  }

  /** It polls until the Job is gone or finished, or its time is up. */
  function Awaited(s: State, w: Weather): seq<Event>
    decreases |w.ticks|
  {
    if w.ticks == [] then [GiveUp] + Closing(Next(s, GiveUp), w)
    else w.ticks[0] + [Poll] + Polled(Next(Run(s, w.ticks[0]), Poll), w)
  }

  /** What follows a poll. */
  function Polled(s: State, w: Weather): seq<Event>
    requires w.ticks != []
    decreases |w.ticks|, 0
  {
    if s.at.Polling? then Awaited(s, w.(ticks := w.ticks[1..]))
    else if s.at.Reading? then Consumption(s, w)
    else Closing(s, w)
  }

  /** It reads the log, and cleans up once the outcome is secured. */
  function Consumption(s: State, w: Weather): seq<Event> {
    var t := Next(s, ReadLog(w.readable));
    [ReadLog(w.readable)] +
    if t.at.Cleaning? then [Clean(w.cleaned)] + Closing(Next(t, Clean(w.cleaned)), w) else Closing(t, w)
  }

  /** The writes that end the reconcile: the annotation first, then the status and its condition; or the failure. */
  function Closing(s: State, w: Weather): seq<Event> {
    match s.at
    case Failing(_, _) => [Fail(w.noted)]
    case Naming(_) => [Name(w.named)] + if w.named == Stored then [Mark(w.marked)] else []
    case Marking(_) => [Mark(w.marked)]
    case _ => []
  }

  /** The events so far lead to the present state. */
  ghost predicate Reached(start: State, trace: seq<Event>, now: State) {
    Run(start, trace) == now
  }

  lemma Reach(start: State, trace: seq<Event>, now: State, e: Event)
    requires Reached(start, trace, now)
    ensures Reached(start, trace + [e], Next(now, e))
  {
    RunSnoc(start, trace, e);
  }

  lemma ReachMore(start: State, trace: seq<Event>, now: State, more: seq<Event>)
    requires Reached(start, trace, now)
    ensures Reached(start, trace + more, Run(now, more))
  {
    RunAppend(start, trace, more);
  }

  /** One round of the poll loop takes its share of what is left to do. */
  lemma Rest(trace: seq<Event>, tick: seq<Event>, now: State, w: Weather)
    requires w.ticks != [] && tick == w.ticks[0]
    ensures trace + Awaited(now, w) == trace + tick + [Poll] + Polled(Next(Run(now, tick), Poll), w)
  {
    hide Run, Next, Polled;
  }

  /** A reconciled object, its create Jobs and its record. */
  class Reconciler {
    var status: Id
    var annotation: Id
    var spec: Spec
    var refused: Option<nat>
    var jobs: map<Op, Job>
    var made: set<Id>
    var superseded: set<Id>

    ghost function View(at: Progress): State
      reads this
    {
      State(status, annotation, spec, refused, jobs, at, made, superseded)
    }

    /** Between two polls pods and the garbage collector act. */
    method Pass(events: seq<Event>, ghost at: Progress)
      requires forall e :: e in events ==> PodEvent(e)
      modifies this`jobs, this`made, this`superseded
      ensures View(at) == Run(old(View(at)), events)
    {
      hide PodStep, Run, Next;
      ghost var start := View(at);
      NoEvents(start);
      for i := 0 to |events|
        invariant View(at) == Run(start, events[..i])
      {
        var e := events[i];
        assert e in events && events[..i + 1] == events[..i] + [e];
        RunSnoc(start, events[..i], e);
        PodStepFrame(View(at), e);
        var next := PodStep(State(status, annotation, spec, refused, jobs, Idle, made, superseded), e);
        jobs, made, superseded := next.jobs, next.made, next.superseded;
      }
      assert events[..|events|] == events;
    }

    /** The polling loop: the finished Job, or None when it disappeared or time is up and it is left for the next attempt. */
    method Await(read: Spec, w: Weather, ghost start: State, ghost before: seq<Event>, ghost all: seq<Event>)
      returns (job: Option<Job>, ghost trace: seq<Event>)
      requires Fair(w) && Reached(start, before, View(Polling(read))) && all == before + Awaited(View(Polling(read)), w)
      modifies this`jobs, this`made, this`superseded
      ensures job.None? ==> Ending(start, trace, View(Failing(read, false)), all, w)
      ensures job.Some? ==> read.op in jobs && jobs[read.op] == job.value && Finished(job.value)
      ensures job.Some? ==> Reached(start, trace, View(Reading(read, job.value.Broken?)))
      ensures job.Some? ==> all == trace + Consumption(View(Reading(read, job.value.Broken?)), w)
    {
      hide Reached, AdoptStep, WriteStep, PodStep, Begin, Run, Closing, Consumption;
      trace := before;
      ghost var rest := w;
      for i := 0 to |w.ticks|
        invariant rest == w.(ticks := w.ticks[i..]) && Reached(start, trace, View(Polling(read)))
        invariant all == trace + Awaited(View(Polling(read)), rest)
      {
        ghost var now := View(Polling(read));
        assert rest.ticks[0] == w.ticks[i] && rest.ticks[1..] == w.ticks[i + 1..];
        Pass(w.ticks[i], Polling(read));
        ReachMore(start, trace, now, w.ticks[i]);
        Reach(start, trace + w.ticks[i], View(Polling(read)), Poll);
        Rest(trace, w.ticks[i], now, rest);
        ghost var polled := rest;
        trace := trace + w.ticks[i] + [Poll];
        rest := rest.(ticks := rest.ticks[1..]);
        if read.op !in jobs {
          SameEnding(View(Failing(read, false)), polled, w);
          return None, trace;
        }
        if jobs[read.op].Done? || jobs[read.op].Broken? {
          SameEnding(View(Reading(read, jobs[read.op].Broken?)), polled, w);
          return Some(jobs[read.op]), trace;
        }
      }
      Reach(start, trace, View(Polling(read)), GiveUp);
      SameEnding(View(Failing(read, false)), rest, w);
      assert all == trace + [GiveUp] + Closing(View(Failing(read, false)), w);
      return None, trace + [GiveUp];
    }

    /** The finished Job is read, and cleaned up once its outcome is secured; an unreadable success keeps it. */
    method Consume(read: Spec, job: Job, w: Weather, ghost start: State, ghost before: seq<Event>, ghost all: seq<Event>)
      returns (id: Option<Id>, refusal: bool, ghost trace: seq<Event>)
      requires read.op in jobs && jobs[read.op] == job && Finished(job)
      requires Reached(start, before, View(Reading(read, job.Broken?)))
      requires all == before + Consumption(View(Reading(read, job.Broken?)), w)
      modifies this`jobs
      ensures Ending(start, trace, View(Outcome(read, id, refusal)), all, w)
      ensures job.Done? && !w.readable ==> jobs == old(jobs) && id.None? && !refusal
    {
      hide Reached, AdoptStep, WriteStep, PodStep, Begin;
      id, refusal := None, false;
      ghost var reading := View(Reading(read, job.Broken?));
      Reach(start, before, reading, ReadLog(w.readable));
      trace := before + [ReadLog(w.readable)];
      if job.Done? && !w.readable {
        return;
      }
      ghost var cleaning := View(Cleaning(read, job));
      Reach(start, trace, cleaning, Clean(w.cleaned));
      assert all == trace + [Clean(w.cleaned)] + Closing(Next(cleaning, Clean(w.cleaned)), w);
      trace := trace + [Clean(w.cleaned)];
      if w.cleaned {
        jobs := jobs - {read.op};
      }
      if job.Done? && job.report == Success {
        id := job.made;
      } else if job.Done? && job.report == SecretInId {
        refusal := true;
      }
    }

    /** executeOp for the create: an id, a refused one, or an error. */
    method ExecuteCreate(read: Spec, w: Weather, ghost start: State, ghost before: seq<Event>, ghost all: seq<Event>)
      returns (id: Option<Id>, refusal: bool, ghost trace: seq<Event>)
      requires Fair(w) && Reached(start, before, View(Creating(read))) && all == before + Attempted(View(Creating(read)), w)
      modifies this`jobs, this`made, this`superseded
      ensures Ending(start, trace, View(Outcome(read, id, refusal)), all, w)
    {
      hide Reached, AdoptStep, WriteStep, PodStep, Begin, Awaited, Consumption, Closing;
      id, refusal := None, false;
      ghost var creating := View(Creating(read));
      Reach(start, before, creating, Ensure(w.accepted));
      trace := before + [Ensure(w.accepted)];
      if !w.accepted {
        return;
      }
      if read.op !in jobs {
        jobs := jobs[read.op := Waiting];
      }
      assert all == trace + Awaited(View(Polling(read)), w);
      var job;
      job, trace := Await(read, w, start, trace, all);
      if job.None? {
        return;
      }
      id, refusal, trace := Consume(read, job.value, w, start, trace, all);
    }

    /** persistExternalName, then the status: the annotation is stored first. */
    method Record(id: Id, w: Weather, ghost start: State, ghost before: seq<Event>) returns (ghost trace: seq<Event>)
      requires Reached(start, before, View(Naming(id)))
      modifies this`annotation, this`status, this`refused
      ensures Reached(start, trace, View(Idle)) && trace == before + Closing(old(View(Naming(id))), w)
      ensures annotation == (if w.named == Lost then old(annotation) else id)
      ensures w.named == Stored && w.marked != Lost ==> status == id && refused == None
      ensures w.named != Stored || w.marked == Lost ==> status == old(status) && refused == old(refused)
    {
      hide Reached, JobStep, AdoptStep, PodStep, Begin;
      Reach(start, before, View(Naming(id)), Name(w.named));
      trace := before + [Name(w.named)];
      if w.named != Lost {
        annotation := id;
      }
      if w.named != Stored {
        return;
      }
      trace := MarkSynced(id, w, start, trace);
      assert before + [Name(w.named)] + [Mark(w.marked)] == before + ([Name(w.named)] + [Mark(w.marked)]);
    }

    /** markSynced (doresource_controller.go:360): the id and the Synced condition are one write. */
    method MarkSynced(id: Id, w: Weather, ghost start: State, ghost before: seq<Event>) returns (ghost trace: seq<Event>)
      requires Reached(start, before, View(Marking(id)))
      modifies this`status, this`refused
      ensures Reached(start, trace, View(Idle)) && trace == before + [Mark(w.marked)]
      ensures w.marked != Lost ==> status == id && refused == None
      ensures w.marked == Lost ==> status == old(status) && refused == old(refused)
    {
      hide Reached, JobStep, AdoptStep, PodStep, Begin;
      Reach(start, before, View(Marking(id)), Mark(w.marked));
      trace := before + [Mark(w.marked)];
      if w.marked != Lost {
        status, refused := id, None;
      }
    }

    /** markSyncFailed (doresource_controller.go:396): the reason replaces the one recorded before. */
    method MarkSyncFailed(read: Spec, refusal: bool, w: Weather, ghost start: State, ghost before: seq<Event>)
      returns (ghost trace: seq<Event>)
      requires Reached(start, before, View(Failing(read, refusal)))
      modifies this`refused
      ensures Reached(start, trace, View(Idle)) && trace == before + [Fail(w.noted)]
      ensures refused == if w.noted == Lost then old(refused) else if refusal then Some(read.generation) else None
    {
      hide Reached, JobStep, AdoptStep, PodStep, Begin;
      Reach(start, before, View(Failing(read, refusal)), Fail(w.noted));
      trace := before + [Fail(w.noted)];
      if w.noted != Lost {
        refused := if refusal then Some(read.generation) else None;
      }
    }

    /** reconcileCreate (annotations.go:95): what it does is what the script says, and the machine allows. */
    method ReconcileCreate(w: Weather) returns (ghost trace: seq<Event>)
      requires status == "" && Fair(w)
      modifies this
      ensures trace == Script(old(View(Idle)), w) && View(Idle) == Run(old(View(Idle)), trace)
    {
      hide Run, JobStep, WriteStep, PodStep, Awaited, Consumption;
      ghost var start := View(Idle);
      ghost var all := Script(start, w);
      var read := spec;
      NoEvents(start);
      Reach(start, [], start, Reconcile);
      trace := [] + [Reconcile];
      if annotation != "" {
        ghost var adopting := View(Adopting(read));
        Reach(start, trace, adopting, Adopt(w.adopted));
        trace := trace + [Adopt(w.adopted)];
        assert all == trace + Attempted(Next(adopting, Adopt(w.adopted)), w);
        match w.adopted {
          case NotFound =>
            superseded := superseded + {annotation};
          case Error =>
            trace := MarkSyncFailed(read, false, w, start, trace);
            return;
          case _ =>
            trace := MarkSynced(annotation, w, start, trace);
            return;
        }
      }
      assert all == trace + Attempted(Proceed(View(Idle), read), w);
      if refused == Some(read.generation) {
        return;
      }
      var id, refusal;
      id, refusal, trace := ExecuteCreate(read, w, start, trace, all);
      if id.None? {
        trace := MarkSyncFailed(read, refusal, w, start, trace);
        return;
      }
      trace := Record(id.value, w, start, trace);
    }
  }

  /** Where a call of executeOp leaves the reconcile. */
  function Outcome(read: Spec, id: Option<Id>, refusal: bool): Progress {
    if id.Some? then Naming(id.value) else Failing(read, refusal)
  }

  /** The call is over, and what is left of the script is recording its outcome. */
  ghost predicate Ending(start: State, trace: seq<Event>, now: State, all: seq<Event>, w: Weather) {
    Reached(start, trace, now) && all == trace + Closing(now, w)
  }

  lemma NoEvents(s: State)
    ensures Run(s, []) == s && Reached(s, [], s)
  {
  }

  /** What follows the polls does not depend on how many were still possible. */
  lemma SameEnding(s: State, w: Weather, v: Weather)
    requires w.(ticks := v.ticks) == v
    ensures Consumption(s, w) == Consumption(s, v) && Closing(s, w) == Closing(s, v)
  {
  }

  /** A pod step touches the Jobs and what they made or made again, whatever the controller is doing. */
  lemma PodStepFrame(s: State, e: Event)
    requires PodEvent(e)
    ensures var t := PodStep(s.(at := Idle), e); Next(s, e) == s.(jobs := t.jobs, made := t.made, superseded := t.superseded)
  {
  }

  // ---------------------------------------------------------------- recovery

  /** Pods and the garbage collector touch the Jobs only; with all Jobs finished nothing is made. */
  lemma {:induction false} PodsOnlyTouchJobs(s: State, events: seq<Event>)
    requires forall e :: e in events ==> PodEvent(e)
    ensures var t := Run(s, events); t == s.(jobs := t.jobs, made := t.made, superseded := t.superseded)
    ensures AllFinished(s) ==> AllFinished(Run(s, events)) && Run(s, events).made == s.made && Run(s, events).superseded == s.superseded
    decreases |events|
  {
    if events != [] {
      assert events[0] in events;
      PodsOnlyTouchJobs(Next(s, events[0]), events[1..]);
    }
  }

  /** A finished Job that does not expire stays as it is. */
  lemma {:induction false} FinishedStays(s: State, events: seq<Event>, op: Op)
    requires op in s.jobs && Finished(s.jobs[op])
    requires (forall e :: e in events ==> PodEvent(e)) && Expire(op) !in events
    ensures op in Run(s, events).jobs && Run(s, events).jobs[op] == s.jobs[op]
    decreases |events|
  {
    if events != [] {
      assert events[0] in events;
      FinishedStays(Next(s, events[0]), events[1..], op);
    }
  }

  /** A finished create Job of the present spec whose outcome nobody has read. */
  ghost predicate Unread(s: State, j: Job) {
    && s.at == Idle && s.status == "" && s.refused != Some(s.spec.generation)
    && s.spec.op in s.jobs && s.jobs[s.spec.op] == j && Finished(j)
  }

  /** The call gets to the Job: it finds nothing to adopt, and polls once before the Job expires. */
  ghost predicate FindsIt(s: State, w: Weather, op: Op) {
    (s.annotation != "" ==> w.adopted == NotFound) && Fair(w) && w.accepted && w.ticks != [] && Expire(op) !in w.ticks[0]
  }

  /**
   What a crash or a failed call leaves behind is picked up: whatever else happens during
   it, the next call that reads the finished Job annotates the id the Job made and then
   records it, as far as the writes succeed, and makes nothing itself.
   */
  lemma FinishedJobRecovered(s: State, w: Weather, x: Id)
    requires Unread(s, Done(Success, Some(x))) && FindsIt(s, w, s.spec.op) && w.readable
    ensures var t := Run(s, Script(s, w));
            && t.at == Idle
            && t.annotation == (if w.named == Lost then s.annotation else x)
            && t.status == (if w.named == Stored && w.marked != Lost then x else "")
            && (AllFinished(s) ==> t.made == s.made)
  {
    hide Next, Script, Consumption, Run, AllFinished;
    var done := Done(Success, Some(x));
    var now := CallReads(s, w, done);
    Names(Taken(now, w, done), w);
  }

  /** The job was read, and is no success. */
  ghost predicate NoSuccess(j: Job) {
    j.Done? ==> j.report != Success
  }

  /**
   Which outcome is a refusal: the call that reads a finished Job without a success records
   nothing and makes nothing; it leaves a refusal of the present generation if and only if
   it could read the log and the Job reported SecretInId, as far as the failure is stored.
   A completed Job whose log cannot be read stays.
   */
  lemma ReportDecides(s: State, w: Weather, j: Job)
    requires Unread(s, j) && FindsIt(s, w, s.spec.op) && (w.readable ==> NoSuccess(j))
    ensures var t := Run(s, Script(s, w));
            && t.at == Idle && t.status == "" && t.annotation == s.annotation && t.spec == s.spec
            && (w.noted != Lost ==> (t.refused == Some(s.spec.generation) <==> w.readable && j.Done? && j.report == SecretInId))
            && (w.noted != Lost ==> (t.refused == None <==> !(w.readable && j.Done? && j.report == SecretInId)))
            && (w.noted == Lost ==> t.refused == s.refused)
            && (!w.readable && j.Done? ==> s.spec.op in t.jobs && t.jobs[s.spec.op] == j)
            && (AllFinished(s) ==> AllFinished(t) && t.made == s.made)
  {
    hide Next, Script, Consumption, Run;
    var now := CallReads(s, w, j);
    var after := Taken(now, w, j);
    Fails(after, w);
  }

  /**
   Only a refusal is terminal: after the outcome of a finished Job was read and stored, no
   run without an edit or another reason makes anything more if and only if the Job reported
   SecretInId; any other failure is retried.
   */
  lemma OnlyRefusalsStop(s: State, w: Weather, j: Job)
    requires Unread(s, j) && FindsIt(s, w, s.spec.op) && w.readable && NoSuccess(j) && w.noted != Lost
    requires AllFinished(s) && s.annotation == ""
    ensures var t := Run(s, Script(s, w));
            (forall events :: Unforced(events) ==> Run(t, events).made == s.made) <==> j.Done? && j.report == SecretInId
  {
    ReportDecides(s, w, j);
    hide Run, Next, Script;
    var t := Run(s, Script(s, w));
    if j.Done? && j.report == SecretInId {
      RefusalHolds(t);
    } else {
      var x := NewId(t.made);
      FreeCreates(t, x);
      var events :| Makes(t, events, x);
      assert Run(t, events).made != s.made;
    }
  }

  /** The call comes to the finished Job, reads it and cleans it up. */
  lemma CallReads(s: State, w: Weather, j: Job) returns (now: State)
    requires Unread(s, j) && FindsIt(s, w, s.spec.op)
    ensures now == Attempting(s).(at := Polling(s.spec), jobs := now.jobs, made := now.made, superseded := now.superseded)
    ensures s.spec.op in now.jobs && now.jobs[s.spec.op] == j
    ensures AllFinished(s) ==> AllFinished(now) && now.made == s.made
    ensures Run(s, Script(s, w)) == Run(Taken(now, w, j), Closing(Taken(now, w, j), w))
  {
    hide Next, Awaited, Script, Consumption, Run, Polled;
    var polling := Attempting(s).(at := Polling(s.spec));
    assert AllFinished(s) <==> AllFinished(polling);
    hide AllFinished;
    now := Run(polling, w.ticks[0]);
    BeginsPolling(s, w);
    AfterTick(polling, w, j);
    ReadsFinished(now, w, j);
    OnePoll(polling, w);
  }

  /** The reconcile after it has taken the outcome of a finished Job: an unreadable completion is left, everything else cleaned up. */
  function Taken(s: State, w: Weather, j: Job): State
    requires s.at.Polling?
  {
    var spec := s.at.spec;
    if j.Done? && !w.readable then s.(at := Failing(spec, false))
    else
      s.(jobs := if w.cleaned then s.jobs - {spec.op} else s.jobs,
         at := match j
               case Done(Success, Some(x)) => Naming(x)
               case Done(SecretInId, _) => Failing(spec, true)
               case _ => Failing(spec, false))
  }

  /** The write that ends a failed call. */
  lemma Fails(s: State, w: Weather)
    requires s.at.Failing?
    ensures Run(s, Closing(s, w)) ==
            s.(at := Idle, refused := if w.noted == Lost then s.refused else if s.at.refusal then Some(s.at.spec.generation) else None)
  {
    hide Run, PodStep, Begin, AdoptStep, JobStep;
    assert [Fail(w.noted)] + [] == [Fail(w.noted)];
    First(s, Fail(w.noted), []);
    NoEvents(Next(s, Fail(w.noted)));
  }

  /** After the adoption read, if there is a name to read. */
  function Attempting(s: State): State {
    s.(at := Creating(s.spec), superseded := if s.annotation == "" then s.superseded else s.superseded + {s.annotation})
  }

  /** The first tick leaves the record and the finished Job alone. */
  lemma AfterTick(s: State, w: Weather, j: Job)
    requires s.at.Polling? && FindsIt(s, w, s.at.spec.op) && s.at.spec.op in s.jobs && s.jobs[s.at.spec.op] == j && Finished(j)
    ensures var t := Run(s, w.ticks[0]);
            t == s.(jobs := t.jobs, made := t.made, superseded := t.superseded) && s.at.spec.op in t.jobs && t.jobs[s.at.spec.op] == j &&
            (AllFinished(s) ==> AllFinished(t) && t.made == s.made)
  {
    hide Run, AllFinished;
    var tick := w.ticks[0];
    assert forall e :: e in tick ==> PodEvent(e);
    PodsOnlyTouchJobs(s, tick);
    FinishedStays(s, tick, s.at.spec.op);
  }

  /** A tick and a poll, then what follows the poll. */
  lemma OnePoll(s: State, w: Weather)
    requires w.ticks != []
    ensures var now := Run(s, w.ticks[0]);
            Run(s, Awaited(s, w)) == Run(now, [Poll] + Polled(Next(now, Poll), w))
  {
    hide Run, Next, Polled;
    var tick := w.ticks[0];
    var rest := [Poll] + Polled(Next(Run(s, tick), Poll), w);
    assert Awaited(s, w) == tick + rest;
    RunAppend(s, tick, rest);
  }

  lemma BeginsPolling(s: State, w: Weather)
    requires s.at == Idle && s.status == "" && s.refused != Some(s.spec.generation) && s.spec.op in s.jobs && w.accepted
    requires s.annotation != "" ==> w.adopted == NotFound
    ensures var polling := Attempting(s).(at := Polling(s.spec)); Run(s, Script(s, w)) == Run(polling, Awaited(polling, w))
  {
    hide Run, Awaited, PodStep, WriteStep;
    var creating := Attempting(s);
    var polling := creating.(at := Polling(s.spec));
    var attempt := [Ensure(true)] + Awaited(polling, w);
    assert Next(creating, Ensure(true)) == polling && Attempted(creating, w) == attempt;
    First(creating, Ensure(true), Awaited(polling, w));
    if s.annotation == "" {
      assert Next(s, Reconcile) == creating && Script(s, w) == [Reconcile] + attempt;
      First(s, Reconcile, attempt);
    } else {
      var adopting := s.(at := Adopting(s.spec));
      assert Next(s, Reconcile) == adopting && Next(adopting, Adopt(NotFound)) == creating;
      assert Script(s, w) == [Reconcile] + ([Adopt(NotFound)] + attempt);
      First(s, Reconcile, [Adopt(NotFound)] + attempt);
      First(adopting, Adopt(NotFound), attempt);
    }
  }

  /** From the poll that finds the Job finished to the end of the call. */
  lemma ReadsFinished(s: State, w: Weather, j: Job)
    requires s.at.Polling? && s.at.spec.op in s.jobs && s.jobs[s.at.spec.op] == j && Finished(j) && w.ticks != []
    ensures var reading := s.(at := Reading(s.at.spec, j.Broken?));
            Next(s, Poll) == reading && Polled(reading, w) == Consumption(reading, w) &&
            Run(s, [Poll] + Consumption(reading, w)) == Run(Taken(s, w, j), Closing(Taken(s, w, j), w))
  {
    hide Run, PodStep, Begin, AdoptStep, Closing;
    var spec := s.at.spec;
    var reading := s.(at := Reading(spec, j.Broken?));
    var after := Taken(s, w, j);
    assert Next(s, Poll) == reading;
    First(s, Poll, Consumption(reading, w));
    if j.Done? && !w.readable {
      assert Next(reading, ReadLog(false)) == after;
      First(reading, ReadLog(false), Closing(after, w));
    } else {
      var cleaning := s.(at := Cleaning(spec, j));
      assert Next(reading, ReadLog(w.readable)) == cleaning && Next(cleaning, Clean(w.cleaned)) == after;
      assert Consumption(reading, w) == [ReadLog(w.readable)] + ([Clean(w.cleaned)] + Closing(after, w));
      First(reading, ReadLog(w.readable), [Clean(w.cleaned)] + Closing(after, w));
      First(cleaning, Clean(w.cleaned), Closing(after, w));
    }
  }

  /** The two writes that record an id. */
  lemma Names(s: State, w: Weather)
    requires s.at.Naming?
    ensures Run(s, Closing(s, w)) ==
            s.(at := Idle,
               annotation := if w.named == Lost then s.annotation else s.at.id,
               status := if w.named == Stored && w.marked != Lost then s.at.id else s.status,
               refused := if w.named == Stored && w.marked != Lost then None else s.refused)
  {
    hide Run, PodStep, Begin, AdoptStep, JobStep;
    var named := Next(s, Name(w.named));
    if w.named == Stored {
      First(s, Name(w.named), [Mark(w.marked)]);
      assert [Mark(w.marked)] + [] == [Mark(w.marked)];
      First(named, Mark(w.marked), []);
      NoEvents(Next(named, Mark(w.marked)));
    } else {
      assert [Name(w.named)] + [] == [Name(w.named)];
      First(s, Name(w.named), []);
      NoEvents(named);
    }
  }

  /** A crash between annotation and status is healed by adoption: the annotated id is recorded, and nothing else changes. */
  lemma AnnotatedIdAdopted(s: State, w: Weather)
    requires s.at == Idle && s.status == "" && s.annotation != "" && w.adopted in {Found, Unsupported}
    ensures Run(s, Script(s, w)) == if w.marked == Lost then s else s.(status := s.annotation, refused := None)
  {
    hide Run, PodStep, JobStep;
    var adopting := s.(at := Adopting(s.spec));
    var marking := s.(at := Marking(s.annotation));
    assert Next(s, Reconcile) == adopting && Next(adopting, Adopt(w.adopted)) == marking;
    assert Script(s, w) == [Reconcile] + ([Adopt(w.adopted)] + ([Mark(w.marked)] + []));
    First(s, Reconcile, [Adopt(w.adopted)] + ([Mark(w.marked)] + []));
    First(adopting, Adopt(w.adopted), [Mark(w.marked)] + []);
    First(marking, Mark(w.marked), []);
    NoEvents(Next(marking, Mark(w.marked)));
  }
}
