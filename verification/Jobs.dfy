/**
 Run-or-adopt (job.go): an operation runs in a Job whose name is derived from its owner
 and its document, and the Job outlives crashes and unreadable logs until its outcome is
 secured. One run of the machine below is everything that happens to one Job name.
 */
module Jobs {
  import opened Strings
  import opened Json

  // ---------------------------------------------------------------- names

  datatype Name = Random(verb: string, suffix: string) | Derived(verb: string, hashed: string)

  predicate TakesSecretInputs(verb: string) {
    verb in {"create", "patch", "engine-up", "engine-destroy"}
  }

  /** What is hashed: the owner, the operation document and, where it applies, the rotation salt. */
  function HashInput(owner: string, op: string, salt: string): string {
    owner + [NUL] + op + if salt == "" then "" else [NUL] + salt
  }

  /** jobName (job.go:379). */
  function JobName(owner: string, verb: string, op: string, salt: string, suffix: string): Name {
    if owner == "" && verb != "schema" then Random(verb, suffix)
    else Derived(verb, HashInput(owner, op, if TakesSecretInputs(verb) then salt else ""))
  }

  /** Texts before the first NUL determine each other. */
  lemma {:induction false} FirstCut(a: string, b: string, x: string, y: string)
    requires NulFree(a) && NulFree(b) && a + [NUL] + x == b + [NUL] + y
    ensures a == b && x == y
  {
    assert (a + [NUL] + x)[0] == (b + [NUL] + y)[0];
    assert (a != "" ==> a[0] in a) && (b != "" ==> b[0] in b);
    assert (a + [NUL] + x)[1..] == (b + [NUL] + y)[1..];
    if a == "" {
      assert (a + [NUL] + x)[1..] == x && (b + [NUL] + y)[1..] == y;
    } else {
      assert (a + [NUL] + x)[1..] == a[1..] + [NUL] + x && (b + [NUL] + y)[1..] == b[1..] + [NUL] + y;
      FirstCut(a[1..], b[1..], x, y);
    }
  }

  /** Two operations share a Job exactly when verb, owner, document and applicable salt agree. */
  lemma SameJob(o1: string, o2: string, verb1: string, verb2: string, op1: string, op2: string, s1: string, s2: string, f1: string, f2: string)
    requires NulFree(o1) && NulFree(o2) && NulFree(op1) && NulFree(op2) && NulFree(s1) && NulFree(s2)
    requires (o1 != "" || verb1 == "schema") && (o2 != "" || verb2 == "schema")
    ensures JobName(o1, verb1, op1, s1, f1) == JobName(o2, verb2, op2, s2, f2) <==>
            o1 == o2 && verb1 == verb2 && op1 == op2 && (verb1 in {"create", "patch", "engine-up", "engine-destroy"} ==> s1 == s2)
  {
    if JobName(o1, verb1, op1, s1, f1) == JobName(o2, verb2, op2, s2, f2) {
      var salt1 := if TakesSecretInputs(verb1) then s1 else "";
      var salt2 := if TakesSecretInputs(verb1) then s2 else "";
      var tail1, tail2 := if salt1 == "" then "" else [NUL] + salt1, if salt2 == "" then "" else [NUL] + salt2;
      assert HashInput(o1, op1, salt1) == o1 + [NUL] + (op1 + tail1);
      assert HashInput(o2, op2, salt2) == o2 + [NUL] + (op2 + tail2);
      FirstCut(o1, o2, op1 + tail1, op2 + tail2);
      TailCut(op1, op2, salt1, salt2);
    }
  }

  /** An operation of nobody, a schema fetch apart, shares its Job with no other but by the same random suffix. */
  lemma NobodysJob(owner: string, verb1: string, verb2: string, op1: string, op2: string, s1: string, s2: string, f1: string, f2: string)
    requires verb1 != "schema"
    ensures JobName("", verb1, op1, s1, f1) == JobName(owner, verb2, op2, s2, f2) <==> owner == "" && verb2 != "schema" && verb1 == verb2 && f1 == f2
  {
  }

  lemma TailCut(a: string, b: string, x: string, y: string)
    requires NulFree(a) && NulFree(b)
    requires a + (if x == "" then "" else [NUL] + x) == b + if y == "" then "" else [NUL] + y
    ensures a == b && x == y
  {
    var p, q := if x == "" then "" else x + [NUL], if y == "" then "" else y + [NUL];
    assert a + (if x == "" then "" else [NUL] + x) + [NUL] == a + [NUL] + p;
    assert b + (if y == "" then "" else [NUL] + y) + [NUL] == b + [NUL] + q;
    FirstCut(a, b, p, q);
    assert (x != "" ==> x == p[..|p| - 1]) && (y != "" ==> y == q[..|q| - 1]);
  }

  // ---------------------------------------------------------------- the machine

  datatype Phase = Pending | Active | Complete | Failed

  /** Where the controller is in executeOp. */
  datatype Call = NoCall | Polling | Reading(failed: bool) | Cleaning

  /** `executions` counts pods started, the others the events that may let another one start. */
  datatype State = State(job: Option<Phase>, call: Call, executions: nat, secured: nat, failures: nat, expired: nat)

  datatype Event =
    | Begin             // ensureJob creates the Job, or adopts the one that is there
    | Start             // the runner pod starts
    | Finish(ok: bool)  // the Job completes or fails
    | Poll              // the controller looks at the Job
    | Read(ok: bool)    // it fetches the pod's log
    | Clean(ok: bool)   // it deletes the Job
    | Abandon           // a timeout, a cancellation or a crash of the manager
    | Expire            // Kubernetes removes a finished Job

  function Next(s: State, e: Event): State {
    match e
    case Begin =>
      if s.call != NoCall then s
      else s.(call := Polling, job := if s.job.None? then Some(Pending) else s.job)
    case Start =>
      if s.job == Some(Pending) then s.(job := Some(Active), executions := s.executions + 1) else s
    case Finish(ok) =>
      if s.job == Some(Active) then s.(job := Some(if ok then Complete else Failed))
      else if s.job == Some(Pending) && !ok then s.(job := Some(Failed)) else s
    case Poll =>
      if s.call != Polling then s
      else if s.job.None? then s.(call := NoCall)
      else if s.job.value in {Complete, Failed} then s.(call := Reading(s.job.value == Failed))
      else s
    case Read(ok) =>
      if !s.call.Reading? then s
      else if s.call.failed then s.(call := Cleaning, failures := s.failures + 1)
      else if ok && s.job.Some? then s.(call := Cleaning, secured := s.secured + 1)
      else s.(call := NoCall)
    case Clean(ok) =>
      if s.call != Cleaning then s else s.(call := NoCall, job := if ok then None else s.job)
    case Abandon => s.(call := NoCall)
    case Expire =>
      if s.job in {Some(Complete), Some(Failed)} then s.(job := None, expired := s.expired + 1) else s
  }

  function Run(s: State, events: seq<Event>): State
    decreases |events|
  {
    if events == [] then s else Run(Next(s, events[0]), events[1..])
  }

  const IDLE := State(None, NoCall, 0, 0, 0, 0)

  lemma {:induction false} RunSnoc(s: State, events: seq<Event>, e: Event)
    ensures Run(s, events + [e]) == Next(Run(s, events), e)
    decreases |events|
  {
    if events == [] {
      assert events + [e] == [e];
      assert [e][1..] == [];
    } else {
      assert (events + [e])[0] == events[0] && (events + [e])[1..] == events[1..] + [e];
      RunSnoc(Next(s, events[0]), events[1..], e);
    }
  }

  lemma {:induction false} RunAppend(s: State, events: seq<Event>, more: seq<Event>)
    ensures Run(s, events + more) == Run(Run(s, events), more)
    decreases |more|
  {
    if more == [] {
      assert events + more == events;
    } else {
      assert events + more == (events + [more[0]]) + more[1..];
      RunAppend(s, events + [more[0]], more[1..]);
      RunSnoc(s, events, more[0]);
    }
  }

  // ---------------------------------------------------------------- executeOp

  datatype Outcome = Refused | Vanished | TimedOut | Infrastructure | Unavailable | Result

  /** What the surroundings do during one call: whether the Job is accepted, what happens before each poll, the log, the cleanup. */
  datatype Weather = Weather(accepted: bool, ticks: seq<seq<Event>>, readable: bool, cleaned: bool)

  predicate Surroundings(e: Event) {
    e.Start? || e.Finish? || e.Expire?
  }

  /** The calls of one executeOp, and what happens in between. */
  function Trace(s: State, w: Weather): seq<Event> {
    if !w.accepted then [] else [Begin] + Awaited(Next(s, Begin), w)
  }

  /** It polls until the Job is gone or finished, or its time is up. */
  function Awaited(s: State, w: Weather): seq<Event>
    decreases |w.ticks|
  {
    if w.ticks == [] then [Abandon]
    else
      var t := Next(Run(s, w.ticks[0]), Poll);
      w.ticks[0] + [Poll] +
      if t.call == Polling then Awaited(t, w.(ticks := w.ticks[1..]))
      else if t.call.Reading? then Consumed(t, w) else []
  }

  /** It reads the log, and deletes the Job unless a success could not be read. */
  function Consumed(s: State, w: Weather): seq<Event> {
    [Read(w.readable)] + if Next(s, Read(w.readable)).call == Cleaning then [Clean(w.cleaned)] else []
  }

  /** The Job of one name. */
  class Cluster {
    var job: Option<Phase>
    var executions: nat
    var secured: nat
    var failures: nat
    var expired: nat

    ghost function View(call: Call): State
      reads this
    {
      State(job, call, executions, secured, failures, expired)
    }

    /** Between two polls the pod and the garbage collector act. */
    method Pass(events: seq<Event>, ghost call: Call)
      requires forall e :: e in events ==> Surroundings(e)
      modifies this
      ensures View(call) == Run(old(View(call)), events)
    {
      hide Run;
      RunAppend(View(call), [], []);
      Nothing(View(call));
      for i := 0 to |events|
        invariant View(call) == Run(old(View(call)), events[..i])
      {
        var e := events[i];
        assert e in events && events[..i + 1] == events[..i] + [e];
        RunSnoc(old(View(call)), events[..i], e);
        match e {
          case Start =>
            if job == Some(Pending) {
              job, executions := Some(Active), executions + 1;
            }
          case Finish(ok) =>
            if job == Some(Active) || (job == Some(Pending) && !ok) {
              job := Some(if ok then Complete else Failed);
            }
          case Expire =>
            if job == Some(Complete) || job == Some(Failed) {
              job, expired := None, expired + 1;
            }
          case _ => assert false;
        }
      }
      assert events[..|events|] == events;
    }

    /** The poll loop: None when the Job is gone or time is up, else whether it failed. */
    method Await(w: Weather, ghost start: State, ghost before: seq<Event>, ghost all: seq<Event>)
      returns (outcome: Outcome, failed: bool, ghost trace: seq<Event>)
      requires Fair(w) && PollsFind(start, before, Some(Pending)) && Reached(start, before, View(Polling)) && all == before + Awaited(View(Polling), w)
      modifies this
      ensures outcome in {Vanished, TimedOut, Result}
      ensures outcome != Result ==> Reached(start, trace, View(NoCall)) && all == trace
      ensures outcome == Result ==> job == Some(if failed then Failed else Complete)
      ensures outcome == Result ==> Reached(start, trace, View(Reading(failed))) && all == trace + Consumed(View(Reading(failed)), w)
      ensures secured == old(secured) && failures == old(failures)
      ensures PollsFind(start, trace, match outcome case Vanished => None case TimedOut => Some(Pending) case _ => job)
    {
      hide Reached, Run;
      trace := before;
      ghost var rest := w;
      for i := 0 to |w.ticks|
        invariant secured == old(secured) && failures == old(failures)
        invariant rest == w.(ticks := w.ticks[i..]) && Reached(start, trace, View(Polling)) && PollsFind(start, trace, Some(Pending))
        invariant all == trace + Awaited(View(Polling), rest)
      {
        ghost var now := View(Polling);
        assert rest.ticks[0] == w.ticks[i] && rest.ticks[1..] == w.ticks[i + 1..];
        Pass(w.ticks[i], Polling);
        PassSecuresNothing(now, w.ticks[i]);
        ReachedMore(start, trace, now, w.ticks[i]);
        ReachedNext(start, trace + w.ticks[i], View(Polling), Poll);
        Rest(trace, w.ticks[i], now, rest);
        PollFinds(start, trace, w.ticks[i], View(Polling));
        trace := trace + w.ticks[i] + [Poll];
        rest := rest.(ticks := rest.ticks[1..]);
        if job.None? {
          return Vanished, false, trace;
        }
        if job.value == Complete {
          return Result, false, trace;
        }
        if job.value == Failed {
          return Result, true, trace;
        }
      }
      ReachedNext(start, trace, View(Polling), Abandon);
      NoPoll(start, trace, [Abandon], Some(Pending));
      return TimedOut, false, trace + [Abandon];
    }

    /** executeOp (job.go:404): the Job is deleted only once its outcome is secured; otherwise it is left to be adopted. */
    method ExecuteOp(w: Weather) returns (outcome: Outcome, ghost trace: seq<Event>)
      requires Fair(w)
      modifies this
      ensures trace == Trace(old(View(NoCall)), w) && View(NoCall) == Run(old(View(NoCall)), trace)
      ensures outcome == Refused <==> !w.accepted
      ensures secured == old(secured) + (if outcome == Result then 1 else 0)
      ensures failures == old(failures) + (if outcome == Infrastructure then 1 else 0)
      ensures outcome == Vanished <==> Found(old(View(NoCall)), trace, None)
      ensures outcome == Infrastructure <==> Found(old(View(NoCall)), trace, Some(Failed))
      ensures outcome == Result <==> Found(old(View(NoCall)), trace, Some(Complete)) && w.readable
      ensures outcome == Unavailable <==> Found(old(View(NoCall)), trace, Some(Complete)) && !w.readable
      ensures outcome == Unavailable ==> job == Some(Complete)
      ensures outcome in {Result, Infrastructure} && w.cleaned ==> job.None?
    {
      hide Run, Awaited, Found;
      ghost var start := View(NoCall);
      Nothing(start);
      trace := [];
      NoPoll(start, [], [], Some(Pending));
      FoundOnce(start, trace, Some(Pending));
      if !w.accepted {
        return Refused, trace;
      }
      if job.None? {
        job := Some(Pending);
      }
      ReachedNext(start, [], start, Begin);
      NoPoll(start, [], [Begin], Some(Pending));
      trace := [] + [Begin];
      ghost var all := trace + Awaited(View(Polling), w);
      var failed;
      outcome, failed, trace := Await(w, start, trace, all);
      FoundOnce(start, trace, match outcome case Vanished => None case TimedOut => Some(Pending) case _ => job);
      if outcome != Result {
        return;
      }
      ghost var seen := job;
      NoPoll(start, trace, Consumed(View(Reading(failed)), w), seen);
      FoundOnce(start, trace + Consumed(View(Reading(failed)), w), seen);
      outcome, trace := Consume(failed, w, start, trace);
    }

    /** The log of the finished Job is fetched; the Job goes unless a success could not be read. */
    method Consume(failed: bool, w: Weather, ghost start: State, ghost before: seq<Event>) returns (outcome: Outcome, ghost trace: seq<Event>)
      requires Reached(start, before, View(Reading(failed))) && job == Some(if failed then Failed else Complete)
      modifies this
      ensures trace == before + Consumed(old(View(Reading(failed))), w) && Reached(start, trace, View(NoCall))
      ensures outcome == if failed then Infrastructure else if w.readable then Result else Unavailable
      ensures secured == old(secured) + (if outcome == Result then 1 else 0)
      ensures failures == old(failures) + (if outcome == Infrastructure then 1 else 0)
      ensures job == if outcome != Unavailable && w.cleaned then None else old(job)
    {
      hide Reached;
      ghost var reading := View(Reading(failed));
      ReachedNext(start, before, reading, Read(w.readable));
      trace := before + [Read(w.readable)];
      var cleanup := false;
      if failed {
        cleanup := true;
        failures := failures + 1;
        outcome := Infrastructure;
      } else if !w.readable {
        outcome := Unavailable;
      } else {
        cleanup := true;
        secured := secured + 1;
        outcome := Result;
      }
      if cleanup {
        ReachedNext(start, trace, View(Cleaning), Clean(w.cleaned));
        trace := trace + [Clean(w.cleaned)];
        if w.cleaned {
          job := None;
        }
      }
      assert trace == before + Consumed(reading, w);
    }
  }

  /** Some poll of the trace found the Job like this; None when it was gone. */
  ghost predicate Found(start: State, trace: seq<Event>, job: Option<Phase>) {
    exists i :: 0 <= i < |trace| && PollAt(start, trace, i) == Some(job)
  }

  /** What a poll at this place of the trace finds. */
  function PollAt(start: State, trace: seq<Event>, i: nat): Option<Option<Phase>>
    requires i < |trace|
  {
    if trace[i] == Poll then Some(Run(start, trace[..i]).job) else None
  }

  predicate AtWork(job: Option<Phase>) {
    job in {Some(Pending), Some(Active)}
  }

  /** Every poll found the Job at work, but for the last one, if it found it like this. */
  ghost predicate PollsFind(start: State, trace: seq<Event>, job: Option<Phase>) {
    && (forall i :: 0 <= i < |trace| && PollAt(start, trace, i).Some? ==> AtWork(PollAt(start, trace, i).value) || PollAt(start, trace, i).value == job)
    && (!AtWork(job) ==> Found(start, trace, job))
  }

  lemma NoPoll(start: State, trace: seq<Event>, more: seq<Event>, job: Option<Phase>)
    requires (trace == [] && job == Some(Pending)) || PollsFind(start, trace, job)
    requires Poll !in more
    ensures PollsFind(start, trace + more, job)
  {
    hide Run;
    forall i | 0 <= i < |trace + more| ensures i < |trace| ==> PollAt(start, trace + more, i) == PollAt(start, trace, i) {
      if i < |trace| { assert (trace + more)[..i] == trace[..i]; }
    }
    if !AtWork(job) {
      var i :| 0 <= i < |trace| && PollAt(start, trace, i) == Some(job);
      assert PollAt(start, trace + more, i) == Some(job);
    }
  }

  /** One more round of the poll loop. */
  lemma PollFinds(start: State, trace: seq<Event>, tick: seq<Event>, now: State)
    requires PollsFind(start, trace, Some(Pending)) && Reached(start, trace + tick, now)
    requires forall e :: e in tick ==> Surroundings(e)
    ensures PollsFind(start, trace + tick + [Poll], if AtWork(now.job) then Some(Pending) else now.job)
  {
    hide Run;
    var before, after := trace + tick, trace + tick + [Poll];
    NoPoll(start, trace, tick, Some(Pending));
    assert after[..|before|] == before;
    assert PollAt(start, after, |before|) == Some(now.job);
    forall i | 0 <= i < |before| ensures PollAt(start, after, i) == PollAt(start, before, i) {
      assert after[..i] == before[..i];
    }
  }

  /** Of what is not at work, polls find at most one. */
  lemma FoundOnce(start: State, trace: seq<Event>, job: Option<Phase>)
    requires PollsFind(start, trace, job)
    ensures forall other :: !AtWork(other) ==> (Found(start, trace, other) <==> other == job)
  {
    hide Run;
  }

  ghost predicate Fair(w: Weather) {
    forall i, e :: 0 <= i < |w.ticks| && e in w.ticks[i] ==> Surroundings(e)
  }

  /** The events lead from one state to the other. */
  ghost predicate Reached(start: State, trace: seq<Event>, now: State) {
    Run(start, trace) == now
  }

  lemma ReachedNext(start: State, trace: seq<Event>, now: State, e: Event)
    requires Reached(start, trace, now)
    ensures Reached(start, trace + [e], Next(now, e))
  {
    RunSnoc(start, trace, e);
  }

  lemma ReachedMore(start: State, trace: seq<Event>, now: State, more: seq<Event>)
    requires Reached(start, trace, now)
    ensures Reached(start, trace + more, Run(now, more))
  {
    RunAppend(start, trace, more);
  }

  /** One round of the poll loop takes its share of what is left to do. */
  lemma Rest(trace: seq<Event>, tick: seq<Event>, now: State, w: Weather)
    requires w.ticks != [] && tick == w.ticks[0]
    ensures var t := Next(Run(now, tick), Poll);
            trace + Awaited(now, w) == trace + tick + [Poll] +
            if t.call == Polling then Awaited(t, w.(ticks := w.ticks[1..])) else if t.call.Reading? then Consumed(t, w) else []
  {
    hide Run, Next, Consumed;
  }

  lemma Nothing(s: State)
    ensures Run(s, []) == s
  {
  }

  /** The pod and the garbage collector secure nothing. */
  lemma {:induction false} PassSecuresNothing(s: State, events: seq<Event>)
    requires forall e :: e in events ==> Surroundings(e)
    ensures Run(s, events).secured == s.secured && Run(s, events).failures == s.failures && Run(s, events).call == s.call
    decreases |events|
  {
    if events != [] {
      assert events[0] in events;
      PassSecuresNothing(Next(s, events[0]), events[1..]);
    }
  }

  // ---------------------------------------------------------------- at most once

  /** Every execution but that of the present Job is paid for. */
  ghost predicate Paid(s: State) {
    s.executions + (if s.job == Some(Pending) then 1 else 0)
    <= s.secured + s.failures + s.expired + if s.job.Some? && s.call != Cleaning then 1 else 0
  }

  lemma {:induction false} RunPaid(s: State, events: seq<Event>)
    requires Paid(s)
    ensures Paid(Run(s, events))
    decreases |events|
  {
    if events != [] { RunPaid(Next(s, events[0]), events[1..]); }
  }

  /**
   At most once: in every run of one Job name, whatever crashes, timeouts, unreadable logs
   and failed cleanups, executions never exceed one more than the results secured, the
   failed Jobs consumed and the Jobs expired, and not even that when no Job is there.
   */
  lemma AtMostOnce(events: seq<Event>)
    ensures var s := Run(IDLE, events);
            s.executions <= s.secured + s.failures + s.expired + if s.job.Some? then 1 else 0
  {
    RunPaid(IDLE, events);
  }

  // ---------------------------------------------------------------- outcomes

  function Count(events: seq<Event>, e: Event): nat
    decreases |events|
  {
    if events == [] then 0 else (if events[0] == e then 1 else 0) + Count(events[1..], e)
  }

  /** The read outcomes of a Job that is still there: its cleanup failed, or was abandoned. */
  function Kept(events: seq<Event>): nat {
    Count(events, Clean(false)) + Count(events, Abandon)
  }

  /** What is read next is what the Job ended with. */
  ghost predicate Consistent(s: State) {
    && (s.call == Reading(false) ==> s.job in {None, Some(Complete)})
    && (s.call == Reading(true) ==> s.job in {None, Some(Failed)})
  }

  /** The successes, and the failures, that were or still can be consumed. */
  function Successes(s: State): nat {
    s.secured + if s.job == Some(Complete) && s.call != Cleaning then 1 else 0
  }

  function Failures(s: State): nat {
    s.failures + if (s.job == Some(Failed) && s.call != Cleaning) || s.call == Reading(true) then 1 else 0
  }

  /** Executions under way, and those that succeeded. */
  function Busy(s: State): nat {
    Successes(s) + if s.job == Some(Active) then 1 else 0
  }

  lemma {:induction false} RunExecutes(s: State, events: seq<Event>)
    requires Consistent(s)
    ensures var t := Run(s, events); t.executions >= s.executions && Busy(t) <= Busy(s) + (t.executions - s.executions) + Kept(events)
    decreases |events|
  {
    if events != [] {
      RunExecutes(Next(s, events[0]), events[1..]);
    }
  }

  lemma {:induction false} RunSucceeds(s: State, events: seq<Event>)
    requires Consistent(s)
    ensures Successes(Run(s, events)) <= Successes(s) + Count(events, Finish(true)) + Kept(events)
    decreases |events|
  {
    if events != [] {
      RunSucceeds(Next(s, events[0]), events[1..]);
    }
  }

  lemma {:induction false} RunFails(s: State, events: seq<Event>)
    requires Consistent(s)
    ensures Failures(Run(s, events)) <= Failures(s) + Count(events, Finish(false)) + Kept(events)
    decreases |events|
  {
    if events != [] {
      RunFails(Next(s, events[0]), events[1..]);
    }
  }

  /**
   Outcomes are earned: in every run no more results are secured than Jobs completed, and no
   more failures reported than Jobs failed, but for those whose finished Job was not removed;
   and no result comes without an execution of its own.
   */
  lemma OutcomesEarned(events: seq<Event>)
    ensures var s := Run(IDLE, events);
            s.secured <= Count(events, Finish(true)) + Kept(events) && s.failures <= Count(events, Finish(false)) + Kept(events) &&
            s.secured <= s.executions + Kept(events)
  {
    RunSucceeds(IDLE, events);
    RunFails(IDLE, events);
    RunExecutes(IDLE, events);
  }

  /** A call that reads the log of a completed Job, and cannot remove the Job. */
  const ReadAndKeep := [Begin, Poll, Read(true), Clean(false)]

  lemma ReadOnce(s: State)
    requires s.job == Some(Complete) && s.call == NoCall
    ensures Run(s, ReadAndKeep) == s.(secured := s.secured + 1)
  {
    assert ReadAndKeep[1..] == [Poll, Read(true), Clean(false)] && ReadAndKeep[1..][1..] == [Read(true), Clean(false)];
    assert ReadAndKeep[1..][1..][1..] == [Clean(false)] && [Clean(false)][1..] == [];
  }

  /** That proviso is needed: one completed Job, whose cleanup fails, is a result of every later call. */
  lemma ReadTwice(s: State)
    requires s.job == Some(Complete) && s.call == NoCall
    ensures Run(s, ReadAndKeep + ReadAndKeep) == s.(secured := s.secured + 2)
  {
    hide Run;
    RunAppend(s, ReadAndKeep, ReadAndKeep);
    ReadOnce(s);
    ReadOnce(s.(secured := s.secured + 1));
  }

  /** A Job that completed, with its log still to be read. */
  ghost predicate Unread(s: State) {
    s.job == Some(Complete) && s.call != Cleaning && s.call != Reading(true)
  }

  /** Nothing reads the log or removes the Job. */
  ghost predicate Undisturbed(e: Event) {
    e != Read(true) && e != Expire
  }

  /** A completed Job whose log was not read is adopted, never run again: it stays until its log is read or it expires. */
  lemma {:induction false} UnreadIsAdopted(s: State, events: seq<Event>)
    requires Unread(s) && forall i :: 0 <= i < |events| ==> Undisturbed(events[i])
    ensures var t := Run(s, events); Unread(t) && t.executions == s.executions && t.secured == s.secured
    decreases |events|
  {
    if events != [] {
      assert Undisturbed(events[0]);
      UnreadIsAdopted(Next(s, events[0]), events[1..]);
    }
  }

  // ---------------------------------------------------------------- all names

  datatype Happening = Happening(name: Name, event: Event)

  /** The events of one name, in order. */
  function Of(name: Name, run: seq<Happening>): seq<Event>
    decreases |run|
  {
    if run == [] then []
    else (if run[0].name == name then [run[0].event] else []) + Of(name, run[1..])
  }

  function At(w: map<Name, State>, name: Name): State {
    if name in w then w[name] else IDLE
  }

  function RunAll(w: map<Name, State>, run: seq<Happening>): map<Name, State>
    decreases |run|
  {
    if run == [] then w else RunAll(w[run[0].name := Next(At(w, run[0].name), run[0].event)], run[1..])
  }

  lemma {:induction false} RunAllAt(w: map<Name, State>, run: seq<Happening>, name: Name)
    ensures At(RunAll(w, run), name) == Run(At(w, name), Of(name, run))
    decreases |run|
  {
    if run != [] {
      var next := w[run[0].name := Next(At(w, run[0].name), run[0].event)];
      RunAllAt(next, run[1..], name);
      if run[0].name == name {
        assert Of(name, run)[0] == run[0].event && Of(name, run)[1..] == Of(name, run[1..]);
      } else {
        assert Of(name, run) == Of(name, run[1..]);
      }
    }
  }

  /** The bound holds for each name of a cluster in which all of them run interleaved. */
  lemma AtMostOnceEach(run: seq<Happening>, name: Name)
    ensures var s := At(RunAll(map[], run), name);
            s.executions <= s.secured + s.failures + s.expired + if s.job.Some? then 1 else 0
  {
    RunAllAt(map[], run, name);
    AtMostOnce(Of(name, run));
  }
}
