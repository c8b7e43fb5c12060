/**
 The single-flight schema cache (schema.go:95-138): threads interleave at the mutex, at the
 fetch and at the channel of a flight, fetches fail or panic, waiters are cancelled.
 */
module SchemaCache {
  import opened Json

  type Key = string
  type Schema = string
  type Tid = nat

  /** What a fetch ends with; a recovered panic becomes an error. */
  datatype Answer = Good(schema: Schema) | Bad(error: string)

  /** One fetch that waiters share, and the caller that performs it. */
  datatype Flight = Flight(key: Key, leader: Tid, result: Option<Answer>, done: bool)

  /** How a call ends: with a cached schema, the result of a flight, or its own cancellation. */
  datatype Return = Cached(schema: Schema) | Shared(flight: nat, answer: Answer) | Cancelled

  datatype Thread =
    | Entering(key: Key)
    | Waiting(flight: nat)
    | Fetching(flight: nat)
    | Fetched(flight: nat)
    | Closing(flight: nat)
    | Returned(key: Key, value: Return)

  /** The maps the mutex guards, and the flights started so far. */
  datatype Tables = Tables(cache: map<Key, Schema>, pending: map<Key, nat>, flights: seq<Flight>)

  datatype State = State(tables: Tables, threads: map<Tid, Thread>)

  datatype Event =
    | Call(t: Tid, key: Key)
    | Enter(t: Tid)
    | Fetch(t: Tid, answer: Answer)
    | Cleanup(t: Tid)
    | Close(t: Tid)
    | Wake(t: Tid)
    | Cancel(t: Tid)

  // ---------------------------------------------------------------- critical sections

  /** The first section: a hit, a flight to wait for, or a flight to lead. */
  function EnterLocked(x: Tables, key: Key, t: Tid): (Tables, Thread) {
    if key in x.cache then (x, Returned(key, Cached(x.cache[key])))
    else if key in x.pending then (x, Waiting(x.pending[key]))
    else
      var f := |x.flights|;
      (x.(pending := x.pending[key := f], flights := x.flights + [Flight(key, t, None, false)]), Fetching(f))
  }

  /** The second section: a success is cached, and the key is no longer pending. */
  function CleanupLocked(x: Tables, f: nat): Tables
    requires f < |x.flights|
  {
    var fl := x.flights[f];
    x.(cache := if fl.result.Some? && fl.result.value.Good? then x.cache[fl.key := fl.result.value.schema] else x.cache,
       pending := x.pending - {fl.key})
  }

  class Cache {
    var cache: map<Key, Schema>
    var pending: map<Key, nat>
    var flights: seq<Flight>

    function View(): Tables
      reads this
    {
      Tables(cache, pending, flights)
    }

    /** From Lock to Unlock at the start of Get. */
    method LookUp(key: Key, t: Tid) returns (next: Thread)
      modifies this
      ensures (View(), next) == EnterLocked(old(View()), key, t)
    {
      if key in cache {
        return Returned(key, Cached(cache[key]));
      }
      if key in pending {
        return Waiting(pending[key]);
      }
      next := Fetching(|flights|);
      pending := pending[key := |flights|];
      flights := flights + [Flight(key, t, None, false)];
    }

    /** From Lock to Unlock in the deferred cleanup. */
    method Settle(f: nat)
      requires f < |flights|
      modifies this`cache, this`pending
      ensures View() == CleanupLocked(old(View()), f)
    {
      var fl := flights[f];
      if fl.result.Some? && fl.result.value.Good? {
        cache := cache[fl.key := fl.result.value.schema];
      }
      pending := pending - {fl.key};
    }
  }

  // ---------------------------------------------------------------- the machine

  function At(s: State, t: Tid): Option<Thread> {
    if t in s.threads then Some(s.threads[t]) else None
  }

  function Move(s: State, t: Tid, next: Thread): State {
    s.(threads := s.threads[t := next])
  }

  predicate Known(s: State, f: nat) {
    f < |s.tables.flights|
  }

  function Mark(s: State, f: nat, fl: Flight): State
    requires Known(s, f)
  {
    s.(tables := s.tables.(flights := s.tables.flights[f := fl]))
  }

  function Next(s: State, e: Event): State {
    match e
    case Call(t, key) => if t in s.threads then s else Move(s, t, Entering(key))
    case Enter(t) =>
      (match At(s, t)
       case Some(Entering(key)) =>
         var (tables, next) := EnterLocked(s.tables, key, t);
         Move(s.(tables := tables), t, next)
       case _ => s)
    case Fetch(t, answer) =>
      (match At(s, t)
       case Some(Fetching(f)) =>
         if Known(s, f) then Move(Mark(s, f, s.tables.flights[f].(result := Some(answer))), t, Fetched(f)) else s
       case _ => s)
    case Cleanup(t) =>
      (match At(s, t)
       case Some(Fetched(f)) => if Known(s, f) then Move(s.(tables := CleanupLocked(s.tables, f)), t, Closing(f)) else s
       case _ => s)
    case Close(t) =>
      (match At(s, t)
       case Some(Closing(f)) => if Known(s, f) then Leave(Mark(s, f, s.tables.flights[f].(done := true)), t, f) else s
       case _ => s)
    case Wake(t) =>
      (match At(s, t)
       case Some(Waiting(f)) => if Known(s, f) && s.tables.flights[f].done then Leave(s, t, f) else s
       case _ => s)
    case Cancel(t) =>
      (match At(s, t)
       case Some(Waiting(f)) => if Known(s, f) then Move(s, t, Returned(s.tables.flights[f].key, Cancelled)) else s
       case _ => s)
  }

  /** The result of the flight is returned. */
  function Leave(s: State, t: Tid, f: nat): State
    requires Known(s, f)
  {
    var fl := s.tables.flights[f];
    if fl.result.None? then s else Move(s, t, Returned(fl.key, Shared(f, fl.result.value)))
  }

  function Run(s: State, events: seq<Event>): State
    decreases |events|
  {
    if events == [] then s else Run(Next(s, events[0]), events[1..])
  }

  const EMPTY := State(Tables(map[], map[], []), map[])

  // ---------------------------------------------------------------- invariant

  /** The thread is at work on the flight: a leader until its cleanup, then closing the channel. */
  predicate Leads(th: Thread, f: nat) {
    th == Fetching(f) || th == Fetched(f)
  }

  predicate Works(th: Thread, f: nat) {
    Leads(th, f) || th == Closing(f)
  }

  /** A success of the flight is cached. */
  ghost predicate Shelved(x: Tables, fl: Flight) {
    fl.result.Some? && (fl.result.value.Good? ==> fl.key in x.cache && x.cache[fl.key] == fl.result.value.schema)
  }

  /** An unfinished flight has its leader at work, and is pending exactly until the cleanup. */
  ghost predicate FlightOk(s: State, f: nat)
    requires Known(s, f)
  {
    var fl := s.tables.flights[f];
    if fl.done then Shelved(s.tables, fl)
    else
      fl.leader in s.threads &&
      var th := s.threads[fl.leader];
      && Works(th, f)
      && (th == Fetching(f) <==> fl.result.None?)
      && (Leads(th, f) <==> fl.key in s.tables.pending && s.tables.pending[fl.key] == f)
      && (th == Closing(f) ==> Shelved(s.tables, fl))
  }

  ghost predicate PendingOk(s: State, k: Key)
    requires k in s.tables.pending
  {
    var f := s.tables.pending[k];
    Known(s, f) && s.tables.flights[f].key == k && !s.tables.flights[f].done && k !in s.tables.cache
  }

  /** What a call returned is the cached schema, or the result of a finished flight of its key. */
  ghost predicate Honest(s: State, key: Key, r: Return) {
    match r
    case Cached(schema) => key in s.tables.cache && s.tables.cache[key] == schema
    case Shared(f, answer) =>
      Known(s, f) && var fl := s.tables.flights[f]; fl.key == key && fl.done && fl.result == Some(answer)
    case Cancelled => true
  }

  ghost predicate ThreadOk(s: State, t: Tid)
    requires t in s.threads
  {
    match s.threads[t]
    case Entering(_) => true
    case Waiting(f) => Known(s, f)
    case Fetching(f) => Known(s, f) && s.tables.flights[f].leader == t && !s.tables.flights[f].done
    case Fetched(f) => Known(s, f) && s.tables.flights[f].leader == t && !s.tables.flights[f].done
    case Closing(f) => Known(s, f) && s.tables.flights[f].leader == t && !s.tables.flights[f].done
    case Returned(key, value) => Honest(s, key, value)
  }

  ghost predicate Inv(s: State) {
    && (forall f: nat :: Known(s, f) ==> FlightOk(s, f))
    && (forall k :: k in s.tables.pending ==> PendingOk(s, k))
    && (forall t :: t in s.threads ==> ThreadOk(s, t))
  }

  predicate Passive(th: Thread) {
    th.Entering? || th.Waiting? || th.Returned?
  }

  /** A thread that works on no flight may move to any such place that is in order. */
  lemma MoveKeeps(s: State, t: Tid, next: Thread)
    requires Inv(s) && (t in s.threads ==> Passive(s.threads[t])) && Passive(next)
    requires next.Waiting? ==> Known(s, next.flight)
    requires next.Returned? ==> Honest(s, next.key, next.value)
    ensures Inv(Move(s, t, next))
  {
    hide Honest, Shelved;
    var n := Move(s, t, next);
    forall f: nat | Known(n, f) ensures FlightOk(n, f) {
      assert FlightOk(s, f);
    }
    forall k | k in n.tables.pending ensures PendingOk(n, k) {
      assert PendingOk(s, k);
    }
    forall u | u in n.threads ensures ThreadOk(n, u) {
      if u != t { assert ThreadOk(s, u); }
      HonestFrame(s, n);
    }
  }

  /** What was returned stays true while flights and cache only grow. */
  lemma HonestFrame(s: State, n: State)
    requires forall k :: k in s.tables.cache ==> k in n.tables.cache && n.tables.cache[k] == s.tables.cache[k]
    requires forall f: nat :: Known(s, f) ==> Known(n, f) && (s.tables.flights[f].done ==> n.tables.flights[f] == s.tables.flights[f])
    ensures forall key, r :: Honest(s, key, r) ==> Honest(n, key, r)
  {
  }

  /** A new flight: its caller leads, and the key becomes pending. */
  lemma LeadKeeps(s: State, t: Tid, key: Key)
    requires Inv(s) && At(s, t) == Some(Entering(key)) && key !in s.tables.cache && key !in s.tables.pending
    ensures Inv(Next(s, Enter(t)))
  {
    hide Honest, Shelved;
    var n := Next(s, Enter(t));
    var at := |s.tables.flights|;
    assert n.tables.pending == s.tables.pending[key := at] && n.threads == s.threads[t := Fetching(at)];
    assert n.tables.flights == s.tables.flights + [Flight(key, t, None, false)] && n.tables.cache == s.tables.cache;
    forall f: nat | Known(n, f) ensures FlightOk(n, f) {
      if f < at {
        assert FlightOk(s, f);
        ShelvedFrame(s.tables, n.tables, s.tables.flights[f]);
      }
    }
    forall k | k in n.tables.pending ensures PendingOk(n, k) {
      if k != key { assert PendingOk(s, k); }
    }
    HonestFrame(s, n);
    forall u | u in n.threads ensures ThreadOk(n, u) {
      if u != t { assert ThreadOk(s, u); }
    }
  }

  lemma ShelvedFrame(x: Tables, y: Tables, fl: Flight)
    requires fl.key in x.cache ==> fl.key in y.cache && y.cache[fl.key] == x.cache[fl.key]
    ensures Shelved(x, fl) ==> Shelved(y, fl)
  {
  }

  /** One flight changes and its leader moves on. */
  lemma FetchKeeps(s: State, t: Tid, answer: Answer)
    requires Inv(s)
    ensures Inv(Next(s, Fetch(t, answer)))
  {
    hide Honest, Shelved;
    var n := Next(s, Fetch(t, answer));
    if n != s {
      assert ThreadOk(s, t);
      HonestFrame(s, n);
      forall f: nat | Known(n, f) ensures FlightOk(n, f) {
        assert FlightOk(s, f);
        ShelvedFrame(s.tables, n.tables, s.tables.flights[f]);
      }
      forall k | k in n.tables.pending ensures PendingOk(n, k) {
        assert PendingOk(s, k);
      }
      forall u | u in n.threads ensures ThreadOk(n, u) {
        assert ThreadOk(s, u);
      }
    }
  }

  /** The leader's key was pending for its flight alone, so the cache entry it writes is the first. */
  lemma CleanupKeeps(s: State, t: Tid)
    requires Inv(s)
    ensures Inv(Next(s, Cleanup(t)))
    ensures forall k :: k in s.tables.cache ==> k in Next(s, Cleanup(t)).tables.cache && Next(s, Cleanup(t)).tables.cache[k] == s.tables.cache[k]
  {
    hide Honest;
    var n := Next(s, Cleanup(t));
    if n != s {
      assert ThreadOk(s, t);
      var f0 := s.threads[t].flight;
      assert FlightOk(s, f0);
      var key := s.tables.flights[f0].key;
      assert PendingOk(s, key);
      hide Shelved;
      HonestFrame(s, n);
      forall f: nat | Known(n, f) ensures FlightOk(n, f) {
        assert FlightOk(s, f);
        ShelvedFrame(s.tables, n.tables, s.tables.flights[f]);
        if f == f0 { ShelvedNow(s.tables, f0); }
      }
      forall k | k in n.tables.pending ensures PendingOk(n, k) {
        assert PendingOk(s, k);
      }
      forall u | u in n.threads ensures ThreadOk(n, u) {
        assert ThreadOk(s, u);
      }
    }
  }

  lemma ShelvedNow(x: Tables, f: nat)
    requires f < |x.flights| && x.flights[f].result.Some?
    ensures Shelved(CleanupLocked(x, f), x.flights[f])
  {
  }

  lemma CloseKeeps(s: State, t: Tid)
    requires Inv(s)
    ensures Inv(Next(s, Close(t)))
  {
    hide Honest;
    var n := Next(s, Close(t));
    if n != s {
      assert ThreadOk(s, t);
      var f0 := s.threads[t].flight;
      assert FlightOk(s, f0);
      HonestFrame(s, n);
      ReturnHonest(n, f0);
      hide Shelved;
      forall f: nat | Known(n, f) ensures FlightOk(n, f) {
        assert FlightOk(s, f);
        ShelvedFrame(s.tables, n.tables, s.tables.flights[f]);
        ShelvedFrame(s.tables, n.tables, n.tables.flights[f]);
      }
      forall k | k in n.tables.pending ensures PendingOk(n, k) {
        assert PendingOk(s, k);
      }
      forall u | u in n.threads ensures ThreadOk(n, u) {
        assert ThreadOk(s, u);
      }
    }
  }

  lemma ReturnHonest(s: State, f: nat)
    requires Known(s, f) && s.tables.flights[f].done && s.tables.flights[f].result.Some?
    ensures Honest(s, s.tables.flights[f].key, Shared(f, s.tables.flights[f].result.value))
  {
  }

  lemma EnterKeeps(s: State, t: Tid)
    requires Inv(s)
    ensures Inv(Next(s, Enter(t)))
  {
    if At(s, t).Some? && s.threads[t].Entering? {
      var key := s.threads[t].key;
      if key in s.tables.cache {
        MoveKeeps(s, t, Returned(key, Cached(s.tables.cache[key])));
      } else if key in s.tables.pending {
        assert PendingOk(s, key);
        MoveKeeps(s, t, Waiting(s.tables.pending[key]));
      } else {
        LeadKeeps(s, t, key);
      }
    }
  }

  lemma OthersKeep(s: State, e: Event)
    requires Inv(s) && (e.Call? || e.Wake? || e.Cancel?)
    ensures Inv(Next(s, e))
  {
    hide FlightOk, PendingOk;
    match e {
      case Call(t, key) =>
        if t !in s.threads { MoveKeeps(s, t, Entering(key)); }
      case Wake(t) =>
        if At(s, t).Some? && s.threads[t].Waiting? && Next(s, e) != s {
          var f := s.threads[t].flight;
          ReturnHonest(s, f);
          MoveKeeps(s, t, Returned(s.tables.flights[f].key, Shared(f, s.tables.flights[f].result.value)));
        }
      case Cancel(t) =>
        if At(s, t).Some? && s.threads[t].Waiting? && Next(s, e) != s {
          MoveKeeps(s, t, Returned(s.tables.flights[s.threads[t].flight].key, Cancelled));
        }
    }
  }

  lemma Keeps(s: State, e: Event)
    requires Inv(s)
    ensures Inv(Next(s, e))
  {
    hide Next, Inv;
    match e {
      case Enter(t) => EnterKeeps(s, t);
      case Fetch(t, answer) => FetchKeeps(s, t, answer);
      case Cleanup(t) => CleanupKeeps(s, t);
      case Close(t) => CloseKeeps(s, t);
      case _ => OthersKeep(s, e);
    }
  }

  // ---------------------------------------------------------------- over runs

  lemma {:induction false} RunKeeps(s: State, events: seq<Event>)
    requires Inv(s)
    ensures Inv(Run(s, events))
    decreases |events|
  {
    hide Next, Inv;
    if events != [] {
      Keeps(s, events[0]);
      RunKeeps(Next(s, events[0]), events[1..]);
    }
  }

  lemma EmptyInv()
    ensures Inv(EMPTY)
  {
  }

  ghost predicate Leader(s: State, t: Tid, k: Key) {
    t in s.threads && (s.threads[t].Fetching? || s.threads[t].Fetched?) &&
    Known(s, s.threads[t].flight) && s.tables.flights[s.threads[t].flight].key == k
  }

  /** Single flight: a key is pending exactly while it has a leader, never has two, and is then not cached. */
  lemma SingleFlight(events: seq<Event>, k: Key)
    ensures var s := Run(EMPTY, events);
            (k in s.tables.pending <==> exists t :: Leader(s, t, k)) &&
            (forall t, u :: Leader(s, t, k) && Leader(s, u, k) ==> t == u) &&
            (k in s.tables.pending ==> k !in s.tables.cache)
  {
    var s := Run(EMPTY, events);
    EmptyInv();
    RunKeeps(EMPTY, events);
    hide Run, Honest, Shelved;
    forall t | Leader(s, t, k) ensures k in s.tables.pending && s.tables.pending[k] == s.threads[t].flight && s.tables.flights[s.tables.pending[k]].leader == t {
      assert ThreadOk(s, t);
      assert FlightOk(s, s.threads[t].flight);
    }
    if k in s.tables.pending {
      assert PendingOk(s, k);
      var f := s.tables.pending[k];
      assert FlightOk(s, f);
      assert Leader(s, s.tables.flights[f].leader, k);
    }
  }

  /** No waiter is stranded: its flight is finished, or its leader is still on the way to finish it. */
  lemma NoStrandedWaiter(events: seq<Event>, t: Tid)
    requires var s := Run(EMPTY, events); t in s.threads && s.threads[t].Waiting?
    ensures var s := Run(EMPTY, events);
            var f := s.threads[t].flight;
            Known(s, f) && (s.tables.flights[f].done || (s.tables.flights[f].leader in s.threads && Works(s.threads[s.tables.flights[f].leader], f)))
  {
    var s := Run(EMPTY, events);
    EmptyInv();
    RunKeeps(EMPTY, events);
    hide Run, Honest, Shelved;
    assert ThreadOk(s, t);
    assert FlightOk(s, s.threads[t].flight);
  }

  /** Whoever gets a schema for a key gets the one that is cached, so all get the same; everything else is its flight's error or a cancellation. */
  lemma ReturnsAgree(events: seq<Event>, t: Tid)
    requires var s := Run(EMPTY, events); t in s.threads && s.threads[t].Returned?
    ensures var s := Run(EMPTY, events);
            var r := s.threads[t].value;
            var k := s.threads[t].key;
            Honest(s, k, r) && (Schema?(r) ==> k in s.tables.cache && s.tables.cache[k] == SchemaOf(r))
  {
    var s := Run(EMPTY, events);
    EmptyInv();
    RunKeeps(EMPTY, events);
    hide Run;
    assert ThreadOk(s, t);
    if s.threads[t].value.Shared? { assert FlightOk(s, s.threads[t].value.flight); }
  }

  predicate Schema?(r: Return) {
    r.Cached? || (r.Shared? && r.answer.Good?)
  }

  function SchemaOf(r: Return): Schema
    requires Schema?(r)
  {
    if r.Cached? then r.schema else r.answer.schema
  }

  /** The cache entry of a key is written at most once. */
  lemma {:induction false} WrittenOnce(s: State, events: seq<Event>, k: Key)
    requires Inv(s) && k in s.tables.cache
    ensures var n := Run(s, events); k in n.tables.cache && n.tables.cache[k] == s.tables.cache[k]
    decreases |events|
  {
    hide Inv;
    if events != [] {
      Keeps(s, events[0]);
      if events[0].Cleanup? { CleanupKeeps(s, events[0].t); }
      WrittenOnce(Next(s, events[0]), events[1..], k);
    }
  }

  // ---------------------------------------------------------------- whose answer

  /** The key a thread asked for. */
  ghost predicate Asks(s: State, t: Tid, key: Key) {
    t in s.threads &&
    match s.threads[t]
    case Entering(k) => k == key
    case Waiting(f) => Known(s, f) && s.tables.flights[f].key == key
    case Fetching(f) => Known(s, f) && s.tables.flights[f].key == key
    case Fetched(f) => Known(s, f) && s.tables.flights[f].key == key
    case Closing(f) => Known(s, f) && s.tables.flights[f].key == key
    case Returned(k, _) => k == key
  }

  lemma AskingKept(s: State, e: Event, t: Tid, key: Key)
    requires Inv(s) && Asks(s, t, key)
    ensures Asks(Next(s, e), t, key)
  {
    hide Honest, Shelved, FlightOk;
    if s.threads[t].Entering? && key in s.tables.pending { assert PendingOk(s, key); }
  }

  lemma NotAsking(s: State, e: Event, t: Tid)
    requires t !in s.threads && t in Next(s, e).threads
    ensures e.Call? && e.t == t && Asks(Next(s, e), t, e.key)
  {
  }

  lemma {:induction false} RunAsks(s: State, events: seq<Event>, t: Tid, key: Key)
    requires Inv(s) && Asks(Run(s, events), t, key)
    ensures Asks(s, t, key) || (t !in s.threads && Call(t, key) in events)
    decreases |events|
  {
    hide Next, Inv, Asks;
    if events != [] {
      var e, n := events[0], Next(s, events[0]);
      Keeps(s, e);
      RunAsks(n, events[1..], t, key);
      if t in s.threads {
        SomeKey(s, t);
        var k :| Asks(s, t, k);
        AskingKept(s, e, t, k);
        InThreads(n, t, k);
        OneKey(n, t, key, k);
      } else if Asks(n, t, key) {
        InThreads(n, t, key);
        NotAsking(s, e, t);
        OneKey(n, t, key, e.key);
      }
    }
  }

  lemma InThreads(s: State, t: Tid, key: Key)
    requires Asks(s, t, key)
    ensures t in s.threads
  {
  }

  lemma OneKey(s: State, t: Tid, k: Key, l: Key)
    requires t in s.threads && Asks(s, t, l)
    ensures Asks(s, t, k) ==> k == l
  {
  }

  lemma SomeKey(s: State, t: Tid)
    requires Inv(s) && t in s.threads
    ensures exists k :: Asks(s, t, k)
  {
    hide Honest, Shelved, FlightOk;
    assert ThreadOk(s, t);
    var th := s.threads[t];
    match th {
      case Entering(k) => assert Asks(s, t, k);
      case Returned(k, _) => assert Asks(s, t, k);
      case _ => assert Asks(s, t, s.tables.flights[th.flight].key);
    }
  }

  /** Every call is answered for its own key: whoever returns with a key called for that key. */
  lemma OwnKeyReturned(events: seq<Event>, t: Tid)
    requires var s := Run(EMPTY, events); t in s.threads && s.threads[t].Returned?
    ensures Call(t, Run(EMPTY, events).threads[t].key) in events
  {
    EmptyInv();
    RunAsks(EMPTY, events, t, Run(EMPTY, events).threads[t].key);
  }

  /** A thread has returned with a cancellation. */
  predicate GivenUp(s: State, t: Tid) {
    t in s.threads && s.threads[t].Returned? && s.threads[t].value.Cancelled?
  }

  lemma OnlyCancelCancels(s: State, e: Event, t: Tid)
    requires GivenUp(Next(s, e), t)
    ensures GivenUp(s, t) || (e == Cancel(t) && t in s.threads && s.threads[t].Waiting?)
  {
  }

  lemma {:induction false} RunCancels(s: State, events: seq<Event>, t: Tid)
    requires GivenUp(Run(s, events), t)
    ensures GivenUp(s, t) || Cancel(t) in events
    decreases |events|
  {
    hide Next;
    if events != [] {
      RunCancels(Next(s, events[0]), events[1..], t);
      if GivenUp(Next(s, events[0]), t) { OnlyCancelCancels(s, events[0], t); }
    }
  }

  /** Nobody is turned away: a call ends in a cancellation only if it was cancelled itself. */
  lemma CancelledByCancel(events: seq<Event>, t: Tid)
    requires GivenUp(Run(EMPTY, events), t)
    ensures Cancel(t) in events
  {
    RunCancels(EMPTY, events, t);
  }

  /** The steps a call makes by itself. */
  function Steps(t: Tid): set<Event> {
    {Enter(t), Fetch(t, Bad("")), Cleanup(t), Close(t), Wake(t)}
  }

  ghost predicate MovesOn(s: State, t: Tid, e: Event) {
    t in s.threads && t in Next(s, e).threads && Next(s, e).threads[t] != s.threads[t]
  }

  /** A call that has not returned can go on by itself if and only if it does not wait for a flight that is not finished. */
  lemma OnlyWaitersWait(events: seq<Event>, t: Tid)
    requires var s := Run(EMPTY, events); t in s.threads && !s.threads[t].Returned?
    ensures var s := Run(EMPTY, events);
            (exists e :: e in Steps(t) && MovesOn(s, t, e)) <==>
            !(s.threads[t].Waiting? && Known(s, s.threads[t].flight) && !s.tables.flights[s.threads[t].flight].done)
  {
    var s := Run(EMPTY, events);
    EmptyInv();
    RunKeeps(EMPTY, events);
    hide Run, Honest, Shelved;
    assert ThreadOk(s, t);
    var th := s.threads[t];
    if !th.Entering? { assert FlightOk(s, th.flight); }
    match th {
      case Entering(_) => assert MovesOn(s, t, Enter(t));
      case Fetching(_) => assert MovesOn(s, t, Fetch(t, Bad("")));
      case Fetched(_) => assert MovesOn(s, t, Cleanup(t));
      case Closing(_) => assert MovesOn(s, t, Close(t));
      case Waiting(f) => if s.tables.flights[f].done { assert MovesOn(s, t, Wake(t)); }
    }
  }

  // ---------------------------------------------------------------- how many fetches

  /** The fetch failed, and the key was released. */
  predicate Failed(x: Tables, f: nat)
    requires f < |x.flights|
  {
    var fl := x.flights[f];
    fl.result.Some? && fl.result.value.Bad? && !(fl.key in x.pending && x.pending[fl.key] == f)
  }

  /** Of the fetches of a key, all but one have failed. */
  ghost predicate OneLive(x: Tables) {
    forall f: nat, g: nat :: f < |x.flights| && g < |x.flights| && x.flights[f].key == x.flights[g].key && !Failed(x, f) && !Failed(x, g) ==> f == g
  }

  /** A fetch that did not fail is pending or cached. */
  lemma LiveIsKnown(s: State, f: nat)
    requires Inv(s) && Known(s, f) && !Failed(s.tables, f)
    ensures s.tables.flights[f].key in s.tables.pending || s.tables.flights[f].key in s.tables.cache
  {
    assert FlightOk(s, f);
  }

  lemma OneLiveKept(s: State, e: Event)
    requires Inv(s) && OneLive(s.tables)
    ensures OneLive(Next(s, e).tables)
  {
    var x, y := s.tables, Next(s, e).tables;
    StepKeepsFailures(s, e);
    forall f: nat, g: nat |
        f < |y.flights| && g < |y.flights| && y.flights[f].key == y.flights[g].key && !Failed(y, f) && !Failed(y, g)
      ensures f == g
    {
      if f < |x.flights| && g < |x.flights| {
        assert !Failed(x, f) && !Failed(x, g);
      } else if f < |x.flights| {
        LiveIsKnown(s, f);
      } else if g < |x.flights| {
        LiveIsKnown(s, g);
      }
    }
  }

  /** No step revives a failed fetch, and a new one starts only for a key neither pending nor cached. */
  lemma StepKeepsFailures(s: State, e: Event)
    requires Inv(s)
    ensures var x, y := s.tables, Next(s, e).tables;
            |x.flights| <= |y.flights| <= |x.flights| + 1 &&
            (forall f: nat :: f < |x.flights| ==> x.flights[f].key == y.flights[f].key && (Failed(x, f) ==> Failed(y, f))) &&
            (|y.flights| > |x.flights| ==> y.flights[|x.flights|].key !in x.pending && y.flights[|x.flights|].key !in x.cache)
  {
    var x, y := s.tables, Next(s, e).tables;
    forall f: nat | f < |x.flights| && Failed(x, f) ensures f < |y.flights| && Failed(y, f) {
      assert FlightOk(s, f);
    }
  }

  lemma {:induction false} RunOneLive(s: State, events: seq<Event>)
    requires Inv(s) && OneLive(s.tables)
    ensures OneLive(Run(s, events).tables)
    decreases |events|
  {
    hide Inv, OneLive, Next;
    if events != [] {
      Keeps(s, events[0]);
      OneLiveKept(s, events[0]);
      RunOneLive(Next(s, events[0]), events[1..]);
    }
  }

  ghost function FetchesOf(x: Tables, k: Key): set<nat> {
    set f: nat | f < |x.flights| && x.flights[f].key == k
  }

  ghost function FailuresOf(x: Tables, k: Key): set<nat> {
    set f: nat | f < |x.flights| && x.flights[f].key == k && Failed(x, f)
  }

  /** Fetches per key: at most one more than those that failed, and that one is pending or cached. */
  lemma FetchesBounded(events: seq<Event>, k: Key)
    ensures var x := Run(EMPTY, events).tables;
            |FetchesOf(x, k)| <= |FailuresOf(x, k)| + (if k in x.pending || k in x.cache then 1 else 0)
  {
    hide Next;
    var s := Run(EMPTY, events);
    EmptyInv();
    RunKeeps(EMPTY, events);
    RunOneLive(EMPTY, events);
    hide Inv;
    var live := FetchesOf(s.tables, k) - FailuresOf(s.tables, k);
    assert FetchesOf(s.tables, k) == FailuresOf(s.tables, k) + live;
    if live != {} {
      var f :| f in live;
      assert live == {f};
      LiveIsKnown(s, f);
    }
  }
}
