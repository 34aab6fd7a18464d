/** Concurrent `get_or_load`: the single-flight protocol as a state machine over its atomic steps. What the cache
    holds is left open: a lookup may hit or miss at any time, so the results hold whatever gets evicted. */
module SingleFlights {
  import opened Wrappers

  type Key = int

  datatype Outcome = Value(value: int) | Raised(error: int)

  /** Where one call stands. `flight` is the flight a call leads; a forced call leads none. */
  datatype Call =
    | Joining(key: Key)
    | Waiting(key: Key, joined: nat)
    | Rechecking(key: Key, flight: nat)
    | Loading(key: Key, leads: Option<nat>)
    | Finishing(key: Key, leads: Option<nat>, outcome: Outcome)
    | Signalling(key: Key, popped: nat, outcome: Outcome)
    | Returned(key: Key, followed: Option<nat>, outcome: Outcome)

  /** `closer` is the call that took the flight off the table; `result` is set when the event is. */
  datatype Flight = Flight(key: Key, leader: nat, closer: Option<nat>, result: Option<Outcome>)

  datatype State = State(calls: seq<Call>, table: map<Key, nat>, flights: seq<Flight>)

  datatype Event =
    | Start(key: Key, force: bool, cached: Option<int>)
    | Join(call: nat)
    | Recheck(call: nat, cached: Option<int>)
    | Loaded(call: nat, outcome: Outcome)
    | Pop(call: nat)
    | Signal(call: nat)
    | Wake(call: nat)

  const INITIAL := State([], map[], [])

  function Moved(s: State, c: nat, to: Call): State
    requires c < |s.calls|
  {
    s.(calls := s.calls[c := to])
  }

  /** A forced call goes straight to its loader; any other looks into the cache first. */
  function StartStep(s: State, key: Key, force: bool, cached: Option<int>): State {
    s.(calls := s.calls + [if force then Loading(key, None)
                           else if cached.Some? then Returned(key, None, Value(cached.value))
                           else Joining(key)])
  }

  /** Under the lock: join the flight in the table, or open one and lead it. */
  function JoinStep(s: State, c: nat): State
    requires c < |s.calls| && s.calls[c].Joining?
  {
    var key := s.calls[c].key;
    if key in s.table then Moved(s, c, Waiting(key, s.table[key]))
    else
      var f := |s.flights|;
      Moved(s, c, Rechecking(key, f)).(table := s.table[key := f], flights := s.flights + [Flight(key, c, None, None)])
  }

  /** Under the lock: take whatever flight stands in the table under the key, not necessarily one's own. */
  function PopStep(s: State, c: nat): State
    requires c < |s.calls| && s.calls[c].Finishing?
  {
    var Finishing(key, leads, outcome) := s.calls[c];
    if key !in s.table then Moved(s, c, Returned(key, None, outcome))
    else if s.table[key] >= |s.flights| then s
    else
      var f := s.table[key];
      Moved(s, c, Signalling(key, f, outcome))
        .(table := s.table - {key}, flights := s.flights[f := s.flights[f].(closer := Some(c))])
  }

  function SignalStep(s: State, c: nat): State
    requires c < |s.calls| && s.calls[c].Signalling?
  {
    var Signalling(key, f, outcome) := s.calls[c];
    if f >= |s.flights| then s
    else Moved(s, c, Returned(key, None, outcome)).(flights := s.flights[f := s.flights[f].(result := Some(outcome))])
  }

  predicate Landed(s: State, f: nat) {
    f < |s.flights| && s.flights[f].result.Some?
  }

  function Step(s: State, e: Event): State {
    match e
    case Start(key, force, cached) => StartStep(s, key, force, cached)
    case Join(c) => if c < |s.calls| && s.calls[c].Joining? then JoinStep(s, c) else s
    case Recheck(c, cached) =>
      if c < |s.calls| && s.calls[c].Rechecking? then
        var Rechecking(key, f) := s.calls[c];
        Moved(s, c, if cached.Some? then Finishing(key, Some(f), Value(cached.value)) else Loading(key, Some(f)))
      else s
    case Loaded(c, outcome) =>
      if c < |s.calls| && s.calls[c].Loading? then
        Moved(s, c, Finishing(s.calls[c].key, s.calls[c].leads, outcome))
      else s
    case Pop(c) => if c < |s.calls| && s.calls[c].Finishing? then PopStep(s, c) else s
    case Signal(c) => if c < |s.calls| && s.calls[c].Signalling? then SignalStep(s, c) else s
    case Wake(c) =>
      if c < |s.calls| && s.calls[c].Waiting? && Landed(s, s.calls[c].joined) then
        var f := s.calls[c].joined;
        Moved(s, c, Returned(s.calls[c].key, Some(f), s.flights[f].result.value))
      else s
  }

  function Run(events: seq<Event>): State {
    if events == [] then INITIAL else Step(Run(events[..|events| - 1]), events[|events| - 1])
  }

  // ---------------------------------------------------------------- what every interleaving keeps

  /** The call still leads flight `f`: it has not taken a flight off the table yet. */
  predicate Leads(call: Call, key: Key, f: nat) {
    call.key == key &&
    (call == Rechecking(key, f) || call == Loading(key, Some(f)) || (call.Finishing? && call.leads == Some(f)))
  }

  ghost predicate TableSound(s: State) {
    forall k {:trigger s.table[k]} {:trigger k in s.table} :: k in s.table ==>
      s.table[k] < |s.flights| && s.flights[s.table[k]].key == k && s.flights[s.table[k]].closer.None?
  }

  /** An open flight is in the table and its leader is at work; a closed one is being signalled or has the outcome
      its closer returned. */
  ghost predicate FlightSound(s: State, f: nat)
    requires f < |s.flights|
  {
    var flight := s.flights[f];
    && flight.leader < |s.calls|
    && match flight.closer
       case None =>
         && flight.result.None? && flight.key in s.table && s.table[flight.key] == f
         && Leads(s.calls[flight.leader], flight.key, f)
       case Some(d) =>
         && d < |s.calls|
         && match flight.result
            case None => s.calls[d].Signalling? && s.calls[d].popped == f && s.calls[d].key == flight.key
            case Some(o) => s.calls[d] == Returned(flight.key, None, o)
  }

  ghost predicate CallSound(s: State, c: nat)
    requires c < |s.calls|
  {
    var call := s.calls[c];
    match call
    case Waiting(key, f) => f < |s.flights| && s.flights[f].key == key
    case Rechecking(key, f) => f < |s.flights| && s.flights[f].leader == c && s.flights[f].key == key
    case Loading(key, Some(f)) => f < |s.flights| && s.flights[f].leader == c && s.flights[f].key == key
    case Finishing(key, Some(f), _) => f < |s.flights| && s.flights[f].leader == c && s.flights[f].key == key
    case Signalling(key, f, _) =>
      f < |s.flights| && s.flights[f].closer == Some(c) && s.flights[f].result.None? && s.flights[f].key == key
    case Returned(key, Some(f), o) => f < |s.flights| && s.flights[f].key == key && s.flights[f].result == Some(o)
    case _ => true
  }

  ghost predicate Sound(s: State) {
    && TableSound(s)
    && (forall f {:trigger s.flights[f]} :: 0 <= f < |s.flights| ==> FlightSound(s, f))
    && (forall c {:trigger s.calls[c]} :: 0 <= c < |s.calls| ==> CallSound(s, c))
  }

  /** Appending a call that leads, joined and closes nothing disturbs nothing. */
  lemma StartKeepsSound(s: State, key: Key, force: bool, cached: Option<int>)
    requires Sound(s)
    ensures Sound(StartStep(s, key, force, cached))
  {
    var s' := StartStep(s, key, force, cached);
    forall f | 0 <= f < |s'.flights| ensures FlightSound(s', f) {
      assert FlightSound(s, f);
    }
    forall c | 0 <= c < |s'.calls| ensures CallSound(s', c) {
      assert c < |s.calls| ==> CallSound(s, c);
    }
  }

  /** A move that keeps what the call leads and does not involve closing a flight. */
  lemma MoveKeepsSound(s: State, c: nat, to: Call)
    requires Sound(s) && c < |s.calls| && to.key == s.calls[c].key
    requires !s.calls[c].Signalling? && !s.calls[c].Returned?
    requires forall f :: Leads(s.calls[c], to.key, f) ==> Leads(to, to.key, f)
    requires CallSound(Moved(s, c, to), c)
    ensures Sound(Moved(s, c, to))
  {
    var s' := Moved(s, c, to);
    forall f | 0 <= f < |s'.flights| ensures FlightSound(s', f) {
      assert FlightSound(s, f);
    }
    forall d | 0 <= d < |s'.calls| ensures CallSound(s', d) {
      assert CallSound(s, d);
    }
  }

  lemma OpenKeepsSound(s: State, c: nat)
    requires Sound(s) && c < |s.calls| && s.calls[c].Joining? && s.calls[c].key !in s.table
    ensures Sound(JoinStep(s, c))
  {
    var s' := JoinStep(s, c);
    forall f | 0 <= f < |s'.flights| ensures FlightSound(s', f) {
      assert f < |s.flights| ==> FlightSound(s, f);
    }
    forall d | 0 <= d < |s'.calls| ensures CallSound(s', d) {
      assert CallSound(s, d);
    }
  }

  lemma PopKeepsSound(s: State, c: nat)
    requires Sound(s) && c < |s.calls| && s.calls[c].Finishing? && s.calls[c].key in s.table
    ensures Sound(PopStep(s, c))
  {
    var s' := PopStep(s, c);
    var key := s.calls[c].key;
    assert FlightSound(s, s.table[key]);
    forall f | 0 <= f < |s'.flights| ensures FlightSound(s', f) {
      assert FlightSound(s, f);
    }
    forall d | 0 <= d < |s'.calls| ensures CallSound(s', d) {
      assert CallSound(s, d);
    }
  }

  lemma SignalKeepsSound(s: State, c: nat)
    requires Sound(s) && c < |s.calls| && s.calls[c].Signalling?
    ensures Sound(SignalStep(s, c))
  {
    var s' := SignalStep(s, c);
    assert CallSound(s, c);
    forall f | 0 <= f < |s'.flights| ensures FlightSound(s', f) {
      assert FlightSound(s, f);
    }
    forall d | 0 <= d < |s'.calls| ensures CallSound(s', d) {
      assert CallSound(s, d);
    }
  }

  lemma StepKeepsSound(s: State, e: Event)
    requires Sound(s)
    ensures Sound(Step(s, e))
  {
    match e
    case Start(key, force, cached) => StartKeepsSound(s, key, force, cached);
    case Join(c) =>
      if c < |s.calls| && s.calls[c].Joining? {
        if s.calls[c].key in s.table {
          MoveKeepsSound(s, c, Waiting(s.calls[c].key, s.table[s.calls[c].key]));
        } else {
          OpenKeepsSound(s, c);
        }
      }
    case Recheck(c, cached) =>
      if c < |s.calls| && s.calls[c].Rechecking? {
        assert CallSound(s, c);
        var Rechecking(key, f) := s.calls[c];
        MoveKeepsSound(s, c, if cached.Some? then Finishing(key, Some(f), Value(cached.value)) else Loading(key, Some(f)));
      }
    case Loaded(c, outcome) =>
      if c < |s.calls| && s.calls[c].Loading? {
        assert CallSound(s, c);
        MoveKeepsSound(s, c, Finishing(s.calls[c].key, s.calls[c].leads, outcome));
      }
    case Pop(c) =>
      if c < |s.calls| && s.calls[c].Finishing? {
        if s.calls[c].key in s.table {
          PopKeepsSound(s, c);
        } else {
          PopNothingKeepsSound(s, c);
        }
      }
    case Signal(c) =>
      if c < |s.calls| && s.calls[c].Signalling? {
        SignalKeepsSound(s, c);
      }
    case Wake(c) =>
      if c < |s.calls| && s.calls[c].Waiting? && Landed(s, s.calls[c].joined) {
        assert CallSound(s, c);
        MoveKeepsSound(s, c, Step(s, e).calls[c]);
      }
  }

  /** A leader whose flight was taken by someone else finds the table without one. */
  lemma PopNothingKeepsSound(s: State, c: nat)
    requires Sound(s) && c < |s.calls| && s.calls[c].Finishing? && s.calls[c].key !in s.table
    ensures Sound(PopStep(s, c))
  {
    var s' := PopStep(s, c);
    forall f | 0 <= f < |s'.flights| ensures FlightSound(s', f) {
      assert FlightSound(s, f);
    }
    forall d | 0 <= d < |s'.calls| ensures CallSound(s', d) {
      assert CallSound(s, d);
    }
  }

  lemma {:induction false} AlwaysSound(events: seq<Event>)
    ensures Sound(Run(events))
  {
    if events != [] {
      AlwaysSound(events[..|events| - 1]);
      StepKeepsSound(Run(events[..|events| - 1]), events[|events| - 1]);
    }
  }

  // ---------------------------------------------------------------- nobody is left waiting

  /** The call has work of its own to do. */
  predicate AtWork(call: Call) {
    !call.Waiting? && !call.Returned?
  }

  /** For any mix of forced and unforced calls: whoever waits, waits for a call at work, the flight's leader or the
      call that took the flight over; or the outcome is there already. */
  lemma WaitingForWork(events: seq<Event>, c: nat)
    requires c < |Run(events).calls| && Run(events).calls[c].Waiting?
    ensures var s := Run(events);
            var f := s.calls[c].joined;
            && f < |s.flights| && s.flights[f].key == s.calls[c].key
            && (s.flights[f].result.Some?
                || (s.flights[f].closer.None? && s.flights[f].leader < |s.calls| && AtWork(s.calls[s.flights[f].leader]))
                || (s.flights[f].closer.Some? && s.flights[f].closer.value < |s.calls| && AtWork(s.calls[s.flights[f].closer.value])))
  {
    AlwaysSound(events);
    var s := Run(events);
    assert CallSound(s, c) && FlightSound(s, s.calls[c].joined);
  }

  /** What a follower gets is the outcome of a call for the same key that has returned it: the flight's closer. */
  lemma FollowersShareAnOutcome(events: seq<Event>, c: nat)
    requires c < |Run(events).calls| && Run(events).calls[c].Returned? && Run(events).calls[c].followed.Some?
    ensures var s := Run(events);
            var f := s.calls[c].followed.value;
            && f < |s.flights| && s.flights[f].closer.Some? && s.flights[f].closer.value < |s.calls|
            && s.calls[s.flights[f].closer.value] == Returned(s.calls[c].key, None, s.calls[c].outcome)
  {
    AlwaysSound(events);
    var s := Run(events);
    assert CallSound(s, c) && FlightSound(s, s.calls[c].followed.value);
  }

  /** The steps a call still has before it. */
  function Rank(call: Call): nat {
    match call
    case Joining(_) => 5
    case Rechecking(_, _) => 4
    case Loading(_, _) => 3
    case Finishing(_, _, _) => 2
    case Signalling(_, _, _) => 1
    case Waiting(_, _) => 1
    case Returned(_, _, _) => 0
  }

  function Work(calls: seq<Call>): nat {
    if calls == [] then 0 else Work(calls[..|calls| - 1]) + Rank(calls[|calls| - 1])
  }

  lemma {:induction false} WorkOfMove(calls: seq<Call>, c: nat, to: Call)
    requires c < |calls|
    ensures Work(calls[c := to]) == Work(calls) - Rank(calls[c]) + Rank(to)
  {
    var n := |calls| - 1;
    if c == n {
      assert calls[c := to][..n] == calls[..n];
    } else {
      assert calls[c := to][..n] == calls[..n][c := to];
      WorkOfMove(calls[..n], c, to);
    }
  }

  /** Every step that changes anything, other than a new call, uses up work; so without new calls runs end. */
  lemma StepsUseUpWork(s: State, e: Event)
    requires !e.Start? && Step(s, e) != s
    ensures Work(Step(s, e).calls) < Work(s.calls)
  {
    WorkOfMove(s.calls, e.call, Step(s, e).calls[e.call]);
  }

  /** When no call can take a step any more, all have returned: no deadlock, no lost wake-up. */
  lemma StuckMeansReturned(events: seq<Event>)
    requires forall e: Event :: !e.Start? ==> Step(Run(events), e) == Run(events)
    ensures forall c :: 0 <= c < |Run(events).calls| ==> Run(events).calls[c].Returned?
  {
    AlwaysSound(events);
    var s := Run(events);
    forall c | 0 <= c < |s.calls| ensures s.calls[c].Returned? {
      NothingAtWork(s, c);
      if s.calls[c].Waiting? {
        assert CallSound(s, c) && FlightSound(s, s.calls[c].joined);
        var flight := s.flights[s.calls[c].joined];
        NothingAtWork(s, flight.leader);
        if flight.closer.Some? {
          NothingAtWork(s, flight.closer.value);
        }
        assert Step(s, Wake(c)) == s;
      }
    }
  }

  lemma NothingAtWork(s: State, c: nat)
    requires Sound(s) && c < |s.calls| && forall e: Event :: !e.Start? ==> Step(s, e) == s
    ensures !AtWork(s.calls[c])
  {
    assert CallSound(s, c);
    assert Step(s, Join(c)) == s && Step(s, Recheck(c, None)) == s && Step(s, Loaded(c, Value(0))) == s;
    assert Step(s, Pop(c)) == s && Step(s, Signal(c)) == s;
  }

  // ---------------------------------------------------------------- without forced calls

  predicate Unforced(events: seq<Event>) {
    forall i :: 0 <= i < |events| && events[i].Start? ==> !events[i].force
  }

  /** `call` is between opening its flight and taking it off the table. */
  predicate InCharge(call: Call) {
    call.Rechecking? || call.Loading? || call.Finishing?
  }

  /** Whoever is in charge of a key leads the flight in the table, and flights are closed by their leaders. */
  ghost predicate Orderly(s: State) {
    ChargeOrderly(s) && ClosersOrderly(s)
  }

  ghost predicate ChargeOrderly(s: State) {
    forall c {:trigger s.calls[c]} :: 0 <= c < |s.calls| && InCharge(s.calls[c]) ==>
      s.calls[c].key in s.table && Leads(s.calls[c], s.calls[c].key, s.table[s.calls[c].key])
  }

  ghost predicate ClosersOrderly(s: State) {
    forall f {:trigger s.flights[f]} :: 0 <= f < |s.flights| && s.flights[f].closer.Some? ==>
      s.flights[f].closer.value == s.flights[f].leader
  }

  lemma StepKeepsCharge(s: State, e: Event)
    requires Sound(s) && Orderly(s) && (e.Start? ==> !e.force)
    ensures ChargeOrderly(Step(s, e))
  {
    var s' := Step(s, e);
    forall c | 0 <= c < |s'.calls| && InCharge(s'.calls[c])
      ensures s'.calls[c].key in s'.table && Leads(s'.calls[c], s'.calls[c].key, s'.table[s'.calls[c].key])
    {
      assert c < |s.calls| ==> CallSound(s, c);
      if e.Pop? && e.call < |s.calls| {
        assert CallSound(s, e.call);
      }
    }
  }

  lemma StepKeepsClosers(s: State, e: Event)
    requires Sound(s) && Orderly(s)
    ensures ClosersOrderly(Step(s, e))
  {
    var s' := Step(s, e);
    forall f | 0 <= f < |s'.flights| && s'.flights[f].closer.Some? ensures s'.flights[f].closer.value == s'.flights[f].leader {
      if e.Pop? && e.call < |s.calls| {
        assert CallSound(s, e.call);
      }
      assert f < |s.flights| ==> FlightSound(s, f);
    }
  }

  lemma {:induction false} AlwaysOrderly(events: seq<Event>)
    requires Unforced(events)
    ensures Sound(Run(events)) && Orderly(Run(events))
  {
    AlwaysSound(events);
    if events != [] {
      AlwaysOrderly(events[..|events| - 1]);
      StepKeepsCharge(Run(events[..|events| - 1]), events[|events| - 1]);
      StepKeepsClosers(Run(events[..|events| - 1]), events[|events| - 1]);
    }
  }

  /** Single flight: over every interleaving of unforced calls, at most one call is in charge of a key, so at most
      one loader runs for it. */
  lemma OneLoaderPerKey(events: seq<Event>, c: nat, d: nat)
    requires Unforced(events) && c < |Run(events).calls| && d < |Run(events).calls|
    requires InCharge(Run(events).calls[c]) && InCharge(Run(events).calls[d])
    requires Run(events).calls[c].key == Run(events).calls[d].key
    ensures c == d
  {
    AlwaysOrderly(events);
    var s := Run(events);
    assert CallSound(s, c) && CallSound(s, d);
  }

  /** Without forced calls a follower returns exactly what the leader of its flight returned. */
  lemma FollowersGetTheirLeadersOutcome(events: seq<Event>, c: nat)
    requires Unforced(events)
    requires c < |Run(events).calls| && Run(events).calls[c].Returned? && Run(events).calls[c].followed.Some?
    ensures var s := Run(events);
            var f := s.calls[c].followed.value;
            && f < |s.flights| && s.flights[f].leader < |s.calls|
            && s.calls[s.flights[f].leader] == Returned(s.calls[c].key, None, s.calls[c].outcome)
  {
    AlwaysOrderly(events);
    FollowersShareAnOutcome(events, c);
  }

  /** With a forced call two loaders can run for one key. */
  lemma ForcedLoadersRunBeside(key: Key)
    ensures var s := Run([Start(key, true, None), Start(key, true, None)]);
            |s.calls| == 2 && s.calls[0] == s.calls[1] == Loading(key, None)
  {
    var e := Start(key, true, None);
    assert [e, e][..1] == [e] && [e][..0] == [];
    assert Run([e]) == Step(INITIAL, e);
  }

  // ---------------------------------------------------------------- a store that raises

  /** A store that raises ends the leader's call without taking its flight off the table. */
  function StoreRaises(s: State, c: nat, error: int): State
    requires c < |s.calls| && s.calls[c].Finishing?
  {
    Moved(s, c, Returned(s.calls[c].key, None, Raised(error)))
  }

  /** Flight `f` stands open in the table and no call will take it off. */
  ghost predicate Orphaned(s: State, key: Key, f: nat) {
    && key in s.table && s.table[key] == f && f < |s.flights| && s.flights[f].result.None?
    && (forall c {:trigger s.calls[c]} :: 0 <= c < |s.calls| && s.calls[c].key == key ==>
          !InCharge(s.calls[c]) && (s.calls[c].Signalling? ==> s.calls[c].popped != f))
    && (forall c {:trigger s.calls[c]} :: 0 <= c < |s.calls| && s.calls[c].key != key ==>
          (s.calls[c].Signalling? ==> s.calls[c].popped != f))
    && (forall k {:trigger s.table[k]} {:trigger k in s.table} :: k in s.table && k != key ==> s.table[k] != f)
  }

  lemma StoreThatRaisesOrphans(events: seq<Event>, c: nat, error: int)
    requires Unforced(events) && c < |Run(events).calls| && Run(events).calls[c].Finishing?
    ensures var s := Run(events);
            var key := s.calls[c].key;
            key in s.table && Orphaned(StoreRaises(s, c, error), key, s.table[key])
  {
    AlwaysOrderly(events);
    var s := Run(events);
    var s' := StoreRaises(s, c, error);
    var key := s.calls[c].key;
    assert CallSound(s, c) && FlightSound(s, s.table[key]);
    forall d | 0 <= d < |s'.calls|
      ensures s'.calls[d].key == key ==> !InCharge(s'.calls[d])
      ensures s'.calls[d].Signalling? ==> s'.calls[d].popped != s.table[key]
    {
      assert CallSound(s, d);
      if d != c && InCharge(s.calls[d]) && s.calls[d].key == key {
        OneLoaderPerKey(events, c, d);
      }
    }
  }

  /** An orphaned flight stays orphaned, whoever comes and waits for it, until someone forces a load of the key. */
  lemma OrphanStays(s: State, key: Key, f: nat, e: Event)
    requires Orphaned(s, key, f)
    ensures Orphaned(Step(s, e), key, f) <==> !(e.Start? && e.force && e.key == key)
    ensures forall c :: 0 <= c < |s.calls| && s.calls[c] == Waiting(key, f) ==> Step(s, e).calls[c] == Waiting(key, f)
    ensures forall c :: 0 <= c < |s.calls| && s.calls[c] == Joining(key) && e == Join(c) ==> Step(s, e).calls[c] == Waiting(key, f)
  {
    if e.Start? && e.force && e.key == key {
      assert Step(s, e).calls[|s.calls|] == Loading(key, None);
    }
  }

  /** A forced load frees them: it takes the orphan off the table and hands its own outcome to those who wait. */
  lemma ForcedLoadFrees(s: State, key: Key, f: nat, outcome: Outcome)
    requires Orphaned(s, key, f)
    ensures var n := |s.calls|;
            var s' := Step(Step(Step(Step(s, Start(key, true, None)), Loaded(n, outcome)), Pop(n)), Signal(n));
            f < |s'.flights| && s'.flights[f].result == Some(outcome) && key !in s'.table
  {
  }

  // ---------------------------------------------------------------- a call by itself

  /** An unforced call that finds the value in the cache returns it at once and touches no flight. */
  lemma CachedAnswersAtOnce(events: seq<Event>, key: Key, value: int)
    ensures var s := Run(events);
            Run(events + [Start(key, false, Some(value))]) == s.(calls := s.calls + [Returned(key, None, Value(value))])
  {
    assert (events + [Start(key, false, Some(value))])[..|events|] == events;
  }

  lemma JoinedAlone(s: State, key: Key)
    requires key !in s.table
    ensures var c, f := |s.calls|, |s.flights|;
            Step(Step(s, Start(key, false, None)), Join(c)) ==
              State(s.calls + [Rechecking(key, f)], s.table[key := f], s.flights + [Flight(key, c, None, None)])
  {
    var c, f := |s.calls|, |s.flights|;
    var s1 := Step(s, Start(key, false, None));
    assert s1 == s.(calls := s.calls + [Joining(key)]);
    assert s1.calls[c := Rechecking(key, f)] == s.calls + [Rechecking(key, f)];
  }

  lemma LoadedAlone(s: State, others: seq<Call>, key: Key, f: nat, outcome: Outcome)
    requires s.calls == others + [Rechecking(key, f)]
    ensures var c := |others|;
            Step(Step(s, Recheck(c, None)), Loaded(c, outcome)) == s.(calls := others + [Finishing(key, Some(f), outcome)])
  {
    var c := |others|;
    var s1 := Step(s, Recheck(c, None));
    assert s1.calls == others + [Loading(key, Some(f))];
    assert s1.calls[c := Finishing(key, Some(f), outcome)] == others + [Finishing(key, Some(f), outcome)];
  }

  lemma SignalledAlone(s: State, others: seq<Call>, table: map<Key, nat>, flights: seq<Flight>, key: Key, outcome: Outcome)
    requires key !in table && s.calls == others + [Finishing(key, Some(|flights|), outcome)]
    requires s.table == table[key := |flights|] && s.flights == flights + [Flight(key, |others|, None, None)]
    ensures var c := |others|;
            Step(Step(s, Pop(c)), Signal(c)) ==
              State(others + [Returned(key, None, outcome)], table, flights + [Flight(key, c, Some(c), Some(outcome))])
  {
    var c, f := |others|, |flights|;
    var s1 := Step(s, Pop(c));
    assert s1.calls == others + [Signalling(key, f, outcome)];
    assert s1.table == table;
    assert s1.flights == flights + [Flight(key, c, Some(c), None)];
    var s2 := Step(s1, Signal(c));
    assert s2.calls == others + [Returned(key, None, outcome)];
    assert s2.flights == flights + [Flight(key, c, Some(c), Some(outcome))];
  }

  /** A call that is not forced and finds nothing, with no flight for its key in the table: left to itself it leads a
      flight of its own, runs the loader once, returns what that gives, and leaves the table as it was. */
  lemma LoneCallLoads(s: State, key: Key, outcome: Outcome)
    requires key !in s.table
    ensures var c := |s.calls|;
            var loaded := Step(Step(Step(Step(s, Start(key, false, None)), Join(c)), Recheck(c, None)), Loaded(c, outcome));
            Step(Step(loaded, Pop(c)), Signal(c)) ==
              State(s.calls + [Returned(key, None, outcome)], s.table, s.flights + [Flight(key, c, Some(c), Some(outcome))])
  {
    var c := |s.calls|;
    JoinedAlone(s, key);
    var s2 := Step(Step(s, Start(key, false, None)), Join(c));
    LoadedAlone(s2, s.calls, key, |s.flights|, outcome);
    SignalledAlone(Step(Step(s2, Recheck(c, None)), Loaded(c, outcome)), s.calls, s.table, s.flights, key, outcome);
  }
}
