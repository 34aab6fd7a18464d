/** Sessions of the BaoStock module: it allows one login per process, which any number of adapters share through a
    global generation and a count. Every attempt and every close runs under one lock, so each is one step. */
module BaoStocks {
  import opened Wrappers

  type AdapterId = nat
  type Rows = int

  datatype Adapter = Adapter(closed: bool, acquired: bool, generation: Option<nat>)

  /** How the remote side answers one attempt: to the login, if one is needed, and to the query. */
  datatype Reply = Rows(rows: Rows) | RefusedCode | ConnectionCode | Breaks
  datatype Response = Response(loginOk: bool, reply: Reply)

  datatype Result = Done(rows: Rows) | Refused | Failed

  /** `open` says whether the module has a login that is neither logged out nor given up. */
  datatype State = State(count: nat, generation: nat, adapters: map<AdapterId, Adapter>, open: bool, logouts: nat)

  predicate Holds(s: State, a: AdapterId) {
    a in s.adapters && s.adapters[a].acquired && s.adapters[a].generation == Some(s.generation)
  }

  function Holders(s: State): set<AdapterId> {
    set a | a in s.adapters && Holds(s, a)
  }

  function GivenUp(s: State): State {
    s.(generation := s.generation + 1, count := 0, open := false)
  }

  /** The session is marked lost and the adapter forgets the generation it knew. */
  function Lost(s: State, a: AdapterId): State
    requires a in s.adapters
  {
    GivenUp(s).(adapters := s.adapters[a := s.adapters[a].(generation := None)])
  }

  /** After `_ensure_login`: the adapter holds the generation, or the login failed. */
  function LoggedIn(s: State, a: AdapterId, loginOk: bool): Option<State>
    requires a in s.adapters
  {
    if Holds(s, a) then Some(s)
    else if s.count == 0 && !loginOk then None
    else Some(s.(count := s.count + 1, open := s.open || s.count == 0,
                 adapters := s.adapters[a := s.adapters[a].(acquired := true, generation := Some(s.generation))]))
  }

  /** One attempt under the lock. A connection error code marks the session lost twice over. */
  function Attempt(s: State, a: AdapterId, r: Response): (State, Result)
    requires a in s.adapters
  {
    var s' := LoggedIn(s, a, r.loginOk);
    if s'.None? then (Lost(s, a), Failed)
    else
      match r.reply
      case Rows(rows) => (s'.value, Done(rows))
      case RefusedCode => (s'.value, Refused)
      case ConnectionCode => (Lost(GivenUp(s'.value), a), Failed)
      case Breaks => (Lost(s'.value, a), Failed)
  }

  function Closed(s: State, a: AdapterId): State
    requires a in s.adapters
  {
    if s.adapters[a].closed then s
    else if Holds(s, a) then
      var left := if s.count > 0 then s.count - 1 else 0;
      s.(count := left, adapters := s.adapters[a := Adapter(true, false, None)],
         open := s.open && left > 0, logouts := s.logouts + (if left == 0 then 1 else 0))
    else s.(adapters := s.adapters[a := s.adapters[a].(closed := true, generation := None)])
  }

  /** The state after the first `n` attempts of one call. */
  function AfterAttempts(s: State, a: AdapterId, responses: seq<Response>, n: nat): (s': State)
    requires a in s.adapters && n <= |responses|
    ensures a in s'.adapters
  {
    if n == 0 then s else Attempt(AfterAttempts(s, a, responses, n - 1), a, responses[n - 1]).0
  }

  function ResultAt(s: State, a: AdapterId, responses: seq<Response>, i: nat): Result
    requires a in s.adapters && i < |responses|
  {
    Attempt(AfterAttempts(s, a, responses, i), a, responses[i]).1
  }

  ghost predicate AllFail(s: State, a: AdapterId, responses: seq<Response>, n: nat)
    requires a in s.adapters && n <= |responses|
  {
    forall i {:trigger ResultAt(s, a, responses, i)} :: 0 <= i < n ==> ResultAt(s, a, responses, i) == Failed
  }

  lemma OneMoreAttempt(s: State, a: AdapterId, responses: seq<Response>, n: nat, now: State, next: State, result: Result)
    requires a in s.adapters && n < |responses| && AllFail(s, a, responses, n)
    requires now == AfterAttempts(s, a, responses, n) && (next, result) == Attempt(now, a, responses[n])
    ensures next == AfterAttempts(s, a, responses, n + 1) && result == ResultAt(s, a, responses, n)
    ensures result == Failed ==> AllFail(s, a, responses, n + 1)
  {
  }

  /** The module globals and the adapters of one process. */
  class BaoStock {
    var loginCount: nat
    var generation: nat
    var adapters: map<AdapterId, Adapter>
    var open: bool
    var logouts: nat

    constructor ()
      ensures Value() == State(0, 0, map[], false, 0)
    {
      loginCount, generation, adapters, open, logouts := 0, 0, map[], false, 0;
    }

    function Value(): State
      reads this
    {
      State(loginCount, generation, adapters, open, logouts)
    }

    method NewAdapter(a: AdapterId)
      requires a !in adapters
      modifies this
      ensures Value() == old(Value()).(adapters := old(adapters)[a := Adapter(false, false, None)])
    {
      adapters := adapters[a := Adapter(false, false, None)];
    }

    method InvalidateSession()
      modifies this
      ensures Value() == GivenUp(old(Value()))
    {
      generation := generation + 1;
      loginCount := 0;
      open := false;
    }

    method Forget(a: AdapterId)
      requires a in adapters
      modifies this`adapters
      ensures adapters == old(adapters)[a := old(adapters)[a].(generation := None)]
    {
      adapters := adapters[a := adapters[a].(generation := None)];
    }

    method EnsureLogin(a: AdapterId, loginOk: bool) returns (ok: bool)
      requires a in adapters
      modifies this
      ensures ok == LoggedIn(old(Value()), a, loginOk).Some?
      ensures Value() == if ok then LoggedIn(old(Value()), a, loginOk).value else old(Value())
    {
      if adapters[a].acquired && adapters[a].generation == Some(generation) {
        return true;
      }
      if loginCount == 0 {
        if !loginOk {
          return false;
        }
        open := true;
      }
      loginCount := loginCount + 1;
      adapters := adapters[a := adapters[a].(acquired := true, generation := Some(generation))];
      ok := true;
    }

    /** One attempt: log in if needed, query, and mark the session lost when the connection fails. */
    method TryOnce(a: AdapterId, r: Response) returns (result: Result)
      requires a in adapters
      modifies this
      ensures (Value(), result) == Attempt(old(Value()), a, r)
    {
      var ok := EnsureLogin(a, r.loginOk);
      if !ok {
        InvalidateSession();
        Forget(a);
        return Failed;
      }
      match r.reply
      case Rows(rows) => result := Done(rows);
      case RefusedCode => result := Refused;
      case ConnectionCode =>
        InvalidateSession();
        Forget(a);
        InvalidateSession();
        assert adapters[a := adapters[a].(generation := None)] == adapters;
        Forget(a);
        result := Failed;
      case Breaks =>
        InvalidateSession();
        Forget(a);
        result := Failed;
    }

    /** The body of the loop: attempt `n` of a call that began in the state `was`. */
    method TryNext(ghost was: State, a: AdapterId, responses: seq<Response>, n: nat) returns (result: Result)
      requires a in adapters && a in was.adapters && n < |responses|
      requires Value() == AfterAttempts(was, a, responses, n) && AllFail(was, a, responses, n)
      modifies this
      ensures a in adapters && Value() == AfterAttempts(was, a, responses, n + 1) && result == ResultAt(was, a, responses, n)
      ensures result == Failed ==> AllFail(was, a, responses, n + 1)
    {
      ghost var before := Value();
      result := TryOnce(a, responses[n]);
      OneMoreAttempt(was, a, responses, n, before, Value(), result);
    }

    /** Attempts until one does not fail at the connection, at most `maxAttempts` times and at least once. */
    method Query(a: AdapterId, maxAttempts: int, responses: seq<Response>) returns (result: Result, tries: nat)
      requires a in adapters && |responses| >= (if maxAttempts < 1 then 1 else maxAttempts)
      modifies this
      ensures 1 <= tries <= (if maxAttempts < 1 then 1 else maxAttempts)
      ensures result.Failed? ==> tries == if maxAttempts < 1 then 1 else maxAttempts
      ensures Value() == AfterAttempts(old(Value()), a, responses, tries)
      ensures result == ResultAt(old(Value()), a, responses, tries - 1)
      ensures AllFail(old(Value()), a, responses, tries - 1)
    {
      var attempts := if maxAttempts < 1 then 1 else maxAttempts;
      ghost var was := Value();
      result, tries := Failed, 0;
      while tries < attempts
        invariant tries <= attempts && a in adapters && result == Failed
        invariant Value() == AfterAttempts(was, a, responses, tries) && AllFail(was, a, responses, tries)
        invariant tries > 0 ==> result == ResultAt(was, a, responses, tries - 1) && AllFail(was, a, responses, tries - 1)
      {
        result := TryNext(was, a, responses, tries);
        tries := tries + 1;
        if result != Failed {
          return;
        }
      }
    }

    method Close(a: AdapterId)
      requires a in adapters
      modifies this
      ensures Value() == Closed(old(Value()), a)
    {
      if adapters[a].closed {
        return;
      }
      adapters := adapters[a := adapters[a].(closed := true)];
      if adapters[a].acquired && adapters[a].generation == Some(generation) {
        adapters := adapters[a := adapters[a].(acquired := false)];
        if loginCount > 0 {
          loginCount := loginCount - 1;
        }
        if loginCount == 0 {
          open := false;
          logouts := logouts + 1;
        }
      }
      adapters := adapters[a := adapters[a].(generation := None)];
    }
  }

  // ---------------------------------------------------------------- every run of every set of adapters

  datatype Event = New(a: AdapterId) | Try(a: AdapterId, response: Response) | Close(a: AdapterId) | Invalidate

  function Step(s: State, e: Event): State {
    match e
    case New(a) => if a in s.adapters then s else s.(adapters := s.adapters[a := Adapter(false, false, None)])
    case Try(a, r) => if a in s.adapters then Attempt(s, a, r).0 else s
    case Close(a) => if a in s.adapters then Closed(s, a) else s
    case Invalidate => GivenUp(s)
  }

  function Run(events: seq<Event>): State {
    if events == [] then State(0, 0, map[], false, 0) else Step(Run(events[..|events| - 1]), events[|events| - 1])
  }

  /** The count is the number of adapters that hold the current generation, no adapter knows a later generation,
      and the session is open exactly while someone holds it. */
  ghost predicate Counted(s: State) {
    && s.count == |Holders(s)|
    && (s.open <==> s.count > 0)
    && forall a {:trigger s.adapters[a]} :: a in s.adapters && s.adapters[a].generation.Some? ==> s.adapters[a].generation.value <= s.generation
  }

  lemma GivingUpKeepsCounted(s: State)
    requires Counted(s)
    ensures Counted(GivenUp(s)) && Holders(GivenUp(s)) == {}
  {
    assert Holders(GivenUp(s)) == {};
  }

  lemma ForgettingKeepsCounted(s: State, a: AdapterId)
    requires Counted(s) && a in s.adapters && !Holds(s, a)
    ensures Counted(s.(adapters := s.adapters[a := s.adapters[a].(generation := None)]))
  {
    assert Holders(s.(adapters := s.adapters[a := s.adapters[a].(generation := None)])) == Holders(s);
  }

  lemma LosingKeepsCounted(s: State, a: AdapterId)
    requires Counted(s) && a in s.adapters
    ensures Counted(Lost(s, a))
  {
    GivingUpKeepsCounted(s);
    assert !Holds(GivenUp(s), a);
    ForgettingKeepsCounted(GivenUp(s), a);
  }

  lemma LoginKeepsCounted(s: State, a: AdapterId, loginOk: bool)
    requires Counted(s) && a in s.adapters && LoggedIn(s, a, loginOk).Some?
    ensures Counted(LoggedIn(s, a, loginOk).value) && Holds(LoggedIn(s, a, loginOk).value, a)
  {
    if !Holds(s, a) {
      assert Holders(LoggedIn(s, a, loginOk).value) == Holders(s) + {a};
      assert a !in Holders(s);
    } else {
      assert a in Holders(s);
    }
  }

  lemma ClosingKeepsCounted(s: State, a: AdapterId)
    requires Counted(s) && a in s.adapters
    ensures Counted(Closed(s, a)) && (s.adapters[a].closed || !Holds(Closed(s, a), a))
    ensures Closed(s, a).logouts > s.logouts ==> Holders(Closed(s, a)) == {}
  {
    if !s.adapters[a].closed {
      assert Holders(Closed(s, a)) == Holders(s) - {a};
      assert Holds(s, a) ==> a in Holders(s);
    }
  }

  lemma StepKeepsCounted(s: State, e: Event)
    requires Counted(s)
    ensures Counted(Step(s, e))
  {
    match e
    case New(a) =>
      if a !in s.adapters {
        assert Holders(Step(s, e)) == Holders(s);
      }
    case Try(a, r) =>
      if a in s.adapters {
        var s' := LoggedIn(s, a, r.loginOk);
        if s'.None? {
          LosingKeepsCounted(s, a);
        } else {
          LoginKeepsCounted(s, a, r.loginOk);
          GivingUpKeepsCounted(s'.value);
          LosingKeepsCounted(s'.value, a);
          LosingKeepsCounted(GivenUp(s'.value), a);
        }
      }
    case Close(a) =>
      if a in s.adapters {
        ClosingKeepsCounted(s, a);
      }
    case Invalidate => GivingUpKeepsCounted(s);
  }

  /** Over every run of queries, failures, invalidations and closes: the login count is the number of adapters that
      hold the current generation, and the module is logged in exactly while that number is not zero. */
  lemma {:induction false} CountIsHolders(events: seq<Event>)
    ensures Counted(Run(events))
  {
    if events == [] {
      assert Holders(Run(events)) == {};
    } else {
      CountIsHolders(events[..|events| - 1]);
      StepKeepsCounted(Run(events[..|events| - 1]), events[|events| - 1]);
    }
  }

  /** The module is logged out only when no adapter holds the session any more. */
  lemma LogoutOnlyWhenUnheld(events: seq<Event>, e: Event)
    ensures Step(Run(events), e).logouts > Run(events).logouts ==>
              Holders(Step(Run(events), e)) == {} && e.Close? && Holds(Run(events), e.a)
  {
    CountIsHolders(events);
    if e.Close? && e.a in Run(events).adapters {
      ClosingKeepsCounted(Run(events), e.a);
    }
  }

  /** Every attempt that brings rows, or a refusal of the query, ran in an open session its adapter holds; a failed
      attempt leaves everyone without one. */
  lemma AnswersComeFromAnOpenSession(events: seq<Event>, a: AdapterId, r: Response)
    requires a in Run(events).adapters
    ensures var (s', result) := Attempt(Run(events), a, r);
            if result.Failed? then Holders(s') == {} && !s'.open else s'.open && Holds(s', a)
  {
    CountIsHolders(events);
    var s := Run(events);
    var s' := Attempt(s, a, r).0;
    StepKeepsCounted(s, Try(a, r));
    if LoggedIn(s, a, r.loginOk).Some? {
      LoginKeepsCounted(s, a, r.loginOk);
    }
    if Holds(s', a) {
      assert a in Holders(s');
    }
    if s'.count == 0 {
      assert Holders(s') == {};
    }
  }

  // ---------------------------------------------------------------- closing

  /** The attempt brought rows or a refusal of the query. */
  predicate Answered(s: State, a: AdapterId, r: Response)
    requires a in s.adapters
  {
    !Attempt(s, a, r).1.Failed?
  }

  /** Event `i` is an answered attempt of `a` after its close, and the session it ran in has not been lost since. */
  predicate ReusedAt(events: seq<Event>, a: AdapterId, i: nat)
    requires i < |events|
  {
    var s := Run(events[..i]);
    && events[i].Try? && events[i].a == a && a in s.adapters && s.adapters[a].closed
    && Answered(s, a, events[i].response) && Run(events).generation == s.generation
  }

  predicate Reused(events: seq<Event>, a: AdapterId) {
    exists i :: 0 <= i < |events| && ReusedAt(events, a, i)
  }

  predicate IsClosed(s: State, a: AdapterId) {
    a in s.adapters && s.adapters[a].closed
  }

  /** One step of a closed adapter: it stays closed, and it holds the session when it held it or was just answered,
      and the session was not lost. */
  lemma StepOfClosed(s: State, e: Event, a: AdapterId)
    requires Counted(s) && IsClosed(s, a)
    ensures IsClosed(Step(s, e), a) && s.generation <= Step(s, e).generation
    ensures Holds(Step(s, e), a) <==>
              && Step(s, e).generation == s.generation
              && (Holds(s, a) || (e.Try? && e.a == a && Answered(s, a, e.response)))
  {
    assert s.adapters[a].generation.Some? ==> s.adapters[a].generation.value <= s.generation;
  }

  lemma GenerationGrows(s: State, e: Event)
    ensures s.generation <= Step(s, e).generation
    ensures e.Try? && e.a in s.adapters ==> (Answered(s, e.a, e.response) <==> Step(s, e).generation == s.generation)
  {
  }

  lemma {:induction false} GenerationGrew(events: seq<Event>, i: nat)
    requires i <= |events|
    ensures Run(events[..i]).generation <= Run(events).generation
  {
    if i < |events| {
      var n := |events| - 1;
      GenerationGrew(events[..n], i);
      assert events[..n][..i] == events[..i];
      GenerationGrows(Run(events[..n]), events[n]);
    } else {
      assert events[..i] == events;
    }
  }

  /** Closed once, closed from then on. */
  lemma {:induction false} ClosedStays(events: seq<Event>, i: nat, a: AdapterId)
    requires i <= |events| && IsClosed(Run(events[..i]), a)
    ensures IsClosed(Run(events), a)
  {
    if i < |events| {
      var n := |events| - 1;
      assert events[..n][..i] == events[..i];
      ClosedStays(events[..n], i, a);
      CountIsHolders(events[..n]);
      StepOfClosed(Run(events[..n]), events[n], a);
    } else {
      assert events[..i] == events;
    }
  }

  /** One event more: an earlier use counts on while the session lasts, the last event if it is an answered use. */
  lemma ReusedOneMore(before: seq<Event>, e: Event, a: AdapterId)
    ensures var s := Run(before);
            Reused(before + [e], a) <==>
              && Step(s, e).generation == s.generation
              && (Reused(before, a) || (e.Try? && e.a == a && IsClosed(s, a) && Answered(s, a, e.response)))
  {
    var events, n := before + [e], |before|;
    assert events[..n] == before && Run(events) == Step(Run(before), e);
    forall i | 0 <= i < n
      ensures ReusedAt(events, a, i) <==> ReusedAt(before, a, i) && Run(events).generation == Run(before).generation
    {
      assert events[..i] == before[..i] && events[i] == before[i];
      GenerationGrew(before, i);
      GenerationGrows(Run(before), e);
    }
    GenerationGrows(Run(before), e);
    if Reused(before, a) {
      var i :| 0 <= i < n && ReusedAt(before, a, i);
      assert Step(Run(before), e).generation == Run(before).generation ==> ReusedAt(events, a, i);
    }
    if Reused(events, a) {
      var i :| 0 <= i <= n && ReusedAt(events, a, i);
      assert i < n ==> ReusedAt(before, a, i);
    }
    assert e.Try? && e.a == a && IsClosed(Run(before), a) && Answered(Run(before), a, e.response) ==> ReusedAt(events, a, n);
  }

  lemma NeverClosedNotReused(events: seq<Event>, a: AdapterId)
    requires !IsClosed(Run(events), a)
    ensures !Reused(events, a)
  {
    if i :| 0 <= i < |events| && ReusedAt(events, a, i) {
      ClosedStays(events, i, a);
    }
  }

  /** Over every run: a closed adapter holds the session exactly when it was used after its close, with an answer, and
      the session has not been lost since. */
  lemma {:induction false} ClosedHoldsIfReused(events: seq<Event>, a: AdapterId)
    requires IsClosed(Run(events), a)
    ensures Holds(Run(events), a) <==> Reused(events, a)
  {
    var n := |events| - 1;
    var before, e := events[..n], events[n];
    assert events == before + [e];
    CountIsHolders(before);
    ReusedOneMore(before, e, a);
    if IsClosed(Run(before), a) {
      ClosedHoldsIfReused(before, a);
      StepOfClosed(Run(before), e, a);
    } else {
      NeverClosedNotReused(before, a);
      JustClosed(Run(before), e, a);
    }
  }

  lemma JustClosed(s: State, e: Event, a: AdapterId)
    requires !IsClosed(s, a) && IsClosed(Step(s, e), a)
    ensures e == Close(a) && !Holds(Step(s, e), a)
  {
  }

  /** When every adapter has been closed, nothing is left logged in exactly when no adapter was used after its close in
      the session that is still on. */
  lemma AllClosedMeansLoggedOut(events: seq<Event>)
    requires forall a :: a in Run(events).adapters ==> Run(events).adapters[a].closed
    ensures !Run(events).open <==> forall a: AdapterId :: !Reused(events, a)
    ensures Run(events).count == 0 <==> !Run(events).open
  {
    CountIsHolders(events);
    forall a: AdapterId ensures Reused(events, a) <==> a in Holders(Run(events)) {
      if a in Run(events).adapters {
        ClosedHoldsIfReused(events, a);
      } else {
        NeverClosedNotReused(events, a);
      }
    }
    if Run(events).count > 0 {
      var a :| a in Holders(Run(events));
    } else {
      assert Holders(Run(events)) == {};
    }
  }

  /** One answered attempt and then a close: the session is released exactly when the adapter had not been closed before. */
  lemma CloseReleases(s: State, a: AdapterId, r: Response)
    requires Counted(s) && a in s.adapters && Answered(s, a, r)
    ensures !Holds(Closed(Attempt(s, a, r).0, a), a) <==> !s.adapters[a].closed
  {
    LoginKeepsCounted(s, a, r.loginOk);
  }

  /** An adapter that is used again after its close logs in once more, and closing it again releases nothing:
      afterwards it counts until the session is lost. */
  lemma UseAfterCloseLeaks(s: State, a: AdapterId, rows: Rows)
    requires Counted(s) && a in s.adapters && s.adapters[a].closed
    ensures var s' := Closed(Attempt(s, a, Response(true, Rows(rows))).0, a);
            Holds(s', a) && s'.count >= 1 && s'.open
  {
    LoginKeepsCounted(s, a, true);
    var s' := LoggedIn(s, a, true).value;
    assert a in Holders(s');
  }

  /** And nothing but a lost session ends that. */
  lemma LeakLasts(s: State, a: AdapterId, e: Event)
    requires Counted(s) && a in s.adapters && s.adapters[a].closed && Holds(s, a)
    ensures Holds(Step(s, e), a) && Step(s, e).adapters[a].closed <==> Step(s, e).generation == s.generation
  {
    if e.Try? && e.a in s.adapters {
      assert e.a == a ==> LoggedIn(s, a, e.response.loginOk) == Some(s);
    }
  }
}
