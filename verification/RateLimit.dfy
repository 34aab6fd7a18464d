/** Rate limiting: the in-process token bucket, the shared fixed-window counter, and the limiter that counts on the
    shared counter and falls back to its bucket while that is unreachable. Times and tokens are reals. */
module RateLimits {
  import opened Wrappers

  /** `window` is the length of a counting window, `cooldown` how long the counter is left alone after a failure. */
  datatype Config = Config(rate: real, capacity: real, window: real, cooldown: real)

  predicate Sane(c: Config) {
    c.rate > 0.0 && c.capacity > 0.0 && c.window > 0.0 && c.cooldown >= 0.0
  }

  function Min(a: real, b: real): real {
    if a < b then a else b
  }

  // ---------------------------------------------------------------- products, by name

  function Product(a: real, b: real): real {
    a * b
  }

  lemma ProductNonNegative(a: real, b: real)
    requires a >= 0.0 && b >= 0.0
    ensures Product(a, b) >= 0.0
  {
  }

  lemma ProductAdds(a: real, b: real, r: real)
    ensures Product(a + b, r) == Product(a, r) + Product(b, r)
  {
  }

  lemma ProductMonotone(a: real, b: real, r: real)
    requires r >= 0.0 && a <= b
    ensures Product(a, r) <= Product(b, r)
  {
    ProductNonNegative(b - a, r);
    ProductAdds(a, b - a, r);
  }

  lemma ProductQuotient(a: real, b: real)
    requires b != 0.0
    ensures Product(a / b, b) == a
  {
  }

  // ---------------------------------------------------------------- the token bucket

  datatype Bucket = Bucket(tokens: real, updated: real)

  function Refill(c: Config, b: Bucket, now: real): Bucket {
    if now > b.updated then Bucket(Min(c.capacity, b.tokens + Product(now - b.updated, c.rate)), now) else b
  }

  predicate Grants(c: Config, b: Bucket, now: real, tokens: real) {
    Refill(c, b, now).tokens >= tokens
  }

  function Take(c: Config, b: Bucket, now: real, tokens: real): Bucket {
    var full := Refill(c, b, now);
    if full.tokens >= tokens then full.(tokens := full.tokens - tokens) else full
  }

  /** After trying at each of the first `n` of `times` in turn. */
  function Tries(c: Config, b: Bucket, times: seq<real>, n: nat, tokens: real): Bucket
    requires n <= |times|
  {
    if n == 0 then b else Take(c, Tries(c, b, times, n - 1, tokens), times[n - 1], tokens)
  }

  datatype Outcome = Acquired | TimedOut | Refused | StillWaiting

  /** The first `n` tries find too few tokens, each before the deadline. */
  ghost predicate AllFail(c: Config, b: Bucket, times: seq<real>, n: nat, tokens: real, deadline: Option<real>)
    requires n <= |times|
  {
    forall i {:trigger Fails(c, b, times, i, tokens)} :: 0 <= i < n ==> Fails(c, b, times, i, tokens) && !Late(deadline, times[i])
  }

  /** How `n` tries can end: only the last of them can succeed or be the one that comes too late. */
  ghost predicate Ends(c: Config, b: Bucket, times: seq<real>, n: nat, tokens: real, deadline: Option<real>, outcome: Outcome) {
    && n <= |times|
    && match outcome
       case Refused => n == 0
       case Acquired => n > 0 && AllFail(c, b, times, n - 1, tokens, deadline) && !Fails(c, b, times, n - 1, tokens)
       case TimedOut =>
         && n > 0 && AllFail(c, b, times, n - 1, tokens, deadline) && Fails(c, b, times, n - 1, tokens)
         && Late(deadline, times[n - 1])
       case StillWaiting => n == |times| && AllFail(c, b, times, n, tokens, deadline)
  }

  predicate Fails(c: Config, b: Bucket, times: seq<real>, i: nat, tokens: real)
    requires i < |times|
  {
    !Grants(c, Tries(c, b, times, i, tokens), times[i], tokens)
  }

  predicate Late(deadline: Option<real>, now: real) {
    deadline.Some? && deadline.value <= now
  }

  lemma OneMoreFails(c: Config, b: Bucket, times: seq<real>, n: nat, tokens: real, deadline: Option<real>)
    requires n < |times| && AllFail(c, b, times, n, tokens, deadline)
    requires Fails(c, b, times, n, tokens) && !Late(deadline, times[n])
    ensures AllFail(c, b, times, n + 1, tokens, deadline)
  {
  }

  /** A wait is over at the first try that succeeds or comes at the deadline or later, and times out only there. */
  lemma WaitEndsInTime(c: Config, b: Bucket, times: seq<real>, n: nat, tokens: real, deadline: real, outcome: Outcome)
    requires Ends(c, b, times, n, tokens, Some(deadline), outcome)
    ensures forall i :: 0 <= i < n - 1 ==> times[i] < deadline
    ensures outcome == TimedOut ==> n > 0 && deadline <= times[n - 1]
    ensures outcome == StillWaiting ==> forall i :: 0 <= i < |times| ==> times[i] < deadline
  {
    var all := if outcome == StillWaiting then n else n - 1;
    if n > 0 {
      forall i | 0 <= i < all ensures times[i] < deadline {
        assert Fails(c, b, times, i, tokens);
      }
    }
  }

  class RateLimiter {
    const config: Config
    var tokens: real
    var updated: real

    constructor (config: Config, now: real)
      ensures this.config == config && State() == Bucket(config.capacity, now)
    {
      this.config := config;
      tokens, updated := config.capacity, now;
    }

    function State(): Bucket
      reads this
    {
      Bucket(tokens, updated)
    }

    method Replenish(now: real)
      modifies this
      ensures State() == Refill(config, old(State()), now)
      ensures now <= old(updated) ==> tokens == old(tokens) && updated == old(updated)
      ensures now > old(updated) ==>
                updated == now && tokens == Min(config.capacity, old(tokens) + Product(now - old(updated), config.rate))
    {
      var elapsed := now - updated;
      if elapsed > 0.0 {
        tokens := Min(config.capacity, tokens + Product(elapsed, config.rate));
        updated := now;
      }
    }

    method TryAcquire(amount: real, now: real) returns (ok: bool)
      modifies this
      ensures ok == Grants(config, old(State()), now, amount) && State() == Take(config, old(State()), now, amount)
    {
      Replenish(now);
      if tokens >= amount {
        tokens := tokens - amount;
        return true;
      }
      ok := false;
    }

    /** Tries again at each clock reading in `times` until a try succeeds or the deadline has passed. */
    method Acquire(amount: real, deadline: Option<real>, times: seq<real>) returns (outcome: Outcome, tries: nat)
      modifies this
      ensures outcome == Refused <==> amount > config.capacity
      ensures Ends(config, old(State()), times, tries, amount, deadline, outcome)
      ensures State() == Tries(config, old(State()), times, tries, amount)
    {
      tries := 0;
      if amount > config.capacity {
        return Refused, 0;
      }
      ghost var was := State();
      while tries < |times|
        invariant tries <= |times| && State() == Tries(config, was, times, tries, amount)
        invariant AllFail(config, was, times, tries, amount, deadline)
      {
        var now := times[tries];
        tries := tries + 1;
        var ok := TryAcquire(amount, now);
        if ok {
          return Acquired, tries;
        }
        assert Fails(config, was, times, tries - 1, amount);
        if deadline.Some? && deadline.value - now <= 0.0 {
          return TimedOut, tries;
        }
        OneMoreFails(config, was, times, tries - 1, amount, deadline);
      }
      outcome := StillWaiting;
    }
  }

  /** The wait the limiter computes is long enough: whoever comes first after it gets the tokens. */
  lemma WaitSuffices(c: Config, b: Bucket, now: real, tokens: real, later: real)
    requires Sane(c) && tokens <= c.capacity && !Grants(c, b, now, tokens) && b.updated <= now
    requires later >= now + (tokens - Refill(c, b, now).tokens) / c.rate
    ensures Grants(c, Take(c, b, now, tokens), later, tokens)
  {
    var full := Refill(c, b, now);
    var wait := (tokens - full.tokens) / c.rate;
    ProductQuotient(tokens - full.tokens, c.rate);
    ProductMonotone(wait, later - now, c.rate);
  }

  // ---------------------------------------------------------------- the shared window

  /** The counter under the limiter's key, with the end of its time to live. */
  datatype Window = Window(count: int, expiresAt: real)

  function Current(w: Option<Window>, now: real): int {
    if w.Some? && w.value.expiresAt > now then w.value.count else 0
  }

  function CountUp(c: Config, w: Option<Window>, now: real, amount: int): Window {
    var current := Current(w, now);
    Window(current + amount, if current == 0 then now + c.window else if w.Some? then w.value.expiresAt else now)
  }

  function Ceil(x: real): (n: int)
    ensures n as real - 1.0 < x <= n as real
  {
    if x.Floor as real == x then x.Floor else x.Floor + 1
  }

  /** What an attempt for `tokens` counts: the least whole number from 1 on that is enough. */
  function Amount(tokens: real): (n: int)
    ensures n >= 1 && tokens <= n as real && (n > 1 ==> (n - 1) as real < tokens)
  {
    if Ceil(tokens) < 1 then 1 else Ceil(tokens)
  }

  /** The cache backend that holds the counter. Whether a call reaches it is up to the environment. */
  class Counter {
    var window: Option<Window>

    constructor ()
      ensures window == None
    {
      window := None;
    }

    method IncrBy(config: Config, amount: int, now: real, reachable: bool) returns (count: Option<int>)
      modifies this`window
      ensures reachable ==> window == Some(CountUp(config, old(window), now, amount)) && count == Some(window.value.count)
      ensures reachable && (old(window).None? || old(window).value.expiresAt <= now || old(window).value.count == 0) ==>
                window == Some(Window(amount, now + config.window))
      ensures reachable && old(window).Some? && old(window).value.expiresAt > now && old(window).value.count != 0 ==>
                window == Some(Window(old(window).value.count + amount, old(window).value.expiresAt))
      ensures !reachable ==> window == old(window) && count == None
    {
      if !reachable {
        return None;
      }
      var current := 0;
      var expiresAt := now;
      if window.Some? {
        if window.value.expiresAt <= now {
          window := None;
        } else {
          current, expiresAt := window.value.count, window.value.expiresAt;
        }
      }
      if current == 0 {
        expiresAt := now + config.window;
      }
      window := Some(Window(current + amount, expiresAt));
      count := Some(current + amount);
    }
  }

  // ---------------------------------------------------------------- processes that share a counter

  datatype Process = Process(bucket: Bucket, retryAt: real)

  datatype World = World(window: Option<Window>, processes: seq<Process>)

  /** One try of one process: at the counter if it may and can, else at its bucket; or, for a process that waits in
      its bucket already, at the bucket right away. */
  datatype Event =
    | Attempt(process: nat, now: real, tokens: real, reachable: bool)
    | Retry(process: nat, now: real, tokens: real)

  predicate UsesCounter(p: Process, e: Event) {
    e.Attempt? && p.retryAt <= e.now && e.reachable
  }

  /** Requests beyond the capacity are turned away before anything is counted. */
  predicate TooMuch(c: Config, tokens: real) {
    Amount(tokens) as real > c.capacity
  }

  predicate AdmittedByCounter(c: Config, w: World, e: Event) {
    && e.process < |w.processes| && !TooMuch(c, e.tokens) && UsesCounter(w.processes[e.process], e)
    && CountUp(c, w.window, e.now, Amount(e.tokens)).count as real <= c.capacity
  }

  predicate AdmittedByBucket(c: Config, w: World, e: Event) {
    && e.process < |w.processes| && !TooMuch(c, e.tokens) && !UsesCounter(w.processes[e.process], e)
    && Grants(c, w.processes[e.process].bucket, e.now, e.tokens)
  }

  function StepProcess(c: Config, p: Process, e: Event): Process {
    if UsesCounter(p, e) then p
    else
      Process(Take(c, p.bucket, e.now, e.tokens),
              if e.Attempt? && p.retryAt <= e.now then e.now + c.cooldown else p.retryAt)
  }

  function Step(c: Config, w: World, e: Event): World {
    if e.process >= |w.processes| || TooMuch(c, e.tokens) then w
    else
      var p := w.processes[e.process];
      World(if UsesCounter(p, e) then Some(CountUp(c, w.window, e.now, Amount(e.tokens))) else w.window,
            w.processes[e.process := StepProcess(c, p, e)])
  }

  /** The world before event `i`. */
  function Before(c: Config, w: World, events: seq<Event>, i: nat): World
    requires i <= |events|
  {
    if i == 0 then w else Step(c, Before(c, w, events, i - 1), events[i - 1])
  }

  function Run(c: Config, w: World, events: seq<Event>): World {
    Before(c, w, events, |events|)
  }

  predicate AdmittedAt(c: Config, w: World, events: seq<Event>, i: nat)
    requires i < |events|
  {
    AdmittedByCounter(c, Before(c, w, events, i), events[i]) || AdmittedByBucket(c, Before(c, w, events, i), events[i])
  }

  lemma {:induction false} BeforePrefix(c: Config, w: World, a: seq<Event>, b: seq<Event>, i: nat)
    requires i <= |a|
    ensures Before(c, w, a + b, i) == Before(c, w, a, i)
  {
    if i > 0 {
      BeforePrefix(c, w, a, b, i - 1);
    }
  }

  lemma RunLast(c: Config, w: World, events: seq<Event>)
    requires events != []
    ensures Run(c, w, events) == Step(c, Run(c, w, events[..|events| - 1]), events[|events| - 1])
  {
    var init, last := events[..|events| - 1], events[|events| - 1];
    assert events == init + [last];
    BeforePrefix(c, w, init, [last], |init|);
  }

  /** A clock reading at one try, and whether the counter can be reached then. */
  datatype Reading = Reading(now: real, reachable: bool)

  /** `events` are tries of process 0 at the first of `readings`. */
  ghost predicate TriesAt(readings: seq<Reading>, events: seq<Event>, tokens: real) {
    |events| <= |readings| && forall i :: 0 <= i < |events| ==> IsTry(events[i], readings[i], tokens)
  }

  /** The first `n` events admit nothing, each before the deadline. */
  ghost predicate NoneAdmits(c: Config, w: World, events: seq<Event>, n: nat, deadline: Option<real>)
    requires n <= |events|
  {
    forall i {:trigger AdmittedAt(c, w, events, i)} :: 0 <= i < n ==> !AdmittedAt(c, w, events, i) && !Late(deadline, events[i].now)
  }

  /** How one call can end: only its last try may admit, or come after the deadline. */
  ghost predicate CallEnds(c: Config, w: World, events: seq<Event>, deadline: Option<real>, outcome: Outcome) {
    var n := |events|;
    match outcome
    case Refused => n == 0
    case Acquired => n > 0 && NoneAdmits(c, w, events, n - 1, deadline) && AdmittedAt(c, w, events, n - 1)
    case TimedOut =>
      && n > 0 && NoneAdmits(c, w, events, n - 1, deadline) && !AdmittedAt(c, w, events, n - 1)
      && Late(deadline, events[n - 1].now)
    case StillWaiting => NoneAdmits(c, w, events, n, deadline)
  }

  predicate IsTry(e: Event, r: Reading, tokens: real) {
    e.process == 0 && e.now == r.now && e.tokens == tokens && (e.Attempt? ==> e.reachable == r.reachable)
  }

  lemma TriesAtAppend(readings: seq<Reading>, a: seq<Event>, b: seq<Event>, tokens: real)
    requires TriesAt(readings, a, tokens) && TriesAt(readings[|a|..], b, tokens)
    ensures TriesAt(readings, a + b, tokens)
  {
    forall i | 0 <= i < |a + b| ensures IsTry((a + b)[i], readings[i], tokens) {
      assert i >= |a| ==> readings[|a|..][i - |a|] == readings[i];
    }
  }

  function Times(readings: seq<Reading>): (times: seq<real>)
    ensures |times| == |readings| && forall i :: 0 <= i < |times| ==> times[i] == readings[i].now
  {
    seq(|readings|, i requires 0 <= i < |readings| => readings[i].now)
  }

  /** The tries of a call that finds the counter out of use at its first reading. */
  function BucketEvents(readings: seq<Reading>, n: nat, tokens: real): (events: seq<Event>)
    requires n <= |readings|
    ensures |events| == n && TriesAt(readings, events, tokens)
  {
    if n == 0 then []
    else if n == 1 then [Attempt(0, readings[0].now, tokens, readings[0].reachable)]
    else BucketEvents(readings, n - 1, tokens) + [Retry(0, readings[n - 1].now, tokens)]
  }

  /** Those tries are the tries of the bucket. */
  lemma {:induction false} BucketWait(c: Config, w: World, readings: seq<Reading>, n: nat, tokens: real)
    requires |w.processes| == 1 && !TooMuch(c, tokens) && 0 < n <= |readings|
    requires !UsesCounter(w.processes[0], Attempt(0, readings[0].now, tokens, readings[0].reachable))
    ensures var p, events, times := w.processes[0], BucketEvents(readings, n, tokens), Times(readings);
            && Run(c, w, events) == World(w.window, [Process(Tries(c, p.bucket, times, n, tokens),
                 if p.retryAt <= readings[0].now then readings[0].now + c.cooldown else p.retryAt)])
            && forall i {:trigger AdmittedAt(c, w, events, i)} :: 0 <= i < n ==> (AdmittedAt(c, w, events, i) <==> !Fails(c, p.bucket, times, i, tokens))
  {
    var p, events, times := w.processes[0], BucketEvents(readings, n, tokens), Times(readings);
    if n == 1 {
      assert Before(c, w, events, 1) == Step(c, w, events[0]);
      assert Tries(c, p.bucket, times, 1, tokens) == Take(c, p.bucket, times[0], tokens);
    } else {
      var init := BucketEvents(readings, n - 1, tokens);
      BucketWait(c, w, readings, n - 1, tokens);
      var last := Retry(0, readings[n - 1].now, tokens);
      var here := Run(c, w, init);
      assert Before(c, here, [last], 0) == here && Before(c, here, [last], 1) == Step(c, here, last);
      RunAppend(c, w, init, [last]);
      assert AdmittedAt(c, w, events, n - 1) <==> AdmittedAt(c, here, [last], 0);
    }
  }

  lemma RunAppend(c: Config, w: World, a: seq<Event>, b: seq<Event>)
    ensures Run(c, w, a + b) == Run(c, Run(c, w, a), b)
    ensures forall i {:trigger AdmittedAt(c, w, a + b, i)} :: 0 <= i < |a| ==> (AdmittedAt(c, w, a + b, i) <==> AdmittedAt(c, w, a, i))
    ensures forall i {:trigger AdmittedAt(c, Run(c, w, a), b, i)} :: 0 <= i < |b| ==> (AdmittedAt(c, w, a + b, |a| + i) <==> AdmittedAt(c, Run(c, w, a), b, i))
  {
    forall i | 0 <= i <= |a| ensures Before(c, w, a + b, i) == Before(c, w, a, i) {
      BeforePrefix(c, w, a, b, i);
    }
    forall i | 0 <= i <= |b| ensures Before(c, w, a + b, |a| + i) == Before(c, Run(c, w, a), b, i) {
      BeforeSuffix(c, w, a, b, i);
    }
  }

  lemma {:induction false} BeforeSuffix(c: Config, w: World, a: seq<Event>, b: seq<Event>, i: nat)
    requires i <= |b|
    ensures Before(c, w, a + b, |a| + i) == Before(c, Run(c, w, a), b, i)
  {
    if i == 0 {
      BeforePrefix(c, w, a, b, |a|);
    } else {
      BeforeSuffix(c, w, a, b, i - 1);
    }
  }

  lemma NoneAdmitsAppend(c: Config, w: World, a: seq<Event>, b: seq<Event>, n: nat, deadline: Option<real>)
    requires n <= |b| && NoneAdmits(c, w, a, |a|, deadline) && NoneAdmits(c, Run(c, w, a), b, n, deadline)
    ensures NoneAdmits(c, w, a + b, |a| + n, deadline)
  {
    RunAppend(c, w, a, b);
    forall i | 0 <= i < |a| + n ensures !AdmittedAt(c, w, a + b, i) && !Late(deadline, (a + b)[i].now) {
      if i >= |a| {
        assert AdmittedAt(c, w, a + b, |a| + (i - |a|)) <==> AdmittedAt(c, Run(c, w, a), b, i - |a|);
      }
    }
  }

  /** Tries that admit nothing before a call leave how the call ends. */
  lemma CallEndsLater(c: Config, w: World, a: seq<Event>, b: seq<Event>, deadline: Option<real>, outcome: Outcome)
    requires NoneAdmits(c, w, a, |a|, deadline) && b != [] && outcome != Refused
    requires CallEnds(c, Run(c, w, a), b, deadline, outcome)
    ensures CallEnds(c, w, a + b, deadline, outcome)
  {
    AdmittedLater(c, w, a, b, |b| - 1);
    if outcome == StillWaiting {
      NoneAdmitsAppend(c, w, a, b, |b|, deadline);
    } else {
      NoneAdmitsAppend(c, w, a, b, |b| - 1, deadline);
    }
  }

  lemma AdmittedLater(c: Config, w: World, a: seq<Event>, b: seq<Event>, i: nat)
    requires i < |b|
    ensures AdmittedAt(c, w, a + b, |a| + i) <==> AdmittedAt(c, Run(c, w, a), b, i)
    ensures (a + b)[|a| + i] == b[i]
  {
    RunAppend(c, w, a, b);
  }

  /** One more try that admits nothing in time keeps a call going. */
  lemma CallGoesOn(c: Config, w: World, events: seq<Event>, e: Event, deadline: Option<real>)
    requires NoneAdmits(c, w, events, |events|, deadline)
    ensures var all, here := events + [e], Run(c, w, events);
            && Run(c, w, all) == Step(c, here, e)
            && NoneAdmits(c, w, all, |events|, deadline)
            && (AdmittedAt(c, w, all, |events|) <==> AdmittedByCounter(c, here, e) || AdmittedByBucket(c, here, e))
            && (!AdmittedAt(c, w, all, |events|) && !Late(deadline, e.now) ==> NoneAdmits(c, w, all, |all|, deadline))
  {
    var here := Run(c, w, events);
    assert Before(c, here, [e], 0) == here;
    assert Before(c, here, [e], 1) == Step(c, here, e);
    AdmittedLater(c, w, events, [e], 0);
    BeforeSuffix(c, w, events, [e], 1);
    NoneAdmitsAppend(c, w, events, [e], 0, deadline);
    if !AdmittedAt(c, here, [e], 0) && !Late(deadline, e.now) {
      NoneAdmitsAppend(c, w, events, [e], 1, deadline);
    }
  }

  /** A call that finds the counter out of use ends as its wait at the bucket ends. */
  lemma WaitEnds(c: Config, here: World, rest: seq<Reading>, tries: nat, tokens: real, deadline: Option<real>, outcome: Outcome)
    requires |here.processes| == 1 && !TooMuch(c, tokens) && rest != [] && outcome != Refused
    requires !UsesCounter(here.processes[0], Attempt(0, rest[0].now, tokens, rest[0].reachable))
    requires Ends(c, here.processes[0].bucket, Times(rest), tries, tokens, deadline, outcome)
    ensures 0 < tries <= |rest| && CallEnds(c, here, BucketEvents(rest, tries, tokens), deadline, outcome)
  {
    var deny := if outcome == StillWaiting then tries else tries - 1;
    WaitDenies(c, here, rest, tries, deny, tokens, deadline);
    WaitAdmits(c, here, rest, tries, tries - 1, tokens);
  }

  lemma WaitAdmits(c: Config, here: World, rest: seq<Reading>, tries: nat, i: nat, tokens: real)
    requires |here.processes| == 1 && !TooMuch(c, tokens) && rest != []
    requires !UsesCounter(here.processes[0], Attempt(0, rest[0].now, tokens, rest[0].reachable))
    requires i < tries <= |rest|
    ensures AdmittedAt(c, here, BucketEvents(rest, tries, tokens), i) <==> !Fails(c, here.processes[0].bucket, Times(rest), i, tokens)
    ensures BucketEvents(rest, tries, tokens)[i].now == Times(rest)[i]
  {
    BucketWait(c, here, rest, tries, tokens);
  }

  lemma WaitDenies(c: Config, here: World, rest: seq<Reading>, tries: nat, deny: nat, tokens: real, deadline: Option<real>)
    requires |here.processes| == 1 && !TooMuch(c, tokens) && rest != []
    requires !UsesCounter(here.processes[0], Attempt(0, rest[0].now, tokens, rest[0].reachable))
    requires deny <= tries <= |rest| && AllFail(c, here.processes[0].bucket, Times(rest), deny, tokens, deadline)
    ensures NoneAdmits(c, here, BucketEvents(rest, tries, tokens), deny, deadline)
  {
    var events := BucketEvents(rest, tries, tokens);
    forall i | 0 <= i < deny ensures !AdmittedAt(c, here, events, i) && !Late(deadline, events[i].now) {
      WaitAdmits(c, here, rest, tries, i, tokens);
    }
  }

  /** The same of a call that counts on the shared counter. */
  lemma CallEndsInTime(c: Config, w: World, readings: seq<Reading>, events: seq<Event>, tokens: real, deadline: real, outcome: Outcome)
    requires TriesAt(readings, events, tokens) && CallEnds(c, w, events, Some(deadline), outcome)
    ensures forall i :: 0 <= i < |events| - 1 ==> readings[i].now < deadline
    ensures outcome == TimedOut ==> events != [] && deadline <= readings[|events| - 1].now
    ensures outcome == StillWaiting ==> forall i :: 0 <= i < |events| ==> readings[i].now < deadline
  {
    var n := |events|;
    var all := if outcome == StillWaiting then n else n - 1;
    if n > 0 {
      assert IsTry(events[n - 1], readings[n - 1], tokens);
      forall i | 0 <= i < all ensures readings[i].now < deadline {
        assert IsTry(events[i], readings[i], tokens) && !AdmittedAt(c, w, events, i);
      }
    }
  }

  class SharedRateLimiter {
    const config: Config
    const counter: Counter
    const fallback: RateLimiter
    var retryAt: real

    constructor (config: Config, counter: Counter, now: real)
      ensures this.config == config && this.counter == counter && fresh(fallback) && fallback.config == config
      ensures State() == World(counter.window, [Process(Bucket(config.capacity, now), 0.0)])
    {
      this.config, this.counter, retryAt := config, counter, 0.0;
      fallback := new RateLimiter(config, now);
    }

    /** This process alone, with the counter. */
    function State(): World
      reads this, fallback, counter
    {
      World(counter.window, [Process(fallback.State(), retryAt)])
    }

    /** The shared count after this attempt, or nothing during a cooldown and when the counter fails. */
    method TryCount(amount: int, now: real, reachable: bool) returns (count: Option<int>)
      modifies this`retryAt, counter`window
      ensures now < old(retryAt) ==> count == None && retryAt == old(retryAt) && counter.window == old(counter.window)
      ensures now >= old(retryAt) && reachable ==>
                && counter.window == Some(CountUp(config, old(counter.window), now, amount))
                && count == Some(counter.window.value.count) && retryAt == old(retryAt)
      ensures now >= old(retryAt) && !reachable ==>
                count == None && retryAt == now + config.cooldown && counter.window == old(counter.window)
    {
      if now < retryAt {
        return None;
      }
      count := counter.IncrBy(config, amount, now, reachable);
      if count == None {
        retryAt := now + config.cooldown;
      }
    }

    /** One try is one step of the machine. */
    method TryAcquire(tokens: real, now: real, reachable: bool) returns (ok: bool)
      requires fallback.config == config
      modifies this`retryAt, counter`window, fallback
      ensures var w, e := old(State()), Attempt(0, now, tokens, reachable);
              ok == (AdmittedByCounter(config, w, e) || AdmittedByBucket(config, w, e)) && State() == Step(config, w, e)
    {
      var amount := Amount(tokens);
      if amount as real > config.capacity {
        return false;
      }
      var count := TryCount(amount, now, reachable);
      if count == None {
        ok := fallback.TryAcquire(tokens, now);
      } else {
        ok := count.value as real <= config.capacity;
      }
    }

    /** The rest of a call whose try at the counter has just failed; `here` is the state before that try. */
    method WaitAtFallback(ghost here: World, tokens: real, deadline: Option<real>, readings: seq<Reading>)
      returns (outcome: Outcome, ghost events: seq<Event>)
      requires fallback.config == config && !TooMuch(config, tokens) && readings != [] && |here.processes| == 1
      requires var e := Attempt(0, readings[0].now, tokens, readings[0].reachable);
               && !UsesCounter(here.processes[0], e) && counter.window == here.window
               && fallback.State() == here.processes[0].bucket && retryAt == StepProcess(config, here.processes[0], e).retryAt
      modifies fallback
      ensures TriesAt(readings, events, tokens) && CallEnds(config, here, events, deadline, outcome) && outcome != Refused
      ensures events != [] && (outcome == StillWaiting ==> |events| == |readings|)
      ensures State() == Run(config, here, events)
    {
      var tries;
      outcome, tries := fallback.Acquire(tokens, deadline, Times(readings));
      WaitEnds(config, here, readings, tries, tokens, deadline, outcome);
      BucketWait(config, here, readings, tries, tokens);
      events := BucketEvents(readings, tries, tokens);
    }

    /** Polls the counter until it admits; once the counter fails, waits at the bucket for good. `readings` are the
        clock readings of its tries; `events` records them. */
    method Acquire(tokens: real, deadline: Option<real>, readings: seq<Reading>)
      returns (outcome: Outcome, ghost events: seq<Event>)
      requires fallback.config == config
      modifies this`retryAt, counter`window, fallback
      ensures outcome == Refused <==> TooMuch(config, tokens)
      ensures TriesAt(readings, events, tokens) && CallEnds(config, old(State()), events, deadline, outcome)
      ensures outcome == StillWaiting ==> |events| == |readings|
      ensures State() == Run(config, old(State()), events)
    {
      events := [];
      var amount := Amount(tokens);
      if tokens > config.capacity || amount as real > config.capacity {
        return Refused, [];
      }
      ghost var was := State();
      var i := 0;
      while i < |readings|
        invariant |events| == i <= |readings|
        invariant State() == Run(config, was, events)
        invariant TriesAt(readings, events, tokens) && NoneAdmits(config, was, events, |events|, deadline)
      {
        var now, reachable := readings[i].now, readings[i].reachable;
        ghost var here, e := State(), Attempt(0, now, tokens, reachable);
        CallGoesOn(config, was, events, e, deadline);
        var count := TryCount(amount, now, reachable);
        if count == None {
          ghost var waiting;
          outcome, waiting := WaitAtFallback(here, tokens, deadline, readings[i..]);
          RunAppend(config, was, events, waiting);
          TriesAtAppend(readings, events, waiting, tokens);
          CallEndsLater(config, was, events, waiting, deadline, outcome);
          return outcome, events + waiting;
        }
        events, i := events + [e], i + 1;
        if count.value as real <= config.capacity {
          return Acquired, events;
        }
        if deadline.Some? && deadline.value - now <= 0.0 {
          return TimedOut, events;
        }
      }
      outcome := StillWaiting;
    }
  }

  // ---------------------------------------------------------------- how much gets through

  /** Tokens handed out on the word of the counter. */
  function ByCounter(c: Config, w: World, events: seq<Event>): real {
    if events == [] then 0.0
    else
      var init, e := events[..|events| - 1], events[|events| - 1];
      ByCounter(c, w, init) + (if AdmittedByCounter(c, Run(c, w, init), e) then e.tokens else 0.0)
  }

  /** Tokens handed out by the bucket of process `p`. */
  function ByBucket(c: Config, w: World, events: seq<Event>, p: nat): real {
    if events == [] then 0.0
    else
      var init, e := events[..|events| - 1], events[|events| - 1];
      ByBucket(c, w, init, p) + (if e.process == p && AdmittedByBucket(c, Run(c, w, init), e) then e.tokens else 0.0)
  }

  /** All tokens handed out. */
  function Admitted(c: Config, w: World, events: seq<Event>): real {
    if events == [] then 0.0
    else
      var init, e := events[..|events| - 1], events[|events| - 1];
      var before := Run(c, w, init);
      Admitted(c, w, init) + (if AdmittedByCounter(c, before, e) || AdmittedByBucket(c, before, e) then e.tokens else 0.0)
  }

  function Buckets(c: Config, w: World, events: seq<Event>, n: nat): real {
    if n == 0 then 0.0 else Buckets(c, w, events, n - 1) + ByBucket(c, w, events, n - 1)
  }

  /** Nothing is asked back, time does not run backwards, and everything happens between `s` and `e`. */
  ghost predicate Within(events: seq<Event>, s: real, e: real) {
    && (forall i :: 0 <= i < |events| ==> events[i].tokens >= 0.0 && s <= events[i].now <= e)
    && (forall i, j :: 0 <= i < j < |events| ==> events[i].now <= events[j].now)
  }

  ghost predicate BucketOk(c: Config, b: Bucket, now: real) {
    0.0 <= b.tokens <= c.capacity && b.updated <= now
  }

  ghost predicate WindowOk(c: Config, w: Option<Window>, now: real) {
    w.Some? ==> w.value.count >= 1 && w.value.expiresAt <= now + c.window
  }

  /** What holds at time `now` when everything so far happened by then. */
  ghost predicate Settled(c: Config, w: World, now: real) {
    && WindowOk(c, w.window, now)
    && forall p {:trigger w.processes[p]} :: 0 <= p < |w.processes| ==> BucketOk(c, w.processes[p].bucket, now)
  }

  /** A refill never takes tokens away, not even when the clock went back, and never turns the time back. */
  lemma RefillOnlyAdds(c: Config, b: Bucket, now: real)
    requires Sane(c) && b.tokens <= c.capacity
    ensures b.tokens <= Refill(c, b, now).tokens <= c.capacity
    ensures b.updated <= Refill(c, b, now).updated && now <= Refill(c, b, now).updated
  {
    if now > b.updated {
      ProductNonNegative(now - b.updated, c.rate);
    }
  }

  lemma RefillKeepsBucketOk(c: Config, b: Bucket, now: real)
    requires Sane(c) && BucketOk(c, b, now)
    ensures BucketOk(c, Refill(c, b, now), now)
  {
    if now > b.updated {
      ProductNonNegative(now - b.updated, c.rate);
    }
  }

  lemma TakeKeepsBucketOk(c: Config, b: Bucket, now: real, tokens: real)
    requires Sane(c) && BucketOk(c, b, now) && tokens >= 0.0
    ensures BucketOk(c, Take(c, b, now, tokens), now)
  {
    RefillKeepsBucketOk(c, b, now);
  }

  lemma StepKeepsSettled(c: Config, w: World, e: Event, before: real)
    requires Sane(c) && Settled(c, w, before) && before <= e.now && e.tokens >= 0.0
    ensures Settled(c, Step(c, w, e), e.now) && |Step(c, w, e).processes| == |w.processes|
  {
    if e.process < |w.processes| {
      TakeKeepsBucketOk(c, w.processes[e.process].bucket, e.now, e.tokens);
    }
  }

  /** The time reached after `events`, starting at `s`. */
  function Reached(events: seq<Event>, s: real): real {
    if events == [] then s else events[|events| - 1].now
  }

  lemma {:induction false} RunKeepsSettled(c: Config, w: World, events: seq<Event>, s: real, e: real)
    requires Sane(c) && Settled(c, w, s) && Within(events, s, e) && s <= e
    ensures Settled(c, Run(c, w, events), Reached(events, s)) && |Run(c, w, events).processes| == |w.processes|
    ensures s <= Reached(events, s) <= e
  {
    if events != [] {
      var init, last := events[..|events| - 1], events[|events| - 1];
      RunLast(c, w, events);
      RunKeepsSettled(c, w, init, s, e);
      StepKeepsSettled(c, Run(c, w, init), last, Reached(init, s));
    }
  }

  /** What flows into a bucket between `from` and `to`. */
  function Inflow(c: Config, from: real, to: real): real {
    if to > from then Product(to - from, c.rate) else 0.0
  }

  lemma InflowAdds(c: Config, s: real, a: real, b: real)
    requires Sane(c) && a <= b
    ensures Inflow(c, s, a) <= Inflow(c, s, b) && (s <= a ==> Inflow(c, s, b) == Inflow(c, s, a) + Inflow(c, a, b))
  {
    ProductMonotone(a - s, b - s, c.rate);
    ProductAdds(a - s, b - a, c.rate);
    ProductNonNegative(b - a, c.rate);
    if b > s {
      ProductNonNegative(b - s, c.rate);
    }
    if a == s {
      ProductAdds(0.0, 0.0, c.rate);
    }
  }

  lemma RefillIsInflow(c: Config, b: Bucket, now: real)
    requires Sane(c) && b.tokens <= c.capacity
    ensures Refill(c, b, now).tokens <= b.tokens + Inflow(c, b.updated, now) && Refill(c, b, now).tokens <= c.capacity
  {
  }

  /** The potential of one bucket: what it gave plus what it holds grows no faster than it refills. */
  ghost predicate BucketPotential(c: Config, given: real, b: Bucket, s: real) {
    given + b.tokens <= c.capacity + Inflow(c, s, b.updated) && (b.updated < s ==> given == 0.0)
  }

  lemma TakeKeepsPotential(c: Config, given: real, b: Bucket, s: real, now: real, tokens: real)
    requires Sane(c) && BucketPotential(c, given, b, s) && BucketOk(c, b, now) && s <= now && tokens >= 0.0
    ensures BucketPotential(c, given + (if Grants(c, b, now, tokens) then tokens else 0.0), Take(c, b, now, tokens), s)
  {
    RefillIsInflow(c, b, now);
    InflowAdds(c, s, b.updated, now);
    InflowAdds(c, s, s, now);
  }

  lemma {:induction false} BucketGrowth(c: Config, w: World, events: seq<Event>, p: nat, s: real, e: real)
    requires Sane(c) && Settled(c, w, s) && Within(events, s, e) && s <= e && p < |w.processes|
    ensures |Run(c, w, events).processes| == |w.processes|
    ensures BucketPotential(c, ByBucket(c, w, events, p), Run(c, w, events).processes[p].bucket, s)
  {
    RunKeepsSettled(c, w, events, s, e);
    if events == [] {
      InflowAdds(c, s, w.processes[p].bucket.updated, s);
    } else {
      var init, last := events[..|events| - 1], events[|events| - 1];
      RunLast(c, w, events);
      RunKeepsSettled(c, w, init, s, e);
      BucketGrowth(c, w, init, p, s, e);
      TakeKeepsPotential(c, ByBucket(c, w, init, p), Run(c, w, init).processes[p].bucket, s, last.now, last.tokens);
    }
  }

  lemma BucketBound(c: Config, w: World, events: seq<Event>, p: nat, s: real, e: real)
    requires Sane(c) && Settled(c, w, s) && Within(events, s, e) && s <= e && p < |w.processes|
    ensures ByBucket(c, w, events, p) <= c.capacity + Inflow(c, s, e)
  {
    RunKeepsSettled(c, w, events, s, e);
    BucketGrowth(c, w, events, p, s, e);
    InflowAdds(c, s, Run(c, w, events).processes[p].bucket.updated, e);
  }

  // ---------------------------------------------------------------- the windows

  function MinCount(c: Config, count: int): real {
    Min(count as real, c.capacity)
  }

  /** What the windows opened between `from` and `to`, one length apart, can admit, the last one left out. */
  function Filled(c: Config, from: real, to: real): real
    requires Sane(c)
  {
    if to > from then Product(to - from, c.capacity / c.window) else 0.0
  }

  lemma FilledGrows(c: Config, s: real, a: real, b: real)
    requires Sane(c) && a <= b
    ensures 0.0 <= Filled(c, s, a) <= Filled(c, s, b)
    ensures s <= a && a + c.window <= b ==> Filled(c, s, a) + c.capacity <= Filled(c, s, b)
  {
    var r := c.capacity / c.window;
    ProductQuotient(c.capacity, c.window);
    assert r >= 0.0 && Product(r, c.window) == Product(c.window, r) == c.capacity;
    if a > s {
      ProductNonNegative(a - s, r);
      ProductMonotone(a - s, b - s, r);
    } else if b > s {
      ProductNonNegative(b - s, r);
    }
    if s <= a && a + c.window <= b {
      ProductMonotone(a - s + c.window, b - s, r);
      ProductAdds(a - s, c.window, r);
      ProductAdds(0.0, 0.0, r);
    }
  }

  /** What the counter has admitted since `s`, seen from the current window: one opened before `s` admits no more
      than it has counted; one opened later comes after windows that are at least one length apart. */
  ghost predicate WindowPotential(c: Config, given: real, w: Option<Window>, s: real)
    requires Sane(c)
  {
    match w
    case None => given == 0.0
    case Some(Window(count, expiresAt)) =>
      var since := expiresAt - c.window;
      if since < s then given <= MinCount(c, count)
      else given <= c.capacity + Filled(c, s, since) + MinCount(c, count)
  }

  lemma CountKeepsPotential(c: Config, given: real, w: Option<Window>, s: real, now: real, tokens: real)
    requires Sane(c) && WindowPotential(c, given, w, s) && WindowOk(c, w, now) && s <= now && tokens >= 0.0
    ensures var after := CountUp(c, w, now, Amount(tokens));
            WindowPotential(c, given + (if after.count as real <= c.capacity then tokens else 0.0), Some(after), s)
  {
    FilledGrows(c, s, s, now);
    if w.Some? && w.value.expiresAt <= now {
      FilledGrows(c, s, w.value.expiresAt - c.window, now);
    }
  }

  lemma {:induction false} CounterGrowth(c: Config, w: World, events: seq<Event>, s: real, e: real)
    requires Sane(c) && Settled(c, w, s) && Within(events, s, e) && s <= e
    ensures WindowPotential(c, ByCounter(c, w, events), Run(c, w, events).window, s)
  {
    if events != [] {
      var init, last := events[..|events| - 1], events[|events| - 1];
      RunLast(c, w, events);
      RunKeepsSettled(c, w, init, s, e);
      CounterGrowth(c, w, init, s, e);
      CountKeepsPotential(c, ByCounter(c, w, init), Run(c, w, init).window, s, last.now, last.tokens);
    }
  }

  lemma CounterBound(c: Config, w: World, events: seq<Event>, s: real, e: real)
    requires Sane(c) && Settled(c, w, s) && Within(events, s, e) && s <= e
    ensures ByCounter(c, w, events) <= 2.0 * c.capacity + Filled(c, s, e)
  {
    RunKeepsSettled(c, w, events, s, e);
    CounterGrowth(c, w, events, s, e);
    var window := Run(c, w, events).window;
    FilledGrows(c, s, s, e);
    if window.Some? {
      FilledGrows(c, s, window.value.expiresAt - c.window, e);
    }
  }

  // ---------------------------------------------------------------- what the counter must admit

  /** The event reaches the counter: an attempt that is not beyond the capacity, outside any cooldown and outage. */
  predicate Reaches(c: Config, w: World, e: Event) {
    && e.Attempt? && e.process < |w.processes| && e.reachable && w.processes[e.process].retryAt <= e.now
    && Amount(e.tokens) as real <= c.capacity
  }

  /** Where no window is running, the attempt is admitted, and opens one that counts it alone. */
  lemma NewWindowAdmits(c: Config, w: World, e: Event)
    requires Reaches(c, w, e) && (w.window.None? || w.window.value.expiresAt <= e.now)
    ensures AdmittedByCounter(c, w, e)
    ensures Step(c, w, e).window == Some(Window(Amount(e.tokens), e.now + c.window))
  {
  }

  /** What the events `open`, ..., `n - 1` that reached the counter asked for, admitted or not. */
  function AskedFor(c: Config, w: World, events: seq<Event>, open: nat, n: nat): int
    requires open <= n <= |events|
    decreases n
  {
    if n == open then 0
    else
      AskedFor(c, w, events, open, n - 1) +
        (if Reaches(c, Before(c, w, events, n - 1), events[n - 1]) then Amount(events[n - 1].tokens) else 0)
  }

  /** Event `open` reached the counter while no window was running, and none of those that reached it afterwards came
      too late for the window it opened. */
  predicate InOneWindow(c: Config, w: World, events: seq<Event>, open: nat, n: nat)
    decreases n
  {
    && open < n <= |events|
    && var before, e := Before(c, w, events, n - 1), events[n - 1];
       if n == open + 1 then Reaches(c, before, e) && (before.window.None? || before.window.value.expiresAt <= e.now)
       else InOneWindow(c, w, events, open, n - 1) && (Reaches(c, before, e) ==> e.now < events[open].now + c.window)
  }

  /** One more event inside the window that `w` shows. */
  lemma CountGoesOn(c: Config, w: World, e: Event, count: int, end: real)
    requires w.window == Some(Window(count, end)) && count >= 1 && (Reaches(c, w, e) ==> e.now < end)
    ensures Step(c, w, e).window == Some(Window(count + (if Reaches(c, w, e) then Amount(e.tokens) else 0), end))
  {
  }

  /** Inside a window the count is what was asked for since it opened. */
  lemma {:induction false} WindowCounts(c: Config, w: World, events: seq<Event>, open: nat, n: nat)
    requires InOneWindow(c, w, events, open, n)
    ensures AskedFor(c, w, events, open, n) >= 1
    ensures Before(c, w, events, n).window == Some(Window(AskedFor(c, w, events, open, n), events[open].now + c.window))
  {
    var before := Before(c, w, events, n - 1);
    if n == open + 1 {
      NewWindowAdmits(c, before, events[open]);
    } else {
      WindowCounts(c, w, events, open, n - 1);
      CountGoesOn(c, before, events[n - 1], AskedFor(c, w, events, open, n - 1), events[open].now + c.window);
    }
  }

  /** So an attempt inside a window is admitted exactly when it and all that was asked for since the window opened,
      what was refused included, stay within the capacity. */
  lemma WindowAdmits(c: Config, w: World, events: seq<Event>, open: nat, n: nat)
    requires InOneWindow(c, w, events, open, n) && n < |events|
    requires Reaches(c, Before(c, w, events, n), events[n]) && events[n].now < events[open].now + c.window
    ensures AdmittedAt(c, w, events, n) <==>
              (AskedFor(c, w, events, open, n) + Amount(events[n].tokens)) as real <= c.capacity
  {
    WindowCounts(c, w, events, open, n);
  }

  // ---------------------------------------------------------------- all of it

  lemma {:induction false} NoBucketNoChange(c: Config, w: World, events: seq<Event>, n: nat)
    requires events != []
    ensures var init, e := events[..|events| - 1], events[|events| - 1];
            Buckets(c, w, events, n) == Buckets(c, w, init, n) +
              (if e.process < n && AdmittedByBucket(c, Run(c, w, init), e) then e.tokens else 0.0)
  {
    if n > 0 {
      NoBucketNoChange(c, w, events, n - 1);
    }
  }

  lemma {:induction false} AdmittedSplits(c: Config, w: World, events: seq<Event>, s: real, e: real)
    requires Sane(c) && Settled(c, w, s) && Within(events, s, e) && s <= e
    ensures Admitted(c, w, events) == ByCounter(c, w, events) + Buckets(c, w, events, |w.processes|)
  {
    if events == [] {
      NoBuckets(c, w, |w.processes|);
    } else {
      var init := events[..|events| - 1];
      RunKeepsSettled(c, w, init, s, e);
      AdmittedSplits(c, w, init, s, e);
      NoBucketNoChange(c, w, events, |w.processes|);
    }
  }

  lemma {:induction false} NoBuckets(c: Config, w: World, n: nat)
    ensures Buckets(c, w, [], n) == 0.0
  {
    if n > 0 {
      NoBuckets(c, w, n - 1);
    }
  }

  lemma {:induction false} BucketsBound(c: Config, w: World, events: seq<Event>, n: nat, s: real, e: real)
    requires Sane(c) && Settled(c, w, s) && Within(events, s, e) && s <= e && n <= |w.processes|
    ensures Buckets(c, w, events, n) <= Repeated(n, c.capacity + Inflow(c, s, e))
  {
    if n > 0 {
      BucketsBound(c, w, events, n - 1, s, e);
      BucketBound(c, w, events, n - 1, s, e);
    }
  }

  function Repeated(n: nat, x: real): real {
    if n == 0 then 0.0 else Repeated(n - 1, x) + x
  }

  lemma {:induction false} RepeatedIsProduct(n: nat, x: real)
    ensures Repeated(n, x) == n as real * x
  {
    if n > 0 {
      RepeatedIsProduct(n - 1, x);
      assert n as real * x == (n - 1) as real * x + x;
    }
  }

  function Fresh(c: Config, n: nat, now: real): (w: World)
  {
    World(None, seq(n, i => Process(Bucket(c.capacity, now), 0.0)))
  }

  /** The admission bound. Take any run of any number of processes from their start, with any outages, and look at
      the part of it between `s` and `e`: with the default window no more gets through than this. */
  lemma AdmissionBound(c: Config, n: nat, before: seq<Event>, during: seq<Event>, start: real, s: real, e: real)
    requires Sane(c) && c.window == c.capacity / c.rate
    requires start <= s <= e && Within(before, start, s) && Within(during, s, e)
    ensures Admitted(c, Run(c, Fresh(c, n, start), before), during) <=
              (c.rate * (e - s) + 2.0 * c.capacity) + n as real * (c.capacity + c.rate * (e - s))
  {
    var w := Run(c, Fresh(c, n, start), before);
    RunKeepsSettled(c, Fresh(c, n, start), before, start, s);
    SettledLater(c, w, Reached(before, start), s);
    AdmittedSplits(c, w, during, s, e);
    CounterBound(c, w, during, s, e);
    BucketsBound(c, w, during, n, s, e);
    InTheEnd(c, n, s, e);
  }

  lemma SettledLater(c: Config, w: World, a: real, b: real)
    requires Settled(c, w, a) && a <= b
    ensures Settled(c, w, b)
  {
  }

  /** With the default window one capacity per window is the rate. */
  lemma DefaultWindow(c: Config)
    requires Sane(c) && c.window == c.capacity / c.rate
    ensures c.capacity / c.window == c.rate
  {
    var q := c.capacity / c.window;
    ProductQuotient(c.capacity, c.rate);
    ProductQuotient(c.capacity, c.window);
    assert Product(q - c.rate, c.window) == 0.0;
  }

  /** The sum of the bounds, in the terms a reader knows. */
  lemma InTheEnd(c: Config, n: nat, s: real, e: real)
    requires Sane(c) && c.window == c.capacity / c.rate && s <= e
    ensures 2.0 * c.capacity + Filled(c, s, e) + Repeated(n, c.capacity + Inflow(c, s, e)) ==
              (c.rate * (e - s) + 2.0 * c.capacity) + n as real * (c.capacity + c.rate * (e - s))
  {
    ProductQuotient(c.capacity, c.rate);
    DefaultWindow(c);
    if e == s {
      ProductAdds(0.0, 0.0, c.rate);
    }
    assert Inflow(c, s, e) == Product(e - s, c.rate) == Filled(c, s, e);
    RepeatedIsProduct(n, c.capacity + Inflow(c, s, e));
  }

  /** While the counter answers, the buckets give nothing: the first half of the bound is all there is. */
  lemma {:induction false} WithoutOutages(c: Config, w: World, events: seq<Event>)
    requires forall i :: 0 <= i < |events| ==> events[i].Attempt? && events[i].reachable && events[i].now >= 0.0
    requires forall p :: 0 <= p < |w.processes| ==> w.processes[p].retryAt == 0.0
    ensures Admitted(c, w, events) == ByCounter(c, w, events)
    ensures Run(c, w, events).processes == w.processes
  {
    if events != [] {
      RunLast(c, w, events);
      WithoutOutages(c, w, events[..|events| - 1]);
    }
  }
}
