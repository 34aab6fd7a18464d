/** The two-layer cache. Every process has a private L1 store; all share one L2 store. A key carries the
    generation of its domain, and advancing the generation is what invalidates. */
module LayeredCaches {
  import opened Wrappers

  /** Only compared for equality, so they are numbers here. */
  type Domain = nat
  type Panel = nat

  /** Panel, point in time and parameters are one label here; the textual key is injective on the parts. */
  datatype Key = Key(domain: Domain, panel: Panel, generation: nat)

  // ---------------------------------------------------------------- one backend, one layered cache

  function Count(counters: map<Domain, nat>, d: Domain): nat {
    if d in counters then counters[d] else 0
  }

  function Max(a: nat, b: nat): nat {
    if a < b then b else a
  }

  /** A store with generation counters; when it is down every operation raises. */
  class Backend<V> {
    var up: bool
    var counters: map<Domain, nat>
    var entries: map<Key, V>

    constructor ()
      ensures up && counters == map[] && entries == map[]
    {
      up, counters, entries := true, map[], map[];
    }

    method GenerationOf(d: Domain) returns (g: Option<nat>)
      ensures g == if up then Some(Count(counters, d)) else None
    {
      g := if up then Some(Count(counters, d)) else None;
    }

    method Incr(d: Domain) returns (g: Option<nat>)
      modifies this`counters
      ensures up ==> g == Some(Count(old(counters), d) + 1) && counters == old(counters)[d := Count(old(counters), d) + 1]
      ensures !up ==> g == None && counters == old(counters)
    {
      if !up {
        return None;
      }
      counters := counters[d := Count(counters, d) + 1];
      g := Some(counters[d]);
    }

    method SetGeneration(d: Domain, g: nat)
      modifies this`counters
      ensures counters == if up then old(counters)[d := g] else old(counters)
    {
      if up {
        counters := counters[d := g];
      }
    }

    method Get(k: Key) returns (v: Option<V>)
      ensures v == if up && k in entries then Some(entries[k]) else None
    {
      v := if up && k in entries then Some(entries[k]) else None;
    }

    method Set(k: Key, v: V)
      modifies this`entries
      ensures entries == if up then old(entries)[k := v] else old(entries)
    {
      if up {
        entries := entries[k := v];
      }
    }
  }

  /** What `generation` answers for counter values `l1` and `l2` (`None`: unreachable or not configured). */
  function Seen(l1: nat, l2: Option<nat>): nat {
    if l2.Some? then Max(l1, l2.value) else l1
  }

  /** The counters after a bump: both advance, and the one that lags is lifted to the other. */
  function Bumped(l1: nat, l2: Option<nat>): (nat, Option<nat>) {
    if l2.None? then (l1 + 1, None)
    else (Max(l1, l2.value) + 1, Some(Max(l1, l2.value) + 1))
  }

  class LayeredCache<V> {
    const l1: Backend<V>
    const l2: Backend<V>

    constructor (l1: Backend<V>, l2: Backend<V>)
      requires l1 != l2
      ensures this.l1 == l1 && this.l2 == l2
    {
      this.l1, this.l2 := l1, l2;
    }

    ghost function Shared(d: Domain): Option<nat>
      reads l2
    {
      if l2.up then Some(Count(l2.counters, d)) else None
    }

    /** A store that raises is passed over. */
    method Generation(d: Domain) returns (g: nat)
      ensures g == Seen(if l1.up then Count(l1.counters, d) else 0, Shared(d))
    {
      var own := l1.GenerationOf(d);
      var shared := l2.GenerationOf(d);
      g := if own.Some? then own.value else 0;
      if shared.Some? {
        g := Max(g, shared.value);
      }
    }

    /** Raises when the private store does, before anything has changed. */
    method BumpGeneration(d: Domain) returns (g: Option<nat>)
      requires l1 != l2
      modifies l1`counters, l2`counters
      ensures g == if l1.up then Some(Count(l1.counters, d)) else None
      ensures l1.up ==> Count(l1.counters, d) == Bumped(old(Count(l1.counters, d)), old(Shared(d))).0
      ensures l1.up ==> Shared(d) == Bumped(old(Count(l1.counters, d)), old(Shared(d))).1
      ensures !l1.up ==> l1.counters == old(l1.counters)
      ensures !l1.up || !l2.up ==> l2.counters == old(l2.counters)
      ensures forall e :: e != d ==> Count(l1.counters, e) == old(Count(l1.counters, e)) && Count(l2.counters, e) == old(Count(l2.counters, e))
    {
      g := l1.Incr(d);
      if g.None? {
        return;
      }
      var local := g.value;
      var remote := l2.Incr(d);
      if remote.None? {
        return;
      }
      if local > remote.value {
        l2.SetGeneration(d, local);
      } else if remote.value > local {
        l1.SetGeneration(d, remote.value);
        g := remote;
      }
    }

    method Lookup(k: Key) returns (v: Option<V>)
      ensures v == if l1.up && k in l1.entries then Some(l1.entries[k])
                   else if l2.up && k in l2.entries then Some(l2.entries[k]) else None
    {
      v := l1.Get(k);
      if v.None? {
        v := l2.Get(k);
      }
    }

    method Store(k: Key, v: V)
      requires l1 != l2
      modifies l1`entries, l2`entries
      ensures l1.entries == if l1.up then old(l1.entries)[k := v] else old(l1.entries)
      ensures l2.entries == if l2.up then old(l2.entries)[k := v] else old(l2.entries)
    {
      l1.Set(k, v);
      l2.Set(k, v);
    }
  }

  /** With the shared store reachable, a bump moves the caller's view past everything it saw before, and
      moves another process's view exactly when that process's own counter lies below the new shared one. */
  lemma BumpIsSeen(own: nat, other: nat, shared: nat)
    ensures var after := Bumped(own, Some(shared));
            && Seen(after.0, after.1) > Seen(own, Some(shared))
            && (Seen(other, after.1) > Seen(other, Some(shared)) <==> other < Max(own, shared) + 1)
  {
  }

  /** A bump made while the shared store is down survives its return exactly when the local counter was not
      behind: otherwise the old generation is in force again. */
  lemma OutageBumpSurvives(own: nat, shared: nat)
    ensures Seen(Bumped(own, None).0, Some(shared)) > Seen(own, Some(shared)) <==> own >= shared
  {
  }

  // ---------------------------------------------------------------- many processes, interleaved

  type Process = nat
  type RequestId = nat
  type BumpId = nat

  /** A cached payload, known by the moment the key it was loaded for was built. */
  datatype Payload = Payload(builtAt: nat)

  /** A key under construction: the private counter has been read, the shared one not yet. */
  datatype Read = Read(process: Process, domain: Domain, panel: Panel, own: nat)

  /** A pending get_or_load: which process asks, for which key, built when. */
  datatype Request = Request(process: Process, key: Key, builtAt: nat)

  /** A bump between its two increments has no `remote` yet; one that found the shared store down never gets any. */
  datatype Bump = Bump(process: Process, domain: Domain, local: nat, remote: Option<nat>)

  /** The shared counter of `domain` advanced at `time`. */
  datatype Advance = Advance(domain: Domain, time: nat)

  datatype Hit = Hit(request: Request, payload: Payload)

  datatype State = State(
    now: nat,
    own: map<(Process, Domain), nat>,
    shared: map<Domain, nat>,
    l1: map<(Process, Key), Payload>,
    l2: map<Key, Payload>,
    pending: map<RequestId, Read>,
    requests: map<RequestId, Request>,
    bumps: map<BumpId, Bump>,
    lost: set<BumpId>,
    advances: seq<Advance>,
    hits: seq<Hit>)

  datatype Step =
    | ReadOwn(id: RequestId, process: Process, domain: Domain, panel: Panel)
    | BuildKey(id: RequestId)
    | LookupL1(id: RequestId)
    | LookupL2(id: RequestId)
    | LoadAndStoreL1(id: RequestId)
    | LoadAndStoreL2(id: RequestId)
    | EvictL1(process: Process, key: Key)
    | EvictL2(key: Key)
    | EvictCounter(process: Process, domain: Domain)
    | BumpL1(bump: BumpId, process: Process, domain: Domain)
    | BumpL2(bump: BumpId)
    | BumpLost(bump: BumpId)
    | BumpSync(bump: BumpId)

  function Own(own: map<(Process, Domain), nat>, p: Process, d: Domain): nat {
    if (p, d) in own then own[(p, d)] else 0
  }

  const Start := State(0, map[], map[], map[], map[], map[], map[], map[], {}, [], [])

  /** The shared counter is read after the private one, and the key carries the greater. */
  function Built(s: State, id: RequestId): State
    requires id in s.pending
  {
    var r := s.pending[id];
    var key := Key(r.domain, r.panel, Max(r.own, Count(s.shared, r.domain)));
    s.(now := s.now + 1, pending := s.pending - {id}, requests := s.requests[id := Request(r.process, key, s.now)])
  }

  function Started(s: State, b: BumpId, p: Process, d: Domain): State {
    var local := Own(s.own, p, d) + 1;
    s.(now := s.now + 1, own := s.own[(p, d) := local], bumps := s.bumps[b := Bump(p, d, local, None)], lost := s.lost - {b})
  }

  /** The bump is at the shared store, or will be. */
  predicate UnderWay(s: State, b: BumpId) {
    b in s.bumps && s.bumps[b].remote.None? && b !in s.lost
  }

  /** The shared store is down: the bump ends with the private counter advanced. */
  function Abandoned(s: State, b: BumpId): State {
    s.(now := s.now + 1, lost := s.lost + {b})
  }

  function Advanced(s: State, b: BumpId): State
    requires b in s.bumps
  {
    var d := s.bumps[b].domain;
    var remote := Count(s.shared, d) + 1;
    s.(now := s.now + 1,
       shared := s.shared[d := remote],
       bumps := s.bumps[b := s.bumps[b].(remote := Some(remote))],
       advances := s.advances + [Advance(d, s.now)])
  }

  /** The counter that was behind is set to the other one's value. */
  function Synced(s: State, b: BumpId): State
    requires b in s.bumps && s.bumps[b].remote.Some?
  {
    var bump := s.bumps[b];
    s.(now := s.now + 1,
       bumps := s.bumps - {b},
       shared := if bump.local > bump.remote.value then s.shared[bump.domain := bump.local] else s.shared,
       own := if bump.remote.value > bump.local then s.own[(bump.process, bump.domain) := bump.remote.value] else s.own)
  }

  /** One atomic backend operation; a step that does not apply leaves everything but the clock alone. */
  function Apply(s: State, step: Step): State {
    var t := s.(now := s.now + 1);
    match step
    case ReadOwn(id, p, d, panel) => t.(pending := s.pending[id := Read(p, d, panel, Own(s.own, p, d))])
    case BuildKey(id) => if id in s.pending then Built(s, id) else t
    case LookupL1(id) =>
      if id in s.requests && (s.requests[id].process, s.requests[id].key) in s.l1 then
        t.(hits := s.hits + [Hit(s.requests[id], s.l1[(s.requests[id].process, s.requests[id].key)])])
      else t
    case LookupL2(id) =>
      if id in s.requests && s.requests[id].key in s.l2 then
        t.(hits := s.hits + [Hit(s.requests[id], s.l2[s.requests[id].key])])
      else t
    case LoadAndStoreL1(id) =>
      if id in s.requests then
        var r := s.requests[id];
        t.(l1 := s.l1[(r.process, r.key) := Payload(r.builtAt)])
      else t
    case LoadAndStoreL2(id) =>
      if id in s.requests then
        var r := s.requests[id];
        t.(l2 := s.l2[r.key := Payload(r.builtAt)])
      else t
    case EvictL1(p, key) => t.(l1 := s.l1 - {(p, key)})
    case EvictL2(key) => t.(l2 := s.l2 - {key})
    case EvictCounter(p, d) => t.(own := s.own - {(p, d)})
    case BumpL1(b, p, d) => if b in s.bumps then t else Started(s, b, p, d)
    case BumpL2(b) => if UnderWay(s, b) then Advanced(s, b) else t
    case BumpLost(b) => if UnderWay(s, b) then Abandoned(s, b) else t
    case BumpSync(b) => if b in s.bumps && s.bumps[b].remote.Some? then Synced(s, b) else t
  }

  /** The discipline that makes invalidation sound: a process neither builds a key of a domain nor starts a bump of it
      while its private counter is ahead of the shared one. */
  predicate Disciplined(s: State, step: Step) {
    match step
    case BuildKey(id) => id in s.pending ==> s.pending[id].own <= Count(s.shared, s.pending[id].domain)
    case BumpL1(b, p, d) => b !in s.bumps ==> Own(s.own, p, d) <= Count(s.shared, d)
    case _ => true
  }

  function After(s: State, steps: seq<Step>): State
    decreases |steps|
  {
    if steps == [] then s else After(Apply(s, steps[0]), steps[1..])
  }

  predicate AllDisciplined(s: State, steps: seq<Step>)
    decreases |steps|
  {
    steps == [] || (Disciplined(s, steps[0]) && AllDisciplined(Apply(s, steps[0]), steps[1..]))
  }

  /** How often the shared counter of `d` advanced before `time`. */
  function AdvancesBefore(advances: seq<Advance>, d: Domain, time: nat): nat {
    if advances == [] then 0
    else
      var last := advances[|advances| - 1];
      AdvancesBefore(advances[..|advances| - 1], d, time) + (if last.domain == d && last.time < time then 1 else 0)
  }

  /** No payload is older than the reader's key by a bump: nothing advanced the domain in between. */
  ghost predicate FreshHit(advances: seq<Advance>, hit: Hit) {
    forall a :: a in advances && a.domain == hit.request.key.domain ==> !(hit.payload.builtAt <= a.time < hit.request.builtAt)
  }

  /** A key's generation is the number of advances at the moment it was built. */
  ghost predicate Stamped(now: nat, advances: seq<Advance>, key: Key, builtAt: nat) {
    builtAt < now && key.generation == AdvancesBefore(advances, key.domain, builtAt)
  }

  /** Process `p` has advanced its own counter of `d` for some bump, but not the shared one: not yet, or never. */
  ghost predicate Unreached(bumps: map<BumpId, Bump>, p: Process, d: Domain) {
    exists b :: b in bumps && bumps[b].process == p && bumps[b].domain == d && bumps[b].remote.None?
  }

  /** The shared counter is the number of advances, and a private one is ahead of it only by a bump that has not reached it. */
  ghost predicate CountersAgree(s: State) {
    && (forall a :: a in s.advances ==> a.time < s.now)
    && (forall d :: Count(s.shared, d) == AdvancesBefore(s.advances, d, s.now))
    && Bounded(s.own, s.pending, s.shared, s.bumps)
  }

  /** Private counters and reads of them are ahead of the shared one by at most one, and only by such a bump. */
  ghost predicate Bounded(own: map<(Process, Domain), nat>, pending: map<RequestId, Read>,
                          shared: map<Domain, nat>, bumps: map<BumpId, Bump>) {
    && (forall p, d :: NotFarAhead(shared, bumps, p, d, Own(own, p, d)))
    && (forall id :: id in pending ==> ReadAgrees(shared, bumps, pending[id]))
    && (forall b :: b in bumps ==> BumpAgrees(shared, bumps[b]))
  }

  ghost predicate NotFarAhead(shared: map<Domain, nat>, bumps: map<BumpId, Bump>, p: Process, d: Domain, own: nat) {
    own <= Count(shared, d) + (if Unreached(bumps, p, d) then 1 else 0)
  }

  ghost predicate ReadAgrees(shared: map<Domain, nat>, bumps: map<BumpId, Bump>, r: Read) {
    NotFarAhead(shared, bumps, r.process, r.domain, r.own)
  }

  /** The value a bump got from the shared store is not behind the one it got from its own. */
  ghost predicate BumpAgrees(shared: map<Domain, nat>, bump: Bump) {
    if bump.remote.None? then bump.local <= Count(shared, bump.domain) + 1
    else bump.local <= bump.remote.value <= Count(shared, bump.domain)
  }

  ghost predicate EntriesStamped(s: State) {
    && (forall id :: id in s.requests ==> Stamped(s.now, s.advances, s.requests[id].key, s.requests[id].builtAt))
    && (forall e :: e in s.l1 ==> Stamped(s.now, s.advances, e.1, s.l1[e].builtAt))
    && (forall k :: k in s.l2 ==> Stamped(s.now, s.advances, k, s.l2[k].builtAt))
  }

  ghost predicate HitsFresh(s: State) {
    forall i :: 0 <= i < |s.hits| ==> s.hits[i].request.builtAt < s.now && s.hits[i].payload.builtAt < s.now && FreshHit(s.advances, s.hits[i])
  }

  ghost predicate Invariant(s: State) {
    CountersAgree(s) && EntriesStamped(s) && HitsFresh(s)
  }

  // ---------------------------------------------------------------- counting advances

  lemma {:induction false} LaterChangesNothing(advances: seq<Advance>, d: Domain, time: nat, time': nat)
    requires (forall a :: a in advances ==> a.time < time) && time <= time'
    ensures AdvancesBefore(advances, d, time) == AdvancesBefore(advances, d, time')
  {
    if advances != [] {
      assert advances[|advances| - 1] in advances;
      LaterChangesNothing(advances[..|advances| - 1], d, time, time');
    }
  }

  lemma AdvanceCounts(advances: seq<Advance>, a: Advance, d: Domain, time: nat)
    ensures AdvancesBefore(advances + [a], d, time)
            == AdvancesBefore(advances, d, time) + (if a.domain == d && a.time < time then 1 else 0)
  {
    assert (advances + [a])[..|advances|] == advances;
  }

  lemma {:induction false} MoreTimeMoreAdvances(advances: seq<Advance>, d: Domain, t1: nat, t2: nat)
    requires t1 <= t2
    ensures AdvancesBefore(advances, d, t1) <= AdvancesBefore(advances, d, t2)
    ensures (exists a :: a in advances && a.domain == d && t1 <= a.time < t2) ==>
              AdvancesBefore(advances, d, t1) < AdvancesBefore(advances, d, t2)
  {
    if advances != [] {
      var shorter, last := advances[..|advances| - 1], advances[|advances| - 1];
      MoreTimeMoreAdvances(shorter, d, t1, t2);
      assert advances == shorter + [last];
    }
  }

  /** Two keys that carry the same generation were built with no advance between them. */
  lemma SameGenerationMeansFresh(s: State, r: Request, p: Payload)
    requires Stamped(s.now, s.advances, r.key, r.builtAt) && Stamped(s.now, s.advances, r.key, p.builtAt)
    ensures FreshHit(s.advances, Hit(r, p))
  {
    if p.builtAt <= r.builtAt {
      MoreTimeMoreAdvances(s.advances, r.key.domain, p.builtAt, r.builtAt);
    }
  }

  // ---------------------------------------------------------------- every step keeps the invariant

  /** A step that advances nothing keeps every stamp. */
  lemma ClockKeeps(s: State, t: State)
    requires Invariant(s) && t.now == s.now + 1 && t.advances == s.advances
    ensures forall key, builtAt :: Stamped(s.now, s.advances, key, builtAt) ==> Stamped(t.now, t.advances, key, builtAt)
    ensures forall d :: AdvancesBefore(t.advances, d, t.now) == AdvancesBefore(s.advances, d, s.now)
  {
    forall d ensures AdvancesBefore(t.advances, d, t.now) == AdvancesBefore(s.advances, d, s.now) {
      LaterChangesNothing(s.advances, d, s.now, s.now + 1);
    }
  }

  lemma EntriesUntouched(s: State, t: State)
    requires Invariant(s) && t.now == s.now + 1 && t.advances == s.advances
    requires t.requests == s.requests && t.l1 == s.l1 && t.l2 == s.l2
    ensures EntriesStamped(t)
  {
    ClockKeeps(s, t);
  }

  lemma HitsUntouched(s: State, t: State)
    requires Invariant(s) && t.now == s.now + 1 && t.advances == s.advances && t.hits == s.hits
    ensures HitsFresh(t)
  {
  }

  lemma CountersUntouched(s: State, t: State)
    requires Invariant(s) && t.now == s.now + 1 && t.advances == s.advances
    requires t.shared == s.shared && t.own == s.own && t.bumps == s.bumps
    requires t.pending == s.pending
    ensures CountersAgree(t)
  {
    ClockKeeps(s, t);
  }

  lemma CountsUntouched(s: State, t: State)
    requires Invariant(s) && t.now == s.now + 1 && t.advances == s.advances && t.shared == s.shared
    requires Bounded(t.own, t.pending, t.shared, t.bumps)
    ensures CountersAgree(t)
  {
    ClockKeeps(s, t);
  }

  lemma ReadKeeps(s: State, id: RequestId, p: Process, d: Domain, panel: Panel)
    requires Invariant(s)
    ensures Invariant(Apply(s, ReadOwn(id, p, d, panel)))
  {
    var t := Apply(s, ReadOwn(id, p, d, panel));
    assert NotFarAhead(s.shared, s.bumps, p, d, Own(s.own, p, d));
    CountsUntouched(s, t);
    EntriesUntouched(s, t);
    HitsUntouched(s, t);
  }

  lemma BuildKeeps(s: State, id: RequestId)
    requires Invariant(s) && Disciplined(s, BuildKey(id)) && id in s.pending
    ensures Invariant(Built(s, id))
  {
    var t := Built(s, id);
    CountsUntouched(s, t);
    HitsUntouched(s, t);
    ClockKeeps(s, t);
    var d := s.pending[id].domain;
    assert t.requests[id].key.generation == Count(s.shared, d) == AdvancesBefore(s.advances, d, s.now);
  }

  lemma HitKeeps(s: State, t: State, r: Request, p: Payload)
    requires Invariant(s) && t == s.(now := s.now + 1, hits := s.hits + [Hit(r, p)])
    requires Stamped(s.now, s.advances, r.key, r.builtAt) && Stamped(s.now, s.advances, r.key, p.builtAt)
    ensures Invariant(t)
  {
    CountersUntouched(s, t);
    EntriesUntouched(s, t);
    SameGenerationMeansFresh(s, r, p);
  }

  lemma IdleKeeps(s: State, t: State)
    requires Invariant(s) && t == s.(now := s.now + 1)
    ensures Invariant(t)
  {
    CountersUntouched(s, t);
    EntriesUntouched(s, t);
    HitsUntouched(s, t);
  }

  lemma LookupL1Keeps(s: State, id: RequestId)
    requires Invariant(s)
    ensures Invariant(Apply(s, LookupL1(id)))
  {
    if id in s.requests && (s.requests[id].process, s.requests[id].key) in s.l1 {
      var r := s.requests[id];
      HitKeeps(s, Apply(s, LookupL1(id)), r, s.l1[(r.process, r.key)]);
    } else {
      IdleKeeps(s, Apply(s, LookupL1(id)));
    }
  }

  lemma LookupL2Keeps(s: State, id: RequestId)
    requires Invariant(s)
    ensures Invariant(Apply(s, LookupL2(id)))
  {
    if id in s.requests && s.requests[id].key in s.l2 {
      HitKeeps(s, Apply(s, LookupL2(id)), s.requests[id], s.l2[s.requests[id].key]);
    } else {
      IdleKeeps(s, Apply(s, LookupL2(id)));
    }
  }

  lemma PayloadKeeps(s: State, t: State, r: Request)
    requires Invariant(s) && Stamped(s.now, s.advances, r.key, r.builtAt)
    requires t == s.(now := s.now + 1, l1 := s.l1[(r.process, r.key) := Payload(r.builtAt)])
             || t == s.(now := s.now + 1, l2 := s.l2[r.key := Payload(r.builtAt)])
    ensures Invariant(t)
  {
    CountersUntouched(s, t);
    HitsUntouched(s, t);
    ClockKeeps(s, t);
  }

  lemma StoreL1Keeps(s: State, id: RequestId)
    requires Invariant(s)
    ensures Invariant(Apply(s, LoadAndStoreL1(id)))
  {
    if id in s.requests {
      PayloadKeeps(s, Apply(s, LoadAndStoreL1(id)), s.requests[id]);
    } else {
      IdleKeeps(s, Apply(s, LoadAndStoreL1(id)));
    }
  }

  lemma StoreL2Keeps(s: State, id: RequestId)
    requires Invariant(s)
    ensures Invariant(Apply(s, LoadAndStoreL2(id)))
  {
    if id in s.requests {
      PayloadKeeps(s, Apply(s, LoadAndStoreL2(id)), s.requests[id]);
    } else {
      IdleKeeps(s, Apply(s, LoadAndStoreL2(id)));
    }
  }

  lemma EvictKeeps(s: State, step: Step)
    requires Invariant(s) && (step.EvictL1? || step.EvictL2? || step.EvictCounter?)
    ensures Invariant(Apply(s, step))
  {
    var t := Apply(s, step);
    HitsUntouched(s, t);
    ClockKeeps(s, t);
    forall q, e ensures NotFarAhead(t.shared, t.bumps, q, e, Own(t.own, q, e)) {
      assert NotFarAhead(s.shared, s.bumps, q, e, Own(s.own, q, e)) && Own(t.own, q, e) <= Own(s.own, q, e);
    }
  }

  lemma BumpL1Keeps(s: State, b: BumpId, p: Process, d: Domain)
    requires Invariant(s) && b !in s.bumps && Own(s.own, p, d) <= Count(s.shared, d)
    ensures Invariant(Started(s, b, p, d))
  {
    var t := Started(s, b, p, d);
    StartKeepsBounded(s.own, s.pending, s.shared, s.bumps, b, p, d);
    CountsUntouched(s, t);
    EntriesUntouched(s, t);
    HitsUntouched(s, t);
  }

  lemma StartKeepsBounded(own: map<(Process, Domain), nat>, pending: map<RequestId, Read>,
                          shared: map<Domain, nat>, bumps: map<BumpId, Bump>, b: BumpId, p: Process, d: Domain)
    requires Bounded(own, pending, shared, bumps) && b !in bumps && Own(own, p, d) <= Count(shared, d)
    ensures var local := Own(own, p, d) + 1;
            Bounded(own[(p, d) := local], pending, shared, bumps[b := Bump(p, d, local, None)])
  {
    var bump := Bump(p, d, Own(own, p, d) + 1, None);
    var own', bumps' := own[(p, d) := bump.local], bumps[b := bump];
    forall q, e ensures NotFarAhead(shared, bumps', q, e, Own(own', q, e)) {
      assert NotFarAhead(shared, bumps, q, e, Own(own, q, e));
      StartKeepsAhead(shared, bumps, b, bump, q, e, Own(own, q, e));
    }
    forall id | id in pending ensures ReadAgrees(shared, bumps', pending[id]) {
      var r := pending[id];
      assert ReadAgrees(shared, bumps, r);
      StartKeepsAhead(shared, bumps, b, bump, r.process, r.domain, r.own);
    }
  }

  /** A new bump is one in the middle, and those that are stay so. */
  lemma StartKeepsAhead(shared: map<Domain, nat>, bumps: map<BumpId, Bump>, b: BumpId, bump: Bump, q: Process, e: Domain, n: nat)
    requires b !in bumps && bump.remote.None? && NotFarAhead(shared, bumps, q, e, n)
    ensures NotFarAhead(shared, bumps[b := bump], q, e, n)
    ensures Unreached(bumps[b := bump], bump.process, bump.domain)
  {
    var more := bumps[b := bump];
    assert more[b] == bump;
    if Unreached(bumps, q, e) {
      var c :| c in bumps && bumps[c].process == q && bumps[c].domain == e && bumps[c].remote.None?;
      assert more[c] == bumps[c];
    }
  }

  /** A bump that reaches the shared store makes up for leaving the middle. */
  lemma AdvanceKeepsAhead(shared: map<Domain, nat>, bumps: map<BumpId, Bump>, b: BumpId, bump: Bump, q: Process, e: Domain, n: nat)
    requires b in bumps && bump.domain == bumps[b].domain && NotFarAhead(shared, bumps, q, e, n)
    ensures NotFarAhead(shared[bump.domain := Count(shared, bump.domain) + 1], bumps[b := bump], q, e, n)
  {
    if e != bump.domain && Unreached(bumps, q, e) {
      var c :| c in bumps && bumps[c].process == q && bumps[c].domain == e && bumps[c].remote.None?;
      assert bumps[b := bump][c] == bumps[c];
    }
  }

  /** A bump that has reached the shared store is not missed among those in the middle. */
  lemma EndKeepsAhead(shared: map<Domain, nat>, bumps: map<BumpId, Bump>, b: BumpId, q: Process, e: Domain, n: nat)
    requires b in bumps && bumps[b].remote.Some? && NotFarAhead(shared, bumps, q, e, n)
    ensures NotFarAhead(shared, bumps - {b}, q, e, n)
  {
    if Unreached(bumps, q, e) {
      var c :| c in bumps && bumps[c].process == q && bumps[c].domain == e && bumps[c].remote.None?;
      assert (bumps - {b})[c] == bumps[c];
    }
  }

  /** Advancing the shared counter leaves every stamp in place: it happens after all of them. */
  lemma AdvanceKeepsEntries(s: State, t: State, d: Domain)
    requires Invariant(s) && t.now == s.now + 1 && t.advances == s.advances + [Advance(d, s.now)]
    requires t.requests == s.requests && t.l1 == s.l1 && t.l2 == s.l2 && t.hits == s.hits
    ensures EntriesStamped(t) && HitsFresh(t)
  {
    forall key, builtAt | Stamped(s.now, s.advances, key, builtAt) ensures Stamped(t.now, t.advances, key, builtAt) {
      AdvanceCounts(s.advances, Advance(d, s.now), key.domain, builtAt);
    }
  }

  lemma BumpL2Keeps(s: State, b: BumpId)
    requires Invariant(s) && b in s.bumps && s.bumps[b].remote.None?
    ensures Invariant(Advanced(s, b))
  {
    var t := Advanced(s, b);
    AdvanceKeepsEntries(s, t, s.bumps[b].domain);
    AdvanceKeepsBounded(s.own, s.pending, s.shared, s.bumps, b);
    forall e ensures Count(t.shared, e) == AdvancesBefore(t.advances, e, t.now) {
      AdvanceCounts(s.advances, Advance(s.bumps[b].domain, s.now), e, t.now);
      LaterChangesNothing(s.advances, e, s.now, t.now);
    }
  }

  lemma AdvanceKeepsBounded(own: map<(Process, Domain), nat>, pending: map<RequestId, Read>,
                            shared: map<Domain, nat>, bumps: map<BumpId, Bump>, b: BumpId)
    requires Bounded(own, pending, shared, bumps) && b in bumps && bumps[b].remote.None?
    ensures var remote := Count(shared, bumps[b].domain) + 1;
            Bounded(own, pending, shared[bumps[b].domain := remote], bumps[b := bumps[b].(remote := Some(remote))])
  {
    var d := bumps[b].domain;
    var bump := bumps[b].(remote := Some(Count(shared, d) + 1));
    var shared', bumps' := shared[d := Count(shared, d) + 1], bumps[b := bump];
    forall q, e ensures NotFarAhead(shared', bumps', q, e, Own(own, q, e)) {
      assert NotFarAhead(shared, bumps, q, e, Own(own, q, e));
      AdvanceKeepsAhead(shared, bumps, b, bump, q, e, Own(own, q, e));
    }
    forall id | id in pending ensures ReadAgrees(shared', bumps', pending[id]) {
      var r := pending[id];
      assert ReadAgrees(shared, bumps, r);
      AdvanceKeepsAhead(shared, bumps, b, bump, r.process, r.domain, r.own);
    }
    forall c | c in bumps' ensures BumpAgrees(shared', bumps'[c]) {
      assert BumpAgrees(shared, bumps[c]);
    }
  }

  lemma BumpSyncKeeps(s: State, b: BumpId)
    requires Invariant(s) && b in s.bumps && s.bumps[b].remote.Some?
    ensures Invariant(Synced(s, b))
  {
    var t := Synced(s, b);
    assert BumpAgrees(s.shared, s.bumps[b]);
    assert t.shared == s.shared;
    EntriesUntouched(s, t);
    HitsUntouched(s, t);
    SyncKeepsBounded(s.own, s.pending, s.shared, s.bumps, b, t.own);
    CountsUntouched(s, t);
  }

  lemma SyncKeepsBounded(own: map<(Process, Domain), nat>, pending: map<RequestId, Read>, shared: map<Domain, nat>,
                         bumps: map<BumpId, Bump>, b: BumpId, own': map<(Process, Domain), nat>)
    requires Bounded(own, pending, shared, bumps) && b in bumps && bumps[b].remote.Some?
    requires own' == own || own' == own[(bumps[b].process, bumps[b].domain) := bumps[b].remote.value]
    ensures Bounded(own', pending, shared, bumps - {b})
  {
    assert BumpAgrees(shared, bumps[b]);
    forall q, e ensures NotFarAhead(shared, bumps - {b}, q, e, Own(own', q, e)) {
      assert NotFarAhead(shared, bumps, q, e, Own(own, q, e));
      EndKeepsAhead(shared, bumps, b, q, e, Own(own, q, e));
    }
    forall id | id in pending ensures ReadAgrees(shared, bumps - {b}, pending[id]) {
      var r := pending[id];
      assert ReadAgrees(shared, bumps, r);
      EndKeepsAhead(shared, bumps, b, r.process, r.domain, r.own);
    }
  }

  lemma StepKeeps(s: State, step: Step)
    requires Invariant(s) && Disciplined(s, step)
    ensures Invariant(Apply(s, step))
  {
    match step
    case ReadOwn(id, p, d, panel) => ReadKeeps(s, id, p, d, panel);
    case BuildKey(id) => KeyStepKeeps(s, id);
    case LookupL1(id) => LookupL1Keeps(s, id);
    case LookupL2(id) => LookupL2Keeps(s, id);
    case LoadAndStoreL1(id) => StoreL1Keeps(s, id);
    case LoadAndStoreL2(id) => StoreL2Keeps(s, id);
    case EvictL1(_, _) => EvictKeeps(s, step);
    case EvictL2(_) => EvictKeeps(s, step);
    case EvictCounter(_, _) => EvictKeeps(s, step);
    case BumpL1(b, p, d) => StartStepKeeps(s, b, p, d);
    case BumpL2(b) => AdvanceStepKeeps(s, b);
    case BumpLost(b) => LossStepKeeps(s, b);
    case BumpSync(b) => SyncStepKeeps(s, b);
  }

  lemma KeyStepKeeps(s: State, id: RequestId)
    requires Invariant(s) && Disciplined(s, BuildKey(id))
    ensures Invariant(Apply(s, BuildKey(id)))
  {
    if id in s.pending {
      BuildKeeps(s, id);
    } else {
      IdleKeeps(s, Apply(s, BuildKey(id)));
    }
  }

  lemma StartStepKeeps(s: State, b: BumpId, p: Process, d: Domain)
    requires Invariant(s) && Disciplined(s, BumpL1(b, p, d))
    ensures Invariant(Apply(s, BumpL1(b, p, d)))
  {
    if b in s.bumps {
      IdleKeeps(s, Apply(s, BumpL1(b, p, d)));
    } else {
      BumpL1Keeps(s, b, p, d);
    }
  }

  lemma AdvanceStepKeeps(s: State, b: BumpId)
    requires Invariant(s)
    ensures Invariant(Apply(s, BumpL2(b)))
  {
    if UnderWay(s, b) {
      BumpL2Keeps(s, b);
    } else {
      IdleKeeps(s, Apply(s, BumpL2(b)));
    }
  }

  lemma AbandonedKeeps(s: State, b: BumpId)
    requires Invariant(s)
    ensures Invariant(Abandoned(s, b))
  {
    var t := Abandoned(s, b);
    CountersUntouched(s, t);
    EntriesUntouched(s, t);
    HitsUntouched(s, t);
  }

  lemma LossStepKeeps(s: State, b: BumpId)
    requires Invariant(s)
    ensures Invariant(Apply(s, BumpLost(b)))
  {
    if UnderWay(s, b) {
      AbandonedKeeps(s, b);
    } else {
      IdleKeeps(s, Apply(s, BumpLost(b)));
    }
  }

  lemma SyncStepKeeps(s: State, b: BumpId)
    requires Invariant(s)
    ensures Invariant(Apply(s, BumpSync(b)))
  {
    if b in s.bumps && s.bumps[b].remote.Some? {
      BumpSyncKeeps(s, b);
    } else {
      IdleKeeps(s, Apply(s, BumpSync(b)));
    }
  }

  /** From a state that keeps the invariant, every disciplined continuation does. */
  lemma {:induction false} RunKeeps(s: State, steps: seq<Step>)
    requires Invariant(s) && AllDisciplined(s, steps)
    ensures Invariant(After(s, steps))
    decreases |steps|
  {
    if steps != [] {
      StepKeeps(s, steps[0]);
      RunKeeps(Apply(s, steps[0]), steps[1..]);
    }
  }

  /** Over every disciplined interleaving of any number of processes: no hit returns a payload whose key was
      built before an advance that the reader's key was built after, and private counters overtake the
      shared one only by a bump that has not reached it. */
  lemma NoStaleHits(steps: seq<Step>)
    requires AllDisciplined(Start, steps)
    ensures Invariant(After(Start, steps))
    ensures forall i :: 0 <= i < |After(Start, steps).hits| ==> FreshHit(After(Start, steps).advances, After(Start, steps).hits[i])
    ensures forall p, d :: !Unreached(After(Start, steps).bumps, p, d) ==>
              Own(After(Start, steps).own, p, d) <= Count(After(Start, steps).shared, d)
  {
    RunKeeps(Start, steps);
    var s := After(Start, steps);
    forall p, d | !Unreached(s.bumps, p, d) ensures Own(s.own, p, d) <= Count(s.shared, d) {
      assert NotFarAhead(s.shared, s.bumps, p, d, Own(s.own, p, d));
    }
  }

  /** The two increments of every bump are adjacent. */
  predicate Adjacent(steps: seq<Step>) {
    steps == [] ||
    if steps[0].BumpL1? then |steps| > 1 && steps[1] == BumpL2(steps[0].bump) && Adjacent(steps[2..])
    else Adjacent(steps[1..])
  }

  ghost predicate NoneInTheMiddle(bumps: map<BumpId, Bump>) {
    forall b :: b in bumps ==> bumps[b].remote.Some?
  }

  lemma CalmIsDisciplined(s: State, step: Step)
    requires Invariant(s) && NoneInTheMiddle(s.bumps)
    ensures Disciplined(s, step)
  {
    if step.BuildKey? && step.id in s.pending {
      assert ReadAgrees(s.shared, s.bumps, s.pending[step.id]);
    } else if step.BumpL1? {
      assert NotFarAhead(s.shared, s.bumps, step.process, step.domain, Own(s.own, step.process, step.domain));
    }
  }

  lemma NoneInTheMiddleAfter(s: State, step: Step)
    requires NoneInTheMiddle(s.bumps) && !step.BumpL1?
    ensures NoneInTheMiddle(Apply(s, step).bumps)
  {
    if step.BumpL2? || step.BumpLost? {
      assert !UnderWay(s, step.bump);
    } else if step.BumpSync? {
      assert Apply(s, step).bumps == s.bumps || Apply(s, step).bumps == s.bumps - {step.bump};
    } else {
      BumpsStay(s, step);
    }
  }

  lemma BumpsStay(s: State, step: Step)
    requires !step.BumpL1? && !step.BumpL2? && !step.BumpLost? && !step.BumpSync?
    ensures Apply(s, step).bumps == s.bumps
  {
    match step
    case ReadOwn(_, _, _, _) =>
    case BuildKey(id) => assert id in s.pending ==> Built(s, id).bumps == s.bumps;
    case LookupL1(_) =>
    case LookupL2(_) =>
    case LoadAndStoreL1(_) =>
    case LoadAndStoreL2(_) =>
    case _ =>
  }

  lemma NoneInTheMiddleAfterBoth(s: State, b: BumpId, p: Process, d: Domain)
    requires NoneInTheMiddle(s.bumps)
    ensures NoneInTheMiddle(Apply(Apply(s, BumpL1(b, p, d)), BumpL2(b)).bumps)
  {
    var t := Apply(s, BumpL1(b, p, d));
    if b in s.bumps {
      assert t.bumps == s.bumps;
    } else {
      assert Apply(t, BumpL2(b)) == Advanced(t, b);
    }
  }

  /** When nothing happens between the two increments of a bump, the discipline keeps itself: then no run serves a
      stale hit, whatever the order of the steps. */
  lemma {:induction false} AdjacentIsDisciplined(s: State, steps: seq<Step>)
    requires Invariant(s) && NoneInTheMiddle(s.bumps) && Adjacent(steps)
    ensures AllDisciplined(s, steps)
    decreases |steps|
  {
    if steps != [] {
      var s1 := Apply(s, steps[0]);
      CalmIsDisciplined(s, steps[0]);
      StepKeeps(s, steps[0]);
      if steps[0].BumpL1? {
        NoneInTheMiddleAfterBoth(s, steps[0].bump, steps[0].process, steps[0].domain);
        StepKeeps(s1, steps[1]);
        AdjacentIsDisciplined(Apply(s1, steps[1]), steps[2..]);
        assert steps[1..][0] == steps[1] && steps[1..][1..] == steps[2..];
        assert AllDisciplined(s1, steps[1..]);
      } else {
        NoneInTheMiddleAfter(s, steps[0]);
        AdjacentIsDisciplined(s1, steps[1..]);
      }
    }
  }

  /** The steps of a bump that nothing interrupts do what the method does. */
  lemma BumpInOneGo(s: State, b: BumpId, p: Process, d: Domain)
    requires b !in s.bumps
    ensures var t, after := Synced(Advanced(Started(s, b, p, d), b), b), Bumped(Own(s.own, p, d), Some(Count(s.shared, d)));
            Own(t.own, p, d) == after.0 && Some(Count(t.shared, d)) == after.1 && t.bumps == s.bumps
  {
    var advanced := Advanced(Started(s, b, p, d), b);
    assert advanced.bumps[b] == Bump(p, d, Own(s.own, p, d) + 1, Some(Count(s.shared, d) + 1));
    assert advanced.bumps - {b} == s.bumps;
  }

  // ---------------------------------------------------------------- the discipline is exact

  ghost predicate Stale(s: State) {
    exists i :: 0 <= i < |s.hits| && !FreshHit(s.advances, s.hits[i])
  }

  /** Some continuation that keeps the discipline serves a stale payload. */
  ghost predicate LeadsToStale(s: State) {
    exists steps :: AllDisciplined(s, steps) && Stale(After(s, steps))
  }

  lemma StaleLeads(s: State)
    requires Stale(s)
    ensures LeadsToStale(s)
  {
    assert AllDisciplined(s, []) && After(s, []) == s;
  }

  lemma LeadsBack(s: State, step: Step)
    requires Disciplined(s, step) && LeadsToStale(Apply(s, step))
    ensures LeadsToStale(s)
  {
    var rest :| AllDisciplined(Apply(s, step), rest) && Stale(After(Apply(s, step), rest));
    var steps := [step] + rest;
    assert steps[0] == step && steps[1..] == rest;
    assert AllDisciplined(s, steps) && Stale(After(s, steps));
  }

  lemma BuiltLeads(s: State, id: RequestId)
    requires id in s.pending && s.pending[id].own <= Count(s.shared, s.pending[id].domain) && LeadsToStale(Built(s, id))
    ensures LeadsToStale(s)
  {
    LeadsBack(s, BuildKey(id));
  }

  lemma StartedLeads(s: State, b: BumpId, p: Process, d: Domain)
    requires b !in s.bumps && Own(s.own, p, d) <= Count(s.shared, d) && LeadsToStale(Started(s, b, p, d))
    ensures LeadsToStale(s)
  {
    LeadsBack(s, BumpL1(b, p, d));
  }

  lemma AdvancedLeads(s: State, b: BumpId)
    requires UnderWay(s, b) && LeadsToStale(Advanced(s, b))
    ensures LeadsToStale(s)
  {
    LeadsBack(s, BumpL2(b));
  }

  lemma SyncedLeads(s: State, b: BumpId)
    requires b in s.bumps && s.bumps[b].remote.Some? && LeadsToStale(Synced(s, b))
    ensures LeadsToStale(s)
  {
    LeadsBack(s, BumpSync(b));
  }

  /** The private counter is evicted and read as zero: what a process that never bumped would read. */
  function FreshRead(s: State, id: RequestId, p: Process, d: Domain, panel: Panel): State {
    s.(now := s.now + 2, own := s.own - {(p, d)}, pending := s.pending[id := Read(p, d, panel, 0)])
  }

  lemma FreshReadLeads(s: State, id: RequestId, p: Process, d: Domain, panel: Panel)
    requires LeadsToStale(FreshRead(s, id, p, d, panel))
    ensures LeadsToStale(s)
  {
    var evicted := Apply(s, EvictCounter(p, d));
    assert Apply(evicted, ReadOwn(id, p, d, panel)) == FreshRead(s, id, p, d, panel);
    LeadsBack(evicted, ReadOwn(id, p, d, panel));
    LeadsBack(s, EvictCounter(p, d));
  }

  function StoredL2(s: State, id: RequestId): State
    requires id in s.requests
  {
    s.(now := s.now + 1, l2 := s.l2[s.requests[id].key := Payload(s.requests[id].builtAt)])
  }

  lemma StoredLeads(s: State, id: RequestId)
    requires id in s.requests && LeadsToStale(StoredL2(s, id))
    ensures LeadsToStale(s)
  {
    LeadsBack(s, LoadAndStoreL2(id));
  }

  /** An advance lies between the key of the stored payload and now. */
  ghost predicate Outdated(s: State, key: Key) {
    key in s.l2 && exists a :: a in s.advances && a.domain == key.domain && s.l2[key].builtAt <= a.time < s.now
  }

  lemma OutdatedIsServed(s: State, id: RequestId)
    requires id in s.requests && s.requests[id].key in s.l2
    requires !FreshHit(s.advances, Hit(s.requests[id], s.l2[s.requests[id].key]))
    ensures LeadsToStale(s)
  {
    var t := Apply(s, LookupL2(id));
    assert t.hits[|s.hits|] == Hit(s.requests[id], s.l2[s.requests[id].key]);
    assert Stale(t);
    StaleLeads(t);
    LeadsBack(s, LookupL2(id));
  }

  /** An outdated payload under the generation in force is served to whoever asks next. */
  lemma HeldIsServed(s: State, id: RequestId, p: Process, d: Domain, panel: Panel)
    requires Outdated(s, Key(d, panel, Count(s.shared, d)))
    ensures LeadsToStale(s)
  {
    var key := Key(d, panel, Count(s.shared, d));
    var read := FreshRead(s, id, p, d, panel);
    var built := Built(read, id);
    assert built.requests[id] == Request(p, key, s.now + 2);
    OutdatedIsServed(built, id);
    BuiltLeads(read, id);
    FreshReadLeads(s, id, p, d, panel);
  }

  /** The private counter is evicted. */
  function Forgot(s: State, p: Process, d: Domain): State {
    s.(now := s.now + 1, own := s.own - {(p, d)})
  }

  /** A bump whose process has lost its counter and so is not ahead. */
  lemma ForgetfulBumpLeads(s: State, b: BumpId, p: Process, d: Domain)
    requires b !in s.bumps && LeadsToStale(Started(Forgot(s, p, d), b, p, d))
    ensures LeadsToStale(s)
  {
    StartedLeads(Forgot(s, p, d), b, p, d);
    LeadsBack(s, EvictCounter(p, d));
  }

  lemma {:induction false} NewBump(ids: set<BumpId>) returns (b: BumpId)
    ensures forall c :: c in ids ==> c < b
  {
    b := 0;
    if ids != {} {
      var c :| c in ids;
      var rest := NewBump(ids - {c});
      b := if c < rest then rest else c + 1;
      forall x | x in ids ensures x < b {
        assert x == c || x in ids - {c};
      }
    }
  }

  /** A key built from a private counter that is ahead: some bump reaches the shared store, the value is stored, and
      whoever asks next takes it for one from after the bump. */
  lemma KeyAheadServesStale(s: State, id: RequestId)
    requires Invariant(s) && id in s.pending && s.pending[id].own > Count(s.shared, s.pending[id].domain)
    ensures LeadsToStale(Built(s, id))
  {
    var r := s.pending[id];
    assert ReadAgrees(s.shared, s.bumps, r);
    var built := Built(s, id);
    var b := NewBump(built.bumps.Keys);
    var started := Started(Forgot(built, r.process, r.domain), b, r.process, r.domain);
    assert started.requests[id] == Request(r.process, Key(r.domain, r.panel, Count(s.shared, r.domain) + 1), s.now);
    StoreAfterAdvance(started, id, b, r.domain, r.panel);
    AdvancedLeads(started, b);
    ForgetfulBumpLeads(built, b, r.process, r.domain);
  }

  lemma StoreAfterAdvance(s: State, id: RequestId, b: BumpId, d: Domain, panel: Panel)
    requires UnderWay(s, b) && s.bumps[b].domain == d && id in s.requests && s.requests[id].builtAt < s.now
    requires s.requests[id].key == Key(d, panel, Count(s.shared, d) + 1)
    ensures LeadsToStale(Advanced(s, b))
  {
    var advanced := Advanced(s, b);
    var stored := StoredL2(advanced, id);
    assert advanced.advances[|s.advances|] == Advance(d, s.now);
    assert Outdated(stored, Key(d, panel, Count(stored.shared, d)));
    HeldIsServed(stored, id, 0, d, panel);
    StoredLeads(advanced, id);
  }

  /** Writing the local value over the shared counter brings back a generation whose payload is outdated. */
  lemma RegressServesStale(s: State, b: BumpId, id: RequestId, d: Domain, panel: Panel)
    requires b in s.bumps && s.bumps[b].domain == d && s.bumps[b].remote.Some? && s.bumps[b].local > s.bumps[b].remote.value
    requires Outdated(s, Key(d, panel, s.bumps[b].local))
    ensures LeadsToStale(s)
  {
    assert Outdated(Synced(s, b), Key(d, panel, Count(Synced(s, b).shared, d)));
    HeldIsServed(Synced(s, b), id, 0, d, panel);
    SyncedLeads(s, b);
  }

  /** After a payload has been stored under the generation in force, one more bump outdates it. */
  lemma BumpThenRegress(s: State, b: BumpId, c: BumpId, id: RequestId, d: Domain, panel: Panel, p: Process)
    requires b in s.bumps && s.bumps[b].domain == d && s.bumps[b].remote.Some? && c !in s.bumps
    requires s.bumps[b].local > s.bumps[b].remote.value && (p, d) !in s.own
    requires var key := Key(d, panel, s.bumps[b].local); key in s.l2 && s.l2[key].builtAt <= s.now
    ensures LeadsToStale(s)
  {
    var started := Started(s, c, p, d);
    var advanced := Advanced(started, c);
    assert started.bumps[c].domain == d && advanced.advances[|s.advances|] == Advance(d, s.now + 1);
    assert advanced.bumps[b] == s.bumps[b];
    RegressServesStale(advanced, b, id, d, panel);
    AdvancedLeads(started, c);
    StartedLeads(s, c, p, d);
  }

  /** A bump that found the shared store behind is still to write its local value, which is the generation in force. */
  lemma StoreThenBump(s: State, b: BumpId, c: BumpId, id: RequestId, p: Process, d: Domain, panel: Panel)
    requires b in s.bumps && s.bumps[b].domain == d && s.bumps[b].remote.Some? && c !in s.bumps
    requires s.bumps[b].remote.value < s.bumps[b].local == Count(s.shared, d)
    ensures LeadsToStale(s)
  {
    var read := FreshRead(s, id, p, d, panel);
    var built := Built(read, id);
    var stored := StoredL2(built, id);
    assert built.requests[id] == Request(p, Key(d, panel, s.bumps[b].local), s.now + 2);
    BumpThenRegress(stored, b, c, id, d, panel, p);
    StoredLeads(built, id);
    BuiltLeads(read, id);
    FreshReadLeads(s, id, p, d, panel);
  }

  /** A bump started while the private counter is ahead finds the shared store behind, and later writes its own value
      over a shared counter that has moved on. */
  lemma BumpAheadServesStale(s: State, b: BumpId, p: Process, d: Domain, id: RequestId, panel: Panel)
    requires Invariant(s) && b !in s.bumps && Own(s.own, p, d) > Count(s.shared, d)
    ensures LeadsToStale(Started(s, b, p, d))
  {
    assert NotFarAhead(s.shared, s.bumps, p, d, Own(s.own, p, d));
    var started := Started(s, b, p, d);
    var c := NewBump(started.bumps.Keys);
    assert b in started.bumps.Keys && started.bumps[b] == Bump(p, d, Count(s.shared, d) + 2, None);
    assert b < c;
    var both := Started(Forgot(started, p, d), c, p, d);
    assert both.bumps[b] == started.bumps[b];
    assert both.bumps[c] == Bump(p, d, 1, None);
    Overtaken(both, b, c, p, d, id, panel);
    ForgetfulBumpLeads(started, c, p, d);
  }

  lemma Overtaken(s: State, b: BumpId, c: BumpId, p: Process, d: Domain, id: RequestId, panel: Panel)
    requires b in s.bumps && c in s.bumps && b != c && s.bumps[b] == Bump(p, d, Count(s.shared, d) + 2, None)
    requires s.bumps[c].domain == d && s.bumps[c].remote.None? && s.bumps[c].local <= Count(s.shared, d) + 1
    requires UnderWay(s, b) && UnderWay(s, c)
    ensures LeadsToStale(s)
  {
    var n := Count(s.shared, d);
    var s2 := Advanced(s, b);
    assert s2.bumps[b] == Bump(p, d, n + 2, Some(n + 1)) && s2.bumps[c] == s.bumps[c] && Count(s2.shared, d) == n + 1;
    var s3 := Advanced(s2, c);
    assert s3.bumps[b] == s2.bumps[b] && s3.bumps[c].remote == Some(n + 2) && Count(s3.shared, d) == n + 2;
    CatchUp(s3, b, c, p, d, id, panel);
    AdvancedLeads(s2, c);
    AdvancedLeads(s, b);
  }

  lemma CatchUp(s: State, b: BumpId, c: BumpId, p: Process, d: Domain, id: RequestId, panel: Panel)
    requires b in s.bumps && c in s.bumps && b != c && s.bumps[b].domain == d && s.bumps[b].remote.Some?
    requires s.bumps[b].remote.value < s.bumps[b].local == Count(s.shared, d)
    requires s.bumps[c].remote.Some? && s.bumps[c].local <= s.bumps[c].remote.value
    ensures LeadsToStale(s)
  {
    var synced := Synced(s, c);
    assert synced.bumps[b] == s.bumps[b];
    StoreThenBump(synced, b, c, id, p, d, panel);
    SyncedLeads(s, c);
  }

  /** In every state of a disciplined run, a step is safe, whatever disciplined steps follow it, exactly when it keeps
      the discipline. */
  lemma DisciplineIsExact(s: State, step: Step)
    requires Invariant(s)
    ensures Disciplined(s, step) <==> !LeadsToStale(Apply(s, step))
  {
    if Disciplined(s, step) {
      StepKeeps(s, step);
      forall steps | AllDisciplined(Apply(s, step), steps) ensures !Stale(After(Apply(s, step), steps)) {
        RunKeeps(Apply(s, step), steps);
      }
    } else if step.BuildKey? {
      KeyAheadServesStale(s, step.id);
    } else {
      BumpAheadServesStale(s, step.bump, step.process, step.domain, 0, 0);
    }
  }

  /** The steps of a bump abandoned in an outage, and its process's next read of its own counter. */
  function OutageBump(s: State, b: BumpId, p: Process, d: Domain, id: RequestId, panel: Panel): State {
    Apply(Abandoned(Started(s, b, p, d), b), ReadOwn(id, p, d, panel))
  }

  lemma OutageBumpKeeps(s: State, b: BumpId, p: Process, d: Domain, id: RequestId, panel: Panel)
    requires Invariant(s) && b !in s.bumps && Own(s.own, p, d) <= Count(s.shared, d)
    ensures Invariant(OutageBump(s, b, p, d, id, panel))
  {
    var started := Started(s, b, p, d);
    BumpL1Keeps(s, b, p, d);
    AbandonedKeeps(started, b);
    ReadKeeps(Abandoned(started, b), id, p, d, panel);
  }

  lemma OutageBumpCounters(s: State, b: BumpId, p: Process, d: Domain, id: RequestId, panel: Panel)
    requires b !in s.bumps
    ensures var t, local := OutageBump(s, b, p, d, id, panel), Own(s.own, p, d) + 1;
            t.own == s.own[(p, d) := local] && t.shared == s.shared && t.pending == s.pending[id := Read(p, d, panel, local)]
    ensures Started(s, b, p, d) == Apply(s, BumpL1(b, p, d))
    ensures Abandoned(Started(s, b, p, d), b) == Apply(Started(s, b, p, d), BumpLost(b))
  {
    assert UnderWay(Started(s, b, p, d), b);
  }

  /** A bump abandoned in an outage is seen by nobody but its process, by that process exactly when its counter was
      not behind, and exactly then the next key that the process builds leads to a stale hit. */
  lemma OutageBumpServesStale(s: State, b: BumpId, p: Process, d: Domain, id: RequestId, panel: Panel)
    requires Invariant(s) && b !in s.bumps && Own(s.own, p, d) <= Count(s.shared, d)
    ensures var t := OutageBump(s, b, p, d, id, panel);
            var seen := Seen(Own(s.own, p, d), Some(Count(s.shared, d)));
            && t.shared == s.shared && (forall q, e :: q != p ==> Own(t.own, q, e) == Own(s.own, q, e))
            && (Seen(Own(t.own, p, d), Some(Count(t.shared, d))) > seen <==> Own(s.own, p, d) == Count(s.shared, d))
            && (LeadsToStale(Apply(t, BuildKey(id))) <==> Own(s.own, p, d) == Count(s.shared, d))
  {
    OutageBumpKeeps(s, b, p, d, id, panel);
    OutageBumpCounters(s, b, p, d, id, panel);
    DisciplineIsExact(OutageBump(s, b, p, d, id, panel), BuildKey(id));
  }

  /** A process is ahead from the first half of its first bump on. */
  lemma AheadInTheMiddle(b: BumpId, p: Process, d: Domain, id: RequestId, panel: Panel)
    ensures var steps := [BumpL1(b, p, d), ReadOwn(id, p, d, panel)];
            && AllDisciplined(Start, steps)
            && !Disciplined(After(Start, steps), BuildKey(id))
            && forall c :: c != b ==> !Disciplined(After(Start, steps), BumpL1(c, p, d))
  {
    var read := ReadOwn(id, p, d, panel);
    var s1 := Apply(Start, BumpL1(b, p, d));
    var s2 := Apply(s1, read);
    assert [BumpL1(b, p, d), read][1..] == [read] && [read][1..] == [];
    assert After(s1, [read]) == After(s2, []) == s2;
    assert s2.pending[id] == Read(p, d, panel, 1);
  }
}
