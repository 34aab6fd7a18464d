/** The platform's in-process cache backend: the same recency list and budgets as the hub's cache, counters that live
    among the entries, and locks that are held by token for a limited time. */
module CacheBackends {
  import opened Wrappers
  import opened MemoryCaches

  /** The size of a number written out. */
  function Digits(n: int): (d: nat)
    ensures d > 0
    decreases if n < 0 then 1 - n else n
  {
    if n < 0 then 1 + Digits(-n) else if n < 10 then 1 else 1 + Digits(n / 10)
  }

  function Power(d: nat): (p: nat)
    ensures p > 0
  {
    if d == 0 then 1 else 10 * Power(d - 1)
  }

  /** As many as the decimal notation has: the number lies between two neighbouring powers of ten. */
  lemma {:induction false} DigitsBound(n: int)
    ensures n >= 0 ==> n < Power(Digits(n)) && (n >= 10 ==> Power(Digits(n) - 1) <= n) && (n < 10 ==> Digits(n) == 1)
    ensures n < 0 ==> Digits(n) == 1 + Digits(-n)
    decreases if n < 0 then 1 - n else n
  {
    if n >= 10 {
      DigitsBound(n / 10);
      assert Power(1) == 10 * Power(0);
    } else {
      assert Power(1) == 10 * Power(0);
    }
  }

  function Counter(key: Key, n: int, expiresAt: Option<int>): Item {
    Item(key, Number(n), expiresAt, Digits(n))
  }

  /** An expired counter counts as absent, and so from zero. */
  function CountOf(items: seq<Item>, key: Key, now: int): int {
    var found := Find(items, key, now);
    if found.Some? && found.value.Number? then found.value.number else 0
  }

  /** The entries after an increment. */
  function AfterIncr(items: seq<Item>, key: Key, amount: int, ttl: Option<int>, now: int): seq<Item> {
    Without(items, key) + [Incremented(items, key, amount, ttl, now)]
  }

  /** What an increment stores: the time to live is set when counting starts from zero and kept otherwise. */
  function Incremented(items: seq<Item>, key: Key, amount: int, ttl: Option<int>, now: int): Item {
    var current := CountOf(items, key, now);
    var i := IndexOf(items, key);
    var kept := if i < |items| && !Expired(items[i], now) then items[i].expiresAt else None;
    Counter(key, current + amount, if current == 0 && ttl.Some? then Some(now + ttl.value) else kept)
  }

  datatype Lock = Lock(token: int, until: int)

  /** The lock table after an attempt; a lock that has run out is free. */
  function Acquired(locks: map<Key, Lock>, key: Key, token: int, ttl: nat, now: int): (map<Key, Lock>, bool) {
    if key in locks && locks[key].until > now then (locks, false)
    else (locks[key := Lock(token, now + ttl)], true)
  }

  function Released(locks: map<Key, Lock>, key: Key, token: int): map<Key, Lock> {
    if key in locks && locks[key].token == token then locks - {key} else locks
  }

  class InMemoryCache {
    const config: Config
    var entries: seq<Item>
    var bytes: int
    var locks: map<Key, Lock>
    var evictions: nat

    /** No key twice, and the byte count is right. */
    ghost predicate Valid()
      reads this
    {
      Distinct(entries) && bytes == TotalBytes(entries)
    }

    constructor (config: Config)
      ensures Valid() && entries == [] && locks == map[] && this.config == config
    {
      this.config, entries, bytes, locks, evictions := config, [], 0, map[], 0;
    }

    method Position(key: Key) returns (i: nat)
      ensures i == IndexOf(entries, key)
    {
      i := 0;
      while i < |entries| && entries[i].key != key
        invariant i <= |entries| && forall j :: 0 <= j < i ==> entries[j].key != key
      {
        i := i + 1;
      }
    }

    method Get(key: Key, now: int) returns (value: Option<Value>)
      requires Valid()
      modifies this`entries, this`bytes
      ensures Valid() && value == Find(old(entries), key, now) && entries == AfterGet(old(entries), key, now)
    {
      var i := Position(key);
      if i == |entries| {
        return None;
      }
      TakeOut(entries, i);
      var e := entries[i];
      if e.expiresAt.Some? && e.expiresAt.value <= now {
        entries, bytes := entries[..i] + entries[i + 1..], bytes - e.size;
        return None;
      }
      TotalBytesAppend(entries[..i] + entries[i + 1..], [e]);
      entries := entries[..i] + entries[i + 1..] + [e];
      value := Some(e.value);
    }

    /** Replaces, moves to the recent end and evicts; a value beyond the budget takes everything with it. */
    method Set(key: Key, value: Value, size: nat, ttl: Option<int>, now: int)
      requires Valid()
      modifies this`entries, this`bytes, this`evictions
      ensures Valid()
      ensures entries == Fitting(config, Without(old(entries), key) + [Item(key, value, Expiry(ttl, now), size)])
    {
      var i := Position(key);
      if i < |entries| {
        TakeOut(entries, i);
        bytes := bytes - entries[i].size;
        entries := entries[..i] + entries[i + 1..];
      }
      TotalBytesAppend(entries, [Item(key, value, Expiry(ttl, now), size)]);
      entries := entries + [Item(key, value, Expiry(ttl, now), size)];
      bytes := bytes + size;
      Evict();
    }

    method Evict()
      requires Valid()
      modifies this`entries, this`bytes, this`evictions
      ensures Valid() && entries == Fitting(config, old(entries))
      ensures evictions == old(evictions) + |old(entries)| - |entries|
    {
      while |entries| > 0 && (|entries| > config.maxEntries || bytes > config.maxBytes)
        invariant Valid() && Fitting(config, entries) == Fitting(config, old(entries))
        invariant |entries| <= |old(entries)| && evictions == old(evictions) + |old(entries)| - |entries|
        decreases |entries|
      {
        bytes := bytes - entries[0].size;
        entries := entries[1..];
        evictions := evictions + 1;
      }
    }

    method Delete(key: Key)
      requires Valid()
      modifies this`entries, this`bytes
      ensures Valid() && entries == Without(old(entries), key)
    {
      var i := Position(key);
      if i < |entries| {
        TakeOut(entries, i);
        bytes := bytes - entries[i].size;
        entries := entries[..i] + entries[i + 1..];
      }
    }

    /** Adds to a counter. An entry that is no number makes it fail, after its bytes were taken off the count. The
        store is not trimmed afterwards. */
    method IncrBy(key: Key, amount: int, ttl: Option<int>, now: int) returns (value: Option<int>)
      requires Valid()
      modifies this`entries, this`bytes
      ensures value.None? <==> Find(old(entries), key, now).Some? && Find(old(entries), key, now).value.Object?
      ensures value.Some? ==>
                && Valid() && value.value == CountOf(old(entries), key, now) + amount
                && entries == AfterIncr(old(entries), key, amount, ttl, now)
      ensures value.None? ==> entries == old(entries) && bytes == old(bytes) - entries[IndexOf(entries, key)].size
    {
      var current, expiresAt: Option<int> := 0, None;
      var i := Position(key);
      if i < |entries| {
        TakeOut(entries, i);
        var e := entries[i];
        bytes := bytes - e.size;
        if e.expiresAt.None? || e.expiresAt.value > now {
          if e.value.Object? {
            return None;
          }
          current, expiresAt := e.value.number, e.expiresAt;
        }
        entries := entries[..i] + entries[i + 1..];
      }
      if current == 0 && ttl.Some? {
        expiresAt := Some(now + ttl.value);
      }
      TotalBytesAppend(entries, [Counter(key, current + amount, expiresAt)]);
      entries := entries + [Counter(key, current + amount, expiresAt)];
      bytes := bytes + Digits(current + amount);
      value := Some(current + amount);
    }

    method AcquireLock(key: Key, token: int, ttl: nat, now: int) returns (ok: bool)
      modifies this`locks
      ensures (locks, ok) == Acquired(old(locks), key, token, ttl, now)
    {
      if key in locks && locks[key].until > now {
        return false;
      }
      locks := locks[key := Lock(token, now + ttl)];
      ok := true;
    }

    method ReleaseLock(key: Key, token: int)
      modifies this`locks
      ensures locks == Released(old(locks), key, token)
    {
      if key in locks && locks[key].token == token {
        locks := locks - {key};
      }
    }
  }

  /** What a lookup finds after an increment: the number that was live, or zero, and the amount; while the entry lives
      when there was one that was not zero, and otherwise for the time to live from now on. */
  lemma CountIsFound(items: seq<Item>, key: Key, amount: int, ttl: Option<int>, now: int, later: int)
    requires Distinct(items) && now <= later
    ensures var before, after := Find(items, key, now), AfterIncr(items, key, amount, ttl, now);
            && Distinct(after)
            && (before.None? ==>
                  Find(after, key, later) == if ttl.None? || later < now + ttl.value then Some(Number(amount)) else None)
            && (before.Some? && before.value.Number? ==>
                  var stays := if before.value.number == 0 && ttl.Some? then later < now + ttl.value
                               else Find(items, key, later).Some?;
                  Find(after, key, later) == if stays then Some(Number(before.value.number + amount)) else None)
  {
    var item := Incremented(items, key, amount, ttl, now);
    var after := Without(items, key) + [item];
    WithoutIsGone(items, key);
    FoundIsLive(after, item, later);
  }

  // ---------------------------------------------------------------- a counter over a whole run

  datatype Tick = Tick(amount: int, ttl: Option<int>, now: int)

  function Counted(items: seq<Item>, key: Key, ticks: seq<Tick>): seq<Item> {
    if ticks == [] then items
    else
      var before, t := Counted(items, key, ticks[..|ticks| - 1]), ticks[|ticks| - 1];
      AfterIncr(before, key, t.amount, t.ttl, t.now)
  }

  function SumOf(ticks: seq<Tick>): int {
    if ticks == [] then 0 else SumOf(ticks[..|ticks| - 1]) + ticks[|ticks| - 1].amount
  }

  /** The increments come one after the other before the first one's time is over, and never count back to zero. */
  predicate OneSpell(ticks: seq<Tick>) {
    ticks == [] ||
    var init, t := ticks[..|ticks| - 1], ticks[|ticks| - 1];
    && OneSpell(init) && SumOf(ticks) != 0
    && (init != [] ==> init[|init| - 1].now <= t.now && InTime(ticks[0], 0, t.now).Some?)
  }

  function InTime(first: Tick, value: int, now: int): Option<Value> {
    if first.ttl.None? || now < first.now + first.ttl.value then Some(Number(value)) else None
  }

  lemma CountGoesOn(items: seq<Item>, key: Key, sum: int, first: Tick, t: Tick, later: int)
    requires Distinct(items) && t.now <= later && sum != 0 && InTime(first, sum, t.now).Some?
    requires Find(items, key, t.now) == InTime(first, sum, t.now) && Find(items, key, later) == InTime(first, sum, later)
    ensures var after := AfterIncr(items, key, t.amount, t.ttl, t.now);
            Distinct(after) && Find(after, key, later) == InTime(first, sum + t.amount, later)
  {
    CountIsFound(items, key, t.amount, t.ttl, t.now, later);
  }

  lemma CountStarts(items: seq<Item>, key: Key, t: Tick, later: int)
    requires Distinct(items) && t.now <= later && Find(items, key, t.now).None?
    ensures var after := AfterIncr(items, key, t.amount, t.ttl, t.now);
            Distinct(after) && Find(after, key, later) == InTime(t, t.amount, later)
  {
    CountIsFound(items, key, t.amount, t.ttl, t.now, later);
  }

  lemma OneTick(items: seq<Item>, key: Key, ticks: seq<Tick>)
    requires ticks != []
    ensures var init, t := ticks[..|ticks| - 1], ticks[|ticks| - 1];
            && Counted(items, key, ticks) == AfterIncr(Counted(items, key, init), key, t.amount, t.ttl, t.now)
            && SumOf(ticks) == SumOf(init) + t.amount
            && (|ticks| == 1 ==> Counted(items, key, init) == items && SumOf(init) == 0)
  {
  }

  /** A counter that starts where nothing is live holds the sum of its increments until the first one's time to live
      is over, whatever times to live the later ones name. */
  lemma {:induction false} CounterHoldsTheSum(items: seq<Item>, key: Key, ticks: seq<Tick>, later: int)
    requires Distinct(items) && ticks != [] && Find(items, key, ticks[0].now).None? && OneSpell(ticks)
    requires ticks[|ticks| - 1].now <= later
    ensures Distinct(Counted(items, key, ticks))
    ensures Find(Counted(items, key, ticks), key, later) == InTime(ticks[0], SumOf(ticks), later)
    decreases |ticks|
  {
    var n := |ticks| - 1;
    var init, t := ticks[..n], ticks[n];
    OneTick(items, key, ticks);
    if n == 0 {
      CountStarts(items, key, t, later);
    } else {
      assert init[0] == ticks[0];
      CounterHoldsTheSum(items, key, init, t.now);
      CounterHoldsTheSum(items, key, init, later);
      CountGoesOn(Counted(items, key, init), key, SumOf(init), ticks[0], t, later);
    }
  }

  /** Counting does not trim. A store within its budgets leaves them exactly when the number grows by more digits than
      there is room for, or when there is no room for a new counter; and by no more than the counter's own size, or
      one entry. */
  lemma CountingMayOverflow(c: Config, items: seq<Item>, key: Key, amount: int, ttl: Option<int>, now: int)
    requires Distinct(items) && Fits(c, items)
    ensures var item, i, room := Incremented(items, key, amount, ttl, now), IndexOf(items, key), c.maxBytes - TotalBytes(items);
            var after := Without(items, key) + [item];
            && (i < |items| ==> (Fits(c, after) <==> item.size - items[i].size <= room))
            && (i == |items| ==> (Fits(c, after) <==> item.size <= room && |items| < c.maxEntries))
            && TotalBytes(after) <= c.maxBytes + item.size && |after| <= c.maxEntries + 1
  {
    var item, i := Incremented(items, key, amount, ttl, now), IndexOf(items, key);
    TotalBytesAppend(Without(items, key), [item]);
    assert TotalBytes([item]) == item.size;
    if i < |items| {
      TakeOut(items, i);
    }
  }

  // ---------------------------------------------------------------- locks over whole runs

  datatype LockEvent =
    | Acquire(key: Key, token: int, ttl: nat, now: int)
    | Release(key: Key, token: int)

  function LocksAfter(events: seq<LockEvent>): map<Key, Lock> {
    if events == [] then map[]
    else
      var locks := LocksAfter(events[..|events| - 1]);
      match events[|events| - 1]
      case Acquire(key, token, ttl, now) => Acquired(locks, key, token, ttl, now).0
      case Release(key, token) => Released(locks, key, token)
  }

  /** Event `i` gave `token` the lock. */
  predicate Granted(events: seq<LockEvent>, i: nat, key: Key, token: int)
    requires i < |events|
  {
    match events[i]
    case Acquire(k, t, ttl, now) => k == key && t == token && Acquired(LocksAfter(events[..i]), k, t, ttl, now).1
    case Release(_, _) => false
  }

  predicate ReleasedBetween(events: seq<LockEvent>, i: nat, j: nat, key: Key, token: int)
    requires j <= |events|
  {
    exists k :: i < k < j && events[k] == Release(key, token)
  }

  /** Until it runs out or its own token releases it, a granted lock stays as it was granted, whatever others try. */
  lemma {:induction false} LockIsKept(events: seq<LockEvent>, i: nat, j: nat, key: Key, token: int)
    requires i < j <= |events| && Granted(events, i, key, token) && !ReleasedBetween(events, i, j, key, token)
    requires forall k :: i < k < j && events[k].Acquire? && events[k].key == key ==> events[k].now < events[i].now + events[i].ttl
    ensures key in LocksAfter(events[..j]) && LocksAfter(events[..j])[key] == Lock(token, events[i].now + events[i].ttl)
    decreases j
  {
    assert events[..j][..j - 1] == events[..j - 1];
    if j > i + 1 {
      LockIsKept(events, i, j - 1, key, token);
    }
  }

  /** Mutual exclusion: nobody is granted a lock that another token still holds. */
  lemma NoTwoHolders(events: seq<LockEvent>, i: nat, j: nat, key: Key, first: int, second: int)
    requires i < j < |events| && Granted(events, i, key, first) && Granted(events, j, key, second)
    requires forall k :: i < k < j && events[k].Acquire? && events[k].key == key ==> events[k].now < events[i].now + events[i].ttl
    ensures ReleasedBetween(events, i, j, key, first) || events[j].now >= events[i].now + events[i].ttl
  {
    if !ReleasedBetween(events, i, j, key, first) {
      LockIsKept(events, i, j, key, first);
    }
  }

  // ---------------------------------------------------------------- exactly when a lock is granted

  /** Event `i` was granted the lock, and no other event was before `j`. */
  predicate LastGrant(events: seq<LockEvent>, i: nat, j: nat, key: Key)
    requires j <= |events|
  {
    && i < j && GrantedAt(events, i, key) && forall k :: i < k < j ==> !GrantedAt(events, k, key)
  }

  predicate GrantedAt(events: seq<LockEvent>, i: nat, key: Key)
    requires i < |events|
  {
    events[i].Acquire? && Granted(events, i, key, events[i].token)
  }

  /** The last one granted the lock has not released it. */
  ghost predicate Unreleased(events: seq<LockEvent>, i: nat, j: nat, key: Key)
    requires j <= |events|
  {
    LastGrant(events, i, j, key) && !ReleasedBetween(events, i, j, key, events[i].token)
  }

  ghost predicate TableShows(events: seq<LockEvent>, i: nat, j: nat, key: Key)
    requires j <= |events| && i < |events| && events[i].Acquire?
  {
    var locks := LocksAfter(events[..j]);
    key in locks && locks[key] == Lock(events[i].token, events[i].now + events[i].ttl)
  }

  lemma OneEventMore(events: seq<LockEvent>, i: nat, j: nat, key: Key)
    requires i < j < |events| && events[i].Acquire?
    ensures var kept := Unreleased(events, i, j, key) && !GrantedAt(events, j, key) && events[j] != Release(key, events[i].token);
            && (Unreleased(events, i, j + 1, key) <==> kept)
            && (kept && TableShows(events, i, j, key) ==> TableShows(events, i, j + 1, key))
  {
    assert events[..j + 1][..j] == events[..j];
    if Unreleased(events, i, j + 1, key) {
      assert events[j] != Release(key, events[i].token);
    }
  }

  /** The table shows the last grant that was not released, and nothing when there is none. */
  lemma {:induction false} LockTable(events: seq<LockEvent>, j: nat, key: Key)
    requires j <= |events|
    ensures forall i: nat :: Unreleased(events, i, j, key) ==> TableShows(events, i, j, key)
    ensures key in LocksAfter(events[..j]) ==> exists i: nat :: Unreleased(events, i, j, key)
  {
    if j > 0 {
      assert events[..j][..j - 1] == events[..j - 1];
      LockTable(events, j - 1, key);
      forall i: nat | Unreleased(events, i, j, key) ensures TableShows(events, i, j, key) {
        if i < j - 1 {
          OneEventMore(events, i, j - 1, key);
        }
      }
      if key in LocksAfter(events[..j]) {
        var i := EntryHasGrant(events, j - 1, key);
      }
    }
  }

  lemma EntryHasGrant(events: seq<LockEvent>, j: nat, key: Key) returns (i: nat)
    requires j < |events| && key in LocksAfter(events[..j + 1])
    requires key in LocksAfter(events[..j]) ==> exists i: nat :: Unreleased(events, i, j, key)
    requires forall i: nat :: Unreleased(events, i, j, key) ==> TableShows(events, i, j, key)
    ensures Unreleased(events, i, j + 1, key)
  {
    assert events[..j + 1][..j] == events[..j];
    if GrantedAt(events, j, key) {
      i := j;
    } else {
      i :| Unreleased(events, i, j, key);
      assert TableShows(events, i, j, key);
      OneEventMore(events, i, j, key);
    }
  }

  /** And it has not run out when event `j` asks for the lock. */
  ghost predicate StillHeld(events: seq<LockEvent>, i: nat, j: nat)
    requires j < |events| && events[j].Acquire?
  {
    Unreleased(events, i, j, events[j].key) && events[j].now < events[i].now + events[i].ttl
  }

  /** Over every run a lock is granted exactly when nobody holds it: when its last holder, if any, has released it with
      its own token or let it run out. */
  lemma GrantedWhenFree(events: seq<LockEvent>, j: nat)
    requires j < |events| && events[j].Acquire?
    ensures GrantedAt(events, j, events[j].key) <==> !exists i: nat :: StillHeld(events, i, j)
  {
    var key := events[j].key;
    LockTable(events, j, key);
    if key in LocksAfter(events[..j]) {
      var i: nat :| Unreleased(events, i, j, key);
      assert TableShows(events, i, j, key);
      assert StillHeld(events, i, j) <==> LocksAfter(events[..j])[key].until > events[j].now;
    }
  }
}
