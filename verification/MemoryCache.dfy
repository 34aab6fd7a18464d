/** The hub's in-process cache: TTL, LRU order, a byte and an entry budget. The second half proves the inclusion
    property of LRU: a cache with smaller budgets always holds a recency suffix of what a larger one holds. */
module MemoryCaches {
  import opened Wrappers

  /** Keys are only compared for equality; numbers stand for the hashable keys. */
  type Key = int

  datatype Value = Object(id: int) | Number(number: int)

  type Failure = int

  datatype Config = Config(maxBytes: nat, maxEntries: nat, maxEntryBytes: nat)

  /** One cached entry with its accounted size; a cache is a list of items, least recently used first. */
  datatype Item = Item(key: Key, value: Value, expiresAt: Option<int>, size: nat)

  predicate Distinct(items: seq<Item>) {
    forall i, j {:trigger items[i].key, items[j].key} :: 0 <= i < j < |items| ==> items[i].key != items[j].key
  }

  predicate Has(items: seq<Item>, key: Key) {
    exists i :: 0 <= i < |items| && items[i].key == key
  }

  function TotalBytes(items: seq<Item>): nat {
    if items == [] then 0 else items[0].size + TotalBytes(items[1..])
  }

  lemma {:induction false} TotalBytesAppend(a: seq<Item>, b: seq<Item>)
    ensures TotalBytes(a + b) == TotalBytes(a) + TotalBytes(b)
  {
    if a == [] {
      assert a + b == b;
    } else {
      TotalBytesAppend(a[1..], b);
      assert (a + b)[1..] == a[1..] + b;
    }
  }

  function IndexOf(items: seq<Item>, key: Key): (i: nat)
    ensures i <= |items|
    ensures i < |items| ==> items[i].key == key
    ensures forall j :: 0 <= j < i ==> items[j].key != key
  {
    if items == [] || items[0].key == key then 0 else 1 + IndexOf(items[1..], key)
  }

  function Without(items: seq<Item>, key: Key): (r: seq<Item>) {
    var i := IndexOf(items, key);
    if i < |items| then items[..i] + items[i + 1..] else items
  }

  predicate Expired(item: Item, now: int) {
    item.expiresAt.Some? && now >= item.expiresAt.value
  }

  predicate Fits(c: Config, items: seq<Item>) {
    TotalBytes(items) <= c.maxBytes && |items| <= c.maxEntries
  }

  /** The longest recency suffix within both budgets. */
  function Fitting(c: Config, items: seq<Item>): (r: seq<Item>)
    ensures Fits(c, r)
  {
    if Fits(c, items) || items == [] then items else Fitting(c, items[1..])
  }

  function Fresh(items: seq<Item>, now: int): (r: seq<Item>)
  {
    if items == [] then [] else (if Expired(items[0], now) then [] else [items[0]]) + Fresh(items[1..], now)
  }

  /** A lookup at `now`: the live value under `key`, if any. */
  function Find(items: seq<Item>, key: Key, now: int): Option<Value> {
    var i := IndexOf(items, key);
    if i < |items| && !Expired(items[i], now) then Some(items[i].value) else None
  }

  /** After a lookup: a hit moves to the recent end, an expired entry is dropped. */
  function AfterGet(items: seq<Item>, key: Key, now: int): seq<Item> {
    var i := IndexOf(items, key);
    if i == |items| then items
    else if Expired(items[i], now) then Without(items, key)
    else Without(items, key) + [items[i]]
  }

  /** After a store; `sweep` is the time of the sweep when this store triggers one. */
  function AfterPut(c: Config, items: seq<Item>, item: Item, sweep: Option<int>): seq<Item> {
    if item.size > c.maxEntryBytes then items
    else
      var kept := Fitting(c, Without(items, item.key) + [item]);
      if sweep.Some? then Fresh(kept, sweep.value) else kept
  }

  const SWEEP_EVERY := 128

  function Expiry(ttl: Option<int>, now: int): Option<int> {
    if ttl.Some? then Some(now + ttl.value) else None
  }

  // ---------------------------------------------------------------- the class

  datatype Slot = Slot(key: Key, value: Value, expiresAt: Option<int>)

  /** The two dictionaries and the byte count represent `items`. */
  ghost predicate Accounts(entries: seq<Slot>, sizes: map<Key, nat>, total: int, items: seq<Item>) {
    && Distinct(items)
    && AllRepresent(entries, sizes, items)
    && AllOwned(sizes, items)
    && total == TotalBytes(items)
  }

  ghost predicate AllRepresent(entries: seq<Slot>, sizes: map<Key, nat>, items: seq<Item>) {
    && |entries| == |items|
    && forall i {:trigger Represents(entries[i], sizes, items[i])} :: 0 <= i < |items| ==> Represents(entries[i], sizes, items[i])
  }

  ghost predicate AllOwned(sizes: map<Key, nat>, items: seq<Item>) {
    forall k {:trigger k in sizes} :: k in sizes ==> Has(items, k)
  }

  predicate Represents(slot: Slot, sizes: map<Key, nat>, item: Item) {
    slot == Slot(item.key, item.value, item.expiresAt) && item.key in sizes && sizes[item.key] == item.size
  }

  lemma RemoveStep(entries: seq<Slot>, sizes: map<Key, nat>, total: int, items: seq<Item>, i: nat)
    requires Accounts(entries, sizes, total, items) && i < |items|
    ensures var rest := items[..i] + items[i + 1..];
            && Accounts(entries[..i] + entries[i + 1..], sizes - {items[i].key}, total - items[i].size, rest)
            && !Has(rest, items[i].key)
  {
    TakeOut(items, i);
    AllStillRepresent(entries, sizes, items, i);
    SizesStillOwned(sizes, items, i);
  }

  lemma AllStillRepresent(entries: seq<Slot>, sizes: map<Key, nat>, items: seq<Item>, i: nat)
    requires Distinct(items) && AllRepresent(entries, sizes, items) && i < |items|
    ensures AllRepresent(entries[..i] + entries[i + 1..], sizes - {items[i].key}, items[..i] + items[i + 1..])
  {
    var rest, slots, left := items[..i] + items[i + 1..], entries[..i] + entries[i + 1..], sizes - {items[i].key};
    forall j | 0 <= j < |rest| ensures Represents(slots[j], left, rest[j]) {
      var was := if j < i then j else j + 1;
      assert Represents(entries[was], sizes, items[was]);
      assert items[i].key != items[was].key;
    }
  }

  lemma SizesStillOwned(sizes: map<Key, nat>, items: seq<Item>, i: nat)
    requires i < |items| && AllOwned(sizes, items)
    ensures AllOwned(sizes - {items[i].key}, items[..i] + items[i + 1..])
  {
    forall k | k in sizes - {items[i].key} ensures Has(items[..i] + items[i + 1..], k) {
      StillHas(items, i, k);
    }
  }

  lemma StillHas(items: seq<Item>, i: nat, k: Key)
    requires i < |items| && Has(items, k) && k != items[i].key
    ensures Has(items[..i] + items[i + 1..], k)
  {
    var j :| 0 <= j < |items| && items[j].key == k;
    assert (items[..i] + items[i + 1..])[if j < i then j else j - 1].key == k;
  }

  lemma AppendStep(entries: seq<Slot>, sizes: map<Key, nat>, total: int, items: seq<Item>, item: Item)
    requires Accounts(entries, sizes, total, items) && !Has(items, item.key)
    ensures Accounts(entries + [Slot(item.key, item.value, item.expiresAt)], sizes[item.key := item.size],
                     total + item.size, items + [item])
  {
    var more, slots, grown := items + [item], entries + [Slot(item.key, item.value, item.expiresAt)], sizes[item.key := item.size];
    TotalBytesAppend(items, [item]);
    forall j | 0 <= j < |more| ensures Represents(slots[j], grown, more[j]) {
      assert j < |items| ==> Represents(entries[j], sizes, items[j]);
    }
    forall k | k in grown ensures Has(more, k) {
      if k == item.key {
        assert more[|items|].key == k;
      } else {
        var j :| 0 <= j < |items| && items[j].key == k;
        assert more[j].key == k;
      }
    }
  }

  class MemoryCache {
    const config: Config
    const ttl: Option<int>
    /** The ordered dictionary of entries and the parallel dictionary of sizes. */
    var entries: seq<Slot>
    var sizes: map<Key, nat>
    var totalBytes: int
    var hits: nat
    var misses: nat
    var evictions: nat
    var stores: nat
    ghost var items: seq<Item>

    ghost predicate Valid()
      reads this
    {
      Accounts(entries, sizes, totalBytes, items)
    }

    constructor (config: Config, ttl: Option<int>)
      ensures Valid() && items == [] && this.config == config && this.ttl == ttl
      ensures hits == misses == evictions == stores == 0
    {
      this.config, this.ttl := config, ttl;
      entries, sizes, totalBytes := [], map[], 0;
      hits, misses, evictions, stores := 0, 0, 0, 0;
      items := [];
    }

    method Position(key: Key) returns (i: nat)
      requires Valid()
      ensures i == IndexOf(items, key)
    {
      i := 0;
      while i < |entries| && entries[i].key != key
        invariant i <= |entries|
        invariant forall j :: 0 <= j < i ==> items[j].key != key
      {
        assert Represents(entries[i], sizes, items[i]);
        i := i + 1;
      }
      assert i < |entries| ==> Represents(entries[i], sizes, items[i]);
    }

    method Remove(key: Key)
      requires Valid()
      modifies this`entries, this`sizes, this`totalBytes, this`items
      ensures Valid() && items == Without(old(items), key)
    {
      var i := Position(key);
      if i < |entries| {
        RemoveAt(i);
      }
    }

    /** Takes one entry out of both dictionaries and the byte count. */
    method RemoveAt(i: nat)
      requires Valid() && i < |items|
      modifies this`entries, this`sizes, this`totalBytes, this`items
      ensures Valid() && items == old(items[..i] + items[i + 1..])
    {
      var key := entries[i].key;
      assert Represents(entries[i], sizes, items[i]);
      RemoveStep(entries, sizes, totalBytes, items, i);
      entries := entries[..i] + entries[i + 1..];
      totalBytes := totalBytes - sizes[key];
      sizes := sizes - {key};
      items := items[..i] + items[i + 1..];
    }

    method Get(key: Key, now: int) returns (value: Option<Value>)
      requires Valid()
      modifies this
      ensures Valid() && value == Find(old(items), key, now) && items == AfterGet(old(items), key, now)
      ensures hits == old(hits) + (if value.Some? then 1 else 0) && misses == old(misses) + (if value.None? then 1 else 0)
      ensures stores == old(stores) && evictions == old(evictions)
    {
      var i := Position(key);
      if i == |entries| {
        misses := misses + 1;
        return None;
      }
      var slot := entries[i];
      assert Represents(slot, sizes, items[i]);
      if slot.expiresAt.Some? && now >= slot.expiresAt.value {
        assert Expired(items[i], now);
        RemoveAt(i);
        misses := misses + 1;
        return None;
      }
      MoveToEnd(i);
      hits := hits + 1;
      value := Some(slot.value);
    }

    method MoveToEnd(i: nat)
      requires Valid() && i < |items|
      modifies this`entries, this`items
      ensures Valid() && items == old(items[..i] + items[i + 1..] + [items[i]])
    {
      assert Represents(entries[i], sizes, items[i]);
      RemoveStep(entries, sizes, totalBytes, items, i);
      AppendStep(entries[..i] + entries[i + 1..], sizes - {items[i].key}, totalBytes - items[i].size,
                 items[..i] + items[i + 1..], items[i]);
      assert (sizes - {items[i].key})[items[i].key := items[i].size] == sizes;
      entries := entries[..i] + entries[i + 1..] + [entries[i]];
      items := items[..i] + items[i + 1..] + [items[i]];
    }

    method Contains(key: Key, now: int) returns (found: bool)
      requires Valid()
      modifies this`entries, this`sizes, this`totalBytes, this`items
      ensures Valid() && found == Find(old(items), key, now).Some?
      ensures items == if found then old(items) else Without(old(items), key)
    {
      var i := Position(key);
      if i == |entries| {
        return false;
      }
      assert Represents(entries[i], sizes, items[i]);
      if entries[i].expiresAt.Some? && now >= entries[i].expiresAt.value {
        assert Expired(items[i], now);
        RemoveAt(i);
        return false;
      }
      assert Find(items, key, now) == Some(items[i].value);
      found := true;
    }

    /** `size` is what the size function and the safety factor give for `value`. */
    method Put(key: Key, value: Value, size: nat, ttl: Option<int>, now: int, later: int) returns (stored: bool)
      requires Valid()
      modifies this
      ensures Valid() && hits == old(hits) && misses == old(misses)
      ensures stored == (size <= config.maxEntryBytes) && stores == old(stores) + (if stored then 1 else 0)
      ensures var item := Item(key, value, Expiry(if ttl.None? then this.ttl else ttl, now), size);
              items == AfterPut(config, old(items), item, if (old(stores) + 1) % 128 == 0 then Some(later) else None)
    {
      var effective := if ttl.None? then this.ttl else ttl;
      if size > config.maxEntryBytes {
        return false;
      }
      Store(Slot(key, value, Expiry(effective, now)), size);
      stores := stores + 1;
      if stores % SWEEP_EVERY == 0 {
        SweepExpired(later);
      }
      stored := true;
    }

    method Store(slot: Slot, size: nat)
      requires Valid()
      modifies this`entries, this`sizes, this`totalBytes, this`items, this`evictions
      ensures Valid()
      ensures items == Fitting(config, Without(old(items), slot.key) + [Item(slot.key, slot.value, slot.expiresAt, size)])
    {
      WithoutIsGone(items, slot.key);
      Remove(slot.key);
      Append(slot, size);
      Evict();
    }

    method Append(slot: Slot, size: nat)
      requires Valid() && !Has(items, slot.key)
      modifies this`entries, this`sizes, this`totalBytes, this`items
      ensures Valid() && items == old(items) + [Item(slot.key, slot.value, slot.expiresAt, size)]
    {
      AppendStep(entries, sizes, totalBytes, items, Item(slot.key, slot.value, slot.expiresAt, size));
      entries := entries + [slot];
      sizes := sizes[slot.key := size];
      totalBytes := totalBytes + size;
      items := items + [Item(slot.key, slot.value, slot.expiresAt, size)];
    }

    /** Drops from the old end while a budget is exceeded. */
    method Evict()
      requires Valid()
      modifies this`entries, this`sizes, this`totalBytes, this`items, this`evictions
      ensures Valid() && items == Fitting(config, old(items))
      ensures evictions == old(evictions) + |old(items)| - |items|
    {
      while |entries| > 0 && (totalBytes > config.maxBytes || |entries| > config.maxEntries)
        invariant Valid() && Fitting(config, items) == Fitting(config, old(items))
        invariant |items| <= |old(items)| && evictions == old(evictions) + |old(items)| - |items|
        decreases |entries|
      {
        assert items[..0] + items[0 + 1..] == items[1..];
        RemoveAt(0);
        evictions := evictions + 1;
      }
    }

    /** Removes, one by one, the entries found expired. */
    method SweepExpired(now: int)
      requires Valid()
      modifies this`entries, this`sizes, this`totalBytes, this`items
      ensures Valid() && items == Fresh(old(items), now)
    {
      var i := 0;
      while i < |entries|
        invariant Valid() && i <= |items| && items[..i] + Fresh(items[i..], now) == Fresh(old(items), now)
        decreases |entries| - i
      {
        SweepStep(items, i, now);
        assert Represents(entries[i], sizes, items[i]);
        if entries[i].expiresAt.Some? && now >= entries[i].expiresAt.value {
          RemoveAt(i);
        } else {
          i := i + 1;
        }
      }
      assert items[..i] == items && items[i..] == [];
    }

    method Invalidate(key: Key)
      requires Valid()
      modifies this`entries, this`sizes, this`totalBytes, this`items
      ensures Valid() && items == Without(old(items), key)
    {
      Remove(key);
    }

    method Clear()
      modifies this`entries, this`sizes, this`totalBytes, this`items
      ensures Valid() && items == []
    {
      entries, sizes, totalBytes, items := [], map[], 0, [];
    }

    /** Read or load, on one thread: `outcome` is what the loader gives if it runs. The three times are those of
        the first lookup, of the leader's second lookup and of the store. */
    method GetOrLoad(key: Key, outcome: Result<Value, Failure>, size: nat, force: bool, ttl: Option<int>,
                     now: int, again: int, done: int)
      returns (result: Result<Value, Failure>, ran: bool)
      requires Valid() && now <= again <= done
      modifies this
      ensures Valid()
      ensures ran <==> force || Find(old(items), key, now).None?
      ensures result == if ran then outcome else Ok(Find(old(items), key, now).value)
      ensures var item := Item(key, if outcome.Ok? then outcome.value else Object(0), Expiry(if ttl.None? then this.ttl else ttl, done), size);
              items == AfterLoad(config, old(items), item, force, outcome.Ok?, now,
                                 if Sweeps(old(stores)) then Some(done) else None)
      ensures ran && outcome.Err? ==> items == if force then old(items) else Without(old(items), key)
      ensures hits == old(hits) + (if ran then 0 else 1) && misses == old(misses) + (if ran && !force then 2 else 0)
      ensures stores == old(stores) + (if ran && outcome.Ok? && size <= config.maxEntryBytes then 1 else 0)
    {
      if !force {
        var cached := Get(key, now);
        if cached.Some? {
          return Ok(cached.value), false;
        }
        MissLeavesNothing(old(items), key, now);
        cached := Get(key, again);
      }
      ran := true;
      result := outcome;
      if outcome.Ok? {
        var _ := Put(key, outcome.value, size, ttl, done, done);
      }
    }
  }

  predicate Sweeps(stores: nat) {
    (stores + 1) % SWEEP_EVERY == 0
  }

  /** The contents after `get_or_load`: a hit only touches; anything else leaves what a store of the load leaves. */
  function AfterLoad(c: Config, items: seq<Item>, item: Item, force: bool, loaded: bool, now: int, sweep: Option<int>): seq<Item>
  {
    if !force && Find(items, item.key, now).Some? then AfterGet(items, item.key, now)
    else
      var before := if force then items else Without(items, item.key);
      if loaded then AfterPut(c, before, item, sweep) else before
  }

  lemma TakeOut(items: seq<Item>, i: nat)
    requires Distinct(items) && i < |items|
    ensures var rest := items[..i] + items[i + 1..];
            && Distinct(rest) && !Has(rest, items[i].key) && IndexOf(items, items[i].key) == i
            && TotalBytes(rest) + items[i].size == TotalBytes(items)
  {
    TotalBytesAppend(items[..i], items[i + 1..]);
    assert items == items[..i] + ([items[i]] + items[i + 1..]);
    TotalBytesAppend(items[..i], [items[i]] + items[i + 1..]);
  }

  lemma WithoutIsGone(items: seq<Item>, key: Key)
    requires Distinct(items)
    ensures !Has(Without(items, key), key) && Distinct(Without(items, key))
  {
    var i := IndexOf(items, key);
    if i < |items| {
      TakeOut(items, i);
    }
  }

  lemma SweepStep(items: seq<Item>, i: nat, now: int)
    requires i < |items|
    ensures Expired(items[i], now) ==>
              var rest := items[..i] + items[i + 1..];
              rest[..i] + Fresh(rest[i..], now) == items[..i] + Fresh(items[i..], now)
    ensures !Expired(items[i], now) ==> items[..i + 1] + Fresh(items[i + 1..], now) == items[..i] + Fresh(items[i..], now)
  {
    assert items[i..][0] == items[i] && items[i..][1..] == items[i + 1..];
    var rest := items[..i] + items[i + 1..];
    assert rest[..i] == items[..i] && rest[i..] == items[i + 1..];
    assert items[..i + 1] == items[..i] + [items[i]];
  }

  /** After a miss the key is not there at all, so a second lookup changes nothing. */
  lemma MissLeavesNothing(items: seq<Item>, key: Key, now: int)
    requires Distinct(items) && Find(items, key, now).None?
    ensures AfterGet(items, key, now) == Without(items, key) && IndexOf(Without(items, key), key) == |Without(items, key)|
    ensures forall t :: AfterGet(Without(items, key), key, t) == Without(items, key)
    ensures forall t :: Find(Without(items, key), key, t).None?
  {
    var i := IndexOf(items, key);
    if i < |items| {
      TakeOut(items, i);
    }
  }

  // ---------------------------------------------------------------- what the specification means

  lemma {:induction false} NewestStays(c: Config, items: seq<Item>, item: Item)
    ensures var kept := Fitting(c, items + [item]);
            if Fits(c, [item]) then kept != [] && kept[|kept| - 1] == item && |kept| <= |items| + 1
            else kept == []
    ensures forall x :: x in Fitting(c, items + [item]) ==> x in items || x == item
  {
    var all := items + [item];
    if items == [] {
      assert all == [item] && all[1..] == [];
    } else if !Fits(c, all) {
      assert all[1..] == items[1..] + [item];
      NewestStays(c, items[1..], item);
    } else {
      TotalBytesAppend(items, [item]);
    }
  }

  lemma {:induction false} FreshMembers(items: seq<Item>, now: int)
    ensures forall x {:trigger x in Fresh(items, now)} :: x in Fresh(items, now) <==> x in items && !Expired(x, now)
  {
    if items != [] {
      FreshMembers(items[1..], now);
      assert items == [items[0]] + items[1..];
    }
  }

  lemma {:induction false} FreshDistinct(items: seq<Item>, now: int)
    requires Distinct(items)
    ensures Distinct(Fresh(items, now))
  {
    if items != [] {
      var rest := Fresh(items[1..], now);
      FreshDistinct(items[1..], now);
      FreshMembers(items[1..], now);
      forall j | 0 <= j < |rest| ensures rest[j].key != items[0].key {
        assert rest[j] in rest;
        var i :| 0 <= i < |items[1..]| && items[1..][i] == rest[j];
        assert items[i + 1].key != items[0].key;
      }
    }
  }

  /** A lookup finds the value of the one entry under its key that has not expired. */
  lemma FoundIsLive(items: seq<Item>, x: Item, now: int)
    requires Distinct(items) && x in items
    ensures Find(items, x.key, now) == if Expired(x, now) then None else Some(x.value)
  {
    var i :| 0 <= i < |items| && items[i] == x;
    assert items[IndexOf(items, x.key)].key == items[i].key;
  }

  lemma NotThere(items: seq<Item>, key: Key, now: int)
    requires forall x :: x in items ==> x.key != key
    ensures Find(items, key, now) == None
  {
  }

  /** A value that fits the budgets is found from its store on until its time to live is over, and not from then on;
      one without a time to live is found until something else takes it out. */
  lemma StoredUntilItExpires(c: Config, items: seq<Item>, key: Key, value: Value, size: nat, ttl: Option<int>,
                             now: int, sweep: Option<int>, later: int)
    requires Distinct(items) && size <= c.maxEntryBytes && (sweep.Some? ==> sweep.value <= later)
    ensures Find(AfterPut(c, items, Item(key, value, Expiry(ttl, now), size), sweep), key, later) ==
              if size <= c.maxBytes && c.maxEntries >= 1 && (ttl.None? || later < now + ttl.value) then Some(value) else None
  {
    var item := Item(key, value, Expiry(ttl, now), size);
    var kept := Fitting(c, Without(items, key) + [item]);
    KeptAfterPut(c, items, item);
    var after := if sweep.Some? then Fresh(kept, sweep.value) else kept;
    if sweep.Some? {
      FreshMembers(kept, sweep.value);
      FreshDistinct(kept, sweep.value);
    }
    if item in after {
      FoundIsLive(after, item, later);
    } else {
      NotThere(after, key, later);
    }
  }

  lemma KeptAfterPut(c: Config, items: seq<Item>, item: Item)
    requires Distinct(items)
    ensures var kept := Fitting(c, Without(items, item.key) + [item]);
            && Distinct(kept) && (item in kept <==> item.size <= c.maxBytes && c.maxEntries >= 1)
            && forall x :: x in kept && x != item ==> x.key != item.key
  {
    var others := Without(items, item.key);
    WithoutIsGone(items, item.key);
    NewestStays(c, others, item);
    FittingIsLongest(c, others + [item]);
    assert TotalBytes([item]) == item.size;
  }

  /** A store that sweeps leaves exactly the entries that it would leave otherwise and that have not expired. */
  lemma SweepLeavesTheLive(c: Config, items: seq<Item>, item: Item, sweep: int)
    requires item.size <= c.maxEntryBytes
    ensures forall x {:trigger x in AfterPut(c, items, item, Some(sweep))} ::
              x in AfterPut(c, items, item, Some(sweep)) <==> x in AfterPut(c, items, item, None) && !Expired(x, sweep)
  {
    FreshMembers(Fitting(c, Without(items, item.key) + [item]), sweep);
  }

  /** Nothing outside the kept suffix could have been kept: every longer suffix breaks a budget. */
  lemma {:induction false} FittingIsLongest(c: Config, items: seq<Item>)
    ensures var n := |items| - |Fitting(c, items)|;
            && n >= 0 && Fitting(c, items) == items[n..]
            && forall m {:trigger items[m..]} :: 0 <= m < n ==> !Fits(c, items[m..])
  {
    if Fits(c, items) || items == [] {
      assert items[0..] == items;
    } else {
      FittingIsLongest(c, items[1..]);
      var n := |items| - |Fitting(c, items)|;
      assert items[1..][n - 1..] == items[n..] && items[0..] == items;
      forall m | 0 <= m < n ensures !Fits(c, items[m..]) {
        if m > 0 {
          assert items[1..][m - 1..] == items[m..];
        }
      }
    }
  }

  /** A suffix within the budgets is part of what is kept. */
  lemma FittingKeepsSuffix(c: Config, items: seq<Item>, n: nat)
    requires n <= |items| && Fits(c, items[n..])
    ensures |items| - n <= |Fitting(c, items)|
  {
    FittingIsLongest(c, items);
  }

  /** A store that reports success leaves the new value readable or nothing at all under the key; one that is too
      large leaves the old value in place, which a forced refresh does not want. */
  lemma StaleAfterRefresh(c: Config, items: seq<Item>, item: Item, now: int)
    requires Distinct(items) && !Expired(item, now)
    ensures var was, after := Find(items, item.key, now), Find(AfterPut(c, items, item, None), item.key, now);
            (after.Some? && after.value != item.value) <==> (item.size > c.maxEntryBytes && was.Some? && was.value != item.value)
  {
    if item.size <= c.maxEntryBytes {
      var all := Without(items, item.key) + [item];
      WithoutIsGone(items, item.key);
      FittingIsLongest(c, all);
      var kept := Fitting(c, all);
      var i := IndexOf(kept, item.key);
      if i < |kept| {
        assert kept[i] == all[|all| - |kept| + i];
      }
    }
  }

  // ---------------------------------------------------------------- inclusion

  /** One call of a run without TTL; the size is a function of the key, so it is not part of the event. */
  datatype Event = Load(key: Key, value: Value, force: bool) | Fail(key: Key, force: bool) | Invalidate(key: Key) | Clear

  datatype State = State(items: seq<Item>, stores: nat, hits: nat)

  function Step(c: Config, size: Key -> nat, s: State, e: Event): State {
    match e
    case Clear => s.(items := [])
    case Invalidate(key) => s.(items := Without(s.items, key))
    case Load(key, value, force) =>
      var item := Item(key, value, None, size(key));
      var hit := !force && Find(s.items, key, 0).Some?;
      State(AfterLoad(c, s.items, item, force, true, 0, if Sweeps(s.stores) then Some(0) else None),
            s.stores + (if !hit && size(key) <= c.maxEntryBytes then 1 else 0),
            s.hits + (if hit then 1 else 0))
    case Fail(key, force) =>
      var item := Item(key, Object(0), None, size(key));
      var hit := !force && Find(s.items, key, 0).Some?;
      s.(items := AfterLoad(c, s.items, item, force, false, 0, None), hits := s.hits + (if hit then 1 else 0))
  }

  function Run(c: Config, size: Key -> nat, events: seq<Event>): State {
    if events == [] then State([], 0, 0)
    else Step(c, size, Run(c, size, events[..|events| - 1]), events[|events| - 1])
  }

  /** The keys of `a` are the last keys of `b`, in the same order. */
  ghost predicate SuffixOf(a: seq<Item>, b: seq<Item>) {
    |a| <= |b| && forall i {:trigger a[i]} :: 0 <= i < |a| ==> a[i].key == b[|b| - |a| + i].key
  }

  /** No expiry times, the sizes of the run, no key twice, nothing too large. */
  ghost predicate Plain(c: Config, size: Key -> nat, items: seq<Item>) {
    && Distinct(items)
    && forall i {:trigger items[i]} :: 0 <= i < |items| ==> IsPlain(c, size, items[i])
  }

  predicate IsPlain(c: Config, size: Key -> nat, item: Item) {
    item.expiresAt.None? && item.size == size(item.key) <= c.maxEntryBytes
  }

  predicate NoLarger(small: Config, large: Config) {
    && small.maxBytes <= large.maxBytes && small.maxEntries <= large.maxEntries
    && small.maxEntryBytes == large.maxEntryBytes
  }

  lemma WithoutKeepsPlain(c: Config, size: Key -> nat, items: seq<Item>, k: Key)
    requires Plain(c, size, items)
    ensures Plain(c, size, Without(items, k)) && !Has(Without(items, k), k)
    ensures !Has(items, k) ==> Without(items, k) == items
  {
    WithoutIsGone(items, k);
  }

  lemma IndexIs(items: seq<Item>, i: nat)
    requires Distinct(items) && i < |items|
    ensures IndexOf(items, items[i].key) == i
  {
  }

  lemma SuffixWithout(s: seq<Item>, l: seq<Item>, i: nat, ws: seq<Item>, wl: seq<Item>)
    requires SuffixOf(s, l) && i < |s| && ws == s[..i] + s[i + 1..]
    requires var j := |l| - |s| + i; wl == l[..j] + l[j + 1..]
    ensures SuffixOf(ws, wl)
  {
    var d := |l| - |s|;
    forall m | 0 <= m < |ws| ensures ws[m].key == wl[d + m].key {
      var n := if m < i then m else m + 1;
      assert ws[m] == s[n] && wl[d + m] == l[d + n];
    }
  }

  lemma WithoutKeepsSuffix(s: seq<Item>, l: seq<Item>, k: Key)
    requires Distinct(s) && Distinct(l) && SuffixOf(s, l)
    ensures SuffixOf(Without(s, k), Without(l, k))
  {
    if IndexOf(s, k) < |s| {
      SameDistance(s, l, k);
      PresentInBoth(s, l, k);
    } else {
      AbsentBelow(s, l, k);
    }
  }

  lemma PresentInBoth(s: seq<Item>, l: seq<Item>, k: Key)
    requires SuffixOf(s, l) && IndexOf(s, k) < |s| && IndexOf(l, k) == |l| - |s| + IndexOf(s, k)
    ensures SuffixOf(Without(s, k), Without(l, k))
  {
    SuffixWithout(s, l, IndexOf(s, k), Without(s, k), Without(l, k));
  }

  lemma SameDistance(s: seq<Item>, l: seq<Item>, k: Key)
    requires Distinct(l) && SuffixOf(s, l) && IndexOf(s, k) < |s|
    ensures IndexOf(l, k) == |l| - |s| + IndexOf(s, k)
  {
    var i := IndexOf(s, k);
    assert s[i].key == l[|l| - |s| + i].key;
    IndexIs(l, |l| - |s| + i);
  }

  lemma AbsentBelow(s: seq<Item>, l: seq<Item>, k: Key)
    requires SuffixOf(s, l) && IndexOf(s, k) == |s|
    ensures SuffixOf(Without(s, k), Without(l, k))
  {
    NotInSuffix(s, l, k);
    if IndexOf(l, k) < |l| {
      SuffixWithoutFront(s, l, IndexOf(l, k));
    }
  }

  lemma NotInSuffix(s: seq<Item>, l: seq<Item>, k: Key)
    requires SuffixOf(s, l) && !Has(s, k)
    ensures forall m {:trigger l[m]} :: |l| - |s| <= m < |l| ==> l[m].key != k
  {
    forall m | |l| - |s| <= m < |l| ensures l[m].key != k {
      assert s[m - (|l| - |s|)].key == l[m].key;
    }
  }

  lemma SuffixWithoutFront(s: seq<Item>, l: seq<Item>, j: nat)
    requires SuffixOf(s, l) && j < |l| - |s|
    ensures SuffixOf(s, l[..j] + l[j + 1..])
  {
    var wl := l[..j] + l[j + 1..];
    forall i | 0 <= i < |s| ensures s[i].key == wl[|wl| - |s| + i].key {
      assert s[i].key == l[|l| - |s| + i].key;
    }
  }

  lemma {:induction false} FreshPlain(c: Config, size: Key -> nat, items: seq<Item>, now: int)
    requires forall i {:trigger items[i]} :: 0 <= i < |items| ==> IsPlain(c, size, items[i])
    ensures Fresh(items, now) == items
  {
    if items != [] {
      FreshPlain(c, size, items[1..], now);
      assert IsPlain(c, size, items[0]);
      assert items == [items[0]] + items[1..];
    }
  }

  lemma {:induction false} SameBytes(c: Config, d: Config, size: Key -> nat, a: seq<Item>, b: seq<Item>)
    requires forall i {:trigger a[i]} :: 0 <= i < |a| ==> IsPlain(c, size, a[i])
    requires forall i {:trigger b[i]} :: 0 <= i < |b| ==> IsPlain(d, size, b[i])
    requires |a| == |b| && SuffixOf(a, b)
    ensures TotalBytes(a) == TotalBytes(b)
  {
    if a != [] {
      assert a[0].key == b[0].key;
      SameBytes(c, d, size, a[1..], b[1..]);
    }
  }

  lemma FittingKeepsPlain(c: Config, size: Key -> nat, items: seq<Item>)
    requires Plain(c, size, items)
    ensures Plain(c, size, Fitting(c, items)) && SuffixOf(Fitting(c, items), items)
  {
    FittingIsLongest(c, items);
  }

  lemma SuffixOfSlices(a: seq<Item>, b: seq<Item>, n: nat, k: nat)
    requires SuffixOf(a, b) && n <= |a| && k <= |b| && |a| - n <= |b| - k
    ensures SuffixOf(a[n..], b[k..])
  {
    var s, l := a[n..], b[k..];
    forall i | 0 <= i < |s| ensures s[i].key == l[|l| - |s| + i].key {
      assert s[i] == a[n + i] && l[|l| - |s| + i] == b[|b| - |a| + (n + i)];
    }
  }

  lemma SlicePlain(c: Config, size: Key -> nat, items: seq<Item>, n: nat)
    requires Plain(c, size, items) && n <= |items|
    ensures forall i {:trigger items[n..][i]} :: 0 <= i < |items[n..]| ==> IsPlain(c, size, items[n..][i])
  {
    forall i | 0 <= i < |items[n..]| ensures IsPlain(c, size, items[n..][i]) {
      assert items[n..][i] == items[n + i];
    }
  }

  /** What the smaller cache keeps would fit into the larger one. */
  lemma KeptFitsLarger(small: Config, large: Config, size: Key -> nat, a: seq<Item>, b: seq<Item>, n: nat)
    requires NoLarger(small, large) && Plain(small, size, a) && Plain(large, size, b) && SuffixOf(a, b)
    requires n <= |a| && Fits(small, a[n..])
    ensures Fits(large, b[|b| - |a| + n..])
  {
    var k := |b| - |a| + n;
    SuffixOfSlices(a, b, n, k);
    SlicePlain(small, size, a, n);
    SlicePlain(large, size, b, k);
    SameBytes(small, large, size, a[n..], b[k..]);
  }

  lemma KeptIsSuffix(c: Config, items: seq<Item>)
    ensures |Fitting(c, items)| <= |items| && Fitting(c, items) == items[|items| - |Fitting(c, items)|..]
  {
    FittingIsLongest(c, items);
  }

  /** What the larger cache keeps is no shorter. */
  lemma LargerKeepsMore(small: Config, large: Config, size: Key -> nat, a: seq<Item>, b: seq<Item>)
    requires NoLarger(small, large) && Plain(small, size, a) && Plain(large, size, b) && SuffixOf(a, b)
    ensures |Fitting(small, a)| <= |Fitting(large, b)|
  {
    var n := |a| - |Fitting(small, a)|;
    KeptIsSuffix(small, a);
    KeptFitsLarger(small, large, size, a, b, n);
    FittingKeepsSuffix(large, b, |b| - |a| + n);
  }

  lemma FittingKeepsInclusion(small: Config, large: Config, size: Key -> nat, a: seq<Item>, b: seq<Item>)
    requires NoLarger(small, large) && Plain(small, size, a) && Plain(large, size, b) && SuffixOf(a, b)
    ensures SuffixOf(Fitting(small, a), Fitting(large, b))
  {
    LargerKeepsMore(small, large, size, a, b);
    KeptIsSuffix(small, a);
    KeptIsSuffix(large, b);
    SuffixOfSlices(a, b, |a| - |Fitting(small, a)|, |b| - |Fitting(large, b)|);
  }

  lemma AppendKeeps(c: Config, d: Config, size: Key -> nat, a: seq<Item>, b: seq<Item>, x: Item, y: Item)
    requires Plain(c, size, a) && Plain(d, size, b) && SuffixOf(a, b) && IsPlain(c, size, x) && IsPlain(d, size, y)
    requires x.key == y.key && !Has(a, x.key) && !Has(b, y.key)
    ensures Plain(c, size, a + [x]) && Plain(d, size, b + [y]) && SuffixOf(a + [x], b + [y])
  {
  }

  lemma SuffixTransitive(a: seq<Item>, b: seq<Item>, c: seq<Item>)
    requires SuffixOf(a, b) && SuffixOf(b, c)
    ensures SuffixOf(a, c)
  {
    forall i | 0 <= i < |a| ensures a[i].key == c[|c| - |a| + i].key {
      assert b[|b| - |a| + i].key == c[|c| - |b| + (|b| - |a| + i)].key;
    }
  }

  /** What is under the key afterwards depends only on whether it was there. */
  lemma FoundIsHas(c: Config, size: Key -> nat, items: seq<Item>, k: Key)
    requires Plain(c, size, items)
    ensures Find(items, k, 0).Some? <==> Has(items, k)
    ensures Has(items, k) ==>
              var i := IndexOf(items, k);
              && i < |items| && IsPlain(c, size, items[i])
              && AfterGet(items, k, 0) == Without(items, k) + [items[i]]
  {
    var i := IndexOf(items, k);
    assert i < |items| ==> IsPlain(c, size, items[i]);
  }

  lemma SuffixHas(s: seq<Item>, l: seq<Item>, k: Key)
    requires SuffixOf(s, l) && Has(s, k)
    ensures Has(l, k)
  {
    var i :| 0 <= i < |s| && s[i].key == k;
    assert l[|l| - |s| + i].key == k;
  }

  /** What a successful load leaves, in the terms of the inclusion argument. */
  lemma LoadLeaves(c: Config, size: Key -> nat, items: seq<Item>, item: Item, force: bool, sweep: Option<int>)
    requires Plain(c, size, items) && item.expiresAt.None? && item.size == size(item.key)
    ensures var after, rest := AfterLoad(c, items, item, force, true, 0, sweep), Without(items, item.key);
            && (item.size > c.maxEntryBytes ==> after == items && rest == items)
            && (item.size <= c.maxEntryBytes && (force || !Has(items, item.key)) ==> after == Fitting(c, rest + [item]))
            && (item.size <= c.maxEntryBytes && !force && Has(items, item.key) ==>
                  IndexOf(items, item.key) < |items| && after == rest + [items[IndexOf(items, item.key)]])
  {
    var k := item.key;
    var rest := Without(items, k);
    FoundIsHas(c, size, items, k);
    WithoutKeepsPlain(c, size, items, k);
    WithoutKeepsPlain(c, size, rest, k);
    if item.size <= c.maxEntryBytes && (force || !Has(items, k)) {
      assert Plain(c, size, rest + [item]);
      FittingKeepsPlain(c, size, rest + [item]);
      if sweep.Some? {
        FreshPlain(c, size, Fitting(c, rest + [item]), sweep.value);
      }
    }
  }

  lemma LoadKeepsInclusion(small: Config, large: Config, size: Key -> nat, s: seq<Item>, l: seq<Item>, item: Item,
                           force: bool, sweepS: Option<int>, sweepL: Option<int>)
    requires NoLarger(small, large) && Plain(small, size, s) && Plain(large, size, l) && SuffixOf(s, l)
    requires item.expiresAt.None? && item.size == size(item.key)
    ensures var s', l' := AfterLoad(small, s, item, force, true, 0, sweepS), AfterLoad(large, l, item, force, true, 0, sweepL);
            Plain(small, size, s') && Plain(large, size, l') && SuffixOf(s', l')
  {
    var k := item.key;
    var ws, wl := Without(s, k), Without(l, k);
    LoadLeaves(small, size, s, item, force, sweepS);
    LoadLeaves(large, size, l, item, force, sweepL);
    if item.size <= small.maxEntryBytes {
      WithoutKeepsPlain(small, size, s, k);
      WithoutKeepsPlain(large, size, l, k);
      WithoutKeepsSuffix(s, l, k);
      var x := if force || !Has(s, k) then item else s[IndexOf(s, k)];
      var y := if force || !Has(l, k) then item else l[IndexOf(l, k)];
      assert IsPlain(small, size, x) && IsPlain(large, size, y);
      AppendKeeps(small, large, size, ws, wl, x, y);
      FittingKeepsPlain(small, size, ws + [x]);
      FittingKeepsPlain(large, size, wl + [y]);
      FittingKeepsInclusion(small, large, size, ws + [x], wl + [y]);
      SuffixTransitive(Fitting(small, ws + [x]), ws + [x], wl + [y]);
      if !force && Has(s, k) {
        SuffixHas(s, l, k);
      }
    }
  }

  /** A loader that fails leaves inclusion intact exactly unless it is unforced, the larger cache answers from
      memory and the smaller, non-empty one does not: only the larger one then refreshes the key. */
  lemma FailureKeepsInclusion(small: Config, large: Config, size: Key -> nat, s: seq<Item>, l: seq<Item>, k: Key, force: bool)
    requires NoLarger(small, large) && Plain(small, size, s) && Plain(large, size, l) && SuffixOf(s, l)
    ensures var item := Item(k, Object(0), None, size(k));
            var s', l' := AfterLoad(small, s, item, force, false, 0, None), AfterLoad(large, l, item, force, false, 0, None);
            && Plain(small, size, s') && Plain(large, size, l')
            && (SuffixOf(s', l') <==> force || Has(s, k) || !Has(l, k) || s == [])
  {
    FoundIsHas(small, size, s, k);
    FoundIsHas(large, size, l, k);
    WithoutKeepsPlain(small, size, s, k);
    WithoutKeepsPlain(large, size, l, k);
    WithoutKeepsSuffix(s, l, k);
    if !force {
      if Has(s, k) {
        SuffixHas(s, l, k);
        AppendKeeps(small, large, size, Without(s, k), Without(l, k), s[IndexOf(s, k)], l[IndexOf(l, k)]);
      } else if Has(l, k) && s != [] {
        OnlyOneRefreshed(s, Without(l, k), l[IndexOf(l, k)], k);
      }
    }
  }

  lemma OnlyOneRefreshed(s: seq<Item>, rest: seq<Item>, y: Item, k: Key)
    requires s != [] && !Has(s, k) && y.key == k
    ensures !SuffixOf(s, rest + [y])
  {
    var l := rest + [y];
    assert s[|s| - 1].key != k && l[|l| - 1] == y;
  }

  /** A failing unforced load refreshes a key in both caches or in none, or there is nothing in the smaller one. */
  predicate Harmless(s: State, l: State, e: Event) {
    e.Fail? ==> e.force || Has(s.items, e.key) || !Has(l.items, e.key) || s.items == []
  }

  ghost predicate HarmlessThroughout(small: Config, large: Config, size: Key -> nat, events: seq<Event>) {
    events == [] ||
    var before, e := events[..|events| - 1], events[|events| - 1];
    HarmlessThroughout(small, large, size, before) && Harmless(Run(small, size, before), Run(large, size, before), e)
  }

  /** After every event the smaller cache holds a recency suffix of the larger one. */
  ghost predicate IncludedThroughout(small: Config, large: Config, size: Key -> nat, events: seq<Event>) {
    events == [] ||
    (IncludedThroughout(small, large, size, events[..|events| - 1]) &&
     SuffixOf(Run(small, size, events).items, Run(large, size, events).items))
  }

  /** Inclusion: over every run the smaller cache holds a recency suffix of the larger one throughout exactly when every
      failing load is harmless, as forced ones and those that miss in both are; and then it has not hit more often. */
  lemma {:induction false} Inclusion(small: Config, large: Config, size: Key -> nat, events: seq<Event>)
    requires NoLarger(small, large)
    ensures IncludedThroughout(small, large, size, events) <==> HarmlessThroughout(small, large, size, events)
    ensures HarmlessThroughout(small, large, size, events) ==>
              var s, l := Run(small, size, events), Run(large, size, events);
              && SuffixOf(s.items, l.items) && s.hits <= l.hits
              && Plain(small, size, s.items) && Plain(large, size, l.items)
  {
    if events != [] {
      var before, e := events[..|events| - 1], events[|events| - 1];
      Inclusion(small, large, size, before);
      if HarmlessThroughout(small, large, size, before) {
        StepKeepsInclusion(small, large, size, Run(small, size, before), Run(large, size, before), e);
      }
    }
  }

  lemma StepKeepsInclusion(small: Config, large: Config, size: Key -> nat, s: State, l: State, e: Event)
    requires NoLarger(small, large) && Plain(small, size, s.items) && Plain(large, size, l.items)
    requires SuffixOf(s.items, l.items) && s.hits <= l.hits
    ensures var s', l' := Step(small, size, s, e), Step(large, size, l, e);
            && Plain(small, size, s'.items) && Plain(large, size, l'.items)
            && (SuffixOf(s'.items, l'.items) <==> Harmless(s, l, e)) && s'.hits <= l'.hits
  {
    match e
    case Clear =>
    case Invalidate(key) =>
      WithoutKeepsPlain(small, size, s.items, key);
      WithoutKeepsPlain(large, size, l.items, key);
      WithoutKeepsSuffix(s.items, l.items, key);
    case Fail(key, force) =>
      FailureKeepsInclusion(small, large, size, s.items, l.items, key, force);
      LookupsAgree(small, large, size, s.items, l.items, key);
    case Load(key, value, force) =>
      LoadKeepsInclusion(small, large, size, s.items, l.items, Item(key, value, None, size(key)), force,
                         if Sweeps(s.stores) then Some(0) else None, if Sweeps(l.stores) then Some(0) else None);
      LookupsAgree(small, large, size, s.items, l.items, key);
  }

  /** What the smaller cache finds the larger one finds too. */
  lemma LookupsAgree(small: Config, large: Config, size: Key -> nat, s: seq<Item>, l: seq<Item>, key: Key)
    requires Plain(small, size, s) && Plain(large, size, l) && SuffixOf(s, l)
    ensures Find(s, key, 0).Some? ==> Find(l, key, 0).Some?
  {
    FoundIsHas(small, size, s, key);
    FoundIsHas(large, size, l, key);
    if Has(s, key) {
      SuffixHas(s, l, key);
    }
  }

  // ---------------------------------------------------------------- a failing load can make the larger cache hit less

  function SizeOf(key: Key): nat {
    if key == 0 then 10 else if key == 3 then 2 else 1
  }

  function Entry(key: Key): Item {
    Item(key, Object(key), None, SizeOf(key))
  }

  const SMALL := Config(11, 100, 100)
  const LARGE := Config(12, 100, 100)

  lemma Totals(a: Item, b: Item, c: Item, d: Item)
    ensures TotalBytes([a]) == a.size && TotalBytes([a, b]) == a.size + b.size
    ensures TotalBytes([a, b, c]) == a.size + b.size + c.size
    ensures TotalBytes([a, b, c, d]) == a.size + b.size + c.size + d.size
  {
    TotalBytesAppend([a], [b]);
    TotalBytesAppend([a, b], [c]);
    TotalBytesAppend([a, b, c], [d]);
    assert [a] + [b] == [a, b] && [a, b] + [c] == [a, b, c] && [a, b, c] + [d] == [a, b, c, d];
  }

  /** A cold load leaves what fits after `drop` old entries went, when no fewer would do. */
  lemma ColdLoad(c: Config, s: State, key: Key, drop: nat)
    requires drop <= |s.items| && !Has(s.items, key) && s.stores < 100 && SizeOf(key) <= c.maxEntryBytes
    requires Fits(c, s.items[drop..] + [Entry(key)])
    requires drop > 0 ==> !Fits(c, s.items[drop - 1..] + [Entry(key)])
    ensures Step(c, SizeOf, s, Load(key, Object(key), false)) == State(s.items[drop..] + [Entry(key)], s.stores + 1, s.hits)
  {
    var all := s.items + [Entry(key)];
    assert all[drop..] == s.items[drop..] + [Entry(key)];
    assert drop > 0 ==> all[drop - 1..] == s.items[drop - 1..] + [Entry(key)];
    FittingDrops(c, all, drop);
  }

  lemma FittingDrops(c: Config, all: seq<Item>, drop: nat)
    requires drop <= |all| && Fits(c, all[drop..]) && (drop > 0 ==> !Fits(c, all[drop - 1..]))
    ensures Fitting(c, all) == all[drop..]
  {
    FittingIsLongest(c, all);
    FittingKeepsSuffix(c, all, drop);
    var m := |all| - |Fitting(c, all)|;
    if m < drop {
      ShorterFits(c, all, m, drop - 1);
    }
  }

  /** A suffix of what fits fits. */
  lemma ShorterFits(c: Config, items: seq<Item>, m: nat, n: nat)
    requires m <= n <= |items| && Fits(c, items[m..])
    ensures Fits(c, items[n..])
  {
    TotalBytesAppend(items[m..n], items[n..]);
    assert items[m..] == items[m..n] + items[n..];
  }

  /** A lookup that finds `key` at `i` moves it to the end. */
  lemma WarmLookup(c: Config, s: State, key: Key, i: nat, e: Event)
    requires i < |s.items| && s.items[i] == Entry(key) && Distinct(s.items)
    requires e == Load(key, Object(key), false) || e == Fail(key, false)
    ensures Step(c, SizeOf, s, e) == State(s.items[..i] + s.items[i + 1..] + [Entry(key)], s.stores, s.hits + 1)
  {
    TakeOut(s.items, i);
  }

  lemma RunOne(c: Config, events: seq<Event>, e: Event)
    ensures Run(c, SizeOf, events + [e]) == Step(c, SizeOf, Run(c, SizeOf, events), e)
  {
    assert (events + [e])[..|events|] == events;
  }

  function Cold(key: Key): Event {
    Load(key, Object(key), false)
  }

  /** Budgets of 11 and 12 bytes, one load that fails between loads that succeed: the smaller cache ends with two
      hits, the larger one with one. */
  lemma FailureCostsHits()
    ensures var events := [Cold(0), Cold(1), Cold(2), Fail(0, false), Cold(3), Cold(1), Cold(2)];
            NoLarger(SMALL, LARGE) && Run(SMALL, SizeOf, events).hits == 2 && Run(LARGE, SizeOf, events).hits == 1
  {
    var a, b, c, d := Entry(0), Entry(1), Entry(2), Entry(3);
    SmallRun(a, b, c, d);
    LargeRun(a, b, c, d);
  }

  lemma SmallRun(a: Item, b: Item, c: Item, d: Item)
    requires a == Entry(0) && b == Entry(1) && c == Entry(2) && d == Entry(3)
    ensures Run(SMALL, SizeOf, [Cold(0), Cold(1), Cold(2), Fail(0, false), Cold(3), Cold(1), Cold(2)]).hits == 2
  {
    Prefixes(SMALL, [Cold(0), Cold(1), Cold(2), Fail(0, false), Cold(3), Cold(1), Cold(2)]);
    SharedStart(SMALL, a, b);
    SmallMiddle(a, b, c, d);
    SmallEnd(b, c, d);
  }

  lemma SmallEnd(b: Item, c: Item, d: Item)
    requires b == Entry(1) && c == Entry(2) && d == Entry(3)
    ensures Step(SMALL, SizeOf, State([b, c, d], 4, 0), Cold(1)) == State([c, d, b], 4, 1)
    ensures Step(SMALL, SizeOf, State([c, d, b], 4, 1), Cold(2)).hits == 2
  {
    WarmLookup(SMALL, State([b, c, d], 4, 0), 1, 0, Cold(1));
    assert [b, c, d][..0] + [b, c, d][1..] + [b] == [c, d, b];
    WarmLookup(SMALL, State([c, d, b], 4, 1), 2, 0, Cold(2));
  }

  lemma SmallMiddle(a: Item, b: Item, c: Item, d: Item)
    requires a == Entry(0) && b == Entry(1) && c == Entry(2) && d == Entry(3)
    ensures Step(SMALL, SizeOf, State([a, b], 2, 0), Cold(2)) == State([b, c], 3, 0)
    ensures Step(SMALL, SizeOf, State([b, c], 3, 0), Fail(0, false)) == State([b, c], 3, 0)
    ensures Step(SMALL, SizeOf, State([b, c], 3, 0), Cold(3)) == State([b, c, d], 4, 0)
  {
    Totals(a, b, c, d);
    Totals(b, c, d, a);
    assert [a, b][1..] + [c] == [b, c] && [a, b][0..] + [c] == [a, b, c];
    ColdLoad(SMALL, State([a, b], 2, 0), 2, 1);
    assert [b, c][0..] + [d] == [b, c, d];
    ColdLoad(SMALL, State([b, c], 3, 0), 3, 0);
  }

  lemma LargeRun(a: Item, b: Item, c: Item, d: Item)
    requires a == Entry(0) && b == Entry(1) && c == Entry(2) && d == Entry(3)
    ensures Run(LARGE, SizeOf, [Cold(0), Cold(1), Cold(2), Fail(0, false), Cold(3), Cold(1), Cold(2)]).hits == 1
  {
    Prefixes(LARGE, [Cold(0), Cold(1), Cold(2), Fail(0, false), Cold(3), Cold(1), Cold(2)]);
    SharedStart(LARGE, a, b);
    LargeMiddle(a, b, c);
    LargeEvicts(a, b, c, d);
    LargeEnd(a, b, c, d);
  }

  lemma LargeMiddle(a: Item, b: Item, c: Item)
    requires a == Entry(0) && b == Entry(1) && c == Entry(2)
    ensures Step(LARGE, SizeOf, State([a, b], 2, 0), Cold(2)) == State([a, b, c], 3, 0)
    ensures Step(LARGE, SizeOf, State([a, b, c], 3, 0), Fail(0, false)) == State([b, c, a], 3, 1)
  {
    Totals(a, b, c, a);
    assert [a, b][0..] + [c] == [a, b, c];
    ColdLoad(LARGE, State([a, b], 2, 0), 2, 0);
    WarmLookup(LARGE, State([a, b, c], 3, 0), 0, 0, Fail(0, false));
    assert [a, b, c][..0] + [a, b, c][1..] + [a] == [b, c, a];
  }

  lemma Slide(a: Item, b: Item, c: Item, d: Item)
    ensures [a, b, c][2..] + [d] == [c, d] && [a, b, c][1..] + [d] == [b, c, d]
  {
  }

  lemma LargeEvicts(a: Item, b: Item, c: Item, d: Item)
    requires a == Entry(0) && b == Entry(1) && c == Entry(2) && d == Entry(3)
    ensures Step(LARGE, SizeOf, State([b, c, a], 3, 1), Cold(3)) == State([a, d], 4, 1)
  {
    Totals(c, a, d, b);
    Totals(a, d, b, c);
    Slide(b, c, a, d);
    ColdLoad(LARGE, State([b, c, a], 3, 1), 3, 2);
  }

  lemma LargeEnd(a: Item, b: Item, c: Item, d: Item)
    requires a == Entry(0) && b == Entry(1) && c == Entry(2) && d == Entry(3)
    ensures Step(LARGE, SizeOf, State([a, d], 4, 1), Cold(1)) == State([d, b], 5, 1)
    ensures Step(LARGE, SizeOf, State([d, b], 5, 1), Cold(2)).hits == 1
  {
    Totals(a, d, b, c);
    Totals(d, b, a, c);
    assert [a, d][1..] + [b] == [d, b] && [a, d][0..] + [b] == [a, d, b];
    ColdLoad(LARGE, State([a, d], 4, 1), 1, 1);
    MissCounts(State([d, b], 5, 1), 2);
  }

  lemma MissCounts(s: State, key: Key)
    requires !Has(s.items, key)
    ensures Step(LARGE, SizeOf, s, Cold(key)).hits == s.hits
  {
  }

  /** Both budgets take the first two entries. */
  lemma SharedStart(c: Config, a: Item, b: Item)
    requires a == Entry(0) && b == Entry(1) && c.maxBytes >= 11 && c.maxEntries == c.maxEntryBytes == 100
    ensures Step(c, SizeOf, State([], 0, 0), Cold(0)) == State([a], 1, 0)
    ensures Step(c, SizeOf, State([a], 1, 0), Cold(1)) == State([a, b], 2, 0)
  {
    Totals(a, b, a, b);
    assert [][0..] + [a] == [a] && [a][0..] + [b] == [a, b];
    ColdLoad(c, State([], 0, 0), 0, 0);
    ColdLoad(c, State([a], 1, 0), 1, 0);
  }

  lemma Prefixes(c: Config, e: seq<Event>)
    requires |e| == 7
    ensures Run(c, SizeOf, e) ==
              var s := Step(c, SizeOf, Step(c, SizeOf, Step(c, SizeOf, State([], 0, 0), e[0]), e[1]), e[2]);
              Step(c, SizeOf, Step(c, SizeOf, Step(c, SizeOf, Step(c, SizeOf, s, e[3]), e[4]), e[5]), e[6])
  {
    forall n | 0 <= n < 7 ensures Run(c, SizeOf, e[..n + 1]) == Step(c, SizeOf, Run(c, SizeOf, e[..n]), e[n]) {
      assert e[..n + 1] == e[..n] + [e[n]];
      RunOne(c, e[..n], e[n]);
    }
    assert e[..7] == e && Run(c, SizeOf, e[..0]) == State([], 0, 0);
  }
}
