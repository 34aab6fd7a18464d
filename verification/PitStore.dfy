/** The append-only daily-bar store: one writer that ranks versions by (knowledge time, version), and as-of
    readers that rank them by (version, knowledge time). */
module PitStore {
  import opened Wrappers

  /** Dates are day numbers and times are seconds, both counted from one origin in UTC. */
  type Date = int
  type Time = int

  /** The Shanghai close, 15:00 local, is 07:00 UTC. */
  function CloseOf(d: Date): Time {
    d * 86400 + 7 * 3600
  }

  /** In Shanghai, eight hours ahead, that is three in the afternoon of the day itself. */
  lemma CloseIsAtThree(d: Date)
    ensures (CloseOf(d) + 8 * 3600) / 86400 == d && (CloseOf(d) + 8 * 3600) % 86400 == 15 * 3600
  {
  }

  datatype Cell = Null | NaN | Num(value: real)

  datatype Bar = Bar(open: Cell, high: Cell, low: Cell, close: Cell, volume: Cell, amount: Cell)

  datatype Key = Key(entity: int, date: Date)

  datatype Row = Row(key: Key, knowledgeTime: Time, version: int, bar: Bar)

  type Table = seq<Row>

  // ---------------------------------------------------------------- comparing values

  function Abs(x: real): real {
    if x < 0.0 then -x else x
  }

  function MaxReal(x: real, y: real): real {
    if x < y then y else x
  }

  /** `math.isclose` with relative tolerance 1e-9 and absolute tolerance 1e-6. */
  predicate IsClose(x: real, y: real) {
    Abs(x - y) <= MaxReal(0.000000001 * MaxReal(Abs(x), Abs(y)), 0.000001)
  }

  predicate SameCell(prior: Cell, record: Cell) {
    match (prior, record)
    case (Null, Null) => true
    case (Num(x), Num(y)) => IsClose(x, y)
    case _ => false
  }

  predicate SameValues(prior: Bar, record: Bar) {
    && SameCell(prior.open, record.open) && SameCell(prior.high, record.high)
    && SameCell(prior.low, record.low) && SameCell(prior.close, record.close)
    && SameCell(prior.volume, record.volume) && SameCell(prior.amount, record.amount)
  }

  predicate HasNaN(b: Bar) {
    b.open == NaN || b.high == NaN || b.low == NaN || b.close == NaN || b.volume == NaN || b.amount == NaN
  }

  function Cells(b: Bar): seq<Cell> {
    [b.open, b.high, b.low, b.close, b.volume, b.amount]
  }

  /** Two numbers at most a millionth, or a billionth of one of them, apart. */
  predicate Near(a: Cell, b: Cell) {
    && a.Num? && b.Num?
    && var gap := if a.value < b.value then b.value - a.value else a.value - b.value;
       || gap <= 0.000001
       || gap <= 0.000000001 * a.value || gap <= 0.000000001 * -a.value
       || gap <= 0.000000001 * b.value || gap <= 0.000000001 * -b.value
  }

  /** A delivered cell that gives no reason to write. */
  predicate Unchanged(stored: Cell, delivered: Cell) {
    (stored == Null && delivered == Null) || Near(stored, delivered)
  }

  lemma SameCellMeaning(a: Cell, b: Cell)
    ensures SameCell(a, b) <==> Unchanged(a, b)
  {
    if a.Num? && b.Num? {
      var x, y := Abs(a.value), Abs(b.value);
      assert 0.000000001 * MaxReal(x, y) == MaxReal(0.000000001 * x, 0.000000001 * y);
    }
  }

  lemma SameValuesMeaning(prior: Bar, record: Bar)
    ensures SameValues(prior, record) <==> forall i :: 0 <= i < 6 ==> Unchanged(Cells(prior)[i], Cells(record)[i])
  {
    var ps, rs := Cells(prior), Cells(record);
    forall i | 0 <= i < 6 ensures SameCell(ps[i], rs[i]) <==> Unchanged(ps[i], rs[i]) {
      SameCellMeaning(ps[i], rs[i]);
    }
    assert SameValues(prior, record) <==>
      SameCell(ps[0], rs[0]) && SameCell(ps[1], rs[1]) && SameCell(ps[2], rs[2]) &&
      SameCell(ps[3], rs[3]) && SameCell(ps[4], rs[4]) && SameCell(ps[5], rs[5]);
  }

  lemma SameAsItself(b: Bar)
    ensures SameValues(b, b) <==> !HasNaN(b)
  {
  }

  // ---------------------------------------------------------------- the writer

  predicate LaterForWriter(a: Row, b: Row) {
    a.knowledgeTime > b.knowledgeTime || (a.knowledgeTime == b.knowledgeTime && a.version > b.version)
  }

  /** The row the writer takes for the newest one of a key: a strictly later row replaces the one held. */
  function WriterLatest(rows: Table, k: Key): Option<Row> {
    if rows == [] then None
    else
      var held := WriterLatest(rows[..|rows| - 1], k);
      var r := rows[|rows| - 1];
      if r.key == k && (held.None? || LaterForWriter(r, held.value)) then Some(r) else held
  }

  /** One call: an entity, a window, what the source returned (`None` is an unreadable date), and the clock. */
  datatype SyncCall = SyncCall(entity: int, start: Date, end: Date, frame: seq<(Option<Date>, Bar)>, now: Time)

  function NewRow(table: Table, call: SyncCall, item: (Option<Date>, Bar)): Option<Row> {
    if item.0.None? then None
    else
      var k := Key(call.entity, item.0.value);
      var prior := if call.start <= k.date <= call.end then WriterLatest(table, k) else None;
      if prior.None? then Some(Row(k, CloseOf(k.date), 1, item.1))
      else if SameValues(prior.value.bar, item.1) then None
      else Some(Row(k, call.now, prior.value.version + 1, item.1))
  }

  function NewRows(table: Table, call: SyncCall, frame: seq<(Option<Date>, Bar)>): Table {
    if frame == [] then []
    else
      var before := NewRows(table, call, frame[..|frame| - 1]);
      var r := NewRow(table, call, frame[|frame| - 1]);
      if r.Some? then before + [r.value] else before
  }

  predicate SamePhysicalKey(a: Row, b: Row) {
    a.key == b.key && a.knowledgeTime == b.knowledgeTime && a.version == b.version
  }

  /** Insert with ON CONFLICT DO NOTHING on the physical key. */
  function AppendRows(table: Table, rows: Table): Table {
    if rows == [] then table
    else
      var before := AppendRows(table, rows[..|rows| - 1]);
      var r := rows[|rows| - 1];
      if exists i :: 0 <= i < |before| && SamePhysicalKey(before[i], r) then before else before + [r]
  }

  function Sync(table: Table, call: SyncCall): Table {
    AppendRows(table, NewRows(table, call, call.frame))
  }

  class CanonicalTable {
    var rows: Table

    constructor ()
      ensures rows == []
    {
      rows := [];
    }

    /** The newest row of every date in the window that has one. */
    method LatestRows(entity: int, start: Date, end: Date) returns (latest: map<Date, Row>)
      ensures forall d :: d in latest ==> start <= d <= end && WriterLatest(rows, Key(entity, d)) == Some(latest[d])
      ensures forall d :: start <= d <= end && d !in latest ==> WriterLatest(rows, Key(entity, d)) == None
    {
      latest := map[];
      for i := 0 to |rows|
        invariant forall d :: d in latest ==> start <= d <= end && WriterLatest(rows[..i], Key(entity, d)) == Some(latest[d])
        invariant forall d :: start <= d <= end && d !in latest ==> WriterLatest(rows[..i], Key(entity, d)) == None
      {
        var row := rows[i];
        assert rows[..i + 1][..i] == rows[..i];
        if row.key.entity == entity && start <= row.key.date <= end {
          var d := row.key.date;
          if d !in latest || LaterForWriter(row, latest[d]) {
            latest := latest[d := row];
          }
        }
      }
      assert rows[..|rows|] == rows;
    }

    method Append(added: Table) returns (written: nat)
      modifies this
      ensures rows == AppendRows(old(rows), added) && written == |rows| - |old(rows)|
    {
      written := 0;
      for i := 0 to |added|
        invariant rows == AppendRows(old(rows), added[..i]) && written == |rows| - |old(rows)|
      {
        assert added[..i + 1][..i] == added[..i];
        if !exists j :: 0 <= j < |rows| && SamePhysicalKey(rows[j], added[i]) {
          rows := rows + [added[i]];
          written := written + 1;
        }
      }
      assert added[..|added|] == added;
    }

    method SyncDailyBar(call: SyncCall) returns (written: nat)
      modifies this
      ensures rows == Sync(old(rows), call) && written == |rows| - |old(rows)|
    {
      var latest := LatestRows(call.entity, call.start, call.end);
      var added: Table := [];
      for i := 0 to |call.frame|
        invariant added == NewRows(rows, call, call.frame[..i]) && rows == old(rows)
      {
        var item := call.frame[i];
        assert call.frame[..i + 1][..i] == call.frame[..i];
        if item.0.None? {
          continue;
        }
        var d := item.0.value;
        if d !in latest {
          added := added + [Row(Key(call.entity, d), CloseOf(d), 1, item.1)];
        } else if !SameValues(latest[d].bar, item.1) {
          added := added + [Row(Key(call.entity, d), call.now, latest[d].version + 1, item.1)];
        }
      }
      assert call.frame[..|call.frame|] == call.frame;
      written := Append(added);
    }
  }

  // ---------------------------------------------------------------- the readers

  predicate LaterForReader(a: Row, b: Row) {
    a.version > b.version || (a.version == b.version && a.knowledgeTime > b.knowledgeTime)
  }

  /** Row number 1 of the key's partition among rows known by `t`; `None` for `t` reads without a cut. */
  ghost predicate IsAsOf(table: Table, k: Key, t: Option<Time>, row: Row) {
    && Visible(table, k, t, row)
    && forall other :: Visible(table, k, t, other) ==> other == row || LaterForReader(row, other)
  }

  ghost predicate Visible(table: Table, k: Key, t: Option<Time>, row: Row) {
    row in table && row.key == k && (t.Some? ==> row.knowledgeTime <= t.value)
  }

  /** In any table the writer takes the row of the key that was known last, and of those the one with the greatest
      version. */
  lemma {:induction false} WriterTakesTheLatest(table: Table, k: Key)
    ensures WriterLatest(table, k).None? <==> forall r :: r in table ==> r.key != k
    ensures var latest := WriterLatest(table, k);
            latest.Some? ==>
              && latest.value in table && latest.value.key == k
              && forall r :: r in table && r.key == k ==>
                   || r.knowledgeTime < latest.value.knowledgeTime
                   || (r.knowledgeTime == latest.value.knowledgeTime && r.version <= latest.value.version)
  {
    if table != [] {
      WriterTakesTheLatest(table[..|table| - 1], k);
      assert table == table[..|table| - 1] + [table[|table| - 1]];
    }
  }

  /** A reader shows one row of a key at most: the visible one with the greatest version, and of those the one known
      last. */
  lemma AsOfIsOne(table: Table, k: Key, t: Option<Time>, row: Row, other: Row)
    requires IsAsOf(table, k, t, row) && other in table && other.key == k && (t.Some? ==> other.knowledgeTime <= t.value)
    ensures row in table && row.key == k && (t.Some? ==> row.knowledgeTime <= t.value)
    ensures other != row ==> other.version < row.version || (other.version == row.version && other.knowledgeTime < row.knowledgeTime)
    ensures IsAsOf(table, k, t, other) ==> other == row
  {
    assert Visible(table, k, t, row) && Visible(table, k, t, other);
  }

  // ---------------------------------------------------------------- version chains

  /** The rows of one key in the order they were written. */
  function Chain(table: Table, k: Key): Table {
    if table == [] then []
    else
      var before := Chain(table[..|table| - 1], k);
      if table[|table| - 1].key == k then before + [table[|table| - 1]] else before
  }

  /** Versions count from 1, the first is known from the close, and knowledge never goes backwards or past `now`. */
  ghost predicate GoodChain(c: Table, k: Key, now: Time) {
    && (forall i :: 0 <= i < |c| ==> c[i].key == k && c[i].version == i + 1 && c[i].knowledgeTime <= now)
    && (c != [] ==> c[0].knowledgeTime == CloseOf(k.date))
    && (forall i, j :: 0 <= i < j < |c| ==> c[i].knowledgeTime <= c[j].knowledgeTime)
  }

  ghost predicate GoodTable(table: Table, now: Time) {
    forall k :: GoodChain(Chain(table, k), k, now)
  }

  lemma {:induction false} ChainMembers(table: Table, k: Key, r: Row)
    ensures r in Chain(table, k) <==> r in table && r.key == k
  {
    if table != [] {
      ChainMembers(table[..|table| - 1], k, r);
      assert table == table[..|table| - 1] + [table[|table| - 1]];
    }
  }

  lemma {:induction false} WriterLatestOfChain(table: Table, k: Key)
    ensures WriterLatest(table, k) == WriterLatest(Chain(table, k), k)
  {
    if table != [] {
      var before, r := table[..|table| - 1], table[|table| - 1];
      WriterLatestOfChain(before, k);
      if r.key == k {
        assert Chain(table, k)[..|Chain(before, k)|] == Chain(before, k);
      }
    }
  }

  lemma {:induction false} WriterTakesLast(c: Table, k: Key, now: Time)
    requires GoodChain(c, k, now)
    ensures WriterLatest(c, k) == if c == [] then None else Some(c[|c| - 1])
  {
    if c != [] {
      WriterTakesLast(c[..|c| - 1], k, now);
    }
  }

  lemma LatestIsChainEnd(table: Table, k: Key, now: Time)
    requires GoodChain(Chain(table, k), k, now)
    ensures WriterLatest(table, k) == if Chain(table, k) == [] then None else Some(Chain(table, k)[|Chain(table, k)| - 1])
  {
    WriterLatestOfChain(table, k);
    WriterTakesLast(Chain(table, k), k, now);
  }

  lemma ReaderTakesLast(table: Table, k: Key, now: Time)
    requires GoodChain(Chain(table, k), k, now) && Chain(table, k) != []
    ensures IsAsOf(table, k, None, Chain(table, k)[|Chain(table, k)| - 1])
  {
    var c := Chain(table, k);
    var last := c[|c| - 1];
    ChainMembers(table, k, last);
    forall other | Visible(table, k, None, other) ensures other == last || LaterForReader(last, other) {
      ChainMembers(table, k, other);
      var i :| 0 <= i < |c| && c[i] == other;
    }
  }

  // ---------------------------------------------------------------- what one sync does to one key

  /** The row this call adds to the chain of `k`, if any. */
  ghost predicate Extends(c: Table, c': Table, k: Key, call: SyncCall) {
    || c' == c
    || exists r :: c' == c + [r] && NextLink(c, r, k, call)
  }

  ghost predicate NextLink(c: Table, r: Row, k: Key, call: SyncCall) {
    && r.key == k && k.entity == call.entity && r.version == |c| + 1
    && r.knowledgeTime == (if c == [] then CloseOf(k.date) else call.now)
    && (exists i :: 0 <= i < |call.frame| && call.frame[i].0 == Some(k.date) && call.frame[i].1 == r.bar)
  }

  lemma NewRowLink(table: Table, call: SyncCall, i: nat, now: Time)
    requires i < |call.frame| && NewRow(table, call, call.frame[i]).Some?
    requires var k := NewRow(table, call, call.frame[i]).value.key; GoodChain(Chain(table, k), k, now)
    ensures var r := NewRow(table, call, call.frame[i]).value; var c := Chain(table, r.key);
            NextLink(c, r, r.key, call) || (c != [] && SamePhysicalKey(r, c[0]))
  {
    var r := NewRow(table, call, call.frame[i]).value;
    LatestIsChainEnd(table, r.key, now);
  }

  lemma {:induction false} NewRowsFromFrame(table: Table, call: SyncCall, frame: seq<(Option<Date>, Bar)>, r: Row)
    requires r in NewRows(table, call, frame)
    ensures exists i :: 0 <= i < |frame| && NewRow(table, call, frame[i]) == Some(r)
  {
    var before := NewRows(table, call, frame[..|frame| - 1]);
    if r in before {
      NewRowsFromFrame(table, call, frame[..|frame| - 1], r);
      var i :| 0 <= i < |frame| - 1 && NewRow(table, call, frame[..|frame| - 1][i]) == Some(r);
      assert NewRow(table, call, frame[i]) == Some(r);
    } else {
      assert NewRow(table, call, frame[|frame| - 1]) == Some(r);
    }
  }

  /** Appending rows that, if they are of key `k`, continue its chain adds at most one row to it. */
  lemma {:induction false} AppendExtends(table: Table, call: SyncCall, rows: Table, k: Key)
    requires forall r :: r in rows && r.key == k ==>
               NextLink(Chain(table, k), r, k, call) || (Chain(table, k) != [] && SamePhysicalKey(r, Chain(table, k)[0]))
    ensures Extends(Chain(table, k), Chain(AppendRows(table, rows), k), k, call)
    ensures forall r :: r in table ==> r in AppendRows(table, rows)
  {
    if rows != [] {
      var shorter, r := rows[..|rows| - 1], rows[|rows| - 1];
      assert r in rows && forall q :: q in shorter ==> q in rows;
      AppendExtends(table, call, shorter, k);
      var before := AppendRows(table, shorter);
      if !(exists i :: 0 <= i < |before| && SamePhysicalKey(before[i], r)) {
        var after := before + [r];
        assert after[..|before|] == before;
        assert AppendRows(table, rows) == after;
        if r.key == k {
          var c, b := Chain(table, k), Chain(before, k);
          if c != [] {
            ChainMembers(table, k, c[0]);
          }
          assert NextLink(c, r, k, call);
          if b != c {
            var q :| b == c + [q] && NextLink(c, q, k, call);
            assert q in b;
            ChainMembers(before, k, q);
            assert SamePhysicalKey(q, r);
          }
          assert Chain(after, k) == c + [r];
        }
      }
    }
  }

  lemma SyncExtends(table: Table, call: SyncCall, k: Key, now: Time)
    requires GoodChain(Chain(table, k), k, now)
    ensures Extends(Chain(table, k), Chain(Sync(table, call), k), k, call)
  {
    var rows := NewRows(table, call, call.frame);
    forall r | r in rows && r.key == k
      ensures NextLink(Chain(table, k), r, k, call) || (Chain(table, k) != [] && SamePhysicalKey(r, Chain(table, k)[0]))
    {
      NewRowsFromFrame(table, call, call.frame, r);
      var i :| 0 <= i < |call.frame| && NewRow(table, call, call.frame[i]) == Some(r);
      NewRowLink(table, call, i, now);
    }
    AppendExtends(table, call, rows, k);
  }

  // ---------------------------------------------------------------- runs

  /** What a caller can see before a call: the clock has not gone back, and every delivered day has closed. */
  predicate Timely(call: SyncCall, earlier: Time) {
    earlier <= call.now && forall i :: 0 <= i < |call.frame| && call.frame[i].0.Some? ==> CloseOf(call.frame[i].0.value) <= call.now
  }

  /** The clock reading of the last call, or `default` when there was none. */
  function Clock(calls: seq<SyncCall>, default: Time): Time {
    if calls == [] then default else calls[|calls| - 1].now
  }

  predicate TimelyRun(calls: seq<SyncCall>) {
    calls == [] ||
    (TimelyRun(calls[..|calls| - 1]) &&
     Timely(calls[|calls| - 1], Clock(calls[..|calls| - 1], calls[|calls| - 1].now)))
  }

  function Run(calls: seq<SyncCall>): Table {
    if calls == [] then [] else Sync(Run(calls[..|calls| - 1]), calls[|calls| - 1])
  }

  lemma SyncKeepsGood(table: Table, call: SyncCall, now: Time)
    requires GoodTable(table, now) && Timely(call, now)
    ensures GoodTable(Sync(table, call), call.now)
  {
    forall k ensures GoodChain(Chain(Sync(table, call), k), k, call.now) {
      var c, c' := Chain(table, k), Chain(Sync(table, call), k);
      assert GoodChain(c, k, now);
      SyncExtends(table, call, k, now);
      if c' != c {
        var r :| c' == c + [r] && NextLink(c, r, k, call);
      }
    }
  }

  lemma {:induction false} RunIsGood(calls: seq<SyncCall>, now: Time)
    requires TimelyRun(calls) && Clock(calls, now) <= now
    ensures GoodTable(Run(calls), now)
  {
    if calls != [] {
      var before, last := calls[..|calls| - 1], calls[|calls| - 1];
      RunIsGood(before, Clock(before, last.now));
      SyncKeepsGood(Run(before), last, Clock(before, last.now));
      forall k ensures GoodChain(Chain(Run(calls), k), k, now) {
        assert GoodChain(Chain(Run(calls), k), k, last.now);
      }
    } else {
      assert forall k :: Chain([], k) == [];
    }
  }

  /** Versions run 1..n, and the writer and the readers pick the same row for every key. */
  lemma WriterAndReadersAgree(calls: seq<SyncCall>, k: Key)
    requires TimelyRun(calls)
    ensures forall i :: 0 <= i < |Chain(Run(calls), k)| ==> Chain(Run(calls), k)[i].version == i + 1
    ensures WriterLatest(Run(calls), k).None? <==> Chain(Run(calls), k) == []
    ensures WriterLatest(Run(calls), k).Some? ==> IsAsOf(Run(calls), k, None, WriterLatest(Run(calls), k).value)
  {
    var now := Clock(calls, 0);
    RunIsGood(calls, now);
    var c := Chain(Run(calls), k);
    assert GoodChain(c, k, now);
    LatestIsChainEnd(Run(calls), k, now);
    if c != [] {
      ReaderTakesLast(Run(calls), k, now);
    }
  }

  // ---------------------------------------------------------------- time travel

  /** How many leading calls were made at or before `t`. */
  function DoneBy(calls: seq<SyncCall>, t: Time): (m: nat)
    ensures m <= |calls|
    ensures (m > 0 ==> calls[m - 1].now <= t) && forall i :: m <= i < |calls| ==> calls[i].now > t
  {
    if calls == [] || calls[|calls| - 1].now <= t then |calls| else DoneBy(calls[..|calls| - 1], t)
  }

  /** Rows known by `t` form exactly the chain the calls up to `t` had written, once the key had been written. */
  ghost predicate CutAt(c: Table, m: nat, t: Time) {
    m <= |c| && (forall i :: 0 <= i < m ==> c[i].knowledgeTime <= t) && (forall i :: m <= i < |c| ==> c[i].knowledgeTime > t)
  }

  lemma {:induction false} ChainIsCut(calls: seq<SyncCall>, k: Key, t: Time)
    requires TimelyRun(calls)
    ensures var early := Chain(Run(calls[..DoneBy(calls, t)]), k);
            early <= Chain(Run(calls), k) && (early != [] ==> CutAt(Chain(Run(calls), k), |early|, t))
  {
    var m := DoneBy(calls, t);
    if m == |calls| {
      assert calls[..m] == calls;
      RunIsGood(calls, Clock(calls, t));
      assert GoodChain(Chain(Run(calls), k), k, Clock(calls, t));
    } else {
      var before, last := calls[..|calls| - 1], calls[|calls| - 1];
      ChainIsCut(before, k, t);
      assert calls[..m] == before[..m];
      RunIsGood(before, Clock(before, last.now));
      SyncExtends(Run(before), last, k, Clock(before, last.now));
      var c, c' := Chain(Run(before), k), Chain(Run(calls), k);
      if c' != c {
        var r :| c' == c + [r] && NextLink(c, r, k, last);
      }
    }
  }

  /** The chain position of a row that is visible at `t`. */
  lemma VisibleInChain(table: Table, k: Key, t: Option<Time>, row: Row) returns (i: nat)
    requires Visible(table, k, t, row)
    ensures i < |Chain(table, k)| && Chain(table, k)[i] == row
  {
    ChainMembers(table, k, row);
    i :| 0 <= i < |Chain(table, k)| && Chain(table, k)[i] == row;
  }

  /** An as-of-`t` read of a key that had been stored by `t` is the newest row the calls up to `t` had left. */
  lemma TimeTravel(calls: seq<SyncCall>, k: Key, t: Time)
    requires TimelyRun(calls) && Chain(Run(calls[..DoneBy(calls, t)]), k) != []
    ensures var early := Run(calls[..DoneBy(calls, t)]);
            WriterLatest(early, k).Some? && IsAsOf(Run(calls), k, Some(t), WriterLatest(early, k).value)
  {
    var m := DoneBy(calls, t);
    TimelyPrefix(calls, m);
    RunIsGood(calls[..m], Clock(calls[..m], t));
    assert GoodChain(Chain(Run(calls[..m]), k), k, Clock(calls[..m], t));
    LatestIsChainEnd(Run(calls[..m]), k, Clock(calls[..m], t));
    ChainIsCut(calls, k, t);
    var c := Chain(Run(calls), k);
    var last := |Chain(Run(calls[..m]), k)| - 1;
    RunIsGood(calls, Clock(calls, t));
    assert GoodChain(c, k, Clock(calls, t));
    ChainMembers(Run(calls), k, c[last]);
    forall other | Visible(Run(calls), k, Some(t), other) ensures other == c[last] || LaterForReader(c[last], other) {
      var i := VisibleInChain(Run(calls), k, Some(t), other);
    }
  }

  lemma {:induction false} TimelyPrefix(calls: seq<SyncCall>, m: nat)
    requires TimelyRun(calls) && m <= |calls|
    ensures TimelyRun(calls[..m])
  {
    if m < |calls| {
      TimelyPrefix(calls[..|calls| - 1], m);
      assert calls[..|calls| - 1][..m] == calls[..m];
    } else {
      assert calls[..m] == calls;
    }
  }

  /** A key first stored after `t` is nevertheless visible at `t` exactly when its day had closed by `t`:
      its first version claims to have been known from the close on. */
  lemma BackfillIsVisible(calls: seq<SyncCall>, k: Key, t: Time)
    requires TimelyRun(calls) && Chain(Run(calls[..DoneBy(calls, t)]), k) == [] && Chain(Run(calls), k) != []
    ensures (exists row :: Visible(Run(calls), k, Some(t), row)) <==> CloseOf(k.date) <= t
  {
    var c := Chain(Run(calls), k);
    RunIsGood(calls, Clock(calls, t));
    assert GoodChain(c, k, Clock(calls, t));
    ChainMembers(Run(calls), k, c[0]);
    if CloseOf(k.date) <= t {
      assert Visible(Run(calls), k, Some(t), c[0]);
    } else {
      forall row ensures !Visible(Run(calls), k, Some(t), row) {
        if Visible(Run(calls), k, Some(t), row) {
          var i := VisibleInChain(Run(calls), k, Some(t), row);
        }
      }
    }
  }

  // ---------------------------------------------------------------- when the two orderings part

  /** After a revision of a well-formed chain the writer holds the row the readers show exactly when the
      clock is not behind the newest knowledge time. */
  lemma RevisionAgrees(c: Table, k: Key, now: Time, bar: Bar, known: Time)
    requires GoodChain(c, k, known) && c != []
    ensures var r := Row(k, now, |c| + 1, bar);
            WriterLatest(c + [r], k) == Some(r) <==> now >= c[|c| - 1].knowledgeTime
    ensures var r := Row(k, now, |c| + 1, bar); IsAsOf(c + [r], k, None, r)
  {
    WriterTakesLast(c, k, known);
    assert (c + [Row(k, now, |c| + 1, bar)])[..|c|] == c;
  }

  /** The row the writer would revise is the one the readers show. */
  ghost predicate Agree(table: Table, k: Key) {
    WriterLatest(table, k).Some? ==> IsAsOf(table, k, None, WriterLatest(table, k).value)
  }

  ghost predicate AgreeThroughout(calls: seq<SyncCall>, k: Key) {
    calls == [] || (AgreeThroughout(calls[..|calls| - 1], k) && Agree(Run(calls), k))
  }

  /** Whenever a call revised the key, its clock was not behind the knowledge time of the row stored last. */
  ghost predicate RevisedInOrder(calls: seq<SyncCall>, k: Key) {
    calls == [] ||
    var before, c := calls[..|calls| - 1], Chain(Run(calls[..|calls| - 1]), k);
    && RevisedInOrder(before, k)
    && (c != [] && Chain(Run(calls), k) != c ==> calls[|calls| - 1].now >= c[|c| - 1].knowledgeTime)
  }

  /** A well-formed chain as of its own last knowledge time. */
  ghost predicate Ordered(c: Table, k: Key) {
    c == [] || GoodChain(c, k, c[|c| - 1].knowledgeTime)
  }

  function LastKnown(c: Table): Time {
    if c == [] then 0 else c[|c| - 1].knowledgeTime
  }

  lemma OrderedAgrees(table: Table, k: Key)
    requires Ordered(Chain(table, k), k)
    ensures Agree(table, k)
  {
    var now := LastKnown(Chain(table, k));
    LatestIsChainEnd(table, k, now);
    if Chain(table, k) != [] {
      ReaderTakesLast(table, k, now);
    }
  }

  lemma RevisionBehindParts(table: Table, k: Key, c: Table, r: Row)
    requires Ordered(c, k) && c != [] && Chain(table, k) == c + [r] && r.key == k && r.version == |c| + 1
    requires r.knowledgeTime < c[|c| - 1].knowledgeTime
    ensures !Agree(table, k)
  {
    var last := c[|c| - 1];
    WriterLatestOfChain(table, k);
    WriterTakesLast(c, k, last.knowledgeTime);
    assert (c + [r])[..|c|] == c;
    assert WriterLatest(table, k) == Some(last);
    assert r in Chain(table, k);
    ChainMembers(table, k, r);
    assert Visible(table, k, None, r) && r != last && !LaterForReader(last, r);
  }

  /** Whatever the clock readings and the days delivered: the writer and the readers agree about a key after every call
      exactly when no call revised it with a clock behind the knowledge time of the row stored last. */
  lemma {:induction false} AgreementIsExact(calls: seq<SyncCall>, k: Key)
    ensures AgreeThroughout(calls, k) <==> RevisedInOrder(calls, k)
    ensures RevisedInOrder(calls, k) ==> Ordered(Chain(Run(calls), k), k)
  {
    if calls != [] {
      var before, last := calls[..|calls| - 1], calls[|calls| - 1];
      AgreementIsExact(before, k);
      if RevisedInOrder(before, k) {
        OneCallAgrees(Run(before), last, k);
      }
    }
  }

  lemma OneCallAgrees(table: Table, call: SyncCall, k: Key)
    requires Ordered(Chain(table, k), k)
    ensures var c, c' := Chain(table, k), Chain(Sync(table, call), k);
            && (Agree(Sync(table, call), k) <==> (c != [] && c' != c ==> call.now >= c[|c| - 1].knowledgeTime))
            && (Agree(Sync(table, call), k) ==> Ordered(c', k))
  {
    var c, c' := Chain(table, k), Chain(Sync(table, call), k);
    SyncExtends(table, call, k, LastKnown(c));
    if c' != c {
      var r :| c' == c + [r] && NextLink(c, r, k, call);
      if c != [] && call.now < c[|c| - 1].knowledgeTime {
        RevisionBehindParts(Sync(table, call), k, c, r);
      } else {
        LinkKeepsOrdered(c, k, r);
        OrderedAgrees(Sync(table, call), k);
      }
    } else {
      OrderedAgrees(Sync(table, call), k);
    }
  }

  lemma LinkKeepsOrdered(c: Table, k: Key, r: Row)
    requires Ordered(c, k) && r.key == k && r.version == |c| + 1
    requires if c == [] then r.knowledgeTime == CloseOf(k.date) else c[|c| - 1].knowledgeTime <= r.knowledgeTime
    ensures Ordered(c + [r], k)
  {
    var c' := c + [r];
    forall i | 0 <= i < |c'| ensures c'[i].knowledgeTime <= r.knowledgeTime {
      assert i < |c| ==> c'[i] == c[i];
    }
  }

  // ---------------------------------------------------------------- what one sync leaves behind

  /** Each delivered day once, inside the window. */
  ghost predicate PlainFrame(call: SyncCall) {
    && (forall i, j :: 0 <= i < j < |call.frame| && call.frame[i].0.Some? ==> call.frame[i].0 != call.frame[j].0)
    && (forall i :: 0 <= i < |call.frame| && call.frame[i].0.Some? ==> call.start <= call.frame[i].0.value <= call.end)
  }

  /** The row to be written for one delivered day is written, because no such physical key exists yet. */
  lemma {:induction false} AppendPutsNew(table: Table, call: SyncCall, n: nat, i: nat, now: Time)
    requires GoodTable(table, now) && PlainFrame(call) && i < n <= |call.frame|
    requires NewRow(table, call, call.frame[i]).Some?
    ensures NewRow(table, call, call.frame[i]).value in AppendRows(table, NewRows(table, call, call.frame[..n]))
  {
    var rows, shorter := NewRows(table, call, call.frame[..n]), NewRows(table, call, call.frame[..n - 1]);
    assert call.frame[..n][..n - 1] == call.frame[..n - 1];
    var last := NewRow(table, call, call.frame[n - 1]);
    if i < n - 1 {
      AppendPutsNew(table, call, n - 1, i, now);
      if last.Some? {
        assert rows[..|shorter|] == shorter;
      }
    } else {
      assert rows == shorter + [last.value] && rows[..|shorter|] == shorter;
      OnlyFromFrame(table, call, n - 1, last.value.key);
      var before := AppendRows(table, shorter);
      var c := Chain(table, last.value.key);
      assert GoodChain(c, last.value.key, now);
      NewRowVersion(table, call, i, now);
      forall j | 0 <= j < |before| ensures !SamePhysicalKey(before[j], last.value) {
        if before[j].key == last.value.key {
          assert before[j] in before;
          ChainMembers(table, last.value.key, before[j]);
        }
      }
    }
  }

  lemma NewRowVersion(table: Table, call: SyncCall, i: nat, now: Time)
    requires GoodTable(table, now) && PlainFrame(call) && i < |call.frame| && NewRow(table, call, call.frame[i]).Some?
    ensures var r := NewRow(table, call, call.frame[i]).value; r.version == |Chain(table, r.key)| + 1
  {
    var r := NewRow(table, call, call.frame[i]).value;
    assert GoodChain(Chain(table, r.key), r.key, now);
    LatestIsChainEnd(table, r.key, now);
  }

  /** Before its own frame item is reached, a key's rows are the old ones. */
  lemma {:induction false} OnlyFromFrame(table: Table, call: SyncCall, n: nat, k: Key)
    requires n <= |call.frame| && forall i :: 0 <= i < n ==> call.frame[i].0 != Some(k.date)
    ensures forall r :: r in AppendRows(table, NewRows(table, call, call.frame[..n])) && r.key == k ==> r in table
  {
    if n > 0 {
      OnlyFromFrame(table, call, n - 1, k);
      assert call.frame[..n][..n - 1] == call.frame[..n - 1];
      var shorter := NewRows(table, call, call.frame[..n - 1]);
      var last := NewRow(table, call, call.frame[n - 1]);
      if last.Some? {
        assert (shorter + [last.value])[..|shorter|] == shorter;
      }
    }
  }

  lemma {:induction false} AppendedComeFromRows(table: Table, rows: Table, r: Row)
    requires r in AppendRows(table, rows) && r !in table
    ensures r in rows
  {
    if rows != [] && r in AppendRows(table, rows[..|rows| - 1]) {
      AppendedComeFromRows(table, rows[..|rows| - 1], r);
    }
  }

  /** A delivered day that yields no row keeps its chain. */
  lemma SkippedDay(table: Table, call: SyncCall, i: nat, now: Time)
    requires GoodTable(table, now) && PlainFrame(call) && i < |call.frame| && call.frame[i].0.Some?
    requires NewRow(table, call, call.frame[i]).None?
    ensures var k := Key(call.entity, call.frame[i].0.value); Chain(Sync(table, call), k) == Chain(table, k)
  {
    var k := Key(call.entity, call.frame[i].0.value);
    var c, c' := Chain(table, k), Chain(Sync(table, call), k);
    SyncExtends(table, call, k, now);
    if c' != c {
      var r :| c' == c + [r] && NextLink(c, r, k, call);
      forall j | 0 <= j < |call.frame| ensures NewRow(table, call, call.frame[j]) != Some(r) {
        if call.frame[j].0 == Some(k.date) {
          assert j == i;
        }
      }
      assert r in c';
      ChainMembers(Sync(table, call), k, r);
      NotAlreadyThere(c, k, now, r);
      ChainMembers(table, k, r);
      AppendedComeFromRows(table, NewRows(table, call, call.frame), r);
      NewRowsFromFrame(table, call, call.frame, r);
    }
  }

  lemma NotAlreadyThere(c: Table, k: Key, now: Time, r: Row)
    requires GoodChain(c, k, now) && r.version == |c| + 1
    ensures r !in c
  {
  }

  /** A delivered day that yields a row has that row on top afterwards. */
  lemma WrittenDay(table: Table, call: SyncCall, i: nat, now: Time)
    requires GoodTable(table, now) && PlainFrame(call) && i < |call.frame|
    requires NewRow(table, call, call.frame[i]).Some?
    ensures var r := NewRow(table, call, call.frame[i]).value;
            Chain(Sync(table, call), r.key) == Chain(table, r.key) + [r]
  {
    var r := NewRow(table, call, call.frame[i]).value;
    var c, c' := Chain(table, r.key), Chain(Sync(table, call), r.key);
    assert call.frame[..|call.frame|] == call.frame;
    AppendPutsNew(table, call, |call.frame|, i, now);
    NewRowVersion(table, call, i, now);
    assert GoodChain(c, r.key, now);
    NotAlreadyThere(c, r.key, now, r);
    ChainMembers(Sync(table, call), r.key, r);
    SyncExtends(table, call, r.key, now);
  }

  /** After a sync the newest row of every delivered day is the row the call produced for it, and the old one
      when it produced none. */
  lemma DeliveredDay(table: Table, call: SyncCall, i: nat, now: Time)
    requires GoodTable(table, now) && Timely(call, now) && PlainFrame(call) && i < |call.frame| && call.frame[i].0.Some?
    ensures var k := Key(call.entity, call.frame[i].0.value);
            WriterLatest(Sync(table, call), k)
            == if NewRow(table, call, call.frame[i]).Some? then NewRow(table, call, call.frame[i]) else WriterLatest(table, k)
  {
    var k := Key(call.entity, call.frame[i].0.value);
    assert GoodChain(Chain(table, k), k, now);
    LatestIsChainEnd(table, k, now);
    SyncKeepsGood(table, call, now);
    assert GoodChain(Chain(Sync(table, call), k), k, call.now);
    LatestIsChainEnd(Sync(table, call), k, call.now);
    if NewRow(table, call, call.frame[i]).Some? {
      WrittenDay(table, call, i, now);
    } else {
      SkippedDay(table, call, i, now);
    }
  }

  /** The day has a stored row, each of whose cells is as delivered: NULL twice, or numbers that close. */
  ghost predicate UpToDate(table: Table, call: SyncCall, i: nat)
    requires i < |call.frame| && call.frame[i].0.Some?
  {
    var prior := WriterLatest(table, Key(call.entity, call.frame[i].0.value));
    prior.Some? && forall j :: 0 <= j < 6 ==> Unchanged(Cells(prior.value.bar)[j], Cells(call.frame[i].1)[j])
  }

  lemma UpToDateMeansNoRow(table: Table, call: SyncCall, i: nat)
    requires PlainFrame(call) && i < |call.frame| && call.frame[i].0.Some?
    ensures NewRow(table, call, call.frame[i]).None? <==> UpToDate(table, call, i)
  {
    var prior := WriterLatest(table, Key(call.entity, call.frame[i].0.value));
    if prior.Some? {
      SameValuesMeaning(prior.value.bar, call.frame[i].1);
    }
  }

  /** So each cell of the newest row of a delivered day is the delivered one, or a number that close to it. */
  lemma SyncReflectsSource(table: Table, call: SyncCall, i: nat, now: Time)
    requires GoodTable(table, now) && Timely(call, now) && PlainFrame(call) && i < |call.frame| && call.frame[i].0.Some?
    ensures var latest := WriterLatest(Sync(table, call), Key(call.entity, call.frame[i].0.value));
            latest.Some? && forall j :: 0 <= j < 6 ==>
              var stored, delivered := Cells(latest.value.bar)[j], Cells(call.frame[i].1)[j];
              stored == delivered || Near(stored, delivered)
  {
    DeliveredDay(table, call, i, now);
    UpToDateMeansNoRow(table, call, i);
  }

  /** A delivered day gets a version more exactly when it is not up to date: when it has no row, or when some cell was
      NULL on one side only, NaN on either, or a number further away. The new row holds what was delivered. */
  lemma WritesWhatChanged(table: Table, call: SyncCall, i: nat, now: Time)
    requires GoodTable(table, now) && Timely(call, now) && PlainFrame(call) && i < |call.frame| && call.frame[i].0.Some?
    ensures var k := Key(call.entity, call.frame[i].0.value); var c := Chain(table, k);
            Chain(Sync(table, call), k) ==
              if UpToDate(table, call, i) then c
              else c + [Row(k, if c == [] then CloseOf(k.date) else call.now, |c| + 1, call.frame[i].1)]
  {
    var k := Key(call.entity, call.frame[i].0.value);
    UpToDateMeansNoRow(table, call, i);
    if UpToDate(table, call, i) {
      SkippedDay(table, call, i, now);
    } else {
      WrittenDay(table, call, i, now);
      assert GoodChain(Chain(table, k), k, now);
      LatestIsChainEnd(table, k, now);
    }
  }

  /** A sync leaves the table alone exactly when every delivered day is up to date. */
  lemma SyncWritesNothing(table: Table, call: SyncCall, now: Time)
    requires GoodTable(table, now) && Timely(call, now) && PlainFrame(call)
    ensures Sync(table, call) == table <==>
              forall i {:trigger call.frame[i]} :: 0 <= i < |call.frame| && call.frame[i].0.Some? ==> UpToDate(table, call, i)
  {
    if forall i {:trigger call.frame[i]} :: 0 <= i < |call.frame| && call.frame[i].0.Some? ==> UpToDate(table, call, i) {
      forall i | 0 <= i < |call.frame| ensures NewRow(table, call, call.frame[i]).None? {
        if call.frame[i].0.Some? {
          UpToDateMeansNoRow(table, call, i);
        }
      }
      NothingNew(table, call, call.frame);
    } else {
      var i :| 0 <= i < |call.frame| && call.frame[i].0.Some? && !UpToDate(table, call, i);
      WritesWhatChanged(table, call, i, now);
    }
  }

  lemma {:induction false} NothingNew(table: Table, call: SyncCall, frame: seq<(Option<Date>, Bar)>)
    requires forall i :: 0 <= i < |frame| ==> NewRow(table, call, frame[i]).None?
    ensures NewRows(table, call, frame) == []
  {
    if frame != [] {
      NothingNew(table, call, frame[..|frame| - 1]);
    }
  }

  /** Syncing the same delivery again writes nothing exactly when no delivered field is NaN: a NaN never
      compares equal to the stored NaN, so it is stored again as a revision on every sync. */
  lemma ResyncWritesNothing(table: Table, call: SyncCall, again: Time, now: Time)
    requires GoodTable(table, now) && Timely(call, now) && PlainFrame(call) && call.now <= again
    ensures Sync(Sync(table, call), call.(now := again)) == Sync(table, call) <==>
            forall i :: 0 <= i < |call.frame| && call.frame[i].0.Some? ==> !HasNaN(call.frame[i].1)
  {
    var once, call' := Sync(table, call), call.(now := again);
    SyncKeepsGood(table, call, now);
    SyncWritesNothing(once, call', call.now);
    forall i | 0 <= i < |call.frame| && call.frame[i].0.Some?
      ensures UpToDate(once, call', i) <==> !HasNaN(call.frame[i].1)
    {
      DeliveredDay(table, call, i, now);
      UpToDateMeansNoRow(once, call', i);
      SameAsItself(call.frame[i].1);
    }
  }

  /** A day that a call does not deliver keeps its rows. */
  lemma UndeliveredDay(table: Table, call: SyncCall, k: Key, now: Time)
    requires GoodChain(Chain(table, k), k, now)
    requires call.entity == k.entity ==> forall i :: 0 <= i < |call.frame| ==> call.frame[i].0 != Some(k.date)
    ensures Chain(Sync(table, call), k) == Chain(table, k)
  {
    SyncExtends(table, call, k, now);
  }

  /** The call delivered the day for the entity. */
  predicate Delivers(call: SyncCall, k: Key) {
    call.entity == k.entity && exists i :: 0 <= i < |call.frame| && call.frame[i].0 == Some(k.date)
  }

  /** Over every timely run: the newest row of a day holds, cell by cell, what the last call that delivered the day
      delivered for it. */
  lemma {:induction false} LastDeliveryStands(calls: seq<SyncCall>, n: nat, i: nat)
    requires TimelyRun(calls) && n < |calls| && PlainFrame(calls[n]) && i < |calls[n].frame| && calls[n].frame[i].0.Some?
    requires forall m :: n < m < |calls| ==> !Delivers(calls[m], Key(calls[n].entity, calls[n].frame[i].0.value))
    ensures var latest := WriterLatest(Run(calls), Key(calls[n].entity, calls[n].frame[i].0.value));
            latest.Some? && forall j :: 0 <= j < 6 ==>
              var stored, delivered := Cells(latest.value.bar)[j], Cells(calls[n].frame[i].1)[j];
              stored == delivered || Near(stored, delivered)
    decreases |calls|
  {
    var before, last := calls[..|calls| - 1], calls[|calls| - 1];
    var now := Clock(before, last.now);
    RunIsGood(before, now);
    if n == |calls| - 1 {
      SyncReflectsSource(Run(before), last, i, now);
    } else {
      var k := Key(calls[n].entity, calls[n].frame[i].0.value);
      LastDeliveryStands(before, n, i);
      assert !Delivers(last, k);
      assert GoodChain(Chain(Run(before), k), k, now);
      UndeliveredDay(Run(before), last, k, now);
      WriterLatestOfChain(Run(before), k);
      WriterLatestOfChain(Run(calls), k);
    }
  }
}
