/** Filtering before or after version dedup, and exporting by entity batches and time chunks. */
module PushDowns {
  import opened Wrappers
  import opened PitStore

  /** The access layer: filter first, then keep the first row of every business key. */
  ghost predicate InAccess(table: Table, t: Option<Time>, p: Row -> bool, row: Row) {
    && Visible(table, row.key, t, row) && p(row)
    && forall other :: Visible(table, row.key, t, other) && p(other) ==> other == row || LaterForReader(row, other)
  }

  /** The query layer: keep the first row of every business key, then filter. */
  ghost predicate InQuery(table: Table, t: Option<Time>, p: Row -> bool, row: Row) {
    IsAsOf(table, row.key, t, row) && p(row)
  }

  ghost predicate SameRows(table: Table, t: Option<Time>, p: Row -> bool) {
    forall row :: InAccess(table, t, p, row) <==> InQuery(table, t, p, row)
  }

  /** The physical key is unique. */
  ghost predicate Keyed(table: Table) {
    forall a, b :: a in table && b in table && SamePhysicalKey(a, b) ==> a == b
  }

  /** Among visible rows of a key that satisfy `p` there is a first one. */
  lemma {:induction false} FirstExists(table: Table, t: Option<Time>, p: Row -> bool, row: Row)
    requires Keyed(table) && Visible(table, row.key, t, row) && p(row)
    ensures exists first: Row :: first.key == row.key && InAccess(table, t, p, first)
  {
    var rest := table[..|table| - 1];
    var last := table[|table| - 1];
    assert table == rest + [last];
    assert forall x :: Visible(table, row.key, t, x) <==> Visible(rest, row.key, t, x) || (x == last && Visible([last], row.key, t, x));
    if exists x :: Visible(rest, row.key, t, x) && p(x) {
      var x :| Visible(rest, row.key, t, x) && p(x);
      assert Keyed(rest);
      FirstExists(rest, t, p, x);
      var first: Row :| first.key == row.key && InAccess(rest, t, p, first);
      if Visible([last], row.key, t, last) && p(last) && LaterForReader(last, first) {
        LaterIsTransitive(rest, t, p, first, last);
        assert InAccess(table, t, p, last);
      } else {
        assert first in table && (Visible([last], row.key, t, last) && p(last) ==> last == first || LaterForReader(first, last));
        assert InAccess(table, t, p, first);
      }
    } else {
      assert row == last;
      assert InAccess(table, t, p, last);
    }
  }

  lemma LaterIsTransitive(rest: Table, t: Option<Time>, p: Row -> bool, first: Row, last: Row)
    requires InAccess(rest, t, p, first) && LaterForReader(last, first)
    ensures forall other :: Visible(rest, first.key, t, other) && p(other) ==> LaterForReader(last, other)
  {
  }

  /** The newest visible version of whatever is selected is selected as well. */
  ghost predicate NewestStays(table: Table, t: Option<Time>, p: Row -> bool) {
    forall row: Row, newest: Row :: Visible(table, row.key, t, row) && p(row) && IsAsOf(table, row.key, t, newest) ==> p(newest)
  }

  /** Filtering before dedup gives the rows of filtering after it exactly when no key's newest visible version drops
      out while an older one is selected. */
  lemma PushDownIsSound(table: Table, t: Option<Time>, p: Row -> bool)
    requires Keyed(table)
    ensures SameRows(table, t, p) <==> NewestStays(table, t, p)
  {
    if NewestStays(table, t, p) {
      forall row ensures InAccess(table, t, p, row) <==> InQuery(table, t, p, row) {
        AccessIsQuery(table, t, p, row);
      }
    } else {
      var row: Row, newest: Row :| Visible(table, row.key, t, row) && p(row) && IsAsOf(table, row.key, t, newest) && !p(newest);
      FirstExists(table, t, p, row);
      var first: Row :| first.key == row.key && InAccess(table, t, p, first);
      assert !InQuery(table, t, p, first);
    }
  }

  lemma AccessIsQuery(table: Table, t: Option<Time>, p: Row -> bool, row: Row)
    requires Keyed(table) && NewestStays(table, t, p)
    ensures InAccess(table, t, p, row) <==> InQuery(table, t, p, row)
  {
    if InAccess(table, t, p, row) {
      FirstExists(table, t, _ => true, row);
      var newest: Row :| newest.key == row.key && InAccess(table, t, _ => true, newest);
      assert IsAsOf(table, row.key, t, newest);
      assert p(newest);
    }
  }

  /** A condition on business-key columns can be pushed down on every table at every time. */
  lemma KeyConditionsPushDown(table: Table, t: Option<Time>, p: Row -> bool)
    requires Keyed(table) && forall a: Row, b: Row :: a.key == b.key ==> p(a) == p(b)
    ensures SameRows(table, t, p)
  {
    PushDownIsSound(table, t, p);
  }

  /** And only a condition that newer versions keep can: for any other there is a table of two versions on which
      the two layers differ. */
  lemma OtherConditionsDoNot(p: Row -> bool, older: Row, newer: Row)
    requires older.key == newer.key && LaterForReader(newer, older) && p(older) && !p(newer)
    ensures Keyed([older, newer]) && !SameRows([older, newer], None, p)
  {
    assert IsAsOf([older, newer], older.key, None, newer);
    assert Visible([older, newer], older.key, None, older);
    PushDownIsSound([older, newer], None, p);
  }
}

/** The exporter: it reads the query view once per entity batch and time chunk and writes what it reads. */
module Exports {
  import opened Wrappers

  type Day = int

  /** A row of the view, after dedup and filters; `keyed` says that its sort columns hold no NULL. */
  datatype Row = Row(entity: int, event: Option<Day>, keyed: bool, payload: int)

  datatype Window = Window(first: Day, last: Day)

  predicate InWindow(r: Row, w: Option<Window>) {
    w.None? || (r.event.Some? && w.value.first <= r.event.value <= w.value.last)
  }

  predicate InBatch(r: Row, entities: Option<seq<int>>) {
    entities.None? || r.entity in entities.value
  }

  function Where(view: seq<Row>, p: Row -> bool): seq<Row> {
    if view == [] then []
    else Where(view[..|view| - 1], p) + (if p(view[|view| - 1]) then [view[|view| - 1]] else [])
  }

  /** One query without a limit. */
  function Read(view: seq<Row>, entities: Option<seq<int>>, w: Option<Window>): seq<Row> {
    Where(view, Matches(entities, w))
  }

  function Matches(entities: Option<seq<int>>, w: Option<Window>): Row -> bool {
    r => InBatch(r, entities) && InWindow(r, w)
  }

  lemma {:induction false} WhereSplits(view: seq<Row>, p: Row -> bool, q: Row -> bool, both: Row -> bool)
    requires forall r {:trigger both(r)} :: both(r) == (p(r) || q(r)) && !(p(r) && q(r))
    ensures multiset(Where(view, both)) == multiset(Where(view, p)) + multiset(Where(view, q))
  {
    if view != [] {
      WhereSplits(view[..|view| - 1], p, q, both);
    }
  }

  lemma {:induction false} WhereSame(view: seq<Row>, p: Row -> bool, q: Row -> bool)
    requires forall r :: r in view ==> p(r) == q(r)
    ensures Where(view, p) == Where(view, q)
  {
    if view != [] {
      WhereSame(view[..|view| - 1], p, q);
      assert view == view[..|view| - 1] + [view[|view| - 1]];
    }
  }

  // ---------------------------------------------------------------- chunks and batches

  /** Consecutive stretches of at most `span` days that make up the window. */
  ghost predicate Tiles(w: Window, span: nat, chunks: seq<Window>) {
    && (forall i :: 0 <= i < |chunks| ==> chunks[i].first <= chunks[i].last < chunks[i].first + span)
    && (forall i :: 0 <= i < |chunks| - 1 ==> chunks[i + 1].first == chunks[i].last + 1)
    && (if w.first > w.last then chunks == []
        else chunks != [] && chunks[0].first == w.first && chunks[|chunks| - 1].last == w.last)
  }

  method TimeChunks(window: Option<Window>, chunkDays: int) returns (chunks: seq<Option<Window>>, ghost tiles: seq<Window>)
    ensures window.None? ==> chunks == [None]
    ensures window.Some? ==> Tiles(window.value, if chunkDays < 1 then 1 else chunkDays, tiles) &&
                             |chunks| == |tiles| && forall i :: 0 <= i < |chunks| ==> chunks[i] == Some(tiles[i])
  {
    tiles := [];
    if window.None? {
      return [None], [];
    }
    var w := window.value;
    var span := if chunkDays < 1 then 1 else chunkDays;
    chunks := [];
    var cursor := w.first;
    while cursor <= w.last
      invariant cursor == (if tiles == [] then w.first else tiles[|tiles| - 1].last + 1)
      invariant Tiles(Window(w.first, cursor - 1), span, tiles)
      invariant if w.first <= w.last then cursor <= w.last + 1 else cursor == w.first
      invariant |chunks| == |tiles| && forall i :: 0 <= i < |chunks| ==> chunks[i] == Some(tiles[i])
      decreases w.last - cursor
    {
      var end := if cursor + span - 1 < w.last then cursor + span - 1 else w.last;
      chunks := chunks + [Some(Window(cursor, end))];
      tiles := tiles + [Window(cursor, end)];
      cursor := end + 1;
    }
  }

  /** Batches that put together give the list. */
  function Joined(batches: seq<seq<int>>): seq<int> {
    if batches == [] then [] else Joined(batches[..|batches| - 1]) + batches[|batches| - 1]
  }

  lemma JoinedStep(batches: seq<seq<int>>, next: seq<int>)
    ensures Joined(batches + [next]) == Joined(batches) + next
  {
    assert (batches + [next])[..|batches|] == batches;
  }

  /** Python's slice from `index` stops at the end of the list. */
  function Slice(ids: seq<int>, index: nat, size: nat): seq<int>
    requires index <= |ids|
  {
    if index + size <= |ids| then ids[index..index + size] else ids[index..]
  }

  lemma SliceGoesOn(ids: seq<int>, index: nat, size: nat)
    requires index <= |ids|
    ensures ids[..index] + Slice(ids, index, size) == ids[..if index + size <= |ids| then index + size else |ids|]
  {
  }

  method EntityBatches(ids: seq<int>, entityBatch: int) returns (batches: seq<seq<int>>)
    ensures Joined(batches) == ids
    ensures forall i :: 0 <= i < |batches| ==> 0 < |batches[i]| <= (if entityBatch < 1 then 1 else entityBatch)
  {
    var batch := if entityBatch < 1 then 1 else entityBatch;
    batches := [];
    var index := 0;
    while index < |ids|
      invariant 0 <= index && Joined(batches) == ids[..if index <= |ids| then index else |ids|]
      invariant forall i :: 0 <= i < |batches| ==> 0 < |batches[i]| <= batch
    {
      var next := Slice(ids, index, batch);
      JoinedStep(batches, next);
      SliceGoesOn(ids, index, batch);
      batches := batches + [next];
      index := index + batch;
    }
  }

  // ---------------------------------------------------------------- the loop

  datatype Result = Written(rows: seq<Row>) | TooManyRows | BadWindow | NoEntityColumn

  /** One limited query. When it is cut at a row whose sort columns hold a NULL it hands out no cursor, so the
      exporter cannot tell. */
  function ReadChunk(view: seq<Row>, entities: Option<seq<int>>, w: Option<Window>, limit: nat): Result
    requires limit > 0
  {
    var rows := Read(view, entities, w);
    if |rows| <= limit then Written(rows)
    else if rows[limit - 1].keyed then TooManyRows
    else Written(rows[..limit])
  }

  /** What the first `m` chunks of a batch hold. */
  function OfBatch(view: seq<Row>, g: Option<seq<int>>, chunks: seq<Option<Window>>, m: nat): seq<Row>
    requires m <= |chunks|
  {
    if m == 0 then [] else OfBatch(view, g, chunks, m - 1) + Read(view, g, chunks[m - 1])
  }

  function OfBatches(view: seq<Row>, groups: seq<Option<seq<int>>>, chunks: seq<Option<Window>>, n: nat): seq<Row>
    requires n <= |groups|
  {
    if n == 0 then [] else OfBatches(view, groups, chunks, n - 1) + OfBatch(view, groups[n - 1], chunks, |chunks|)
  }

  /** Some of the first `m` chunks of a batch exceeds the limit. */
  predicate LargeIn(view: seq<Row>, g: Option<seq<int>>, chunks: seq<Option<Window>>, limit: nat, m: nat)
    requires m <= |chunks|
  {
    m > 0 && (LargeIn(view, g, chunks, limit, m - 1) || |Read(view, g, chunks[m - 1])| > limit)
  }

  predicate AnyLarge(view: seq<Row>, groups: seq<Option<seq<int>>>, chunks: seq<Option<Window>>, limit: nat, n: nat)
    requires n <= |groups|
  {
    n > 0 && (AnyLarge(view, groups, chunks, limit, n - 1) || LargeIn(view, groups[n - 1], chunks, limit, |chunks|))
  }

  /** The read of this batch and chunk has more rows than the limit, and the last row within it has a full sort key. */
  predicate TooLarge(view: seq<Row>, groups: seq<Option<seq<int>>>, chunks: seq<Option<Window>>, limit: nat, i: int, j: int)
    requires limit > 0
  {
    && 0 <= i < |groups| && 0 <= j < |chunks|
    && |Read(view, groups[i], chunks[j])| > limit && Read(view, groups[i], chunks[j])[limit - 1].keyed
  }

  /** Some batch and chunk do. */
  ghost predicate MustRaise(view: seq<Row>, groups: seq<Option<seq<int>>>, chunks: seq<Option<Window>>, limit: nat)
    requires limit > 0
  {
    exists i, j :: TooLarge(view, groups, chunks, limit, i, j)
  }

  lemma {:induction false} LargeStays(view: seq<Row>, groups: seq<Option<seq<int>>>, chunks: seq<Option<Window>>, limit: nat, i: nat, j: nat)
    requires i < |groups| && j < |chunks| && |Read(view, groups[i], chunks[j])| > limit
    ensures AnyLarge(view, groups, chunks, limit, |groups|)
  {
    LargeInLater(view, groups[i], chunks, limit, j, |chunks|);
    AnyLargeLater(view, groups, chunks, limit, i, |groups|);
  }

  lemma {:induction false} LargeInLater(view: seq<Row>, g: Option<seq<int>>, chunks: seq<Option<Window>>, limit: nat, j: nat, m: nat)
    requires j < m <= |chunks| && |Read(view, g, chunks[j])| > limit
    ensures LargeIn(view, g, chunks, limit, m)
  {
    if j < m - 1 {
      LargeInLater(view, g, chunks, limit, j, m - 1);
    }
  }

  lemma {:induction false} AnyLargeLater(view: seq<Row>, groups: seq<Option<seq<int>>>, chunks: seq<Option<Window>>, limit: nat, i: nat, n: nat)
    requires i < n <= |groups| && LargeIn(view, groups[i], chunks, limit, |chunks|)
    ensures AnyLarge(view, groups, chunks, limit, n)
  {
    if i < n - 1 {
      AnyLargeLater(view, groups, chunks, limit, i, n - 1);
    }
  }

  /** Batch by batch and chunk by chunk; empty chunks are skipped. What is written is complete exactly when no chunk
      exceeds the limit; one that does ends the export, unless its boundary hides it. */
  method WriteExport(view: seq<Row>, groups: seq<Option<seq<int>>>, chunks: seq<Option<Window>>, limit: nat)
    returns (r: Result, total: nat)
    requires limit > 0
    ensures r.Written? ==> total == |r.rows|
    ensures r.TooManyRows? ==> AnyLarge(view, groups, chunks, limit, |groups|)
    ensures r.TooManyRows? <==> MustRaise(view, groups, chunks, limit)
    ensures r.Written? || r.TooManyRows?
    ensures r.Written? && !AnyLarge(view, groups, chunks, limit, |groups|) ==> r.rows == OfBatches(view, groups, chunks, |groups|)
    ensures r.Written? && AnyLarge(view, groups, chunks, limit, |groups|) ==> |r.rows| < |OfBatches(view, groups, chunks, |groups|)|
  {
    var written: seq<Row> := [];
    total := 0;
    ghost var cut := false;
    for i := 0 to |groups|
      invariant total == |written| && Progress(written, cut, OfBatches(view, groups, chunks, i))
      invariant cut <==> AnyLarge(view, groups, chunks, limit, i)
      invariant forall a, b :: a < i ==> !TooLarge(view, groups, chunks, limit, a, b)
    {
      for j := 0 to |chunks|
        invariant total == |written|
        invariant Progress(written, cut, OfBatches(view, groups, chunks, i) + OfBatch(view, groups[i], chunks, j))
        invariant cut <==> AnyLarge(view, groups, chunks, limit, i) || LargeIn(view, groups[i], chunks, limit, j)
        invariant forall b :: b < j ==> !TooLarge(view, groups, chunks, limit, i, b)
      {
        var chunk := ReadChunk(view, groups[i], chunks[j], limit);
        if chunk.TooManyRows? {
          LargeStays(view, groups, chunks, limit, i, j);
          assert TooLarge(view, groups, chunks, limit, i, j);
          return TooManyRows, total;
        }
        ProgressStep(written, cut, OfBatches(view, groups, chunks, i), OfBatch(view, groups[i], chunks, j),
                     chunk.rows, Read(view, groups[i], chunks[j]));
        cut := cut || |Read(view, groups[i], chunks[j])| > limit;
        if |chunk.rows| > 0 {
          written := written + chunk.rows;
          total := total + |chunk.rows|;
        }
      }
    }
    r := Written(written);
  }

  /** When every row has a full sort key, only a complete export is written. */
  lemma {:induction false} KeyedMeansComplete(view: seq<Row>, groups: seq<Option<seq<int>>>, chunks: seq<Option<Window>>, limit: nat, n: nat)
    requires limit > 0 && n <= |groups| && !MustRaise(view, groups, chunks, limit) && forall r :: r in view ==> r.keyed
    ensures !AnyLarge(view, groups, chunks, limit, n)
  {
    if n > 0 {
      KeyedMeansComplete(view, groups, chunks, limit, n - 1);
      BatchComplete(view, groups, chunks, limit, n - 1, |chunks|);
    }
  }

  lemma {:induction false} BatchComplete(view: seq<Row>, groups: seq<Option<seq<int>>>, chunks: seq<Option<Window>>, limit: nat, i: nat, m: nat)
    requires limit > 0 && i < |groups| && m <= |chunks|
    requires !MustRaise(view, groups, chunks, limit) && forall r :: r in view ==> r.keyed
    ensures !LargeIn(view, groups[i], chunks, limit, m)
  {
    if m > 0 {
      BatchComplete(view, groups, chunks, limit, i, m - 1);
      var rows := Read(view, groups[i], chunks[m - 1]);
      if |rows| > limit {
        WhereHolds(view, Matches(groups[i], chunks[m - 1]), rows[limit - 1]);
      }
      assert TooLarge(view, groups, chunks, limit, i, m - 1) <==> |rows| > limit;
    }
  }

  /** What was written is what was to be, or less of it once a chunk has been cut. */
  ghost predicate Progress(written: seq<Row>, cut: bool, expected: seq<Row>) {
    if cut then |written| < |expected| else written == expected
  }

  lemma ProgressStep(written: seq<Row>, cut: bool, before: seq<Row>, batch: seq<Row>, chunk: seq<Row>, rows: seq<Row>)
    requires Progress(written, cut, before + batch) && (chunk == rows || |chunk| < |rows|)
    ensures Progress(written + chunk, cut || |chunk| < |rows|, before + (batch + rows))
    ensures chunk == [] ==> written + chunk == written
  {
    assert before + (batch + rows) == (before + batch) + rows;
  }

  // ---------------------------------------------------------------- nothing lost, nothing twice

  predicate HitsFirst(chunks: seq<Option<Window>>, m: nat, r: Row)
    requires m <= |chunks|
  {
    exists j :: 0 <= j < m && InWindow(r, chunks[j])
  }

  predicate BatchFirst(groups: seq<Option<seq<int>>>, n: nat, r: Row)
    requires n <= |groups|
  {
    exists i :: 0 <= i < n && InBatch(r, groups[i])
  }

  ghost predicate NoWindowTwice(chunks: seq<Option<Window>>) {
    forall r, i, j {:trigger InWindow(r, chunks[i]), InWindow(r, chunks[j])} :: 0 <= i < j < |chunks| ==>
      !(InWindow(r, chunks[i]) && InWindow(r, chunks[j]))
  }

  ghost predicate NoEntityTwice(groups: seq<Option<seq<int>>>) {
    forall r, i, j {:trigger InBatch(r, groups[i]), InBatch(r, groups[j])} :: 0 <= i < j < |groups| ==>
      !(InBatch(r, groups[i]) && InBatch(r, groups[j]))
  }

  /** The rows of a batch in its first `m` chunks, and the rows of the first `n` batches. */
  function InChunks(g: Option<seq<int>>, chunks: seq<Option<Window>>, m: nat): Row -> bool
    requires m <= |chunks|
  {
    r => InBatch(r, g) && HitsFirst(chunks, m, r)
  }

  function InBatches(groups: seq<Option<seq<int>>>, chunks: seq<Option<Window>>, n: nat): Row -> bool
    requires n <= |groups|
  {
    r => BatchFirst(groups, n, r) && HitsFirst(chunks, |chunks|, r)
  }

  lemma ChunksAdd(g: Option<seq<int>>, chunks: seq<Option<Window>>, m: nat, r: Row)
    requires NoWindowTwice(chunks) && 0 < m <= |chunks|
    ensures InChunks(g, chunks, m)(r) == (InChunks(g, chunks, m - 1)(r) || Matches(g, chunks[m - 1])(r))
    ensures !(InChunks(g, chunks, m - 1)(r) && Matches(g, chunks[m - 1])(r))
  {
  }

  lemma BatchesAdd(groups: seq<Option<seq<int>>>, chunks: seq<Option<Window>>, n: nat, r: Row)
    requires NoEntityTwice(groups) && 0 < n <= |groups|
    ensures InBatches(groups, chunks, n)(r) ==
              (InBatches(groups, chunks, n - 1)(r) || InChunks(groups[n - 1], chunks, |chunks|)(r))
    ensures !(InBatches(groups, chunks, n - 1)(r) && InChunks(groups[n - 1], chunks, |chunks|)(r))
  {
  }

  lemma SumsAgree(a: seq<Row>, b: seq<Row>, x: seq<Row>, y: seq<Row>, both: seq<Row>)
    requires multiset(a) == multiset(x) && multiset(b) == multiset(y) && multiset(both) == multiset(x) + multiset(y)
    ensures multiset(a + b) == multiset(both)
  {
  }

  lemma {:induction false} BatchHolds(view: seq<Row>, g: Option<seq<int>>, chunks: seq<Option<Window>>, m: nat)
    requires NoWindowTwice(chunks) && m <= |chunks|
    ensures multiset(OfBatch(view, g, chunks, m)) == multiset(Where(view, InChunks(g, chunks, m)))
  {
    if m == 0 {
      WhereNothing(view, InChunks(g, chunks, m));
    } else {
      BatchHolds(view, g, chunks, m - 1);
      var p, q, both := InChunks(g, chunks, m - 1), Matches(g, chunks[m - 1]), InChunks(g, chunks, m);
      forall r ensures both(r) == (p(r) || q(r)) && !(p(r) && q(r)) {
        ChunksAdd(g, chunks, m, r);
      }
      WhereSplits(view, p, q, both);
      SumsAgree(OfBatch(view, g, chunks, m - 1), Where(view, q), Where(view, p), Where(view, q), Where(view, both));
    }
  }

  lemma {:induction false} WhereNothing(view: seq<Row>, p: Row -> bool)
    requires forall r :: !p(r)
    ensures Where(view, p) == []
  {
    if view != [] {
      WhereNothing(view[..|view| - 1], p);
    }
  }

  lemma {:induction false} BatchesHold(view: seq<Row>, groups: seq<Option<seq<int>>>, chunks: seq<Option<Window>>, n: nat)
    requires NoWindowTwice(chunks) && NoEntityTwice(groups) && n <= |groups|
    ensures multiset(OfBatches(view, groups, chunks, n)) == multiset(Where(view, InBatches(groups, chunks, n)))
  {
    if n == 0 {
      WhereNothing(view, InBatches(groups, chunks, n));
    } else {
      BatchesHold(view, groups, chunks, n - 1);
      BatchHolds(view, groups[n - 1], chunks, |chunks|);
      var p, both := InBatches(groups, chunks, n - 1), InBatches(groups, chunks, n);
      var q := InChunks(groups[n - 1], chunks, |chunks|);
      forall r ensures both(r) == (p(r) || q(r)) && !(p(r) && q(r)) {
        BatchesAdd(groups, chunks, n, r);
      }
      WhereSplits(view, p, q, both);
      SumsAgree(OfBatches(view, groups, chunks, n - 1), OfBatch(view, groups[n - 1], chunks, |chunks|),
                Where(view, p), Where(view, q), Where(view, both));
    }
  }

  /** The tiles of a window hit each of its days exactly once and no other day. */
  lemma TilesHitOnce(w: Window, span: nat, tiles: seq<Window>, day: Day)
    requires Tiles(w, span, tiles)
    ensures (exists i :: 0 <= i < |tiles| && tiles[i].first <= day <= tiles[i].last) <==> w.first <= day <= w.last
    ensures forall i, j :: 0 <= i < j < |tiles| ==> tiles[i].last < tiles[j].first
  {
    if tiles != [] {
      TilesRise(w, span, tiles, |tiles| - 1);
      if w.first <= day <= w.last {
        FindTile(w, span, tiles, day, |tiles| - 1);
      }
    }
  }

  lemma {:induction false} TilesRise(w: Window, span: nat, tiles: seq<Window>, n: nat)
    requires Tiles(w, span, tiles) && n < |tiles|
    ensures forall i, j :: 0 <= i < j <= n ==> tiles[i].last < tiles[j].first
    ensures forall i :: 0 <= i <= n ==> tiles[0].first <= tiles[i].first && tiles[i].last <= tiles[n].last
  {
    if n > 0 {
      TilesRise(w, span, tiles, n - 1);
      assert tiles[n - 1 + 1].first == tiles[n - 1].last + 1;
    }
  }

  lemma {:induction false} FindTile(w: Window, span: nat, tiles: seq<Window>, day: Day, n: nat)
    requires Tiles(w, span, tiles) && n < |tiles| && tiles[0].first <= day <= tiles[n].last
    ensures exists i :: 0 <= i < |tiles| && tiles[i].first <= day <= tiles[i].last
  {
    if day < tiles[n].first {
      assert tiles[n - 1 + 1].first == tiles[n - 1].last + 1;
      FindTile(w, span, tiles, day, n - 1);
    }
  }

  predicate Distinct(ids: seq<int>) {
    forall i, j :: 0 <= i < j < |ids| ==> ids[i] != ids[j]
  }

  function Batched(batches: seq<seq<int>>): (groups: seq<Option<seq<int>>>)
    ensures |groups| == |batches| && forall i :: 0 <= i < |groups| ==> groups[i] == Some(batches[i])
  {
    seq(|batches|, i requires 0 <= i < |batches| => Some(batches[i]))
  }

  lemma {:induction false} BatchesHitOnce(batches: seq<seq<int>>, x: int)
    requires Distinct(Joined(batches))
    ensures (exists i :: 0 <= i < |batches| && x in batches[i]) <==> x in Joined(batches)
    ensures forall i, j :: 0 <= i < j < |batches| ==> !(x in batches[i] && x in batches[j])
  {
    if batches != [] {
      var init, last := batches[..|batches| - 1], batches[|batches| - 1];
      var before := Joined(init);
      assert forall i :: 0 <= i < |before| ==> before[i] == Joined(batches)[i];
      BatchesHitOnce(init, x);
      forall i, j | 0 <= i < |before| && 0 <= j < |last| ensures before[i] != last[j] {
        assert Joined(batches)[i] == before[i] && Joined(batches)[|before| + j] == last[j];
      }
      forall i, j | 0 <= i < j < |batches| ensures !(x in batches[i] && x in batches[j]) {
        assert batches[i] == init[i];
        if j < |batches| - 1 {
          assert batches[j] == init[j];
        }
      }
      assert (exists i :: 0 <= i < |batches| && x in batches[i]) <==> (exists i :: 0 <= i < |init| && x in init[i]) || x in last;
    }
  }

  lemma {:induction false} WhereHolds(view: seq<Row>, p: Row -> bool, r: Row)
    ensures r in Where(view, p) <==> r in view && p(r)
  {
    if view != [] {
      WhereHolds(view[..|view| - 1], p, r);
      assert view == view[..|view| - 1] + [view[|view| - 1]];
    }
  }

  /** Batches and chunks that overlap nowhere give the rows of one read exactly when every row of that read falls
      into some batch and some chunk. */
  lemma SplitReadIsOneRead(view: seq<Row>, groups: seq<Option<seq<int>>>, chunks: seq<Option<Window>>,
                           entities: Option<seq<int>>, w: Option<Window>)
    requires NoWindowTwice(chunks) && NoEntityTwice(groups)
    requires forall r :: r in view && InBatches(groups, chunks, |groups|)(r) ==> Matches(entities, w)(r)
    ensures multiset(OfBatches(view, groups, chunks, |groups|)) == multiset(Read(view, entities, w)) <==>
              forall r :: r in view && Matches(entities, w)(r) ==> InBatches(groups, chunks, |groups|)(r)
    ensures |OfBatches(view, groups, chunks, |groups|)| <= |Read(view, entities, w)|
  {
    BatchesHold(view, groups, chunks, |groups|);
    WhereMissesNothing(view, InBatches(groups, chunks, |groups|), Matches(entities, w));
    WhereFewer(view, InBatches(groups, chunks, |groups|), Matches(entities, w));
    SameSize(OfBatches(view, groups, chunks, |groups|), Where(view, InBatches(groups, chunks, |groups|)));
  }

  lemma SameSize(a: seq<Row>, b: seq<Row>)
    requires multiset(a) == multiset(b)
    ensures |a| == |b|
  {
    assert |multiset(a)| == |a|;
  }

  /** A narrower condition keeps the same rows exactly when it lets all of them through. */
  lemma WhereMissesNothing(view: seq<Row>, p: Row -> bool, q: Row -> bool)
    requires forall r :: r in view && p(r) ==> q(r)
    ensures multiset(Where(view, p)) == multiset(Where(view, q)) <==> forall r :: r in view && q(r) ==> p(r)
  {
    if forall r :: r in view && q(r) ==> p(r) {
      WhereSame(view, p, q);
    } else {
      var r :| r in view && q(r) && !p(r);
      WhereDiffers(view, p, q, r);
    }
  }

  lemma WhereDiffers(view: seq<Row>, p: Row -> bool, q: Row -> bool, r: Row)
    requires r in view && q(r) && !p(r)
    ensures multiset(Where(view, p)) != multiset(Where(view, q))
  {
    WhereHolds(view, p, r);
    WhereHolds(view, q, r);
    assert r in multiset(Where(view, q)) && r !in multiset(Where(view, p));
  }

  function Wrapped(tiles: seq<Window>): (chunks: seq<Option<Window>>)
    ensures |chunks| == |tiles| && forall i :: 0 <= i < |chunks| ==> chunks[i] == Some(tiles[i])
  {
    seq(|tiles|, i requires 0 <= i < |tiles| => Some(tiles[i]))
  }

  lemma TilesAsChunks(w: Window, span: nat, tiles: seq<Window>)
    requires Tiles(w, span, tiles)
    ensures NoWindowTwice(Wrapped(tiles))
    ensures forall r {:trigger HitsFirst(Wrapped(tiles), |tiles|, r)} :: HitsFirst(Wrapped(tiles), |tiles|, r) <==> InWindow(r, Some(w))
  {
    TilesHitOnce(w, span, tiles, 0);
    var chunks := Wrapped(tiles);
    forall r: Row ensures HitsFirst(chunks, |tiles|, r) <==> InWindow(r, Some(w)) {
      if r.event.Some? {
        TilesHitOnce(w, span, tiles, r.event.value);
        forall i | 0 <= i < |tiles| ensures InWindow(r, chunks[i]) <==> tiles[i].first <= r.event.value <= tiles[i].last {
        }
      }
    }
  }

  lemma BatchesAsGroups(batches: seq<seq<int>>)
    requires Distinct(Joined(batches))
    ensures NoEntityTwice(Batched(batches))
    ensures forall r {:trigger BatchFirst(Batched(batches), |batches|, r)} ::
              BatchFirst(Batched(batches), |batches|, r) <==> r.entity in Joined(batches)
  {
    forall r: Row ensures BatchFirst(Batched(batches), |batches|, r) <==> r.entity in Joined(batches) {
      BatchFirstIsMember(batches, r);
    }
    forall r: Row, i, j | 0 <= i < j < |batches| ensures !(InBatch(r, Batched(batches)[i]) && InBatch(r, Batched(batches)[j])) {
      BatchesHitOnce(batches, r.entity);
    }
  }

  lemma BatchFirstIsMember(batches: seq<seq<int>>, r: Row)
    requires Distinct(Joined(batches))
    ensures BatchFirst(Batched(batches), |batches|, r) <==> r.entity in Joined(batches)
  {
    BatchesHitOnce(batches, r.entity);
    var groups := Batched(batches);
    if i :| 0 <= i < |batches| && r.entity in batches[i] {
      assert InBatch(r, groups[i]);
    }
  }

  lemma {:induction false} WhereFewer(view: seq<Row>, p: Row -> bool, q: Row -> bool)
    requires forall r :: r in view && p(r) ==> q(r)
    ensures |Where(view, p)| <= |Where(view, q)|
  {
    if view != [] {
      WhereFewer(view[..|view| - 1], p, q);
      assert view == view[..|view| - 1] + [view[|view| - 1]];
    }
  }

  // ---------------------------------------------------------------- the whole export

  /** Which of the two columns the dataset's table has. */
  datatype Layout = Layout(hasEntity: bool, hasEvent: bool)

  /** The ids, each once, in order of first mention. */
  function Once(ids: seq<int>): (r: seq<int>)
    ensures Distinct(r) && forall x :: x in r <==> x in ids
  {
    if ids == [] then []
    else
      var rest, last := Once(ids[..|ids| - 1]), ids[|ids| - 1];
      assert ids == ids[..|ids| - 1] + [last];
      if last in rest then rest else rest + [last]
  }

  /** The least and the greatest event time of the stored rows of the entities. */
  function FullRange(table: seq<Row>, entities: Option<seq<int>>): (range: Option<Window>)
    ensures range.None? <==> forall r :: r in table && InBatch(r, entities) ==> r.event.None?
    ensures range.Some? ==> range.value.first <= range.value.last
    ensures forall r :: r in table && InBatch(r, entities) && r.event.Some? ==> InWindow(r, range)
  {
    if table == [] then None
    else
      var rest, r := FullRange(table[..|table| - 1], entities), table[|table| - 1];
      assert table == table[..|table| - 1] + [r];
      if r.event.None? || !InBatch(r, entities) then rest
      else if rest.None? then Some(Window(r.event.value, r.event.value))
      else Some(Window(if r.event.value < rest.value.first then r.event.value else rest.value.first,
                       if r.event.value > rest.value.last then r.event.value else rest.value.last))
  }

  /** The entities with a stored row in the window. */
  function StoredIds(table: seq<Row>, w: Option<Window>): (ids: seq<int>)
    ensures Distinct(ids)
    ensures forall r :: r in table && InWindow(r, w) ==> r.entity in ids
  {
    if table == [] then []
    else
      var rest, r := StoredIds(table[..|table| - 1], w), table[|table| - 1];
      assert table == table[..|table| - 1] + [r];
      if InWindow(r, w) && r.entity !in rest then rest + [r.entity] else rest
  }

  /** The rows of the whole request as the query layer would answer it without a limit: nothing when it refuses,
      because the table has no column for a filter or the window is inverted. */
  function QueryRows(view: seq<Row>, layout: Layout, entities: seq<int>, w: Option<Window>): Option<seq<Row>> {
    if entities != [] && !layout.hasEntity then None
    else if w.Some? && (!layout.hasEvent || w.value.first > w.value.last) then None
    else Some(Read(view, if entities != [] then Some(entities) else None, w))
  }

  /** The entities the export is limited to: it passes over a list that the table has no column for. */
  function Wanted(layout: Layout, entities: seq<int>): Option<seq<int>> {
    if layout.hasEntity && entities != [] then Some(entities) else None
  }

  /** The window the export is limited to: likewise. */
  function Asked(layout: Layout, w: Option<Window>): Option<Window> {
    if layout.hasEvent then w else None
  }

  /** The window the exporter cuts into chunks: the one asked for, or the range of all event times if there are any. */
  function Cut(table: seq<Row>, layout: Layout, entities: seq<int>, w: Option<Window>): Option<Window> {
    if !layout.hasEvent then None
    else if w.Some? then w
    else FullRange(table, Wanted(layout, entities))
  }

  function Ids(table: seq<Row>, entities: seq<int>, cut: Option<Window>): seq<int> {
    if entities != [] then entities else StoredIds(table, cut)
  }

  /** The view selects from the stored rows. */
  ghost predicate Backed(view: seq<Row>, table: seq<Row>) {
    forall r :: r in view ==> exists s :: s in table && s.entity == r.entity && s.event == r.event
  }

  /** Without a window, rows without an event time fall through the chunks as soon as any stored row has one. */
  ghost predicate DropsUndated(view: seq<Row>, table: seq<Row>, layout: Layout, entities: seq<int>, w: Option<Window>) {
    && layout.hasEvent && w.None?
    && (exists s :: s in table && InBatch(s, Wanted(layout, entities)) && s.event.Some?)
    && (exists r :: r in view && InBatch(r, Wanted(layout, entities)) && r.event.None?)
  }

  ghost predicate GroupsAre(groups: seq<Option<seq<int>>>, layout: Layout, ids: seq<int>) {
    && NoEntityTwice(groups)
    && forall r {:trigger BatchFirst(groups, |groups|, r)} :: BatchFirst(groups, |groups|, r) <==> !layout.hasEntity || r.entity in ids
  }

  ghost predicate ChunksAre(chunks: seq<Option<Window>>, cut: Option<Window>) {
    && NoWindowTwice(chunks)
    && forall r {:trigger HitsFirst(chunks, |chunks|, r)} :: HitsFirst(chunks, |chunks|, r) <==> InWindow(r, cut)
  }

  method EntityGroups(table: seq<Row>, layout: Layout, entities: seq<int>, cut: Option<Window>, entityBatch: int)
    returns (groups: seq<Option<seq<int>>>)
    requires Distinct(entities)
    ensures GroupsAre(groups, layout, Ids(table, entities, cut))
    ensures !layout.hasEntity ==> groups == [None]
  {
    if !layout.hasEntity {
      groups := [None];
      forall r: Row ensures BatchFirst(groups, 1, r) {
        assert InBatch(r, groups[0]);
      }
      return;
    }
    var batches := EntityBatches(Ids(table, entities, cut), entityBatch);
    groups := Batched(batches);
    BatchesAsGroups(batches);
  }

  lemma ChunksCover(cut: Option<Window>, span: nat, chunks: seq<Option<Window>>, tiles: seq<Window>)
    requires if cut.None? then chunks == [None] else Tiles(cut.value, span, tiles) && chunks == Wrapped(tiles)
    ensures ChunksAre(chunks, cut)
  {
    if cut.None? {
      forall r: Row ensures HitsFirst(chunks, 1, r) {
        assert InWindow(r, chunks[0]);
      }
    } else {
      TilesAsChunks(cut.value, span, tiles);
    }
  }

  /** A row of the read falls through exactly when it has no event time and the range of all event times was cut. */
  lemma FallsThrough(view: seq<Row>, table: seq<Row>, layout: Layout, entities: seq<int>, w: Option<Window>, r: Row)
    requires Backed(view, table) && r in view
    requires InBatch(r, Wanted(layout, entities)) && InWindow(r, Asked(layout, w))
    ensures var cut := Cut(table, layout, entities, w);
            && (InWindow(r, cut) <==> cut == Asked(layout, w) || r.event.Some?)
            && (InWindow(r, cut) && layout.hasEntity ==> r.entity in Ids(table, entities, cut))
  {
    var s :| s in table && s.entity == r.entity && s.event == r.event;
    var cut := Cut(table, layout, entities, w);
    assert InWindow(s, cut) <==> InWindow(r, cut);
    assert InBatch(s, Wanted(layout, entities));
  }

  /** A filter that the exporter passes over and the query layer refuses. */
  predicate PassesOver(layout: Layout, entities: seq<int>, w: Option<Window>) {
    (entities != [] && !layout.hasEntity && (w.Some? || !layout.hasEvent)) || (w.Some? && !layout.hasEvent)
  }

  /** Where the exporter does not raise, the query layer answers with the read the export is compared with unless a
      filter is passed over; then it refuses. */
  lemma QueryIsTheRead(view: seq<Row>, layout: Layout, entities: seq<int>, w: Option<Window>)
    requires w.Some? ==> w.value.first <= w.value.last
    requires !(layout.hasEvent && w.None? && entities != [] && !layout.hasEntity)
    ensures QueryRows(view, layout, entities, w) ==
              if PassesOver(layout, entities, w) then None else Some(Read(view, Wanted(layout, entities), Asked(layout, w)))
  {
  }

  /** Batches of the ids and chunks of the cut window give the rows of one unchunked read with the filters that the
      table has columns for, each once, unless undated rows are dropped; and never more. */
  lemma ExportIsOneRead(view: seq<Row>, table: seq<Row>, layout: Layout, entities: seq<int>, w: Option<Window>,
                        groups: seq<Option<seq<int>>>, chunks: seq<Option<Window>>)
    requires Backed(view, table)
    requires var cut := Cut(table, layout, entities, w);
             GroupsAre(groups, layout, Ids(table, entities, cut)) && ChunksAre(chunks, cut)
    ensures var one := Read(view, Wanted(layout, entities), Asked(layout, w));
            && (multiset(OfBatches(view, groups, chunks, |groups|)) == multiset(one) <==>
                  !DropsUndated(view, table, layout, entities, w))
            && |OfBatches(view, groups, chunks, |groups|)| <= |one|
  {
    var wanted, asked := Wanted(layout, entities), Asked(layout, w);
    forall r | r in view && InBatches(groups, chunks, |groups|)(r) ensures Matches(wanted, asked)(r) {
      assert BatchFirst(groups, |groups|, r) && HitsFirst(chunks, |chunks|, r);
    }
    SplitReadIsOneRead(view, groups, chunks, wanted, asked);
    forall r | r in view && Matches(wanted, asked)(r)
      ensures InBatches(groups, chunks, |groups|)(r) <==> Cut(table, layout, entities, w) == asked || r.event.Some?
    {
      FallsThrough(view, table, layout, entities, w, r);
      assert BatchFirst(groups, |groups|, r) <==> !layout.hasEntity || r.entity in Ids(table, entities, Cut(table, layout, entities, w));
      assert HitsFirst(chunks, |chunks|, r) <==> InWindow(r, Cut(table, layout, entities, w));
    }
  }

  /** The whole export. What is written is one unchunked read of the request, each row once, exactly when no chunk
      exceeds the limit and no undated row is dropped. It goes through on a request that the query layer refuses
      exactly when it passes over a filter; then the read is one without that filter. */
  method Export(view: seq<Row>, table: seq<Row>, layout: Layout, requested: seq<int>, w: Option<Window>,
                entityBatch: int, chunkDays: int, limit: nat)
    returns (r: Result, total: nat, ghost groups: seq<Option<seq<int>>>, ghost chunks: seq<Option<Window>>)
    requires limit > 0 && Backed(view, table)
    ensures r == BadWindow <==> w.Some? && w.value.first > w.value.last
    ensures r == NoEntityColumn <==> layout.hasEvent && w.None? && requested != [] && !layout.hasEntity
    ensures r.TooManyRows? ==> AnyLarge(view, groups, chunks, limit, |groups|)
    ensures r.TooManyRows? || r.Written? ==> (r.TooManyRows? <==> MustRaise(view, groups, chunks, limit))
    ensures r.Written? && (forall row :: row in view ==> row.keyed) ==>
              !AnyLarge(view, groups, chunks, limit, |groups|) && r.rows == OfBatches(view, groups, chunks, |groups|)
    ensures r.Written? ==> total == |r.rows|
    ensures r.Written? || r.TooManyRows? ==>
              var entities := Once(requested);
              QueryRows(view, layout, entities, w) ==
                if PassesOver(layout, entities, w) then None else Some(Read(view, Wanted(layout, entities), Asked(layout, w)))
    ensures var entities := Once(requested);
            r.Written? ==>
              (multiset(r.rows) == multiset(Read(view, Wanted(layout, entities), Asked(layout, w))) <==>
                !AnyLarge(view, groups, chunks, limit, |groups|) && !DropsUndated(view, table, layout, entities, w))
  {
    total, groups, chunks := 0, [], [];
    var entities := Once(requested);
    if w.Some? && w.value.first > w.value.last {
      return BadWindow, 0, [], [];
    }
    if layout.hasEvent && w.None? && entities != [] && !layout.hasEntity {
      assert entities[0] in requested;
      return NoEntityColumn, 0, [], [];
    }
    assert requested != [] ==> requested[0] in entities;
    var cut := Cut(table, layout, entities, w);
    var batches := EntityGroups(table, layout, entities, cut, entityBatch);
    var windows, tiles := TimeChunks(cut, chunkDays);
    ChunksCover(cut, if chunkDays < 1 then 1 else chunkDays, windows, tiles);
    groups, chunks := batches, windows;
    QueryIsTheRead(view, layout, entities, w);
    ExportIsOneRead(view, table, layout, entities, w, batches, windows);
    r, total := WriteExport(view, batches, windows, limit);
    if r.Written? && forall row :: row in view ==> row.keyed {
      KeyedMeansComplete(view, batches, windows, limit, |batches|);
    }
    assert r.Written? ==> |multiset(r.rows)| == |r.rows|;
  }
}
