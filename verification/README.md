# A model of the PIT data platform

Dafny models of the parts of the platform and of its data hub that carry hard promises, each with the promise proved
for all inputs or all runs. Where the code does not keep a promise, the model keeps the code as it is, shows an input
or a run on which the promise fails, and proves the exact condition under which it holds where that is known.

`dafny verify dfyconfig.toml` checks everything. One file is one component:

- `Wrappers.dfy`, `Orders.dfy`, `Strings.dfy`: option and result types; least elements; text order, joining and splitting.
- `FactorGraph.dfy`: factor dependencies; cycle search, topological order, upstream closure.
- `DerivedEngine.dfy`: materialisation and its audit columns as a state machine over upgrades and recomputations.
- `FactorApi.dfy`: on-demand evaluation with one memo per request against plain recursion.
- `LayeredCache.dfy`: processes with private L1 stores, one shared L2, generation counters, interleaved at the level of
  single backend operations.
- `PitStore.dfy`: the append-only daily-bar writer and the as-of readers.
- `Pagination.dfy`: sort plans, the cursor condition in three-valued logic, and following cursors to the end.
- `MemoryCache.dfy`: the hub's LRU cache and the inclusion property; `CacheBackend.dfy`: the platform's in-process
  backend with counters and token locks; `SingleFlight.dfy`: the concurrent `get_or_load` protocol.
- `RateLimit.dfy`: token bucket, shared fixed window, and the limiter that fails open from one to the other.
- `Registry.dfy`: SCD2 identity rows and code history.
- `BaoStock.dfy`: login sessions shared by many adapters.
- `QualityExpr.dfy`: the expression compiler, Python's meaning and SQL's.
- `Export.dfy`: filter push-down, chunking and batching; `Watermark.dfy`: sync windows; `Adx.dfy`: Wilder smoothing and
  the average directional index.

What the proofs found, beside what they confirm:

- `topological_order` rejects an acyclic graph in which a factor lists one upstream factor twice.
- Fingerprints are sets of identities. When two factors trade algorithms, a stale projection passes the audit. A matching
  fingerprint means one vintage of everything that has rows over every run exactly when, for each factor, no two of the
  deployed dictionaries give its closure the same identities differently placed, which can be checked on the
  dictionaries before a deployment; identities that belong to one factor each are one way to ensure it.
- The audit does not look at empty projections. One computed under an algorithm that has been replaced is built upon
  without an error, and the new fingerprint does not name that algorithm.
- A key that a process builds while its private counter is ahead of the shared one gets a generation that another
  process takes for newer than it is; a bump started then writes the shared counter backwards later. Both lead to a
  stale hit from every such state, and nothing else does.
- A bump during an outage of the shared store survives for the process that made it exactly when its counter was not
  behind, and for no other; exactly then the process is ahead, and the next key it builds leads to a stale hit.
- A delivery that contains NaN is written again at every sync.
- Paging loses rows without a warning when a later row differs from a page boundary first in a column where it is NULL.
- A forced refresh with an oversized value leaves the old value in place. A failing loader (or a plain lookup) that finds
  its key in the larger of two caches only refreshes it there, and can make the larger one hit less. A cold unforced
  load counts two misses.
- A store that raises leaves its flight in the table: callers wait until someone forces a load of the key.
- An increment of an entry that is no number fails after taking its size off the byte count.
- A code change dated before the start of a stored interval is not seen throughout: inside a bounded name the resumed
  name shows until that name ends, and the old code after it. Two code changes on one day that end with the code the day
  began with make that code unresolvable; a code the entity has no entry for from that day is always resolvable.
- An adapter used after its close holds the session again, and no further close releases it; only the loss of the session
  does. Closing everything leaves the module logged in exactly when an adapter was used after its close in the session
  that is still on.
- Python's remainder and SQL's differ for quotients that are negative and not whole.
- The exporter passes over an entity list (when a window is given or the dataset has no event time) or a window that the
  dataset has no column for; the query layer refuses both.
- Without a window an export drops the rows that have no event time as soon as any stored row has one; a chunk cut at a
  row with a NULL sort key is incomplete without an error.
- Whether today is asked for again depends on whether anything was written for the window, not on whether today's data
  had come.

## Model

| member | source | states |
|---|---|---|
| Strings.PayloadRoundTrip | src/fin_data_platform/derived/graph.py:226-239 | the sorted, `\|`-joined payload of bar-free identities determines the set of identities, so an injective hash of it does too |
| FactorGraphs.CycleFinder.Visit | src/fin_data_platform/derived/graph.py:172-183 | one three-colour visit keeps the colours consistent with the path, leaves the path as it was, colours the node black, and reports only closed walks |
| FactorGraphs.Cycles | src/fin_data_platform/derived/graph.py:166-189 | terminates; every reported list is a closed walk along the factor inputs; nothing is reported exactly when the graph has no closed walk |
| FactorGraphs.TopologicalOrder | src/fin_data_platform/derived/graph.py:191-210 | succeeds exactly on acyclic graphs without duplicate inputs, and then returns the lexicographically least of all topological orders |
| FactorGraphs.Emit | src/fin_data_platform/derived/graph.py:199-207 | emitting a factor decrements each dependant once and puts those that reach zero into the sorted ready list |
| FactorGraphs.StuckMeansCycle | src/fin_data_platform/derived/graph.py:208-209 | when the ready list runs dry early, a closed walk or a duplicate input is to blame |
| FactorGraphs.DuplicateInputIsRejected | src/fin_data_platform/derived/graph.py:193-206 | an acyclic graph with the same input listed twice is rejected |
| FactorGraphs.RankedMeansAcyclic | src/fin_data_platform/derived/graph.py:166-189 | a rank that falls along every edge rules out closed walks |
| FactorGraphs.UpstreamClosure | src/fin_data_platform/derived/graph.py:212-224 | the worklist loop returns exactly the factors reachable through one or more edges, sorted, each once |
| FactorGraphs.ClosureIsLeast | src/fin_data_platform/derived/graph.py:212-224 | the closure is the least set that holds the direct inputs and is closed under inputs |
| FactorGraphs.ClosureOfInput | src/fin_data_platform/derived/graph.py:212-224 | the closure of an upstream factor is inside the closure, and strictly smaller in an acyclic graph |
| DerivedEngines.ComputeFingerprint | src/fin_data_platform/derived/graph.py:226-239 | the fingerprint is the digest of the sorted upstream identities |
| DerivedEngines.IdentityInjective | src/fin_data_platform/derived/graph.py:53-56 | an identity `id@vN` determines both the algorithm and the version |
| DerivedEngines.FingerprintTracksIdentitySet | src/fin_data_platform/derived/graph.py:226-239 | across any two admissible dictionaries the fingerprint of a factor changes exactly when the set of its upstream algorithms and versions does |
| DerivedEngines.DerivedEngine.CheckUpstreams | src/fin_data_platform/derived/engine.py:154-181 | passes exactly when every upstream factor is materialised and its projection is empty or current, and otherwise names the first complaint in closure order |
| DerivedEngines.AuditIsExact | src/fin_data_platform/derived/engine.py:168-181 | after any change of the dictionary, a projection with rows that was current before is refused exactly when its own algorithm or version changed or the set of upstream algorithms and versions did |
| DerivedEngines.UpgradeIsFound | src/fin_data_platform/derived/graph.py:226-239 | the upgrade of one upstream factor makes such a projection stale, exactly unless the old and the new version both run elsewhere in its closure |
| DerivedEngines.DerivedEngine.Materialize | src/fin_data_platform/derived/engine.py:282-346 | succeeds exactly for a registered latest factor with ready upstreams and a successful computation; then replaces projection and generation as a whole, otherwise leaves both alone |
| DerivedEngines.MaterializeRecords | src/fin_data_platform/derived/engine.py:282-346 | a success records the pinned algorithm, or without a pin the one of the dictionary, with its version, the fingerprint in force, and a value over the stored values of the direct inputs in order; no other projection changes |
| DerivedEngines.NoHiddenVintage | src/fin_data_platform/derived/engine.py:154-181 | over every run of upgrades and materialisations, each stored fingerprint names every algorithm identity that transitively contributed to the stored value, through empty results too, exactly when no materialisation was let through on an empty direct input that brings along an identity outside the closure |
| DerivedEngines.RowsAreNamed | src/fin_data_platform/derived/engine.py:154-181 | with no condition on the run, each stored fingerprint names every algorithm identity whose rows went into the stored value, however indirectly |
| DerivedEngines.MaterializeCovers | src/fin_data_platform/derived/engine.py:165-181 | one materialisation over covered projections names all contributors exactly when its empty direct inputs, which the audit skips, bring along only identities of the closure |
| DerivedEngines.FingerprintIsExact | src/fin_data_platform/derived/engine.py:282-346 | over every run, for each stored projection with nothing empty behind its value, fingerprint and contributing identities are the same set and the stored identity is the one that ran, whatever came out empty elsewhere or before |
| DerivedEngines.AuditingEmptiesMakesExact | src/fin_data_platform/derived/engine.py:168-169 | if every empty direct input that a materialisation found would have passed the audit, all fingerprints of the run are exact |
| DerivedEngines.MatchingFingerprintMeansOneVintage | src/fin_data_platform/derived/engine.py:149-181 | over dictionaries in which the same upstream identities of a factor always sit at the same factors, whatever is pinned or comes out empty, a fingerprint that matches the dictionary in force means that every contributor with rows is in the closure and ran under its present identity; with nothing empty behind the value, every contributor at all |
| DerivedEngines.TrustIsExact | src/fin_data_platform/derived/engine.py:149-181 | for any admissible dictionaries of latest factors that condition holds exactly when no run that deploys only them ends with a matching fingerprint over a value of mixed vintage |
| DerivedEngines.DishonestRun | src/fin_data_platform/derived/engine.py:282-346 | from two dictionaries that break it, a run: materialise the closure under one, then deploy the other |
| DerivedEngines.OwnedMeansSameMeaning | src/fin_data_platform/derived/consistency.py:57-102 | dictionaries in which each identity belongs to one factor meet it |
| DerivedEngines.OwnedMeansOneVintage | src/fin_data_platform/derived/engine.py:149-181 | when each identity of a run belongs to one factor, a matching fingerprint means one vintage of all contributors, empty ones included, exactly when it names them all |
| DerivedEngines.SharedIdentitiesHideVintage | src/fin_data_platform/derived/engine.py:154-181 | for any two algorithms there is a run (two factors trade them) that ends with a matching fingerprint over a value of mixed vintage |
| DerivedEngines.StaleEmptyHidesVintage | src/fin_data_platform/derived/engine.py:168-169 | for any upgrade that drops an algorithm there is a run that ends with a current projection computed over an empty result of the dropped algorithm, which its fingerprint does not name |
| DerivedEngines.DerivedEngine.Replace | src/fin_data_platform/derived/engine.py:315-338 | swaps in the projection computed from the upstream ones with their fingerprint, and sets the generation last |
| FactorApis.Request.Evaluate | src/fin_data_platform/derived/factor_api.py:228-299 | memoised evaluation gives the table or the error of plain recursion and runs only the factor and its closure |
| FactorApis.OnDemandRead | src/fin_data_platform/derived/factor_api.py:228-299 | an on-demand read is the requested algorithm, under the pin, on the data and exactly the input tables of the factor, where each input table is the stored one if there is one to use and otherwise what the unpinned algorithm makes of such tables; it succeeds only if there are such tables |
| FactorApis.Request.EvaluateInputs | src/fin_data_platform/derived/factor_api.py:255-290 | the gathered input tables, or the first error, are those of plain recursion |
| FactorApis.Read | src/fin_data_platform/derived/factor_api.py:113-225 | an on-demand read is the pinned algorithm's result on its data and input tables, running the algorithm of each factor reached at most once; a latest factor is answered with its stored table exactly when the audit columns, if any, name the registered version of the algorithm asked for, the dictionary's without a pin, and each other case has its own error |
| FactorApis.PinNeverReachesInputs | src/fin_data_platform/derived/factor_api.py:228-299 | the input tables do not depend on what any pin would do |
| FactorApis.PinAppliesAtTheRootOnly | src/fin_data_platform/derived/factor_api.py:228-299 | a pinned read depends on pinned behaviour of the requested factor only |
| FactorApis.Request.EvaluateInput | src/fin_data_platform/derived/factor_api.py:255-290 | an input is read from its projection when it has a usable one and evaluated in the same request otherwise, as plain recursion does |
| LayeredCaches.LayeredCache.Generation | src/fin_data_platform/cache/layered.py:81-91 | the generation is the greater of the counters of the stores that are up, zero if neither is |
| LayeredCaches.LayeredCache.BumpGeneration | src/fin_data_platform/cache/layered.py:93-118 | both counters advance and the lagging one is lifted; other domains keep theirs; while the shared store is down only the local one advances, and while the local one is down nothing does |
| LayeredCaches.LayeredCache.Lookup | src/fin_data_platform/cache/layered.py:293-310 | the local entry if there is one, else the shared one |
| LayeredCaches.LayeredCache.Store | src/fin_data_platform/cache/layered.py:312-326 | writes to every store that is up, and to nothing else |
| LayeredCaches.BumpIsSeen | src/fin_data_platform/cache/layered.py:81-118 | with the shared store up, a bump moves the bumper past what it saw, and another process exactly when its own counter lies below the new shared one |
| LayeredCaches.OutageBumpSurvives | src/fin_data_platform/cache/layered.py:95-118 | a bump made during an outage is still seen afterwards, by the process that made it, exactly when its counter was not behind the shared one |
| LayeredCaches.OutageBumpServesStale | src/fin_data_platform/cache/layered.py:95-108 | in every state of a disciplined run, a bump abandoned in an outage changes nothing for other processes, is seen by its own exactly when that was level with the shared counter, and exactly then the next key that process builds leads to a stale hit |
| LayeredCaches.NoStaleHits | src/fin_data_platform/cache/layered.py:81-195 | for every interleaving of counter reads, key builds, lookups, loads, stores, evictions and the single steps of bumps, those abandoned in an outage included, over any number of processes in which no key is built and no bump started while the private counter is ahead of the shared one, no hit returns a payload loaded for a key built before an advance that precedes the reader's key, and a private counter overtakes the shared one only by a bump that has not reached it |
| LayeredCaches.AdjacentIsDisciplined | src/fin_data_platform/cache/layered.py:93-118 | when nothing happens between the two increments of any bump every run is disciplined, so no lookup whose key was built after a bump returns a value loaded for a key built before it |
| LayeredCaches.DisciplineIsExact | src/fin_data_platform/cache/layered.py:81-118 | in every state of a disciplined run, a step is safe whatever disciplined steps follow exactly when it keeps the discipline |
| LayeredCaches.KeyAheadServesStale | src/fin_data_platform/cache/layered.py:81-91 | from every state of a disciplined run, a key built from a private counter that is ahead leads by disciplined steps to a stale hit |
| LayeredCaches.BumpAheadServesStale | src/fin_data_platform/cache/layered.py:109-117 | from every state of a disciplined run, a bump started while the private counter is ahead leads by disciplined steps to a stale hit: it takes the shared counter backwards |
| LayeredCaches.AheadInTheMiddle | src/fin_data_platform/cache/layered.py:95-100 | between the two increments of its first bump a process is ahead, so that a key it builds then, or a second bump it starts, breaks the discipline |
| LayeredCaches.BumpInOneGo | src/fin_data_platform/cache/layered.py:93-118 | the three steps of a bump that nothing interrupts leave the counters as the method does |
| PitStore.CanonicalTable.LatestRows | src/fin_data_platform/ingestion/daily_bar.py:61-93 | holds, for each day of the window, exactly the row the writer's order puts last |
| PitStore.WriterTakesTheLatest | src/fin_data_platform/ingestion/daily_bar.py:83-93 | in any table the writer takes the row of the key known last, and of those the one with the greatest version |
| PitStore.CanonicalTable.Append | src/fin_data_platform/storage/writers.py:14-46 | adds exactly the rows whose physical key is new and counts them |
| PitStore.CanonicalTable.SyncDailyBar | src/fin_data_platform/ingestion/daily_bar.py:96-164 | the table after the loop is the specified one and the written count is its growth |
| PitStore.RunIsGood | src/fin_data_platform/ingestion/daily_bar.py:96-164 | after every run of timely syncs the versions of each key are 1..n in writing order, the first known from the close, knowledge times never falling |
| PitStore.WriterAndReadersAgree | src/fin_data_platform/query/reader.py:332-346 | after every such run the row the writer takes for newest is row number one of both readers |
| PitStore.AsOfIsOne | src/fin_data_platform/query/reader.py:332-346 | a reader shows at most one row of a key: the visible one with the greatest version, and of those the one known last |
| PitStore.TimeTravel | src/fin_data_platform/access/reader.py:171-185 | an as-of-`t` read of a key stored by `t` gives the newest row that the syncs up to `t` alone had left |
| PitStore.BackfillIsVisible | src/fin_data_platform/ingestion/daily_bar.py:122-140 | a key first stored after `t` is visible at `t` exactly when its day had closed by `t` |
| PitStore.CloseIsAtThree | src/fin_data_platform/ingestion/common.py:20-44 | the first version of a day is known from three in the afternoon of that day in Shanghai |
| PitStore.RevisionAgrees | src/fin_data_platform/ingestion/daily_bar.py:61-93 | after a revision the writer holds the row the readers show exactly when the revision is not known earlier than the last version |
| PitStore.AgreementIsExact | src/fin_data_platform/ingestion/daily_bar.py:61-164 | over every run, timely or not, writer and readers agree about a key after each call exactly when no call wrote a revision of it with a clock behind the knowledge time of the row stored last |
| PitStore.DeliveredDay | src/fin_data_platform/ingestion/daily_bar.py:122-164 | after a sync the newest row of a delivered day is the one the call produced, and the old one when it produced none |
| PitStore.SyncReflectsSource | src/fin_data_platform/ingestion/daily_bar.py:49-58 | so each of the six cells of the newest row is the delivered one, or both are numbers at most 1e-6, or 1e-9 of one of them, apart |
| PitStore.LastDeliveryStands | src/fin_data_platform/ingestion/daily_bar.py:96-164 | over every timely run the newest row of a day holds, cell by cell and in that sense, what the last call that delivered the day delivered |
| PitStore.WritesWhatChanged | src/fin_data_platform/ingestion/daily_bar.py:49-164 | a delivered day gets one more version with the delivered values exactly when it has none or some cell is NULL on one side only, NaN, or a number further away |
| PitStore.SyncWritesNothing | src/fin_data_platform/ingestion/daily_bar.py:96-164 | a sync leaves the table alone exactly when each delivered day has a row whose cells all match in that sense |
| PitStore.ResyncWritesNothing | src/fin_data_platform/ingestion/daily_bar.py:49-58 | syncing the same delivery again writes nothing exactly when it contains no NaN |
| Pagination.OrderPlan | src/fin_data_platform/query/reader.py:437-453 | each requested column once, in order of first mention and with that mention's direction; an unknown column and an empty request are the errors |
| Pagination.KeyPlan | src/fin_data_platform/query/reader.py:456-461 | adds exactly the key columns of the view that do not sort already, none twice |
| Pagination.CursorPlan | src/fin_data_platform/query/reader.py:217-235 | the requested columns in their directions, then the missing key columns ascending: no column twice, and every key column the view has among them |
| Pagination.CursorTellsRecordsApart | src/fin_data_platform/query/reader.py:456-461 | with the physical key among the cursor columns, different records project to different rows |
| Pagination.CursorCondition | src/fin_data_platform/query/reader.py:464-494 | a cursor of another sort, of the wrong length or with a NULL is refused; any other yields a condition that selects exactly the rows beyond it |
| Pagination.ConditionMeaning | src/fin_data_platform/query/reader.py:482-494 | the disjunction of conjunctions holds exactly when, at the first column that differs, the row has a value beyond the cursor's |
| Pagination.ReadRows | src/fin_data_platform/query/reader.py:217-254 | one page is the filtered, sorted rows cut at the limit, with a cursor exactly when there is more and the boundary has no NULL |
| Pagination.PagesMakeTheResult | src/fin_data_platform/query/reader.py:217-254 | following cursors ends, and gives the fully sorted result exactly when every page boundary is clean, for any directions and any page size |
| Pagination.PagesOfRecords | src/fin_data_platform/query/reader.py:217-254 | for any table with a physical key and any sort the plan builds, the rows a cursor sees are distinct, following cursors gives all of them in order exactly when every page boundary is clean, and without NULLs in the cursor columns it always does |
| Pagination.PagesWithoutNulls | src/fin_data_platform/query/reader.py:217-254 | without NULLs in the cursor columns it always does |
| Pagination.NullRowIsLostSilently | src/fin_data_platform/query/reader.py:240-254 | a two-row table whose second row never arrives, without a warning |
| Pagination.CutPage | src/fin_data_platform/query/reader.py:237-254 | one row beyond the limit decides whether there is more; a boundary with a NULL gives no cursor and a warning |
| Pagination.PageTellsWhetherThereIsMore | src/fin_data_platform/query/reader.py:236-254 | a page has a cursor or a warning, never both, exactly when rows remain, and the cursor exactly when its last row has no NULL |
| MemoryCaches.MemoryCache.Get | src/fin_data_hub/cache.py:104-116 | a live entry is returned and moved to the recent end, an expired one removed, and hits and misses counted |
| MemoryCaches.MemoryCache.Contains | src/fin_data_hub/cache.py:118-127 | tells whether a live entry is there, removing an expired one and counting nothing |
| MemoryCaches.MemoryCache.Put | src/fin_data_hub/cache.py:129-146 | a value within the entry limit replaces, the longest fitting recency suffix stays, every 128th store sweeps; an oversized value changes nothing |
| MemoryCaches.MemoryCache.Evict | src/fin_data_hub/cache.py:211-217 | the loop leaves the longest recency suffix within both budgets and counts the evicted |
| MemoryCaches.MemoryCache.SweepExpired | src/fin_data_hub/cache.py:219-227 | removes exactly the expired entries, keeping order and accounting |
| MemoryCaches.MemoryCache.GetOrLoad | src/fin_data_hub/cache.py:148-179 | on one thread: the loader runs exactly when forced or nothing live is there, the result is its outcome or the cached value, and a cold unforced call counts two misses |
| MemoryCaches.FittingIsLongest | src/fin_data_hub/cache.py:211-217 | what is kept is a suffix, and every longer suffix breaks a budget |
| MemoryCaches.StaleAfterRefresh | src/fin_data_hub/cache.py:133-134 | a value other than the stored one is readable afterwards exactly when the new one was oversized and an old, different one was live |
| MemoryCaches.StoredUntilItExpires | src/fin_data_hub/cache.py:104-146 | a stored value within the budgets is found exactly until its time to live is over, and without one until something takes it out |
| MemoryCaches.SweepLeavesTheLive | src/fin_data_hub/cache.py:142-145 | a sweeping store leaves exactly the entries it would leave otherwise that have not expired |
| MemoryCaches.Inclusion | src/fin_data_hub/cache.py:148-179 | over every run the smaller cache holds a recency suffix of the larger one after each event exactly when each failing load is forced, or finds its key in the smaller cache or not in the larger one, or finds the smaller one empty; and then it has not hit more often |
| MemoryCaches.FailureKeepsInclusion | src/fin_data_hub/cache.py:157-176 | one failing load keeps the suffix relation exactly unless it is unforced and only the larger, while the smaller is not empty, answers from memory |
| MemoryCaches.FailureCostsHits | src/fin_data_hub/cache.py:172-176 | a run with one failing load after which the smaller cache has two hits and the larger one |
| MemoryCaches.MemoryCache.Invalidate | src/fin_data_hub/cache.py:181-183 | takes one key out of both dictionaries and the byte count |
| MemoryCaches.MemoryCache.Clear | src/fin_data_hub/cache.py:185-189 | leaves an empty store with a zero byte count |
| CacheBackends.InMemoryCache.Get | src/fin_data_platform/cache/backend.py:153-167 | as for the hub's cache, keeping the byte count right |
| CacheBackends.InMemoryCache.Set | src/fin_data_platform/cache/backend.py:169-179 | replaces, then keeps the longest recency suffix within both budgets |
| CacheBackends.InMemoryCache.IncrBy | src/fin_data_platform/cache/backend.py:192-213 | counts from the live number or zero, sets the time to live only when counting starts, does not trim; fails exactly on a live entry that is no number, with the byte count off by its size |
| CacheBackends.CountIsFound | src/fin_data_platform/cache/backend.py:192-213 | after an increment a lookup finds the live number, or zero, plus the amount: under the old end when the live number was not zero, and for the new time to live otherwise |
| CacheBackends.CounterHoldsTheSum | src/fin_data_platform/cache/backend.py:192-213 | over every run of increments that starts where nothing is live and never counts back to zero, the counter holds their sum until the first time to live is over, whatever the later ones name |
| CacheBackends.DigitsBound | src/fin_data_platform/cache/backend.py:209-212 | the size of a stored count is that of its decimal notation |
| CacheBackends.CountingMayOverflow | src/fin_data_platform/cache/backend.py:192-213 | counting takes a store within its budgets over them exactly when a number grows by more digits than there is room for or a new counter has no room, and then by no more than the counter's own size or one entry |
| CacheBackends.LockIsKept | src/fin_data_platform/cache/backend.py:216-229 | a granted lock stays as granted until it runs out or its own token releases it, whatever others try |
| CacheBackends.NoTwoHolders | src/fin_data_platform/cache/backend.py:216-229 | over every run nobody is granted a lock that another token still holds |
| CacheBackends.GrantedWhenFree | src/fin_data_platform/cache/backend.py:216-229 | over every run a lock is granted exactly when its last holder, if any, has released it with its own token or let it run out |
| CacheBackends.InMemoryCache.Evict | src/fin_data_platform/cache/backend.py:255-260 | drops the oldest entries until the longest suffix within both budgets is left, counting each |
| CacheBackends.InMemoryCache.Delete | src/fin_data_platform/cache/backend.py:181-186 | takes the key out with its bytes and leaves the order of the others |
| CacheBackends.InMemoryCache.AcquireLock | src/fin_data_platform/cache/backend.py:216-223 | succeeds unless an unexpired lock is held, and then holds for the caller's token |
| CacheBackends.InMemoryCache.ReleaseLock | src/fin_data_platform/cache/backend.py:225-229 | frees the lock for the holder's token only |
| SingleFlights.AlwaysSound | src/fin_data_hub/cache.py:229-247 | after every interleaving of forced and unforced calls an open flight is in the table under its key with its leader at work, and a closed one is being signalled or carries the outcome its closer returned |
| SingleFlights.WaitingForWork | src/fin_data_hub/cache.py:161-166 | whoever waits has the outcome already or waits for a call that has work to do |
| SingleFlights.FollowersShareAnOutcome | src/fin_data_hub/cache.py:162-166 | a follower returns the outcome of a call for the same key that returned it, forced calls or not |
| SingleFlights.StepsUseUpWork | src/fin_data_hub/cache.py:148-179 | every effective step uses up a bounded amount of work |
| SingleFlights.StuckMeansReturned | src/fin_data_hub/cache.py:148-179 | a state in which no call can take a step has no call that has not returned |
| SingleFlights.OneLoaderPerKey | src/fin_data_hub/cache.py:229-236 | over unforced calls at most one call is in charge of a key, so at most one loader runs |
| SingleFlights.FollowersGetTheirLeadersOutcome | src/fin_data_hub/cache.py:238-247 | over unforced calls a follower returns exactly what the leader of the flight it joined returned |
| SingleFlights.StoreThatRaisesOrphans | src/fin_data_hub/cache.py:177-178 | a store that raises leaves an open flight that no call will take off the table |
| SingleFlights.OrphanStays | src/fin_data_hub/cache.py:229-247 | such a flight stays and keeps everyone waiting through every step but the start of a forced call for the key, and through exactly those |
| SingleFlights.ForcedLoadFrees | src/fin_data_hub/cache.py:172-179 | a forced load hands its outcome to those who wait and clears the table |
| SingleFlights.ForcedLoadersRunBeside | src/fin_data_hub/cache.py:157-179 | two forced calls can run two loaders for one key at once, so the one-loader bound needs unforced calls |
| SingleFlights.LoneCallLoads | src/fin_data_hub/cache.py:148-179 | an unforced call left to itself with no flight for its key leads one, runs the loader once, returns its outcome and leaves the table as it was |
| SingleFlights.CachedAnswersAtOnce | src/fin_data_hub/cache.py:157-160 | an unforced call that finds the value returns it at once and touches no flight |
| RateLimits.RateLimiter.TryAcquire | src/fin_data_hub/ratelimit.py:70-90 | refills for the elapsed time up to the capacity and takes the tokens exactly when there are enough |
| RateLimits.RateLimiter.Acquire | src/fin_data_hub/ratelimit.py:51-68 | tries at each reading until one succeeds or the deadline has passed; only the last try succeeds or is late; more than the capacity is refused |
| RateLimits.WaitEndsInTime | src/fin_data_hub/ratelimit.py:51-68 | no try but the last comes at the deadline or later, and a wait times out only at such a try |
| RateLimits.WaitSuffices | src/fin_data_hub/ratelimit.py:62-68 | after the computed wait the tokens are there for whoever comes first |
| RateLimits.Counter.IncrBy | src/fin_data_platform/cache/backend.py:192-213 | one atomic increment of the window counter: with no window running a new one that counts this amount alone and lasts the window length, otherwise the sum under the old end |
| RateLimits.SharedRateLimiter.TryCount | src/fin_data_platform/quota/shared.py:123-130 | no attempt during a cooldown; a failed attempt starts one; a successful one counts, admitted or not |
| RateLimits.SharedRateLimiter.TryAcquire | src/fin_data_platform/quota/shared.py:101-110 | one try is one step of the machine, and its answer is the machine's admission |
| RateLimits.NewWindowAdmits | src/fin_data_platform/quota/shared.py:101-130 | an attempt within the capacity that reaches the counter while no window runs is admitted, and the new window counts it alone |
| RateLimits.WindowCounts | src/fin_data_platform/cache/backend.py:192-213 | over every run, inside a window the count is the sum of what was asked for since it opened, refused attempts included |
| RateLimits.WindowAdmits | src/fin_data_platform/quota/shared.py:107-130 | so inside a window an attempt is admitted exactly when that sum and its own amount stay within the capacity |
| RateLimits.SharedRateLimiter.Acquire | src/fin_data_platform/quota/shared.py:80-99 | polls the counter and, once that fails, waits at the bucket for good; only the last try admits or is late; the state is that of the machine after the recorded tries |
| RateLimits.CallEndsInTime | src/fin_data_platform/quota/shared.py:80-99 | the same of a call that polls the counter |
| RateLimits.BucketBound | src/fin_data_hub/ratelimit.py:85-90 | in any stretch of any run a process's bucket gives at most its capacity plus what flows in |
| RateLimits.CounterBound | src/fin_data_platform/cache/backend.py:192-213 | in any stretch of any run the counter admits at most two capacities plus one per window length |
| RateLimits.AdmissionBound | src/fin_data_platform/quota/shared.py:67-130 | n processes with any outages admit between `s` and `e` at most rate*(e-s) + 2*capacity + n*(capacity + rate*(e-s)) with the default window |
| RateLimits.WithoutOutages | src/fin_data_platform/quota/shared.py:107-110 | while the counter answers, everything admitted is admitted by the counter |
| RateLimits.RateLimiter.Replenish | src/fin_data_hub/ratelimit.py:85-90 | adds what flowed in since the last refill, up to the capacity, and ignores a clock that went back |
| RateLimits.RefillOnlyAdds | src/fin_data_hub/ratelimit.py:85-90 | a refill never takes tokens away, not even when the clock went back, and never exceeds the capacity |
| Registries.EntityRegistry.Create | src/fin_data_platform/registry/service.py:239-292 | a new entity has one open row and one open code entry |
| Registries.EntityRegistry.CoveringRow | src/fin_data_platform/registry/service.py:424-433 | the greatest row by start and version among those that cover the day; without a day the current row |
| Registries.ReadOnDay | src/fin_data_platform/registry/service.py:424-433 | in any store a read on a day gives the first of the greatest rows, by start and version, that hold on the day, and nothing exactly when none does |
| Registries.DaylessRead | src/fin_data_platform/registry/service.py:412-433 | in any store a read without a day gives the greatest open row, or the greatest of all when none is open |
| Registries.EntityRegistry.AddNameChange | src/fin_data_platform/registry/service.py:338-374 | appends the closed copy, the new name and the resumed name as specified; an unknown entity changes nothing |
| Registries.EntityRegistry.AddCodeChange | src/fin_data_platform/registry/service.py:492-518 | appends the closed copies of all open entries, superseded ones included, the new code, and both rows |
| Registries.ReadsFollowTheChanges | src/fin_data_platform/registry/service.py:338-433 | after any chronological sequence of name and code changes, several on one day and on the day of birth included, an as-of read gives what the changes mean on that day, although superseded open rows stay |
| Registries.ReadsFromBirthOn | src/fin_data_platform/registry/service.py:424-433 | something is read exactly from the birth of the entity on |
| Registries.DaylessReadIsLast | src/fin_data_platform/registry/service.py:412-433 | a read without a day gives what holds after all dates of the changes |
| Registries.NameChangeSeen | src/fin_data_platform/registry/service.py:347-374 | a change dated after everything: unchanged before, the new name during, the name of the day before after it, or the current one if there was none |
| Registries.NameHoldsThroughout | src/fin_data_platform/registry/service.py:338-374 | in any store the new row is read on all its days exactly when no stored interval starts inside them |
| Registries.CodeChangeInsideBoundedName | src/fin_data_platform/registry/service.py:492-518 | a code change inside a bounded name shows the resumed name until its end and the old code afterwards |
| Registries.CodeHoldsThroughout | src/fin_data_platform/registry/service.py:492-518 | in any store the new row of a code change is read from its start on exactly when no stored interval starts after it |
| Registries.Resolve | src/fin_data_platform/registry/service.py:441-466 | the entity of a counting entry with the latest start and then the highest version; none exactly when none counts |
| Registries.NewestOfReclosed | src/fin_data_platform/registry/service.py:498-507 | of all closed copies of an open entry the first one counts, because a version tie keeps the first |
| Registries.CountsMeansHeld | src/fin_data_platform/registry/service.py:441-466 | after any run in which each change of an entity is dated no earlier than its last one and adopts a code it has not adopted from that day already, an entry counts on a day exactly when its entity went by the code on that day: when that is the last code it had adopted by then |
| Registries.ResolveFollowsHistory | src/fin_data_platform/registry/service.py:441-518 | so `resolve` answers with someone who went by the code that day, with nobody only if nobody did, and with the one if there was one |
| Registries.NewCodeCounts | src/fin_data_platform/registry/service.py:498-518 | in any history a newly adopted code counts from its start on exactly when the entity has no entry for that code from that day |
| Registries.CodeReadoptedTheSameDay | src/fin_data_platform/registry/service.py:498-518 | two changes on one day back to the first code leave it unresolvable |
| Registries.EntityRegistry.Current | src/fin_data_platform/registry/service.py:412-419 | the newest of the open rows, superseded ones included, or the newest row when none is open |
| Registries.EntityRegistry.Append | src/fin_data_platform/registry/service.py:386-422 | the row goes to the end with the next version number and no stored row changes |
| Registries.NextVersion | src/fin_data_platform/registry/service.py:421-422 | the next version is one more than the greatest version stored |
| Registries.ClosesWhatReachesOn | src/fin_data_platform/registry/service.py:347-361 | a closing copy is made exactly when the row that holds on the day before reaches beyond it |
| Registries.EntityRegistry.NameAsOf | src/fin_data_platform/registry/service.py:520-522 | the name of the row that is read, on a day or without one; nothing for an unknown entity or an uncovered day |
| BaoStocks.BaoStock.EnsureLogin | src/fin_data_hub/sources/baostock.py:304-319 | logs in when nobody holds the session, joins it otherwise, and fails without a change |
| BaoStocks.BaoStock.TryOnce | src/fin_data_hub/sources/baostock.py:326-349 | one attempt under the lock, with the double invalidation on a connection code |
| BaoStocks.BaoStock.Query | src/fin_data_hub/sources/baostock.py:321-354 | the first attempt that does not fail at the connection decides; at most the configured number and at least one is made |
| BaoStocks.BaoStock.Close | src/fin_data_hub/sources/baostock.py:112-128 | releases a held session once and logs out when it was the last |
| BaoStocks.CountIsHolders | src/fin_data_hub/sources/baostock.py:304-354 | over every run the login count is the number of adapters that hold the current generation, and the module is logged in exactly while it is not zero |
| BaoStocks.LogoutOnlyWhenUnheld | src/fin_data_hub/sources/baostock.py:112-128 | logout happens only in the close of a holder after which nobody holds the session |
| BaoStocks.AnswersComeFromAnOpenSession | src/fin_data_hub/sources/baostock.py:321-349 | an answered attempt ran in an open session its adapter holds; a failed one leaves nobody a session |
| BaoStocks.AllClosedMeansLoggedOut | src/fin_data_hub/sources/baostock.py:112-128 | after any run that leaves all adapters closed, nothing is logged in exactly when none was used after its close within the session still on |
| BaoStocks.ClosedHoldsIfReused | src/fin_data_hub/sources/baostock.py:304-354 | over every run a closed adapter holds the session exactly when one of its attempts was answered after its close and the session has not been lost since |
| BaoStocks.CloseReleases | src/fin_data_hub/sources/baostock.py:112-128 | a close after an answered attempt releases the session exactly when the adapter had not been closed before |
| BaoStocks.UseAfterCloseLeaks | src/fin_data_hub/sources/baostock.py:304-319 | an adapter used after its close holds the session, and closing it again does not release it |
| BaoStocks.LeakLasts | src/fin_data_hub/sources/baostock.py:112-128 | it does so until the session is lost, and no longer |
| BaoStocks.BaoStock.InvalidateSession | src/fin_data_hub/sources/baostock.py:64-69 | moves to the next generation with nobody logged in, without touching any adapter |
| QualityExprs.Compiler.Build | src/fin_data_platform/quality/expr.py:61-100 | the loop over operands and chained comparisons yields the specified clause or the first error, and notes the fields in order of first use |
| QualityExprs.Compiler.CompileExpression | src/fin_data_platform/quality/expr.py:40-58 | compiles exactly the conditions whose nodes, operators and fields are all supported; it rejects as no condition exactly what is neither a comparison nor an AND, OR or NOT |
| QualityExprs.ErrorIsThere | src/fin_data_platform/quality/expr.py:61-100 | any other error names something that stands in the expression: an unknown field by name, or an unsupported node or operator |
| QualityExprs.NamesAreUses | src/fin_data_platform/quality/expr.py:89-95 | the reported fields are exactly the names used, once each |
| QualityExprs.DeMorgan | src/fin_data_platform/quality/expr.py:64-74 | negating an AND is OR-ing the negations, and the other way round, early exits and exceptions included |
| QualityExprs.AllOperandsHold | src/fin_data_platform/quality/expr.py:64-70 | an AND is true exactly when all its operands are, an OR false exactly when all are |
| QualityExprs.ChainIsConjunction | src/fin_data_platform/quality/expr.py:75-88 | a chained comparison means the conjunction of its comparisons, early exits and exceptions included |
| QualityExprs.ComparisonLaws | src/fin_data_platform/quality/expr.py:21-29 | equality is that of values of one kind, order that of numbers, and the six operators are three and their opposites |
| QualityExprs.ArithmeticLaws | src/fin_data_platform/quality/expr.py:31-37 | sums, differences, products and quotients obey their laws, and only a zero divisor raises |
| QualityExprs.TypesHold | src/fin_data_platform/quality/expr.py:61-100 | a well-typed expression raises nothing but a division by zero |
| QualityExprs.ValuesAreKnown | src/fin_data_platform/quality/expr.py:61-100 | on a row without NULLs the clause has every value Python gives, chained comparisons and early exits included; every remainder in it has a quotient on the row that is whole or not negative |
| QualityExprs.KnownValuesHold | src/fin_data_platform/quality/expr.py:61-100 | a known SQL value is what Python gives, or Python raises, whatever values stand in for the NULLs; every remainder in it has a quotient on the filled row that is whole or not negative |
| QualityExprs.SelectsTheFalse | src/fin_data_platform/quality/rules.py:281-288 | without NULLs and zero divisors the rule selects exactly the rows on which its expression is false; every remainder in it has a quotient on the row that is whole or not negative |
| QualityExprs.SelectedMeansFalseForAll | src/fin_data_platform/quality/rules.py:281-288 | a selected row makes the expression false, or divide by zero, under every filling of its NULLs; every remainder in it has a quotient on the filled row that is whole or not negative |
| QualityExprs.RemaindersAgree | src/fin_data_platform/quality/expr.py:31-37 | the two remainders agree exactly for a quotient that is whole or not negative |
| QualityExprs.RemainderLaws | src/fin_data_platform/quality/expr.py:31-37 | both remainders differ from the dividend by a whole multiple of the divisor and are smaller than it; the one of Python has the sign of the divisor, that of SQL the sign of the dividend |
| QualityExprs.RemainderCanMislead | src/fin_data_platform/quality/expr.py:31-37 | a rule with a remainder that selects a row its expression holds on |
| PushDowns.PushDownIsSound | src/fin_data_platform/access/reader.py:142-185 | filtering before dedup gives the rows of filtering after it exactly when no key's newest visible version drops out while an older one is selected |
| PushDowns.KeyConditionsPushDown | src/fin_data_platform/query/reader.py:183-213 | conditions on business-key columns commute with dedup on every table at every time |
| PushDowns.OtherConditionsDoNot | src/fin_data_platform/query/reader.py:183-213 | for any condition that a later version can lose there is a table on which the two layers differ |
| Exports.TimeChunks | src/fin_data_platform/export/writer.py:225-237 | consecutive stretches of at most the span that make up the window |
| Exports.EntityBatches | src/fin_data_platform/export/writer.py:206-207 | non-empty batches of at most the batch size that join to the list |
| Exports.WriteExport | src/fin_data_platform/export/writer.py:87-107 | an error is raised exactly when some batch and chunk read has more rows than the limit and a full sort key in the last row within it; otherwise what is written is all chunks in order when none exceeds the limit and strictly less when one does; the row count is its length |
| Exports.KeyedMeansComplete | src/fin_data_platform/export/writer.py:180-184 | when every row has a full sort key, an export without an error has no chunk above the limit |
| Exports.SplitReadIsOneRead | src/fin_data_platform/export/writer.py:87-107 | batches and chunks that overlap nowhere and stay inside one read give its rows, each once, exactly when each of its rows falls into some batch and chunk; and never more rows |
| Exports.ExportIsOneRead | src/fin_data_platform/export/writer.py:188-237 | the entity batches and time chunks of a request give the rows of one unchunked read with the filters that the dataset has columns for, each once, exactly unless a dataset with event times is exported without a window while some stored row of the entities has an event time and some row of the read has none |
| Exports.Export | src/fin_data_platform/export/writer.py:48-107 | the whole export: the two refusals; what is written is one unchunked read, each row once, exactly when no chunk exceeds the limit and no undated row is dropped; that read is the answer of the query layer to the request except where the export passes over a filter without a column, which the query layer refuses; a chunk above the limit raises exactly when its last row within the limit has a full sort key |
| Watermarks.WatermarkStore.Finish | src/fin_data_platform/ingestion/tasks.py:48-103 | a soft failure or a missing window leaves the mark alone; success advances it to the window's end, held back by one when that is today and nothing was written |
| Watermarks.EveryDayWasSynced | src/fin_data_platform/runtime/windows.py:35-52 | with all windows from the provider, every day from the configured start to the mark lies in a window for which rows came, or which has no open days, or whose entity has no history, for any order of issue, delay, failure and completion and either way of advancing |
| Watermarks.OneRoundCatchesUp | src/fin_data_platform/runtime/windows.py:35-52 | after any run that left the mark before the last closed day, one issued and answered window, from the day after the mark or the configured start, takes it there, or to the day before if that is today and nothing was written |
| Watermarks.MarkNeverGoesBack | src/fin_data_platform/runtime/repository.py:410-424 | over every run that keeps the later mark, the mark never goes back |
| Watermarks.ExecuteMovesMark | src/fin_data_platform/ingestion/tasks.py:91-103 | an answered window leaves the mark at its target, or at the later old one if the store keeps that |
| Watermarks.NothingMoreToAsk | src/fin_data_platform/runtime/windows.py:35-52 | nothing is issued exactly when no day has closed, there is neither mark nor start, or the mark has reached the last closed day |
| Watermarks.ExplicitWindow | src/fin_data_platform/ingestion/tasks.py:91-103 | a window given by hand leaves no gap exactly when everything before its start was covered |
| Watermarks.TodayIsAskedForAgain | src/fin_data_platform/ingestion/tasks.py:95-98 | today is asked for again exactly when nothing was written for the window that reached it |
| Watermarks.WatermarkStore.Advance | src/fin_data_platform/runtime/repository.py:410-424 | keeps the later mark, or overwrites, as the store is set up |
| AverageDirectionalIndex.Wilder.Push | src/fin_data_platform/derived/smoothing.py:22-43 | the accumulator gives the closed definition on everything pushed so far |
| AverageDirectionalIndex.WilderSmooth | src/fin_data_platform/derived/smoothing.py:46-49 | each output is the definition on the prefix, nothing during the warm-up |
| AverageDirectionalIndex.SmoothWithin | src/fin_data_platform/derived/smoothing.py:34-43 | a smoothed value lies between the least and the greatest value seen |
| AverageDirectionalIndex.AdxState.Push | src/fin_data_platform/derived/factors.py:114-134 | the in-line smoothing of the directional index equals the definition, the smoothed index series |
| AverageDirectionalIndex.FirstValue | src/fin_data_platform/derived/factors.py:127-132 | the first value appears at exactly push 2n-1 |
| AverageDirectionalIndex.AdxWithin | src/fin_data_platform/derived/factors.py:114-134 | every value lies between 0 and 100 |
| AverageDirectionalIndex.AdxOfBarsWithin | src/fin_data_platform/derived/factors.py:137-160 | for any bars there is a value from bar 2n-1 on, and it lies between 0 and 100 |
| AverageDirectionalIndex.IndexOverBars | src/fin_data_platform/derived/factors.py:178-184 | pushing the range and movements of one entity's bars one by one gives the index of the bars so far each time |
| AverageDirectionalIndex.FactorDoesNotMatter | src/fin_data_platform/derived/factors.py:137-151 | multiplying the high, low and close of every bar by one factor leaves the index unchanged |
| AverageDirectionalIndex.MovementWithinRange | src/fin_data_platform/derived/factors.py:73-95 | for well-formed bars both movements lie between zero and the true range and at most one is positive |
| AverageDirectionalIndex.TrueRangeSpans | src/fin_data_platform/derived/factors.py:73-95 | the true range is what the bar and the close before it span, on the first bar the bar alone |
| AverageDirectionalIndex.MovesTheLargerWay | src/fin_data_platform/derived/factors.py:75-82 | a bar moves by the larger of its new ground above and below, on that side, and by nothing when both are equal or it is the first |
| AverageDirectionalIndex.IndicatorWithin | src/fin_data_platform/derived/factors.py:123-124 | so each directional indicator is at most 100 |
| AverageDirectionalIndex.AdxState.DirectionalIndex | src/fin_data_platform/derived/factors.py:120-126 | the index of one day, with both zero guards |
| AverageDirectionalIndex.DxIsShareOfMovement | src/fin_data_platform/derived/factors.py:120-126 | the index is the difference of the two movements in percent of their sum, and zero when nothing moved |
| AverageDirectionalIndex.AdxState.Absorb | src/fin_data_platform/derived/factors.py:127-134 | the in-line seed and recurrence carry on the smoothed series by one |

## Left out

- Fingerprints: the truncated hash is taken as injective, and identities as free of the joining bar; both are what the start-up check and the hash length aim at.
- The cache key's text is taken as injective in its parts; panel, point in time and parameters are one label. Payload encoding, per-domain time to live, the process locks and the waiting in the layered `get_or_load` are not modelled.
- LayeredCaches.NoStaleHits: assumes that the shared store, where no bump finds it down, is reachable and its counters are not evicted; the discipline it needs is exact, as the rows beside it say.
- FactorGraph.validate, dictionary loading, projection naming, inline SQL and the validation of computed frames.
- FactorApis.Read: reads of projections, the registry and algorithms are functions of the request's environment; dates, coverage checks and column handling are not modelled.
- PitStore: the other canonical tables, the publish-time policy with its fallback, and event versions; dates in one delivery are distinct and inside the window, calls happen in order of time after the close of the days they write.
- Pagination.PagesMakeTheResult: the snapshot is fixed across pages, and cursor values survive encoding; NUMERIC columns that go through floating point, type coercion errors and the base64 envelope are not modelled. The leading minus of a sort item is a constructor.
- MemoryCaches.Inclusion: covers `get_or_load`, invalidation and clearing with one size per key and no time to live; a plain `get` is a failing unforced load.
- MemoryCaches.MemoryCache.GetOrLoad: one thread; the concurrent protocol is the subject of `SingleFlight.dfy`, where lookups may hit or miss at any time. Size estimation and copying on return are not modelled.
- The Redis backend, which sets a missing time to live in a second command, and the null backend.
- RateLimits.AdmissionBound: one clock for all processes and the counter, one clock reading per try, requests that are not negative, and a counter that is not evicted. Sleeping is the list of readings at which tries happen.
- RateLimits.SharedRateLimiter.Acquire: other processes do not count between its tries; the machine interleaves them.
- Registries.ReadsFollowTheChanges: one entity, no change starting before or inside the dates of an earlier one; facets other than code and name, relations, external ids, and the refresh path of registration are not modelled. Knowledge times are carried by the source but not read.
- BaoStock: throttling, back-off times and frame assembly; responses are given per attempt, with other adapters acting between attempts in the run theorems only.
- QualityExprs.Compiler.CompileExpression: Python folds constants while compiling and can raise there (`1/0`, `"a" < 3`); the model leaves constants as they are and compiles such conditions.
- QualityExprs.SelectsTheFalse: excludes rows on which a remainder has a quotient that is negative and not whole, where the two languages differ, NULL constants and comparisons of texts by order, which depend on the database's collation; constant folding by Python at compile time is the same value.
- Exports: file formats, schemas and the temporary file; the view is the query's result after dedup and filters at one snapshot, listed in query order.
- Watermarks: job claiming and retries are an arbitrary order of executions; the trading calendar is an input.
- AverageDirectionalIndex: reals instead of floats; the grouping of rows by entity and the SQL engine.
- Source adapters' network calls, REST routes, the web interface, migrations, the usage ledger and the security universe.
