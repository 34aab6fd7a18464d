/** The factor dependency graph: cycle detection, topological order and upstream closure.
    A factor id is the pair (dataset, output), compared as Python compares tuples of text. */
module FactorGraphs {
  import opened Wrappers
  import Orders
  import Strings

  datatype FactorId = FactorId(dataset: string, output: string)

  predicate Before(a: FactorId, b: FactorId) {
    Strings.Less(a.dataset, b.dataset) || (a.dataset == b.dataset && Strings.Less(a.output, b.output))
  }

  lemma BeforeTotal(a: FactorId, b: FactorId)
    ensures a == b || Before(a, b) || Before(b, a)
    ensures !(Before(a, b) && Before(b, a))
  {
    Strings.LessIrreflexive(a.dataset);
    Strings.LessTotal(a.dataset, b.dataset);
    Strings.LessTotal(a.output, b.output);
  }

  lemma BeforeTransitive(a: FactorId, b: FactorId, c: FactorId)
    requires Before(a, b) && Before(b, c)
    ensures Before(a, c)
  {
    if Strings.Less(a.dataset, b.dataset) && Strings.Less(b.dataset, c.dataset) {
      Strings.LessTransitive(a.dataset, b.dataset, c.dataset);
    }
    if Strings.Less(a.output, b.output) && Strings.Less(b.output, c.output) {
      Strings.LessTransitive(a.output, b.output, c.output);
    }
  }

  datatype Materialize = Latest | OnDemand

  datatype FactorNode = FactorNode(
    algorithmId: string,
    algorithmVersion: nat,
    materialize: Materialize,
    factorInputs: seq<FactorId>)

  type Graph = map<FactorId, FactorNode>

  // ---------------------------------------------------------------- walks

  /** `down` is registered and lists `up` among its factor inputs. */
  predicate Feeds(g: Graph, down: FactorId, up: FactorId) {
    down in g && up in g[down].factorInputs
  }

  ghost predicate Linked(g: Graph, w: seq<FactorId>, i: int) {
    0 <= i < |w| - 1 && Feeds(g, w[i], w[i + 1])
  }

  ghost predicate Walk(g: Graph, w: seq<FactorId>) {
    |w| >= 1 && forall i :: 0 <= i < |w| - 1 ==> Linked(g, w, i)
  }

  ghost predicate ClosedWalk(g: Graph, w: seq<FactorId>) {
    |w| >= 2 && Walk(g, w) && w[0] == w[|w| - 1]
  }

  ghost predicate Acyclic(g: Graph) {
    forall w :: !ClosedWalk(g, w)
  }

  ghost predicate WalkBetween(g: Graph, w: seq<FactorId>, down: FactorId, up: FactorId) {
    |w| >= 2 && Walk(g, w) && w[0] == down && w[|w| - 1] == up
  }

  /** `up` contributes to `down` through one or more edges. */
  ghost predicate Reaches(g: Graph, down: FactorId, up: FactorId) {
    exists w :: WalkBetween(g, w, down, up)
  }

  ghost predicate Distinct<T(!new)>(s: seq<T>) {
    forall i, j :: 0 <= i < j < |s| ==> s[i] != s[j]
  }

  ghost predicate UpstreamFirst(g: Graph, order: seq<FactorId>) {
    forall i, u :: 0 <= i < |order| && Feeds(g, order[i], u) && u in g ==> u in order[..i]
  }

  /** Every registered id once, each after all of its registered inputs. */
  ghost predicate IsTopological(g: Graph, order: seq<FactorId>) {
    && Distinct(order)
    && (forall f :: f in order <==> f in g)
    && UpstreamFirst(g, order)
  }

  /** `a` precedes `b` lexicographically, or they agree on all of `a`. */
  ghost predicate LexLeq(a: seq<FactorId>, b: seq<FactorId>) {
    a <= b || exists k :: 0 <= k < |a| && k < |b| && a[..k] == b[..k] && Before(a[k], b[k])
  }

  /** Numbers that strictly drop along every edge between registered nodes. */
  ghost predicate Ranked(g: Graph, rank: map<FactorId, nat>) {
    forall f, u {:trigger Feeds(g, f, u)} :: Feeds(g, f, u) && u in g ==> f in rank && u in rank && rank[u] < rank[f]
  }

  lemma {:induction false} RankDropsAlongWalk(g: Graph, rank: map<FactorId, nat>, w: seq<FactorId>, k: nat)
    requires Ranked(g, rank) && Walk(g, w) && 1 <= k < |w| && w[k] in g
    ensures w[0] in rank && w[k] in rank && rank[w[k]] < rank[w[0]]
  {
    assert Linked(g, w, k - 1);
    if k > 1 {
      assert Linked(g, w, k - 2);
      RankDropsAlongWalk(g, rank, w, k - 1);
    }
  }

  lemma RankedMeansAcyclic(g: Graph, rank: map<FactorId, nat>)
    requires Ranked(g, rank)
    ensures Acyclic(g)
  {
    forall w ensures !ClosedWalk(g, w) {
      if ClosedWalk(g, w) {
        assert Linked(g, w, 0);
        RankDropsAlongWalk(g, rank, w, |w| - 1);
        assert false;
      }
    }
  }

  lemma TopologicalMeansAcyclic(g: Graph, order: seq<FactorId>)
    requires IsTopological(g, order)
    ensures Acyclic(g)
  {
    var rank: map<FactorId, nat> := map f | f in g :: Position(order, f);
    forall f, u | Feeds(g, f, u) && u in g ensures rank[u] < rank[f] {
      var i := Position(order, f);
      assert u in order[..i];
      var j :| 0 <= j < i && order[j] == u;
    }
    RankedMeansAcyclic(g, rank);
  }

  ghost function Position(s: seq<FactorId>, x: FactorId): (i: nat)
    requires x in s
    ensures i < |s| && s[i] == x
  {
    var i :| 0 <= i < |s| && s[i] == x;
    i
  }

  // ---------------------------------------------------------------- cycles()

  const ON_PATH := 1
  const FINISHED := 2

  /** What holds of the dictionary, the path and the report list between any two steps of the search.
      `rank` numbers the nodes in the order they turned FINISHED. */
  ghost predicate Consistent(g: Graph, state: map<FactorId, int>, path: seq<FactorId>,
                             found: seq<seq<FactorId>>, rank: map<FactorId, nat>) {
    && state.Keys <= g.Keys
    && (forall f {:trigger f in path} :: f in path ==> f in state && state[f] == ON_PATH)
    && (forall f {:trigger state[f]} :: f in state && state[f] == ON_PATH ==> f in path)
    && (forall f {:trigger f in rank} :: f in rank ==> f in state && state[f] != ON_PATH && rank[f] < |rank|)
    && (forall f {:trigger state[f]} :: f in state && state[f] != ON_PATH ==> f in rank)
    && (path != [] ==> Walk(g, path))
    && (forall i :: 0 <= i < |found| ==> ClosedWalk(g, found[i]))
    && (found == [] ==> forall f, u {:trigger Feeds(g, f, u)} :: f in rank && Feeds(g, f, u) && u in g ==> u in rank && rank[u] < rank[f])
  }

  lemma EnterKeeps(g: Graph, state: map<FactorId, int>, path: seq<FactorId>,
                   found: seq<seq<FactorId>>, rank: map<FactorId, nat>, node: FactorId)
    requires Consistent(g, state, path, found, rank) && node in g && node !in state
    requires path == [] || Feeds(g, path[|path| - 1], node)
    ensures Consistent(g, state[node := ON_PATH], path + [node], found, rank)
  {
    var longer := path + [node];
    forall i | 0 <= i < |longer| - 1 ensures Linked(g, longer, i) {
      assert i + 1 < |path| ==> Linked(g, path, i);
    }
  }

  lemma ReportKeeps(g: Graph, state: map<FactorId, int>, path: seq<FactorId>,
                    found: seq<seq<FactorId>>, rank: map<FactorId, nat>, start: nat, upstream: FactorId)
    requires Consistent(g, state, path, found, rank)
    requires start < |path| && path[start] == upstream && Feeds(g, path[|path| - 1], upstream)
    ensures Consistent(g, state, path, found + [path[start..] + [upstream]], rank)
  {
    var w := path[start..] + [upstream];
    forall i | 0 <= i < |w| - 1 ensures Linked(g, w, i) {
      assert start + i + 1 < |path| ==> Linked(g, path, start + i);
    }
    assert ClosedWalk(g, w);
  }

  lemma LeaveKeeps(g: Graph, state: map<FactorId, int>, path: seq<FactorId>,
                   found: seq<seq<FactorId>>, rank: map<FactorId, nat>, node: FactorId)
    requires Consistent(g, state, path + [node], found, rank) && node !in path
    requires found == [] ==> forall u {:trigger Feeds(g, node, u)} :: Feeds(g, node, u) && u in g ==> u in rank.Keys
    ensures Consistent(g, state[node := FINISHED], path, found, rank[node := |rank|])
  {
    var longer := path + [node];
    assert longer[|path|] == node;
    assert node in longer;
    assert forall f :: f in longer <==> f in path || f == node;
    forall i | 0 <= i < |path| - 1 ensures Linked(g, path, i) {
      assert Linked(g, longer, i);
    }
  }

  ghost predicate InputsRanked(g: Graph, inputs: seq<FactorId>, k: nat, ranked: set<FactorId>)
    requires k <= |inputs|
  {
    forall j :: 0 <= j < k && inputs[j] in g ==> inputs[j] in ranked
  }

  lemma InputsRankedStep(g: Graph, inputs: seq<FactorId>, k: nat, ranked: set<FactorId>, ranked': set<FactorId>)
    requires k < |inputs| && ranked <= ranked' && InputsRanked(g, inputs, k, ranked)
    ensures (inputs[k] in g ==> inputs[k] in ranked') ==> InputsRanked(g, inputs, k + 1, ranked')
  {
  }

  lemma AllInputsRanked(g: Graph, node: FactorId, ranked: set<FactorId>)
    requires node in g && InputsRanked(g, g[node].factorInputs, |g[node].factorInputs|, ranked)
    ensures forall u {:trigger Feeds(g, node, u)} :: Feeds(g, node, u) && u in g ==> u in ranked
  {
  }

  /** The state that the recursive `visit` closure shares with `cycles`. */
  class CycleFinder {
    const graph: Graph
    var state: map<FactorId, int>
    var path: seq<FactorId>
    var found: seq<seq<FactorId>>
    ghost var rank: map<FactorId, nat>

    constructor (g: Graph)
      ensures graph == g && state == map[] && path == [] && found == [] && rank == map[]
    {
      graph := g;
      state, path, found, rank := map[], [], [], map[];
    }

    ghost predicate Valid()
      reads this
    {
      Consistent(graph, state, path, found, rank)
    }

    method Visit(node: FactorId)
      requires Valid() && node in graph && node !in state
      requires path == [] || Feeds(graph, path[|path| - 1], node)
      modifies this
      ensures Valid() && path == old(path)
      ensures found == [] ==> old(found) == []
      ensures node in state && old(state.Keys) <= state.Keys && old(rank.Keys) + {node} <= rank.Keys
      decreases graph.Keys - state.Keys, 0
    {
      EnterKeeps(graph, state, path, found, rank, node);
      ghost var above := path;
      state := state[node := ON_PATH];
      path := path + [node];
      var inputs := graph[node].factorInputs;
      for k := 0 to |inputs|
        invariant Valid() && path == above + [node]
        invariant found == [] ==> old(found) == []
        invariant node in state && old(state.Keys) <= state.Keys && old(rank.Keys) <= rank.Keys
        invariant found == [] ==> InputsRanked(graph, inputs, k, rank.Keys)
      {
        ghost var ranked, clean := rank.Keys, found == [];
        Follow(node, inputs[k]);
        if clean {
          InputsRankedStep(graph, inputs, k, ranked, rank.Keys);
        }
      }
      Leave(node, above);
    }

    /** The last two statements of a visit. */
    method Leave(node: FactorId, ghost above: seq<FactorId>)
      requires Valid() && path == above + [node] && node !in above && node in graph
      requires found == [] ==> InputsRanked(graph, graph[node].factorInputs, |graph[node].factorInputs|, rank.Keys)
      modifies this
      ensures Valid() && path == above && found == old(found)
      ensures state == old(state)[node := FINISHED] && rank.Keys == old(rank.Keys) + {node}
    {
      path := path[..|path| - 1];
      assert path == above;
      if found == [] {
        AllInputsRanked(graph, node, rank.Keys);
      }
      LeaveKeeps(graph, state, path, found, rank, node);
      state := state[node := FINISHED];
      rank := rank[node := |rank|];
    }

    /** The body of the loop over one node's inputs. */
    method Follow(node: FactorId, upstream: FactorId)
      requires Valid() && path != [] && path[|path| - 1] == node && Feeds(graph, node, upstream)
      modifies this
      ensures Valid() && path == old(path)
      ensures found == [] ==> old(found) == [] && (upstream in graph ==> upstream in rank)
      ensures old(state.Keys) <= state.Keys && old(rank.Keys) <= rank.Keys
      decreases graph.Keys - state.Keys, 1
    {
      if upstream !in graph {
        return;
      }
      if upstream in state && state[upstream] == ON_PATH {
        var start := IndexOf(path, upstream);
        ReportKeeps(graph, state, path, found, rank, start, upstream);
        found := found + [path[start..] + [upstream]];
      } else if upstream !in state {
        Visit(upstream);
      }
    }
  }

  method IndexOf(s: seq<FactorId>, x: FactorId) returns (i: nat)
    requires x in s
    ensures i < |s| && s[i] == x && x !in s[..i]
  {
    i := 0;
    while s[i] != x
      invariant i < |s| && x !in s[..i] && x in s[i..]
      decreases |s| - i
    {
      i := i + 1;
    }
  }

  /** Reports only real closed walks, and reports nothing exactly when the graph has none. */
  method Cycles(g: Graph) returns (found: seq<seq<FactorId>>)
    ensures forall i :: 0 <= i < |found| ==> ClosedWalk(g, found[i])
    ensures found == [] <==> Acyclic(g)
  {
    var finder := new CycleFinder(g);
    var remaining := g.Keys;
    while remaining != {}
      invariant finder.graph == g && finder.Valid() && finder.path == [] && fresh(finder)
      invariant forall f :: f in remaining ==> f in g
      invariant forall f :: f in g ==> f in remaining || f in finder.state
    {
      var node := Least(remaining);
      if node !in finder.state {
        finder.Visit(node);
      }
      remaining := remaining - {node};
    }
    found := finder.found;
    if found == [] {
      RankedMeansAcyclic(g, finder.rank);
    } else {
      assert ClosedWalk(g, found[0]);
    }
  }

  // ---------------------------------------------------------------- sorted ids
  // A loop over `ids()` visits the least remaining id first.

  predicate IsLeast(s: set<FactorId>, m: FactorId) {
    m in s && forall x :: x in s ==> x == m || Before(m, x)
  }

  lemma BeforeIsTotalOrder()
    ensures Orders.TotalOrder(Before)
  {
    forall a, b ensures a == b || Before(a, b) || Before(b, a) {
      BeforeTotal(a, b);
    }
    forall a, b ensures !(Before(a, b) && Before(b, a)) {
      BeforeTotal(a, b);
    }
    forall a, b, c | Before(a, b) && Before(b, c) ensures Before(a, c) {
      BeforeTransitive(a, b, c);
    }
  }

  function Least(s: set<FactorId>): (m: FactorId)
    requires s != {}
    ensures IsLeast(s, m)
  {
    BeforeIsTotalOrder();
    Orders.Least(Before, s)
  }

  /** Python's `sorted` on a set of ids. */
  function SortedIds(s: set<FactorId>): (r: seq<FactorId>)
    ensures |r| == |s| && forall x :: x in r <==> x in s
    decreases |s|
  {
    if s == {} then [] else [Least(s)] + SortedIds(s - {Least(s)})
  }

  lemma SortedIdsStep(s: set<FactorId>, ids: seq<FactorId>)
    requires ids == SortedIds(s) && ids != []
    ensures ids[0] == Least(s) && ids[1..] == SortedIds(s - {ids[0]})
  {
    assert s != {};
  }

  // ---------------------------------------------------------------- topological_order()

  /** The inputs of `f` that are registered, with repetitions, as `indegree` counts them. */
  function Registered(g: Graph, inputs: seq<FactorId>): (r: seq<FactorId>)
    ensures forall u :: u in r <==> u in inputs && u in g
  {
    if inputs == [] then []
    else
      var rest := Registered(g, inputs[1..]);
      if inputs[0] in g then [inputs[0]] + rest else rest
  }

  /** No node names the same registered input twice. */
  ghost predicate DuplicateFree(g: Graph) {
    forall f :: f in g ==> Distinct(Registered(g, g[f].factorInputs))
  }

  ghost function SetOf(s: seq<FactorId>): set<FactorId> {
    set u | u in s
  }

  lemma {:induction false} SetOfSize(s: seq<FactorId>)
    ensures |SetOf(s)| <= |s|
    ensures |SetOf(s)| == |s| <==> Distinct(s)
  {
    if s == [] {
      assert SetOf(s) == {};
    } else {
      var rest := s[1..];
      SetOfSize(rest);
      assert SetOf(s) == {s[0]} + SetOf(rest);
      if Distinct(s) {
        assert s[0] !in rest;
        forall i, j | 0 <= i < j < |rest| ensures rest[i] != rest[j] {
          assert s[i + 1] != s[j + 1];
        }
      }
      if s[0] !in rest && Distinct(rest) {
        forall i, j | 0 <= i < j < |s| ensures s[i] != s[j] {
          assert s[j] == rest[j - 1];
        }
      }
    }
  }

  /** The registered inputs of `f`, without repetitions. */
  ghost function Ups(g: Graph, f: FactorId): set<FactorId>
    requires f in g
  {
    set u | u in g[f].factorInputs && u in g
  }

  /** How many of the emitted ids feed `f`. */
  ghost function Fed(g: Graph, f: FactorId, order: seq<FactorId>): nat {
    if order == [] then 0
    else Fed(g, f, order[..|order| - 1]) + (if Feeds(g, f, order[|order| - 1]) then 1 else 0)
  }

  lemma OneMore(ups: set<FactorId>, done: set<FactorId>, last: FactorId)
    requires last !in done
    ensures |ups * (done + {last})| == |ups * done| + (if last in ups then 1 else 0)
  {
    if last in ups {
      assert ups * (done + {last}) == ups * done + {last};
    } else {
      assert ups * (done + {last}) == ups * done;
    }
  }

  lemma {:induction false} FedCountsInputs(g: Graph, f: FactorId, order: seq<FactorId>)
    requires f in g && Distinct(order) && forall x :: x in order ==> x in g
    ensures Fed(g, f, order) == |Ups(g, f) * SetOf(order)|
  {
    if order == [] {
      assert Ups(g, f) * SetOf(order) == {};
    } else {
      var shorter, last := order[..|order| - 1], order[|order| - 1];
      assert order == shorter + [last];
      FedCountsInputs(g, f, shorter);
      assert last !in shorter;
      assert SetOf(order) == SetOf(shorter) + {last};
      OneMore(Ups(g, f), SetOf(shorter), last);
    }
  }

  ghost predicate CountsInputs(g: Graph, total: map<FactorId, int>) {
    total.Keys == g.Keys && forall f {:trigger total[f]} :: f in g ==> |Ups(g, f)| <= total[f]
  }

  /** The counters start at the number of distinct inputs. */
  ghost predicate CountsOnce(g: Graph, total: map<FactorId, int>) {
    total.Keys == g.Keys && forall f {:trigger total[f]} :: f in g ==> |Ups(g, f)| == total[f]
  }

  lemma CountsOnceMeansDuplicateFree(g: Graph, total: map<FactorId, int>)
    requires total == map f | f in g :: |Registered(g, g[f].factorInputs)|
    ensures CountsInputs(g, total)
    ensures CountsOnce(g, total) <==> DuplicateFree(g)
  {
    forall f | f in g
      ensures |Ups(g, f)| <= total[f]
      ensures |Ups(g, f)| == total[f] <==> Distinct(Registered(g, g[f].factorInputs))
    {
      SetOfSize(Registered(g, g[f].factorInputs));
      assert Ups(g, f) == SetOf(Registered(g, g[f].factorInputs));
    }
    if DuplicateFree(g) {
      assert forall f :: f in g ==> |Ups(g, f)| == total[f];
    }
    if CountsOnce(g, total) {
      forall f | f in g ensures Distinct(Registered(g, g[f].factorInputs)) {
        assert total[f] == |Ups(g, f)|;
      }
    }
  }

  /** A counter never goes below zero, and is zero exactly when nothing is left to wait for. */
  lemma DegreeZero(g: Graph, total: map<FactorId, int>, f: FactorId, order: seq<FactorId>)
    requires f in g && CountsInputs(g, total) && EmittedOrder(g, order)
    ensures Fed(g, f, order) <= total[f]
    ensures Fed(g, f, order) == total[f] <==> |Ups(g, f)| == total[f] && Ups(g, f) <= SetOf(order)
  {
    FedCountsInputs(g, f, order);
    assert |Ups(g, f)| <= total[f];
    SubsetSize(Ups(g, f) * SetOf(order), Ups(g, f));
    assert Ups(g, f) * SetOf(order) == Ups(g, f) <==> Ups(g, f) <= SetOf(order);
  }

  lemma {:induction false} SubsetSize(a: set<FactorId>, b: set<FactorId>)
    requires a <= b
    ensures |a| <= |b|
    ensures |a| == |b| <==> a == b
  {
    assert b == a + (b - a);
    assert |b| == |a| + |b - a|;
    if a != b {
      var x :| x in b && x !in a;
      assert x in b - a;
    }
  }

  ghost predicate EmittedOrder(g: Graph, order: seq<FactorId>) {
    Distinct(order) && (forall f :: f in order ==> f in g) && UpstreamFirst(g, order)
  }

  /** The counters hold the number of inputs still waited for. */
  ghost predicate CountersRight(g: Graph, total: map<FactorId, int>, indegree: map<FactorId, int>, order: seq<FactorId>) {
    && total.Keys == g.Keys && indegree.Keys == g.Keys
    && (forall f {:trigger indegree[f]} :: f in g ==> indegree[f] == total[f] - Fed(g, f, order))
    && (forall f {:trigger f in order} :: f in order && f in g ==> indegree[f] == 0)
  }

  /** The nodes that have not been emitted and wait for nothing. */
  ghost function Waiting(g: Graph, indegree: map<FactorId, int>, order: seq<FactorId>): set<FactorId>
    requires indegree.Keys == g.Keys
  {
    set f | f in g && f !in order && indegree[f] == 0
  }

  /** No topological order comes before `order`. */
  ghost predicate LexLeast(g: Graph, order: seq<FactorId>) {
    forall t :: IsTopological(g, t) ==> LexLeq(order, t)
  }

  /** What holds between two rounds of the loop. */
  ghost predicate KahnState(g: Graph, total: map<FactorId, int>, indegree: map<FactorId, int>, order: seq<FactorId>,
                            ready: seq<FactorId>) {
    && CountsInputs(g, total)
    && EmittedOrder(g, order)
    && CountersRight(g, total, indegree, order)
    && ready == SortedIds(Waiting(g, indegree, order))
    && (CountsOnce(g, total) ==> LexLeast(g, order))
  }

  lemma KahnRoundStarts(g: Graph, total: map<FactorId, int>, indegree: map<FactorId, int>, order: seq<FactorId>,
                        ready: seq<FactorId>)
    requires KahnState(g, total, indegree, order, ready) && ready != []
    ensures forall f :: f in ready[1..] <==> f in Waiting(g, indegree, order) && f != ready[0]
    ensures IsLeast(Waiting(g, indegree, order), ready[0]) && |order| < |g|
  {
    SortedIdsStep(Waiting(g, indegree, order), ready);
    EmittedOrderGrows(g, total, indegree, order, ready[0]);
  }

  lemma KahnRound(g: Graph, total: map<FactorId, int>, indegree: map<FactorId, int>, order: seq<FactorId>, ready: seq<FactorId>,
                  degrees: map<FactorId, int>, ready': seq<FactorId>)
    requires KahnState(g, total, indegree, order, ready) && ready != []
    requires degrees.Keys == g.Keys
    requires forall f :: f in g ==> degrees[f] == indegree[f] - (if Feeds(g, f, ready[0]) then 1 else 0)
    requires ready' == SortedIds(Released(g, indegree, ready[1..], ready[0]))
    ensures KahnState(g, total, degrees, order + [ready[0]], ready')
  {
    KahnRoundStarts(g, total, indegree, order, ready);
    LeastReadyKeepsLexLeast(g, total, indegree, order, ready[0]);
    EmittedOrderGrows(g, total, indegree, order, ready[0]);
    EmitKeeps(g, total, indegree, order, ready[0], degrees, ready[1..]);
  }

  lemma KahnStart(g: Graph, total: map<FactorId, int>)
    requires total.Keys == g.Keys
    ensures EmittedOrder(g, []) && CountersRight(g, total, total, []) && LexLeast(g, [])
    ensures (set f | f in g && total[f] == 0) == Waiting(g, total, [])
  {
  }

  /** Returns the least topological order; `None` stands for the ValueError. */
  method TopologicalOrder(g: Graph) returns (result: Option<seq<FactorId>>)
    ensures result.Some? <==> Acyclic(g) && DuplicateFree(g)
    ensures result.Some? ==> IsTopological(g, result.value)
    ensures result.Some? ==> LexLeast(g, result.value)
  {
    var indegree := map f | f in g :: |Registered(g, g[f].factorInputs)|;
    var order: seq<FactorId> := [];
    ghost var total := indegree;
    CountsOnceMeansDuplicateFree(g, total);
    var ready := SortedIds(set f | f in g && indegree[f] == 0);
    KahnStart(g, total);
    while ready != []
      invariant KahnState(g, total, indegree, order, ready)
      decreases |g| - |order|
    {
      var node := ready[0];
      ghost var before, readyBefore := indegree, ready;
      KahnRoundStarts(g, total, indegree, order, ready);
      indegree, ready := Emit(g, indegree, ready[1..], node);
      KahnRound(g, total, before, order, readyBefore, indegree, ready);
      order := order + [node];
    }
    KahnEnd(g, total, indegree, order);
    result := if |order| != |g| then None else Some(order);
  }

  /** The nodes on the rest of the ready list, and those that waited for `node` alone. */
  ghost function Released(g: Graph, indegree: map<FactorId, int>, rest: seq<FactorId>, node: FactorId): set<FactorId>
    requires indegree.Keys == g.Keys
  {
    set f | f in g && (f in rest || (Feeds(g, f, node) && indegree[f] == 1))
  }

  /** Where the decrementing loop stands once the candidates outside `remaining` have been visited. */
  ghost predicate Decremented(g: Graph, indegree: map<FactorId, int>, rest: seq<FactorId>, node: FactorId,
                              remaining: set<FactorId>, degrees: map<FactorId, int>, appended: seq<FactorId>)
    requires indegree.Keys == g.Keys
  {
    && degrees.Keys == g.Keys
    && (forall f {:trigger f in remaining} :: f in remaining ==> f in g)
    && (forall f {:trigger degrees[f]} :: f in g ==>
          degrees[f] == indegree[f] - (if f !in remaining && Feeds(g, f, node) then 1 else 0))
    && (forall f {:trigger f in appended} :: f in appended <==>
          f in rest || (f in g && f !in remaining && Feeds(g, f, node) && indegree[f] == 1))
  }

  /** One round: decrement every candidate fed by `node`, then re-sort the ready list. */
  method Emit(g: Graph, indegree: map<FactorId, int>, rest: seq<FactorId>, node: FactorId)
    returns (degrees: map<FactorId, int>, ready: seq<FactorId>)
    requires indegree.Keys == g.Keys && forall f :: f in rest ==> f in g
    ensures degrees.Keys == g.Keys
    ensures forall f :: f in g ==> degrees[f] == indegree[f] - (if Feeds(g, f, node) then 1 else 0)
    ensures ready == SortedIds(Released(g, indegree, rest, node))
  {
    degrees := indegree;
    var appended := rest;
    var remaining := g.Keys;
    while remaining != {}
      invariant Decremented(g, indegree, rest, node, remaining, degrees, appended)
    {
      var candidate := Least(remaining);
      ghost var before, appendedBefore := degrees, appended;
      if node in g[candidate].factorInputs {
        degrees := degrees[candidate := degrees[candidate] - 1];
        if degrees[candidate] == 0 {
          appended := appended + [candidate];
        }
      }
      DecrementedStep(g, indegree, rest, node, remaining, before, appendedBefore, candidate, degrees, appended);
      remaining := remaining - {candidate};
    }
    ready := SortedIds(set f | f in appended);
    DecrementedEnd(g, indegree, rest, node, degrees, appended);
  }

  lemma DecrementedEnd(g: Graph, indegree: map<FactorId, int>, rest: seq<FactorId>, node: FactorId,
                       degrees: map<FactorId, int>, appended: seq<FactorId>)
    requires indegree.Keys == g.Keys && forall f :: f in rest ==> f in g
    requires Decremented(g, indegree, rest, node, {}, degrees, appended)
    ensures forall f :: f in g ==> degrees[f] == indegree[f] - (if Feeds(g, f, node) then 1 else 0)
    ensures (set f | f in appended) == Released(g, indegree, rest, node)
  {
  }

  lemma DecrementedStep(g: Graph, indegree: map<FactorId, int>, rest: seq<FactorId>, node: FactorId,
                        remaining: set<FactorId>, degrees: map<FactorId, int>, appended: seq<FactorId>,
                        candidate: FactorId, degrees': map<FactorId, int>, appended': seq<FactorId>)
    requires indegree.Keys == g.Keys && candidate in remaining
    requires Decremented(g, indegree, rest, node, remaining, degrees, appended)
    requires degrees' == if Feeds(g, candidate, node) then degrees[candidate := degrees[candidate] - 1] else degrees
    requires appended' == if Feeds(g, candidate, node) && degrees'[candidate] == 0 then appended + [candidate] else appended
    ensures Decremented(g, indegree, rest, node, remaining - {candidate}, degrees', appended')
  {
    assert degrees[candidate] == indegree[candidate];
  }

  lemma EmitKeeps(g: Graph, total: map<FactorId, int>, indegree: map<FactorId, int>, order: seq<FactorId>,
                  node: FactorId, degrees: map<FactorId, int>, rest: seq<FactorId>)
    requires CountsInputs(g, total) && EmittedOrder(g, order + [node])
    requires CountersRight(g, total, indegree, order)
    requires node in Waiting(g, indegree, order)
    requires forall f :: f in rest <==> f in Waiting(g, indegree, order) && f != node
    requires degrees.Keys == g.Keys
    requires forall f :: f in g ==> degrees[f] == indegree[f] - (if Feeds(g, f, node) then 1 else 0)
    ensures CountersRight(g, total, degrees, order + [node])
    ensures Released(g, indegree, rest, node) == Waiting(g, degrees, order + [node])
  {
    forall f | f in g
      ensures degrees[f] == total[f] - Fed(g, f, order + [node]) && degrees[f] >= 0
      ensures Feeds(g, f, node) ==> f !in order && f != node
    {
      EmitOne(g, total, indegree, order, node, f);
    }
    forall f ensures f in Released(g, indegree, rest, node) <==> f in Waiting(g, degrees, order + [node]) {
      if f in g {
        assert degrees[f] == indegree[f] - (if Feeds(g, f, node) then 1 else 0);
      }
    }
  }

  lemma EmitOne(g: Graph, total: map<FactorId, int>, indegree: map<FactorId, int>, order: seq<FactorId>,
                node: FactorId, f: FactorId)
    requires CountsInputs(g, total) && EmittedOrder(g, order + [node])
    requires CountersRight(g, total, indegree, order) && f in g
    ensures indegree[f] - (if Feeds(g, f, node) then 1 else 0) == total[f] - Fed(g, f, order + [node]) >= 0
    ensures Feeds(g, f, node) ==> f !in order && f != node
  {
    var next := order + [node];
    assert next[..|order|] == order;
    assert indegree[f] == total[f] - Fed(g, f, order);
    DegreeZero(g, total, f, next);
    if f in next {
      NotFedLater(g, order, node, f);
    }
  }

  /** Nothing emitted up to `node` is fed by `node`. */
  lemma NotFedLater(g: Graph, order: seq<FactorId>, node: FactorId, f: FactorId)
    requires EmittedOrder(g, order + [node]) && f in order + [node]
    ensures !Feeds(g, f, node)
  {
    var next := order + [node];
    var i :| 0 <= i < |next| && next[i] == f;
    forall u | u in next[..i] ensures u != node {
      var j :| 0 <= j < i && next[..i][j] == u;
      assert next[j] != next[|order|];
    }
    assert next[|order|] == node && node in g;
    assert !Feeds(g, next[i], node);
  }

  lemma EmittedOrderGrows(g: Graph, total: map<FactorId, int>, indegree: map<FactorId, int>, order: seq<FactorId>, node: FactorId)
    requires EmittedOrder(g, order) && CountsInputs(g, total) && CountersRight(g, total, indegree, order)
    requires node in Waiting(g, indegree, order)
    ensures EmittedOrder(g, order + [node]) && |order| < |g|
  {
    assert indegree[node] == total[node] - Fed(g, node, order);
    DegreeZero(g, total, node, order);
    var next := order + [node];
    forall i, u | 0 <= i < |next| && Feeds(g, next[i], u) && u in g ensures u in next[..i] {
      if i < |order| {
        assert next[..i] == order[..i];
      } else {
        assert next[..i] == order && u in Ups(g, node) && u in SetOf(order);
      }
    }
    SetOfSize(next);
    SubsetSize(SetOf(next), g.Keys);
  }

  lemma AllEmitted(g: Graph, total: map<FactorId, int>, indegree: map<FactorId, int>, order: seq<FactorId>)
    requires EmittedOrder(g, order) && CountsInputs(g, total) && CountersRight(g, total, indegree, order)
    requires |order| == |g| && Waiting(g, indegree, order) == {}
    ensures IsTopological(g, order) && CountsOnce(g, total)
  {
    SetOfSize(order);
    SubsetSize(SetOf(order), g.Keys);
    forall f ensures f in order <==> f in g {
      assert f in SetOf(order) <==> f in order;
    }
    forall f | f in g ensures |Ups(g, f)| == total[f] {
      assert f in order;
      DegreeZero(g, total, f, order);
    }
  }

  /** Appending the least waiting node keeps the prefix below every topological order. */
  lemma LeastReadyKeepsLexLeast(g: Graph, total: map<FactorId, int>, indegree: map<FactorId, int>, order: seq<FactorId>,
                                node: FactorId)
    requires EmittedOrder(g, order) && CountsInputs(g, total) && CountersRight(g, total, indegree, order)
    requires IsLeast(Waiting(g, indegree, order), node)
    requires CountsOnce(g, total) ==> LexLeast(g, order)
    ensures CountsOnce(g, total) ==> LexLeast(g, order + [node])
  {
    if CountsOnce(g, total) {
      forall t | IsTopological(g, t) ensures LexLeq(order + [node], t) {
        assert LexLeq(order, t);
        if order <= t {
          NextIsReady(g, total, indegree, order, node, t);
          LexLeqExtends(order, node, t);
        } else {
          LexLessExtends(order, node, t);
        }
      }
    }
  }

  lemma LexLeqExtends(order: seq<FactorId>, node: FactorId, t: seq<FactorId>)
    requires order <= t && |order| < |t| && (t[|order|] == node || Before(node, t[|order|]))
    ensures LexLeq(order + [node], t)
  {
    var n, next := |order|, order + [node];
    assert next[..n] == t[..n] && next[n] == node;
    if t[n] == node {
      assert next <= t;
    }
  }

  lemma LexLessExtends(order: seq<FactorId>, node: FactorId, t: seq<FactorId>)
    requires LexLeq(order, t) && !(order <= t)
    ensures LexLeq(order + [node], t)
  {
    var k :| 0 <= k < |order| && k < |t| && order[..k] == t[..k] && Before(order[k], t[k]);
    var next := order + [node];
    assert next[..k] == order[..k] && next[k] == order[k];
  }

  /** The element a topological order puts after one of its prefixes is fed from that prefix alone. */
  lemma NextIsFed(g: Graph, order: seq<FactorId>, node: FactorId, t: seq<FactorId>)
    requires node in g && node !in order && IsTopological(g, t) && order <= t
    ensures |order| < |t| && t[|order|] in g && t[|order|] !in order
    ensures Ups(g, t[|order|]) <= SetOf(order)
  {
    var n := |order|;
    assert t[..n] == order;
    assert node in t && t != order;
    assert t[n] in t;
    forall i | 0 <= i < n ensures order[i] != t[n] {
      assert t[i] == order[i];
    }
    forall u | u in Ups(g, t[n]) ensures u in SetOf(order) {
      assert Feeds(g, t[n], u);
      assert u in t[..n];
    }
  }

  lemma NextIsReady(g: Graph, total: map<FactorId, int>, indegree: map<FactorId, int>, order: seq<FactorId>,
                    node: FactorId, t: seq<FactorId>)
    requires EmittedOrder(g, order) && CountsOnce(g, total) && CountersRight(g, total, indegree, order)
    requires node in g && node !in order && IsTopological(g, t) && order <= t
    ensures |order| < |t| && t[|order|] in Waiting(g, indegree, order)
  {
    NextIsFed(g, order, node, t);
    var next := t[|order|];
    assert |Ups(g, next)| == total[next];
    DegreeZero(g, total, next, order);
    assert indegree[next] == total[next] - Fed(g, next, order);
  }

  ghost function LeftOver(g: Graph, order: seq<FactorId>): set<FactorId> {
    set f | f in g && f !in order
  }

  /** When the ready list runs dry too early, a duplicate input or a closed walk is to blame. */
  lemma StuckMeansCycle(g: Graph, total: map<FactorId, int>, indegree: map<FactorId, int>, order: seq<FactorId>)
    requires EmittedOrder(g, order) && CountsInputs(g, total) && CountersRight(g, total, indegree, order)
    requires |order| != |g| && Waiting(g, indegree, order) == {}
    ensures !(Acyclic(g) && CountsOnce(g, total))
  {
    if CountsOnce(g, total) {
      var f0 := SomeLeft(g, order);
      forall f | f in LeftOver(g, order) ensures HasSupplier(g, LeftOver(g, order), f) {
        assert f !in Waiting(g, indegree, order);
        LeftOverWaits(g, total, indegree, order, f);
      }
      var w := EndlessSupplyMeansClosedWalk(g, LeftOver(g, order));
    }
  }

  lemma KahnEnd(g: Graph, total: map<FactorId, int>, indegree: map<FactorId, int>, order: seq<FactorId>)
    requires EmittedOrder(g, order) && CountsInputs(g, total) && CountersRight(g, total, indegree, order)
    requires Waiting(g, indegree, order) == {}
    ensures |order| == |g| <==> Acyclic(g) && CountsOnce(g, total)
    ensures |order| == |g| ==> IsTopological(g, order)
  {
    if |order| != |g| {
      StuckMeansCycle(g, total, indegree, order);
    } else {
      AllEmitted(g, total, indegree, order);
      TopologicalMeansAcyclic(g, order);
    }
  }

  lemma SomeLeft(g: Graph, order: seq<FactorId>) returns (f: FactorId)
    requires Distinct(order) && |order| != |g| && forall x :: x in order ==> x in g
    ensures f in LeftOver(g, order)
  {
    SetOfSize(order);
    SubsetSize(SetOf(order), g.Keys);
    f :| f in g.Keys && f !in SetOf(order);
  }

  lemma LeftOverWaits(g: Graph, total: map<FactorId, int>, indegree: map<FactorId, int>, order: seq<FactorId>, f: FactorId)
    requires EmittedOrder(g, order) && CountsOnce(g, total) && CountersRight(g, total, indegree, order)
    requires f in g && f !in order && f !in Waiting(g, indegree, order)
    ensures HasSupplier(g, LeftOver(g, order), f)
  {
    assert indegree[f] == total[f] - Fed(g, f, order) && |Ups(g, f)| == total[f];
    DegreeZero(g, total, f, order);
    var u :| u in Ups(g, f) && u !in SetOf(order);
    assert u in LeftOver(g, order) && Feeds(g, f, u);
  }

  ghost predicate HasSupplier(g: Graph, left: set<FactorId>, f: FactorId) {
    exists u :: u in left && Feeds(g, f, u)
  }

  ghost predicate Supplied(g: Graph, left: set<FactorId>) {
    forall f {:trigger HasSupplier(g, left, f)} :: f in left ==> HasSupplier(g, left, f)
  }

  lemma {:induction false} LongWalk(g: Graph, left: set<FactorId>, n: nat) returns (w: seq<FactorId>)
    requires left != {} && Supplied(g, left)
    ensures |w| == n + 1 && Walk(g, w) && forall x :: x in w ==> x in left
  {
    if n == 0 {
      var f :| f in left;
      w := [f];
    } else {
      var v := LongWalk(g, left, n - 1);
      assert HasSupplier(g, left, v[|v| - 1]);
      var u :| u in left && Feeds(g, v[|v| - 1], u);
      w := v + [u];
      forall i | 0 <= i < |w| - 1 ensures Linked(g, w, i) {
        if i + 1 < |v| {
          assert Linked(g, v, i);
        }
      }
    }
  }

  lemma EndlessSupplyMeansClosedWalk(g: Graph, left: set<FactorId>) returns (w: seq<FactorId>)
    requires left != {} && Supplied(g, left)
    ensures ClosedWalk(g, w)
  {
    var v := LongWalk(g, left, |left|);
    if Distinct(v) {
      SetOfSize(v);
      SubsetSize(SetOf(v), left);
      assert false;
    }
    var i, j :| 0 <= i < j < |v| && v[i] == v[j];
    w := v[i..j + 1];
    forall k | 0 <= k < |w| - 1 ensures Linked(g, w, k) {
      assert Linked(g, v, i + k);
    }
  }

  /** Acyclic, yet rejected: the same upstream factor listed twice (two modes of one output). */
  lemma DuplicateInputIsRejected()
    ensures var up, down := FactorId("cn_equity.daily_bar", "hfq"), FactorId("cn_equity.daily_bar", "ma20");
            var node := FactorNode("a", 1, OnDemand, []);
            var g: Graph := map[up := node, down := node.(factorInputs := [up, up])];
            Acyclic(g) && !DuplicateFree(g)
  {
    var up, down := FactorId("cn_equity.daily_bar", "hfq"), FactorId("cn_equity.daily_bar", "ma20");
    var node := FactorNode("a", 1, OnDemand, []);
    var g: Graph := map[up := node, down := node.(factorInputs := [up, up])];
    RankedMeansAcyclic(g, map[up := 0, down := 1]);
    var inputs := [up, up];
    assert inputs[1..] == [up] && inputs[1..][1..] == [];
    assert Registered(g, inputs[1..]) == [up];
    assert Registered(g, inputs) == [up, up];
    assert g[down].factorInputs == inputs;
    assert down in g;
  }

  // ---------------------------------------------------------------- upstream_closure()

  ghost function Mentioned(g: Graph): set<FactorId> {
    set f, i | f in g && 0 <= i < |g[f].factorInputs| :: g[f].factorInputs[i]
  }

  /** Everything that contributes to `f`, directly or not. */
  ghost function Closure(g: Graph, f: FactorId): set<FactorId> {
    set u | u in Mentioned(g) && Reaches(g, f, u)
  }

  lemma ReachedIsMentioned(g: Graph, f: FactorId, u: FactorId)
    requires Reaches(g, f, u)
    ensures u in Mentioned(g) && u in Closure(g, f)
  {
    var w :| WalkBetween(g, w, f, u);
    var d := w[|w| - 2];
    assert Linked(g, w, |w| - 2);
    var i :| 0 <= i < |g[d].factorInputs| && g[d].factorInputs[i] == u;
  }

  lemma DirectInputReached(g: Graph, f: FactorId, u: FactorId)
    requires Feeds(g, f, u)
    ensures Reaches(g, f, u) && u in Closure(g, f)
  {
    assert WalkBetween(g, [f, u], f, u);
    ReachedIsMentioned(g, f, u);
  }

  lemma ReachesTransitive(g: Graph, f: FactorId, u: FactorId, v: FactorId)
    requires Reaches(g, f, u) && Reaches(g, u, v)
    ensures Reaches(g, f, v)
  {
    var a :| WalkBetween(g, a, f, u);
    var b :| WalkBetween(g, b, u, v);
    var w := a + b[1..];
    forall i | 0 <= i < |w| - 1 ensures Linked(g, w, i) {
      if i + 1 < |a| {
        assert Linked(g, a, i);
      } else {
        assert Linked(g, b, i + 1 - |a|);
      }
    }
    assert WalkBetween(g, w, f, v);
  }

  /** Graphs with the same edges. */
  ghost predicate SameInputs(g: Graph, h: Graph) {
    g.Keys == h.Keys && forall f :: f in g ==> g[f].factorInputs == h[f].factorInputs
  }

  lemma SameWalk(g: Graph, h: Graph, w: seq<FactorId>)
    requires SameInputs(g, h)
    ensures Walk(g, w) <==> Walk(h, w)
  {
    forall i ensures Linked(g, w, i) <==> Linked(h, w, i) {
    }
  }

  /** What contributes to a factor, and whether there is a cycle, depends on the edges only. */
  lemma SameEdges(g: Graph, h: Graph)
    requires SameInputs(g, h)
    ensures forall f :: Closure(g, f) == Closure(h, f)
    ensures Acyclic(g) <==> Acyclic(h)
  {
    forall w ensures ClosedWalk(g, w) <==> ClosedWalk(h, w) {
      SameWalk(g, h, w);
    }
    forall f ensures Closure(g, f) == Closure(h, f) {
      SameClosure(g, h, f);
      SameClosure(h, g, f);
    }
  }

  lemma SameClosure(g: Graph, h: Graph, f: FactorId)
    requires SameInputs(g, h)
    ensures Closure(g, f) <= Closure(h, f)
  {
    forall u | u in Closure(g, f) ensures u in Closure(h, f) {
      var w :| WalkBetween(g, w, f, u);
      SameWalk(g, h, w);
      assert WalkBetween(h, w, f, u);
      ReachedIsMentioned(h, f, u);
    }
  }

  lemma NoReturn(g: Graph, f: FactorId)
    requires Acyclic(g)
    ensures !Reaches(g, f, f)
  {
    forall w ensures !WalkBetween(g, w, f, f) {
      assert !ClosedWalk(g, w);
    }
  }

  /** The closure of an input lies inside the closure, strictly so in an acyclic graph. */
  lemma ClosureOfInput(g: Graph, f: FactorId, u: FactorId)
    requires u in Closure(g, f)
    ensures Closure(g, u) <= Closure(g, f)
    ensures Acyclic(g) ==> u !in Closure(g, u) && |Closure(g, u)| < |Closure(g, f)|
  {
    forall v | v in Closure(g, u) ensures v in Closure(g, f) {
      ReachesTransitive(g, f, u, v);
      ReachedIsMentioned(g, f, v);
    }
    if Acyclic(g) {
      NoReturn(g, u);
      SubsetSize(Closure(g, u), Closure(g, f));
    }
  }

  /** Any set that holds f's inputs and the inputs of its own members holds the whole closure. */
  lemma ClosureIsLeast(g: Graph, f: FactorId, s: set<FactorId>)
    requires forall u :: Feeds(g, f, u) ==> u in s
    requires forall d, u :: d in s && Feeds(g, d, u) ==> u in s
    ensures Closure(g, f) <= s
  {
    forall u | u in Closure(g, f) ensures u in s {
      var w :| WalkBetween(g, w, f, u);
      WalkStaysInside(g, s, w, |w| - 1);
    }
  }

  lemma {:induction false} WalkStaysInside(g: Graph, s: set<FactorId>, w: seq<FactorId>, k: nat)
    requires Walk(g, w) && 1 <= k < |w|
    requires forall u :: Feeds(g, w[0], u) ==> u in s
    requires forall d, u :: d in s && Feeds(g, d, u) ==> u in s
    ensures w[k] in s
  {
    assert Linked(g, w, k - 1);
    if k > 1 {
      WalkStaysInside(g, s, w, k - 1);
    }
  }

  /** The worklist loop returns exactly the factors reachable through one or more edges, sorted. */
  method UpstreamClosure(g: Graph, factor: FactorId) returns (result: seq<FactorId>)
    ensures result == SortedIds(Closure(g, factor))
  {
    var seen: set<FactorId> := {};
    var stack := if factor in g then g[factor].factorInputs else [];
    forall u | u in stack ensures u in Closure(g, factor) {
      DirectInputReached(g, factor, u);
    }
    while stack != []
      invariant forall u :: u in seen || u in stack ==> u in Closure(g, factor)
      invariant forall u :: Feeds(g, factor, u) ==> u in seen || u in stack
      invariant forall d, u :: d in seen && Feeds(g, d, u) ==> u in seen || u in stack
      decreases Closure(g, factor) - seen, |stack|
    {
      var current := stack[|stack| - 1];
      ghost var before := stack;
      stack := stack[..|stack| - 1];
      assert forall u :: u in before ==> u == current || u in stack;
      if current in seen {
        continue;
      }
      assert current in Closure(g, factor);
      seen := seen + {current};
      if current in g {
        forall u | u in g[current].factorInputs ensures u in Closure(g, factor) {
          assert Feeds(g, current, u);
          DirectInputReached(g, current, u);
          ReachesTransitive(g, factor, current, u);
          ReachedIsMentioned(g, factor, u);
        }
        stack := stack + g[current].factorInputs;
      }
    }
    ClosureIsLeast(g, factor, seen);
    assert seen == Closure(g, factor);
    result := SortedIds(seen);
  }
}
