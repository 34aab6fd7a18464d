/** On-demand factor reads: recursion over the dependency graph with one memo per request, projections first
    where they exist, and an algorithm pin that applies to the requested factor only. */
module FactorApis {
  import opened Wrappers
  import opened FactorGraphs

  datatype Error =
    | Unregistered(factor: FactorId)
    | Missing(factor: FactorId)
    | UnknownPin(algorithmId: string)
    | OtherAlgorithm(factor: FactorId)
    | Failed(reason: string)

  datatype ProjectionRead<+V> = Found(value: V) | NotMaterialized | Unusable(error: Error)

  /** A stored table and the algorithm its audit columns name; an empty table has none. */
  datatype Stored<+V> = Stored(value: V, audit: Option<(string, nat)>)

  /** The tables handed to an algorithm: the data inputs, and one table per upstream factor. */
  datatype Inputs<V> = Inputs(data: V, factors: map<FactorId, V>)

  /** What one request sees: the data at its as-of time, the stored projections, the versions of the registered
      algorithms and the algorithms themselves. */
  datatype Env<!V> = Env(
    readData: FactorId -> Result<V, Error>,
    projection: FactorId -> ProjectionRead<Stored<V>>,
    registered: string -> Option<nat>,
    compute: (FactorId, Inputs<V>, Option<string>) -> Result<V, Error>)

  // ---------------------------------------------------------------- stored projections

  /** The stored table, unless another algorithm wrote it than the pinned one, or without a pin the registered one. */
  function ReadMaterialized<V>(g: Graph, env: Env<V>, f: FactorId, pin: Option<string>): ProjectionRead<V>
    requires f in g
  {
    match env.projection(f)
    case NotMaterialized => NotMaterialized
    case Unusable(e) => Unusable(e)
    case Found(stored) =>
      var chosen := if pin.Some? then pin.value else g[f].algorithmId;
      var version := env.registered(chosen);
      if pin.Some? && version.None? then Unusable(UnknownPin(chosen))
      else if version.Some? && stored.audit.Some? && stored.audit.value != (chosen, version.value) then Unusable(OtherAlgorithm(f))
      else Found(stored.value)
  }

  // ---------------------------------------------------------------- plain recursion, without a memo

  ghost function Plain<V>(g: Graph, env: Env<V>, f: FactorId, pin: Option<string>): Result<V, Error>
    requires Acyclic(g)
    decreases |Closure(g, f)|, 1, 0
  {
    if f !in g then Err(Unregistered(f))
    else
      match env.readData(f)
      case Err(e) => Err(e)
      case Ok(data) =>
        match PlainInputs(g, env, f, |g[f].factorInputs|)
        case Err(e) => Err(e)
        case Ok(factors) => env.compute(f, Inputs(data, factors), pin)
  }

  /** The tables of the first `k` factor inputs. */
  ghost function PlainInputs<V>(g: Graph, env: Env<V>, f: FactorId, k: nat): Result<map<FactorId, V>, Error>
    requires Acyclic(g) && f in g && k <= |g[f].factorInputs|
    decreases |Closure(g, f)|, 0, k
  {
    if k == 0 then Ok(map[])
    else
      match PlainInputs(g, env, f, k - 1)
      case Err(e) => Err(e)
      case Ok(factors) =>
        var u := g[f].factorInputs[k - 1];
        assert |Closure(g, u)| < |Closure(g, f)| by {
          DirectInputReached(g, f, u);
          ClosureOfInput(g, f, u);
        }
        match PlainInput(g, env, u)
        case Err(e) => Err(e)
        case Ok(v) => Ok(factors[u := v])
  }

  /** A stored projection wins; a factor without one is computed. */
  ghost function PlainInput<V>(g: Graph, env: Env<V>, u: FactorId): Result<V, Error>
    requires Acyclic(g)
    decreases |Closure(g, u)|, 2, 0
  {
    if u in g && g[u].materialize == Latest then
      match ReadMaterialized(g, env, u, None)
      case Found(v) => Ok(v)
      case NotMaterialized => Plain(g, env, u, None)
      case Unusable(e) => Err(e)
    else Plain(g, env, u, None)
  }

  // ---------------------------------------------------------------- one request

  /** The memo one request carries, and the algorithm runs it has made. */
  class Request<V> {
    const graph: Graph
    const env: Env<V>
    var memo: map<FactorId, V>
    ghost var runs: seq<FactorId>

    constructor (graph: Graph, env: Env<V>)
      ensures this.graph == graph && this.env == env && memo == map[] && runs == []
    {
      this.graph, this.env := graph, env;
      memo := map[];
      runs := [];
    }

    /** Memoised tables are what plain recursion gives, and every run but a failed last one was memoised. */
    ghost predicate Valid()
      requires Acyclic(graph)
      reads this
    {
      && (forall f {:trigger f in memo} :: f in memo ==> Plain(graph, env, f, None) == Ok(memo[f]))
      && (forall f :: f in runs <==> f in memo)
      && Distinct(runs)
    }

    ghost predicate RanOnly(before: seq<FactorId>, f: FactorId)
      reads this
    {
      before <= runs && Distinct(runs) && forall x :: x in runs ==> x in before || x == f || x in Closure(graph, f)
    }

    method Evaluate(f: FactorId, pin: Option<string>) returns (r: Result<V, Error>)
      requires Acyclic(graph) && Valid()
      requires pin.Some? ==> memo == map[]
      modifies this
      ensures r == Plain(graph, env, f, pin)
      ensures r.Ok? && pin.None? ==> Valid()
      ensures RanOnly(old(runs), f)
      decreases |Closure(graph, f)|, 1
    {
      if f in memo {
        return Ok(memo[f]);
      }
      if f !in graph {
        return Err(Unregistered(f));
      }
      var data := env.readData(f);
      if data.Err? {
        return Err(data.error);
      }
      var factors := EvaluateInputs(f);
      if factors.Err? {
        return Err(factors.error);
      }
      r := env.compute(f, Inputs(data.value, factors.value), pin);
      RunIsNew(f);
      runs := runs + [f];
      if r.Ok? {
        memo := memo[f := r.value];
      }
    }

    lemma RunIsNew(f: FactorId)
      requires Acyclic(graph) && f !in runs && Distinct(runs)
      ensures Distinct(runs + [f])
    {
    }

    method EvaluateInputs(f: FactorId) returns (r: Result<map<FactorId, V>, Error>)
      requires Acyclic(graph) && Valid() && f in graph && f !in memo
      modifies this
      ensures r == PlainInputs(graph, env, f, |graph[f].factorInputs|)
      ensures r.Ok? ==> Valid() && f !in memo
      ensures RanOnly(old(runs), f) && f !in runs
      decreases |Closure(graph, f)|, 0
    {
      var factors: map<FactorId, V> := map[];
      var inputs := graph[f].factorInputs;
      for k := 0 to |inputs|
        invariant Valid() && f !in memo
        invariant PlainInputs(graph, env, f, k) == Ok(factors)
        invariant RanOnly(old(runs), f)
      {
        var u := inputs[k];
        ghost var before := runs;
        InputIsSmaller(f, u);
        var v := EvaluateInput(u);
        RunsStayInside(old(runs), before, f, u);
        if v.Err? {
          PlainInputsFail(graph, env, f, k, |inputs|);
          return Err(v.error);
        }
        factors := factors[u := v.value];
      }
      r := Ok(factors);
    }

    method EvaluateInput(u: FactorId) returns (r: Result<V, Error>)
      requires Acyclic(graph) && Valid()
      modifies this
      ensures r == PlainInput(graph, env, u)
      ensures r.Ok? ==> Valid()
      ensures RanOnly(old(runs), u)
      decreases |Closure(graph, u)|, 2
    {
      if u in graph && graph[u].materialize == Latest {
        match ReadMaterialized(graph, env, u, None) {
          case Found(v) => return Ok(v);
          case Unusable(e) => return Err(e);
          case NotMaterialized =>
        }
      }
      r := Evaluate(u, None);
    }

    lemma InputIsSmaller(f: FactorId, u: FactorId)
      requires Acyclic(graph) && Feeds(graph, f, u)
      ensures u in Closure(graph, f) && |Closure(graph, u)| < |Closure(graph, f)| && f != u && f !in Closure(graph, u)
    {
      DirectInputReached(graph, f, u);
      ClosureOfInput(graph, f, u);
      if f in Closure(graph, u) {
        ReachesTransitive(graph, u, f, u);
        NoReturn(graph, u);
      }
    }

    /** Runs made for an input of `f` are runs made for `f`, and never of `f` itself. */
    lemma RunsStayInside(start: seq<FactorId>, before: seq<FactorId>, f: FactorId, u: FactorId)
      requires Acyclic(graph) && Feeds(graph, f, u) && RanOnly(before, u) && f !in before
      requires start <= before && forall x :: x in before ==> x in start || x == f || x in Closure(graph, f)
      ensures RanOnly(start, f) && f !in runs
    {
      InputIsSmaller(f, u);
      ClosureOfInput(graph, f, u);
    }
  }

  lemma {:induction false} PlainInputsFail<V>(g: Graph, env: Env<V>, f: FactorId, k: nat, n: nat)
    requires Acyclic(g) && f in g && k < n <= |g[f].factorInputs|
    requires PlainInputs(g, env, f, k).Ok? && PlainInput(g, env, g[f].factorInputs[k]).Err?
    ensures PlainInputs(g, env, f, n) == Err(PlainInput(g, env, g[f].factorInputs[k]).error)
  {
    if n > k + 1 {
      PlainInputsFail(g, env, f, k, n - 1);
    }
  }

  /** What a read means: a latest factor is read from its projection, any other is computed by plain recursion. */
  ghost function PlainRead<V>(g: Graph, env: Env<V>, f: FactorId, pin: Option<string>): Result<V, Error>
    requires Acyclic(g)
  {
    if f in g && g[f].materialize == Latest then
      match ReadMaterialized(g, env, f, pin)
      case Found(v) => Ok(v)
      case NotMaterialized => Err(Missing(f))
      case Unusable(e) => Err(e)
    else Plain(g, env, f, pin)
  }

  // ---------------------------------------------------------------- what a read must satisfy

  /** The stored table of a latest factor, under the registered version of its algorithm or without a version to go by. */
  ghost predicate IsStored<V>(g: Graph, env: Env<V>, u: FactorId, v: V) {
    && u in g && g[u].materialize == Latest && env.projection(u).Found? && env.projection(u).value.value == v
    && AuditMatches(env, g[u].algorithmId, env.projection(u).value.audit)
  }

  ghost predicate AuditMatches<V>(env: Env<V>, algorithmId: string, audit: Option<(string, nat)>) {
    audit.Some? && env.registered(algorithmId).Some? ==> audit.value == (algorithmId, env.registered(algorithmId).value)
  }

  /** No stored table answers for the factor. */
  ghost predicate HasNone<V>(g: Graph, env: Env<V>, u: FactorId) {
    u in g && (g[u].materialize == Latest ==> env.projection(u).NotMaterialized?)
  }

  function Restricted<V>(t: map<FactorId, V>, us: seq<FactorId>): map<FactorId, V> {
    map u | u in us && u in t :: t[u]
  }

  /** The data of `f` and a table in `t` for each of its inputs can be read. */
  ghost predicate Readable<V>(g: Graph, env: Env<V>, f: FactorId, t: map<FactorId, V>) {
    f in g && env.readData(f).Ok? && forall u :: u in g[f].factorInputs ==> u in t
  }

  /** What the algorithm of `f` makes of its data and of the tables of exactly its inputs. */
  ghost function Computed<V>(g: Graph, env: Env<V>, f: FactorId, pin: Option<string>, t: map<FactorId, V>): Result<V, Error>
    requires Readable(g, env, f, t)
  {
    env.compute(f, Inputs(env.readData(f).value, Restricted(t, g[f].factorInputs)), pin)
  }

  /** Each table is the stored one, or where there is none, the unpinned algorithm's result on others of them. */
  ghost predicate Consistent<V>(g: Graph, env: Env<V>, t: map<FactorId, V>) {
    forall u :: u in t ==>
      IsStored(g, env, u, t[u]) || (HasNone(g, env, u) && Readable(g, env, u, t) && Computed(g, env, u, None, t) == Ok(t[u]))
  }

  lemma {:induction false} ConsistentInputs<V>(g: Graph, env: Env<V>, t: map<FactorId, V>, f: FactorId, k: nat)
    requires Acyclic(g) && Consistent(g, env, t) && Readable(g, env, f, t) && k <= |g[f].factorInputs|
    ensures PlainInputs(g, env, f, k) == Ok(Restricted(t, g[f].factorInputs[..k]))
    decreases |Closure(g, f)|, k
  {
    var inputs := g[f].factorInputs;
    if k > 0 {
      var u := inputs[k - 1];
      DirectInputReached(g, f, u);
      ClosureOfInput(g, f, u);
      ConsistentInputs(g, env, t, f, k - 1);
      if !IsStored(g, env, u, t[u]) {
        ConsistentInputs(g, env, t, u, |g[u].factorInputs|);
        assert g[u].factorInputs[..|g[u].factorInputs|] == g[u].factorInputs;
      }
      assert PlainInput(g, env, u) == Ok(t[u]);
      assert inputs[..k] == inputs[..k - 1] + [u];
      assert Restricted(t, inputs[..k]) == Restricted(t, inputs[..k - 1])[u := t[u]];
    }
  }

  /** Every input table that plain recursion gives. */
  ghost function AllTables<V>(g: Graph, env: Env<V>): map<FactorId, V>
    requires Acyclic(g)
  {
    map u | u in g && PlainInput(g, env, u).Ok? :: PlainInput(g, env, u).value
  }

  lemma ReadMeansRegistered<V>(g: Graph, env: Env<V>, u: FactorId)
    requires Acyclic(g) && PlainInput(g, env, u).Ok?
    ensures u in g
  {
    assert u !in g ==> Plain(g, env, u, None) == Err(Unregistered(u));
  }

  lemma {:induction false} InputsAreTables<V>(g: Graph, env: Env<V>, f: FactorId, k: nat)
    requires Acyclic(g) && f in g && k <= |g[f].factorInputs| && PlainInputs(g, env, f, k).Ok?
    ensures forall u :: u in g[f].factorInputs[..k] ==> u in AllTables(g, env)
    ensures PlainInputs(g, env, f, k).value == Restricted(AllTables(g, env), g[f].factorInputs[..k])
    decreases k
  {
    var inputs := g[f].factorInputs;
    if k > 0 {
      var u, all := inputs[k - 1], AllTables(g, env);
      InputsAreTables(g, env, f, k - 1);
      assert PlainInput(g, env, u).Ok?;
      ReadMeansRegistered(g, env, u);
      assert inputs[..k] == inputs[..k - 1] + [u];
      assert Restricted(all, inputs[..k]) == Restricted(all, inputs[..k - 1])[u := all[u]];
    }
  }

  lemma ComputedFromTables<V>(g: Graph, env: Env<V>, f: FactorId, pin: Option<string>)
    requires Acyclic(g) && Plain(g, env, f, pin).Ok?
    ensures Readable(g, env, f, AllTables(g, env)) && Computed(g, env, f, pin, AllTables(g, env)) == Plain(g, env, f, pin)
  {
    InputsAreTables(g, env, f, |g[f].factorInputs|);
    assert g[f].factorInputs[..|g[f].factorInputs|] == g[f].factorInputs;
  }

  lemma AllTablesConsistent<V>(g: Graph, env: Env<V>)
    requires Acyclic(g)
    ensures Consistent(g, env, AllTables(g, env))
  {
    var t := AllTables(g, env);
    forall u | u in t && !IsStored(g, env, u, t[u])
      ensures HasNone(g, env, u) && Readable(g, env, u, t) && Computed(g, env, u, None, t) == Ok(t[u])
    {
      ComputedFromTables(g, env, u, None);
    }
  }

  /** An on-demand read is the requested algorithm, under the pin, on the factor's data and its input tables: those
      that are stored, and for the others what the same rule gives without a pin. It succeeds only with such tables. */
  lemma OnDemandRead<V(!new)>(g: Graph, env: Env<V>, f: FactorId, pin: Option<string>)
    requires Acyclic(g) && f in g && g[f].materialize == OnDemand
    ensures forall t: map<FactorId, V> :: Consistent(g, env, t) && Readable(g, env, f, t) ==>
              PlainRead(g, env, f, pin) == Computed(g, env, f, pin, t)
    ensures PlainRead(g, env, f, pin).Ok? ==>
              exists t: map<FactorId, V> :: Consistent(g, env, t) && Readable(g, env, f, t)
  {
    forall t: map<FactorId, V> | Consistent(g, env, t) && Readable(g, env, f, t)
      ensures PlainRead(g, env, f, pin) == Computed(g, env, f, pin, t)
    {
      ConsistentInputs(g, env, t, f, |g[f].factorInputs|);
      assert g[f].factorInputs[..|g[f].factorInputs|] == g[f].factorInputs;
    }
    if Plain(g, env, f, pin).Ok? {
      ComputedFromTables(g, env, f, pin);
      AllTablesConsistent(g, env);
    }
  }

  /** A memoised request gives exactly the table or the error of plain recursion, and runs the algorithm of
      each factor it reaches at most once. A latest factor runs none: it is answered from its projection, exactly when
      the audit columns name the registered version of the algorithm asked for, which without a pin is the
      dictionary's; an empty table has no such columns, and without a pin an unregistered algorithm is not compared. */
  method Read<V(!new)>(g: Graph, env: Env<V>, f: FactorId, pin: Option<string>)
    returns (r: Result<V, Error>, ghost runs: seq<FactorId>)
    requires Acyclic(g)
    ensures r == PlainRead(g, env, f, pin)
    ensures Distinct(runs) && forall x :: x in runs ==> x == f || x in Closure(g, f)
    ensures f in g && g[f].materialize == Latest ==> runs == []
    ensures f in g && g[f].materialize == Latest ==>
              var stored, chosen := env.projection(f), if pin.Some? then pin.value else g[f].algorithmId;
              && (stored.NotMaterialized? ==> r == Err(Missing(f)))
              && (stored.Unusable? ==> r == Err(stored.error))
              && (r.Err? && stored.Found? ==>
                    r.error == if pin.Some? && env.registered(chosen).None? then UnknownPin(chosen) else OtherAlgorithm(f))
              && (r.Ok? <==> stored.Found? && AuditMatches(env, chosen, stored.value.audit) && (pin.Some? ==> env.registered(chosen).Some?))
              && (r.Ok? ==> r.value == stored.value.value)
    ensures f in g && g[f].materialize == OnDemand ==>
              forall t: map<FactorId, V> :: Consistent(g, env, t) && Readable(g, env, f, t) ==> r == Computed(g, env, f, pin, t)
    ensures f in g && g[f].materialize == OnDemand && r.Ok? ==>
              exists t: map<FactorId, V> :: Consistent(g, env, t) && Readable(g, env, f, t)
    ensures f !in g ==> r == Err(Unregistered(f))
  {
    if f in g && g[f].materialize == Latest {
      runs := [];
      match ReadMaterialized(g, env, f, pin) {
        case Found(v) => return Ok(v), [];
        case NotMaterialized => return Err(Missing(f)), [];
        case Unusable(e) => return Err(e), [];
      }
    }
    if f in g {
      OnDemandRead(g, env, f, pin);
    }
    var request := new Request(g, env);
    r := request.Evaluate(f, pin);
    runs := request.runs;
  }

  // ---------------------------------------------------------------- the pin stays at the root

  /** The environments may differ in how algorithms run under a pin, and in nothing else. */
  ghost predicate SameUnpinned<V(!new)>(env: Env<V>, env': Env<V>) {
    && (forall f :: env.readData(f) == env'.readData(f))
    && (forall f :: env.projection(f) == env'.projection(f))
    && (forall a :: env.registered(a) == env'.registered(a))
    && (forall f, inputs :: env.compute(f, inputs, None) == env'.compute(f, inputs, None))
  }

  /** The tables gathered for a factor do not depend on what any pin would do. */
  lemma {:induction false} PinNeverReachesInputs<V(!new)>(g: Graph, env: Env<V>, env': Env<V>, f: FactorId, k: nat)
    requires Acyclic(g) && f in g && k <= |g[f].factorInputs| && SameUnpinned(env, env')
    ensures PlainInputs(g, env, f, k) == PlainInputs(g, env', f, k)
    decreases |Closure(g, f)|, k
  {
    if k > 0 {
      var u := g[f].factorInputs[k - 1];
      DirectInputReached(g, f, u);
      ClosureOfInput(g, f, u);
      PinNeverReachesInputs(g, env, env', f, k - 1);
      if u in g {
        PinNeverReachesInputs(g, env, env', u, |g[u].factorInputs|);
      }
      assert Plain(g, env, u, None) == Plain(g, env', u, None);
      assert PlainInput(g, env, u) == PlainInput(g, env', u);
    }
  }

  /** A pinned read is the algorithm under the pin applied to tables computed without it. */
  lemma PinAppliesAtTheRootOnly<V(!new)>(g: Graph, env: Env<V>, env': Env<V>, f: FactorId, pin: Option<string>)
    requires Acyclic(g) && SameUnpinned(env, env')
    requires forall inputs :: env.compute(f, inputs, pin) == env'.compute(f, inputs, pin)
    ensures PlainRead(g, env, f, pin) == PlainRead(g, env', f, pin)
  {
    if f in g {
      PinNeverReachesInputs(g, env, env', f, |g[f].factorInputs|);
    }
  }
}
