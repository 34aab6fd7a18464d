/** Materialisation of latest factors. Every stored projection carries the identity of the algorithm that
    wrote it and a fingerprint of its upstream algorithms; the question is what those audit columns say
    about the value beside them, after any number of algorithm upgrades and recomputations. */
module DerivedEngines {
  import opened Wrappers
  import opened FactorGraphs
  import Strings

  // ---------------------------------------------------------------- identities and fingerprints

  function Decimal(n: nat): string {
    var digit := ['0' + (n % 10) as char];
    if n < 10 then digit else Decimal(n / 10) + digit
  }

  /** The audit identity `id@vN`. */
  function Identity(algorithmId: string, version: nat): string {
    algorithmId + "@v" + Decimal(version)
  }

  lemma {:induction false} DecimalIsClean(n: nat)
    ensures Strings.BAR !in Decimal(n)
  {
    if n >= 10 {
      DecimalIsClean(n / 10);
    }
  }

  lemma IdentityIsClean(algorithmId: string, version: nat)
    requires Strings.BAR !in algorithmId
    ensures Strings.Clean(Identity(algorithmId, version))
  {
    DecimalIsClean(version);
  }

  // ---------------------------------------------------------------- an identity tells algorithms and versions apart

  predicate Digit(c: char) {
    '0' <= c <= '9'
  }

  lemma {:induction false} DecimalHasDigits(n: nat)
    ensures Decimal(n) != [] && forall i :: 0 <= i < |Decimal(n)| ==> Digit(Decimal(n)[i])
  {
    if n >= 10 {
      DecimalHasDigits(n / 10);
    }
  }

  lemma {:induction false} DecimalInjective(m: nat, n: nat)
    requires Decimal(m) == Decimal(n)
    ensures m == n
  {
    DecimalHasDigits(m / 10);
    DecimalHasDigits(n / 10);
    var a, b := Decimal(m), Decimal(n);
    assert a[|a| - 1] == '0' + (m % 10) as char && b[|b| - 1] == '0' + (n % 10) as char;
    if m >= 10 && n >= 10 {
      assert a[..|a| - 1] == Decimal(m / 10) && b[..|b| - 1] == Decimal(n / 10);
      DecimalInjective(m / 10, n / 10);
    }
  }

  /** The letter before the version stands further left than any digit of a shorter version. */
  lemma NoLongerVersion(a: string, v: nat, b: string, w: nat)
    requires Identity(a, v) == Identity(b, w)
    ensures |Decimal(v)| >= |Decimal(w)|
  {
    DecimalHasDigits(w);
    var s := Identity(a, v);
    assert s[|a| + 1] == 'v';
    assert forall i :: |b| + 2 <= i < |s| ==> s[i] == Decimal(w)[i - |b| - 2];
  }

  /** Two identities agree only when both the algorithm and its version do. */
  lemma IdentityInjective(a: string, v: nat, b: string, w: nat)
    ensures Identity(a, v) == Identity(b, w) ==> a == b && v == w
  {
    if Identity(a, v) == Identity(b, w) {
      NoLongerVersion(a, v, b, w);
      NoLongerVersion(b, w, a, v);
      var s := Identity(a, v);
      assert s[..|a|] == a && s[..|b|] == b;
      assert s[|a| + 2..] == Decimal(v) && s[|b| + 2..] == Decimal(w);
      DecimalInjective(v, w);
    }
  }

  function NodeIdentity(node: FactorNode): string {
    Identity(node.algorithmId, node.algorithmVersion)
  }

  /** The truncated hash is taken to be injective on payloads. */
  datatype Fingerprint = Digest(payload: string)

  ghost function UpstreamIdentities(g: Graph, f: FactorId): set<string> {
    set u | u in Closure(g, f) && u in g :: NodeIdentity(g[u])
  }

  ghost function FingerprintOf(g: Graph, f: FactorId): Fingerprint {
    Digest(Strings.Payload(UpstreamIdentities(g, f)))
  }

  method ComputeFingerprint(g: Graph, f: FactorId) returns (fingerprint: Fingerprint)
    ensures fingerprint == FingerprintOf(g, f)
  {
    var closure := UpstreamClosure(g, f);
    var identities := set u | u in closure && u in g :: NodeIdentity(g[u]);
    assert identities == UpstreamIdentities(g, f);
    fingerprint := Digest(Strings.Payload(identities));
  }

  /** What the start-up consistency check guarantees of a dictionary. */
  ghost predicate Admitted(g: Graph) {
    && Acyclic(g)
    && (forall f, u {:trigger Feeds(g, f, u)} :: Feeds(g, f, u) ==> u in g)
    && (forall f :: f in g ==> Strings.BAR !in g[f].algorithmId)
  }

  lemma UpstreamIdentitiesClean(g: Graph, f: FactorId)
    requires Admitted(g)
    ensures Strings.AllClean(UpstreamIdentities(g, f))
    ensures Strings.Labels(FingerprintOf(g, f).payload) == UpstreamIdentities(g, f)
  {
    forall x | x in UpstreamIdentities(g, f) ensures Strings.Clean(x) {
      var u :| u in Closure(g, f) && u in g && x == NodeIdentity(g[u]);
      IdentityIsClean(g[u].algorithmId, g[u].algorithmVersion);
    }
    Strings.PayloadRoundTrip(UpstreamIdentities(g, f));
  }

  /** The algorithms that contribute to `f`, with their versions. */
  ghost function UpstreamVersions(g: Graph, f: FactorId): set<(string, nat)> {
    set u | u in Closure(g, f) && u in g :: (g[u].algorithmId, g[u].algorithmVersion)
  }

  lemma VersionsFromIdentities(g: Graph, g': Graph, f: FactorId)
    requires UpstreamIdentities(g, f) == UpstreamIdentities(g', f)
    ensures UpstreamVersions(g, f) <= UpstreamVersions(g', f)
  {
    forall p | p in UpstreamVersions(g, f) ensures p in UpstreamVersions(g', f) {
      assert Identity(p.0, p.1) in UpstreamIdentities(g', f);
      var w :| w in Closure(g', f) && w in g' && NodeIdentity(g'[w]) == Identity(p.0, p.1);
      IdentityInjective(g'[w].algorithmId, g'[w].algorithmVersion, p.0, p.1);
    }
  }

  lemma IdentitiesFromVersions(g: Graph, g': Graph, f: FactorId)
    requires UpstreamVersions(g, f) == UpstreamVersions(g', f)
    ensures UpstreamIdentities(g, f) <= UpstreamIdentities(g', f)
  {
    forall x | x in UpstreamIdentities(g, f) ensures x in UpstreamIdentities(g', f) {
      var u :| u in Closure(g, f) && u in g && NodeIdentity(g[u]) == x;
      assert (g[u].algorithmId, g[u].algorithmVersion) in UpstreamVersions(g', f);
    }
  }

  /** A fingerprint changes exactly when the set of upstream identities does, and so exactly when the set of upstream
      algorithms and versions does. */
  lemma FingerprintTracksIdentitySet(g: Graph, g': Graph, f: FactorId)
    requires Admitted(g) && Admitted(g')
    ensures FingerprintOf(g, f) == FingerprintOf(g', f) <==> UpstreamIdentities(g, f) == UpstreamIdentities(g', f)
    ensures FingerprintOf(g, f) == FingerprintOf(g', f) <==> UpstreamVersions(g, f) == UpstreamVersions(g', f)
  {
    UpstreamIdentitiesClean(g, f);
    UpstreamIdentitiesClean(g', f);
    if UpstreamIdentities(g, f) == UpstreamIdentities(g', f) {
      VersionsFromIdentities(g, g', f);
      VersionsFromIdentities(g', g, f);
    }
    if UpstreamVersions(g, f) == UpstreamVersions(g', f) {
      IdentitiesFromVersions(g, g', f);
      IdentitiesFromVersions(g', g, f);
    }
  }

  // ---------------------------------------------------------------- stored projections

  /** What an algorithm returned and the inputs it was computed from, whether or not there are rows in it. */
  datatype Value = Value(factor: FactorId, identity: string, inputs: seq<Value>, empty: bool)

  datatype Projection = Projection(algorithmId: string, algorithmVersion: nat, fingerprint: Fingerprint, value: Value)

  type Store = map<FactorId, Projection>

  /** Which contributors to follow: all of them, or only those whose result had rows. */
  datatype Trace = All | WithRows

  /** Which factor contributed under which algorithm identity, transitively. */
  ghost function Used(v: Value, t: Trace): set<(FactorId, string)> {
    if t.WithRows? && v.empty then {} else {(v.factor, v.identity)} + UsedByAll(v.inputs, t)
  }

  ghost function UsedByAll(vs: seq<Value>, t: Trace): set<(FactorId, string)> {
    if vs == [] then {} else Used(vs[0], t) + UsedByAll(vs[1..], t)
  }

  ghost function UsedUpstream(v: Value, t: Trace): set<(FactorId, string)> {
    UsedByAll(v.inputs, t)
  }

  /** Neither the value nor anything it was computed from is empty. */
  ghost predicate NoEmptyInside(v: Value) {
    !v.empty && forall i :: 0 <= i < |v.inputs| ==> NoEmptyInside(v.inputs[i])
  }

  ghost predicate NoEmptyUpstream(v: Value) {
    forall i :: 0 <= i < |v.inputs| ==> NoEmptyInside(v.inputs[i])
  }

  lemma {:induction false} UsedByAllMember(vs: seq<Value>, t: Trace, p: (FactorId, string))
    ensures p in UsedByAll(vs, t) <==> exists i :: 0 <= i < |vs| && p in Used(vs[i], t)
  {
    if vs != [] {
      UsedByAllMember(vs[1..], t, p);
      if p in UsedByAll(vs[1..], t) {
        var i :| 0 <= i < |vs[1..]| && p in Used(vs[1..][i], t);
        assert p in Used(vs[i + 1], t);
      }
      if exists i :: 0 <= i < |vs| && p in Used(vs[i], t) {
        var i :| 0 <= i < |vs| && p in Used(vs[i], t);
        if i > 0 {
          assert p in Used(vs[1..][i - 1], t);
        }
      }
    }
  }

  ghost function Identities(pairs: set<(FactorId, string)>): set<string> {
    set p | p in pairs :: p.1
  }

  // ---------------------------------------------------------------- materialize()

  datatype Error = UnknownFactor | NotLatest | NotMaterialized | UpstreamStale | ComputationFailed

  /** What running the algorithm comes to; it depends on data the model does not look into. */
  datatype Outcome = Raised | ReturnedNoRows | ReturnedRows

  /** The stored audit columns match the dictionary as it stands. */
  ghost predicate Current(g: Graph, p: Projection, u: FactorId)
    requires u in g
  {
    p.algorithmId == g[u].algorithmId && p.algorithmVersion == g[u].algorithmVersion && p.fingerprint == FingerprintOf(g, u)
  }

  ghost function UpstreamError(g: Graph, store: Store, u: FactorId): (e: Option<Error>)
    ensures e.Some? ==> e.value == NotMaterialized || e.value == UpstreamStale
  {
    if u !in g then None
    else if u !in store then Some(NotMaterialized)
    else if store[u].value.empty || Current(g, store[u], u) then None
    else Some(UpstreamStale)
  }

  /** What the audit finds after a deployment: of a projection with rows that was current before, exactly a change of its
      own algorithm or version, or of the set of upstream ones. */
  lemma AuditIsExact(g: Graph, h: Graph, store: Store, u: FactorId)
    requires Admitted(g) && Admitted(h) && u in g && u in h
    requires u in store && !store[u].value.empty && Current(g, store[u], u)
    ensures UpstreamError(h, store, u) ==
              if h[u].algorithmId == g[u].algorithmId && h[u].algorithmVersion == g[u].algorithmVersion
                 && UpstreamVersions(h, u) == UpstreamVersions(g, u) then None else Some(UpstreamStale)
  {
    FingerprintTracksIdentitySet(g, h, u);
  }

  /** Some other factor of the closure runs under this algorithm and version. */
  ghost predicate RunsElsewhere(g: Graph, u: FactorId, x: FactorId, version: nat) {
    && x in g
    && exists y :: (y in Closure(g, u) && y in g && y != x
                    && g[y].algorithmId == g[x].algorithmId && g[y].algorithmVersion == version)
  }

  /** The upgrade of one upstream factor is found, unless both versions run elsewhere in the closure as well. */
  lemma UpgradeIsFound(g: Graph, store: Store, u: FactorId, x: FactorId, version: nat)
    requires Admitted(g) && u in g && u in store && !store[u].value.empty && Current(g, store[u], u)
    requires x in Closure(g, u) && x in g && version != g[x].algorithmVersion
    ensures UpstreamError(g[x := g[x].(algorithmVersion := version)], store, u) ==
              if RunsElsewhere(g, u, x, g[x].algorithmVersion) && RunsElsewhere(g, u, x, version) then None
              else Some(UpstreamStale)
  {
    var h := g[x := g[x].(algorithmVersion := version)];
    UpgradeKeepsEdges(g, h, u, x);
    AuditIsExact(g, h, store, u);
    UpgradedVersions(g, h, u, x, version);
  }

  lemma UpgradeKeepsEdges(g: Graph, h: Graph, u: FactorId, x: FactorId)
    requires Admitted(g) && x in g && u in g && x in Closure(g, u)
    requires SameInputs(g, h) && forall f :: f in g && f != x ==> h[f] == g[f]
    requires h[x].algorithmId == g[x].algorithmId
    ensures Admitted(h) && u != x
    ensures forall f :: Closure(h, f) == Closure(g, f)
  {
    NoReturn(g, u);
    SameEdges(g, h);
    forall f, v | Feeds(h, f, v) ensures v in h {
      assert Feeds(g, f, v);
    }
  }

  lemma UpgradedVersions(g: Graph, h: Graph, u: FactorId, x: FactorId, version: nat)
    requires x in Closure(g, u) && x in g && h == g[x := g[x].(algorithmVersion := version)] && Closure(h, u) == Closure(g, u)
    requires version != g[x].algorithmVersion
    ensures UpstreamVersions(h, u) == UpstreamVersions(g, u) <==>
              RunsElsewhere(g, u, x, g[x].algorithmVersion) && RunsElsewhere(g, u, x, version)
  {
    var older, newer := (g[x].algorithmId, g[x].algorithmVersion), (g[x].algorithmId, version);
    var others := set y | y in Closure(g, u) && y in g && y != x :: (g[y].algorithmId, g[y].algorithmVersion);
    assert UpstreamVersions(g, u) == others + {older};
    assert UpstreamVersions(h, u) == others + {newer};
    assert older in others <==> RunsElsewhere(g, u, x, g[x].algorithmVersion);
    assert newer in others <==> RunsElsewhere(g, u, x, version);
  }

  /** The first complaint about the listed factors. */
  ghost function FirstError(g: Graph, store: Store, ups: seq<FactorId>): (e: Option<Error>)
    ensures e.Some? ==> e.value == NotMaterialized || e.value == UpstreamStale
  {
    if ups == [] then None
    else if UpstreamError(g, store, ups[0]).Some? then UpstreamError(g, store, ups[0])
    else FirstError(g, store, ups[1..])
  }

  lemma {:induction false} NoFirstError(g: Graph, store: Store, ups: seq<FactorId>)
    ensures FirstError(g, store, ups).None? <==> forall u :: u in ups ==> UpstreamError(g, store, u).None?
  {
    if ups != [] {
      NoFirstError(g, store, ups[1..]);
    }
  }

  /** Every factor that contributes to `f` is materialised, and empty or current. */
  ghost predicate UpstreamReady(g: Graph, store: Store, f: FactorId) {
    forall u {:trigger u in Closure(g, f)} :: u in Closure(g, f) ==> UpstreamError(g, store, u).None?
  }

  lemma ReadyMeansNoError(g: Graph, store: Store, f: FactorId)
    ensures FirstError(g, store, SortedIds(Closure(g, f))).None? <==> UpstreamReady(g, store, f)
  {
    NoFirstError(g, store, SortedIds(Closure(g, f)));
  }

  ghost predicate Succeeds(g: Graph, store: Store, f: FactorId, outcome: Outcome) {
    f in g && g[f].materialize == Latest && UpstreamReady(g, store, f) && !outcome.Raised?
  }

  function InputValues(store: Store, ups: seq<FactorId>): (vs: seq<Value>)
    requires forall u :: u in ups ==> u in store
    ensures |vs| == |ups| && forall i :: 0 <= i < |ups| ==> vs[i] == store[ups[i]].value
  {
    if ups == [] then [] else [store[ups[0]].value] + InputValues(store, ups[1..])
  }

  /** The algorithm a call pins, or the one the dictionary names. */
  function Chosen(node: FactorNode, pin: Option<(string, nat)>): (string, nat) {
    if pin.Some? then pin.value else (node.algorithmId, node.algorithmVersion)
  }

  /** The projection a successful call leaves behind. */
  ghost function NewProjection(g: Graph, store: Store, f: FactorId, pin: Option<(string, nat)>, outcome: Outcome): Projection
    requires f in g && forall u :: u in g[f].factorInputs ==> u in store
  {
    var chosen := Chosen(g[f], pin);
    var value := Value(f, Identity(chosen.0, chosen.1), InputValues(store, g[f].factorInputs), outcome.ReturnedNoRows?);
    Projection(chosen.0, chosen.1, FingerprintOf(g, f), value)
  }

  lemma InputsReadable(g: Graph, store: Store, f: FactorId)
    requires Admitted(g) && f in g && UpstreamReady(g, store, f)
    ensures forall u {:trigger u in Closure(g, f)} :: u in Closure(g, f) ==> u in g && u in store
    ensures forall u :: u in g[f].factorInputs ==> u in store && u in Closure(g, f)
  {
    forall u | u in Closure(g, f) ensures u in g && u in store {
      ClosureIsRegistered(g, f, u);
    }
    forall u | u in g[f].factorInputs ensures u in Closure(g, f) {
      DirectInputReached(g, f, u);
    }
  }

  lemma ClosureIsRegistered(g: Graph, f: FactorId, u: FactorId)
    requires Admitted(g) && u in Closure(g, f)
    ensures u in g
  {
    ClosureIsLeast(g, f, g.Keys);
  }

  ghost function AfterMaterialize(g: Graph, store: Store, f: FactorId, pin: Option<(string, nat)>, outcome: Outcome): Store
    requires Admitted(g)
  {
    if Succeeds(g, store, f, outcome) then
      InputsReadable(g, store, f);
      store[f := NewProjection(g, store, f, pin, outcome)]
    else store
  }

  /** A successful materialisation records the algorithm that ran, pinned or the dictionary's, the fingerprint of the
      dictionary in force, and in the value the identity and the stored values of the inputs, in order; no other
      projection changes. */
  lemma MaterializeRecords(g: Graph, store: Store, f: FactorId, pin: Option<(string, nat)>, outcome: Outcome)
    requires Admitted(g) && Succeeds(g, store, f, outcome)
    ensures var after := AfterMaterialize(g, store, f, pin, outcome);
            && after.Keys == store.Keys + {f} && (forall u :: u in store && u != f ==> after[u] == store[u])
            && (after[f].algorithmId, after[f].algorithmVersion) ==
                 (match pin case Some(chosen) => chosen case None => (g[f].algorithmId, g[f].algorithmVersion))
            && after[f].fingerprint == FingerprintOf(g, f)
            && after[f].value.factor == f && after[f].value.identity == Identity(after[f].algorithmId, after[f].algorithmVersion)
            && (after[f].value.empty <==> outcome == ReturnedNoRows)
            && |after[f].value.inputs| == |g[f].factorInputs|
            && (forall i :: 0 <= i < |g[f].factorInputs| ==>
                  g[f].factorInputs[i] in store && after[f].value.inputs[i] == store[g[f].factorInputs[i]].value)
  {
    InputsReadable(g, store, f);
  }

  /** The tables and generation stamps that outlive any one engine. */
  class Warehouse {
    var projections: Store
    var generations: map<FactorId, string>

    constructor ()
      ensures projections == map[] && generations == map[]
    {
      projections, generations := map[], map[];
    }
  }

  /** One deployment: an immutable dictionary over the shared warehouse. */
  class DerivedEngine {
    const graph: Graph
    const warehouse: Warehouse

    constructor (graph: Graph, warehouse: Warehouse)
      requires Admitted(graph)
      ensures this.graph == graph && this.warehouse == warehouse
    {
      this.graph := graph;
      this.warehouse := warehouse;
    }

    method CheckUpstreams(f: FactorId) returns (error: Option<Error>)
      ensures error == FirstError(graph, warehouse.projections, SortedIds(Closure(graph, f)))
      ensures error.None? <==> UpstreamReady(graph, warehouse.projections, f)
      ensures error.Some? ==> error.value == NotMaterialized || error.value == UpstreamStale
    {
      var ups := UpstreamClosure(graph, f);
      ReadyMeansNoError(graph, warehouse.projections, f);
      error := None;
      for k := 0 to |ups|
        invariant error.None?
        invariant FirstError(graph, warehouse.projections, ups) == FirstError(graph, warehouse.projections, ups[k..])
      {
        assert ups[k..][0] == ups[k] && ups[k..][1..] == ups[k + 1..];
        error := CheckUpstream(ups[k]);
        if error.Some? {
          return;
        }
      }
    }

    /** The body of the loop: an empty projection has no audit columns to compare. */
    method CheckUpstream(u: FactorId) returns (error: Option<Error>)
      ensures error == UpstreamError(graph, warehouse.projections, u)
    {
      if u !in graph {
        return None;
      }
      if u !in warehouse.projections {
        return Some(NotMaterialized);
      }
      var stored := warehouse.projections[u];
      if stored.value.empty {
        return None;
      }
      var expected := ComputeFingerprint(graph, u);
      var node := graph[u];
      if stored.algorithmId != node.algorithmId || stored.algorithmVersion != node.algorithmVersion
         || stored.fingerprint != expected {
        return Some(UpstreamStale);
      }
      error := None;
    }

    /** Replaces the projection as a whole, or leaves the warehouse alone. */
    method Materialize(f: FactorId, pin: Option<(string, nat)>, outcome: Outcome, stamp: string) returns (error: Option<Error>)
      requires Admitted(graph)
      modifies warehouse
      ensures error.None? <==> Succeeds(graph, old(warehouse.projections), f, outcome)
      ensures error == Some(UnknownFactor) <==> f !in graph
      ensures f in graph ==> (error == Some(NotLatest) <==> graph[f].materialize != Latest)
      ensures error == Some(ComputationFailed) ==> UpstreamReady(graph, old(warehouse.projections), f)
      ensures error.None? ==> warehouse.projections == AfterMaterialize(graph, old(warehouse.projections), f, pin, outcome)
      ensures error.None? ==> warehouse.generations == old(warehouse.generations)[f := stamp]
      ensures error.Some? ==> warehouse.projections == old(warehouse.projections)
      ensures error.Some? ==> warehouse.generations == old(warehouse.generations)
    {
      if f !in graph {
        return Some(UnknownFactor);
      }
      var node := graph[f];
      if node.materialize != Latest {
        return Some(NotLatest);
      }
      error := CheckUpstreams(f);
      if error.Some? {
        return;
      }
      if outcome.Raised? {
        return Some(ComputationFailed);
      }
      Replace(f, pin, outcome, stamp);
      error := None;
    }

    /** Computes the value from the upstream projections and swaps the finished table in. */
    method Replace(f: FactorId, pin: Option<(string, nat)>, outcome: Outcome, stamp: string)
      requires Admitted(graph) && Succeeds(graph, warehouse.projections, f, outcome)
      modifies warehouse
      ensures warehouse.projections == AfterMaterialize(graph, old(warehouse.projections), f, pin, outcome)
      ensures warehouse.generations == old(warehouse.generations)[f := stamp]
    {
      InputsReadable(graph, warehouse.projections, f);
      var node := graph[f];
      var chosen := Chosen(node, pin);
      var inputs := InputValues(warehouse.projections, node.factorInputs);
      var value := Value(f, Identity(chosen.0, chosen.1), inputs, outcome.ReturnedNoRows?);
      var fingerprint := ComputeFingerprint(graph, f);
      warehouse.projections := warehouse.projections[f := Projection(chosen.0, chosen.1, fingerprint, value)];
      warehouse.generations := warehouse.generations[f := stamp];
    }
  }

  // ---------------------------------------------------------------- runs

  /** A deployment of a new dictionary, or one materialisation under the dictionary in force. */
  datatype Step = Deploy(graph: Graph) | Materialise(factor: FactorId, pin: Option<(string, nat)>, outcome: Outcome)

  datatype Platform = Platform(graph: Graph, store: Store)

  ghost predicate Allowed(step: Step) {
    step.Deploy? ==> Admitted(step.graph)
  }

  ghost predicate AllAllowed(steps: seq<Step>) {
    forall s :: s in steps ==> Allowed(s)
  }

  ghost function Apply(p: Platform, step: Step): (p': Platform)
    requires Admitted(p.graph) && Allowed(step)
    ensures Admitted(p'.graph)
  {
    match step
    case Deploy(g) => p.(graph := g)
    case Materialise(f, pin, outcome) => p.(store := AfterMaterialize(p.graph, p.store, f, pin, outcome))
  }

  ghost function Run(steps: seq<Step>): (p: Platform)
    requires AllAllowed(steps)
    ensures Admitted(p.graph)
  {
    if steps == [] then
      EmptyIsAdmitted();
      Platform(map[], map[])
    else
      Apply(Run(steps[..|steps| - 1]), steps[|steps| - 1])
  }

  lemma EmptyIsAdmitted()
    ensures Admitted(map[])
  {
    RankedMeansAcyclic(map[], map[]);
  }

  /** A direct input and what lies above it make up the closure. */
  lemma ClosureThroughInput(g: Graph, f: FactorId, w: FactorId) returns (u: FactorId)
    requires w in Closure(g, f)
    ensures Feeds(g, f, u) && (w == u || w in Closure(g, u))
  {
    var walk :| WalkBetween(g, walk, f, w);
    u := walk[1];
    assert Linked(g, walk, 0);
    if w != u {
      assert |walk| > 2;
      var tail := walk[1..];
      forall i | 0 <= i < |tail| - 1 ensures Linked(g, tail, i) {
        assert Linked(g, walk, i + 1);
      }
      assert WalkBetween(g, tail, u, w);
      ReachedIsMentioned(g, u, w);
    }
  }

  // ---------------------------------------------------------------- no hidden vintage

  /** The fingerprint names every identity that contributed, and the stored identity is the one that ran. */
  ghost predicate Covered(p: Projection, t: Trace) {
    && Identities(UsedUpstream(p.value, t)) <= Strings.Labels(p.fingerprint.payload)
    && p.value.identity == Identity(p.algorithmId, p.algorithmVersion)
  }

  ghost predicate AllCovered(store: Store, t: Trace) {
    forall f :: f in store ==> Covered(store[f], t)
  }

  /** What the audit does not look at: the empty direct inputs bring along only identities of the closure. */
  ghost predicate EmptiesNamed(g: Graph, store: Store, f: FactorId)
    requires f in g
  {
    forall u :: u in g[f].factorInputs && u in store && store[u].value.empty ==>
      Identities(Used(store[u].value, All)) <= UpstreamIdentities(g, f)
  }

  /** An upstream projection that matches the dictionary brings along only identities of the closure. */
  lemma BroughtByCurrent(g: Graph, store: Store, f: FactorId, u: FactorId, t: Trace)
    requires Admitted(g) && u in Closure(g, f) && u in g && u in store && Covered(store[u], t) && Current(g, store[u], u)
    ensures Identities(Used(store[u].value, t)) <= UpstreamIdentities(g, f)
  {
    var v := store[u].value;
    UpstreamIdentitiesClean(g, u);
    ClosureOfInput(g, f, u);
    forall p | p in Used(v, t) ensures p.1 in UpstreamIdentities(g, f) {
      if p != (v.factor, v.identity) {
        assert p.1 in Identities(UsedUpstream(v, t));
        var w :| w in Closure(g, u) && w in g && p.1 == NodeIdentity(g[w]);
        assert w in Closure(g, f);
      }
    }
  }

  /** The new value uses only identities of the closure, unless an empty input hides others. */
  lemma NewValueStaysInClosure(g: Graph, store: Store, f: FactorId, t: Trace)
    requires Admitted(g) && AllCovered(store, t) && f in g && UpstreamReady(g, store, f)
    requires t.WithRows? || EmptiesNamed(g, store, f)
    ensures forall u :: u in g[f].factorInputs ==> u in store
    ensures Identities(UsedByAll(InputValues(store, g[f].factorInputs), t)) <= UpstreamIdentities(g, f)
  {
    InputsReadable(g, store, f);
    var values := InputValues(store, g[f].factorInputs);
    forall x | x in Identities(UsedByAll(values, t)) ensures x in UpstreamIdentities(g, f) {
      var p :| p in UsedByAll(values, t) && x == p.1;
      UsedByAllMember(values, t, p);
      var i :| 0 <= i < |values| && p in Used(values[i], t);
      var u := g[f].factorInputs[i];
      assert UpstreamError(g, store, u).None?;
      assert x in Identities(Used(store[u].value, t));
      if !store[u].value.empty {
        BroughtByCurrent(g, store, f, u, t);
      }
    }
  }

  /** And an empty input that brings along a foreign identity does hide it. */
  lemma ForeignIsHidden(g: Graph, store: Store, f: FactorId)
    requires Admitted(g) && f in g && UpstreamReady(g, store, f)
    requires !EmptiesNamed(g, store, f)
    ensures forall u :: u in g[f].factorInputs ==> u in store
    ensures !(Identities(UsedByAll(InputValues(store, g[f].factorInputs), All)) <= UpstreamIdentities(g, f))
  {
    InputsReadable(g, store, f);
    var values := InputValues(store, g[f].factorInputs);
    var u :| u in g[f].factorInputs && u in store && store[u].value.empty &&
             !(Identities(Used(store[u].value, All)) <= UpstreamIdentities(g, f));
    var p :| p in Used(store[u].value, All) && p.1 !in UpstreamIdentities(g, f);
    var i :| 0 <= i < |values| && g[f].factorInputs[i] == u;
    assert p in Used(values[i], All);
    UsedByAllMember(values, All, p);
    assert p.1 in Identities(UsedByAll(values, All));
  }

  /** One materialisation over covered projections names all contributors exactly when its empty inputs hide none. */
  lemma MaterializeCovers(g: Graph, store: Store, f: FactorId, pin: Option<(string, nat)>, outcome: Outcome)
    requires Admitted(g) && AllCovered(store, All) && f in g && UpstreamReady(g, store, f)
    ensures forall u :: u in g[f].factorInputs ==> u in store
    ensures Covered(NewProjection(g, store, f, pin, outcome), All) <==> EmptiesNamed(g, store, f)
  {
    InputsReadable(g, store, f);
    UpstreamIdentitiesClean(g, f);
    if EmptiesNamed(g, store, f) {
      NewValueStaysInClosure(g, store, f, All);
    } else {
      ForeignIsHidden(g, store, f);
    }
  }

  lemma OneMoreCovered(store: Store, f: FactorId, p: Projection)
    requires AllCovered(store, All)
    ensures AllCovered(store[f := p], All) <==> Covered(p, All)
  {
    assert f in store[f := p] && store[f := p][f] == p;
  }

  lemma MaterializeKeepsRowsCovered(g: Graph, store: Store, f: FactorId, pin: Option<(string, nat)>, outcome: Outcome)
    requires Admitted(g) && AllCovered(store, WithRows)
    ensures AllCovered(AfterMaterialize(g, store, f, pin, outcome), WithRows)
  {
    if Succeeds(g, store, f, outcome) {
      NewValueStaysInClosure(g, store, f, WithRows);
      UpstreamIdentitiesClean(g, f);
      assert Covered(NewProjection(g, store, f, pin, outcome), WithRows);
    }
  }

  /** Over every run of upgrades and materialisations, a stored fingerprint names every algorithm identity
      whose rows went into the stored value, however indirectly. */
  lemma {:induction false} RowsAreNamed(steps: seq<Step>)
    requires AllAllowed(steps)
    ensures AllCovered(Run(steps).store, WithRows)
  {
    if steps != [] {
      var before := steps[..|steps| - 1];
      RowsAreNamed(before);
      match steps[|steps| - 1]
      case Deploy(_) =>
      case Materialise(f, pin, outcome) =>
        MaterializeKeepsRowsCovered(Run(before).graph, Run(before).store, f, pin, outcome);
    }
  }

  /** After every step of the run every fingerprint names every contributor. */
  ghost predicate CoveredThroughout(steps: seq<Step>)
    requires AllAllowed(steps)
  {
    steps == [] || (CoveredThroughout(steps[..|steps| - 1]) && AllCovered(Run(steps).store, All))
  }

  /** No materialisation of the run found an empty direct input that brings along an identity outside the closure. */
  ghost predicate EmptiesNamedThroughout(steps: seq<Step>)
    requires AllAllowed(steps)
  {
    steps == [] ||
    var before, last := Run(steps[..|steps| - 1]), steps[|steps| - 1];
    && EmptiesNamedThroughout(steps[..|steps| - 1])
    && (last.Materialise? && Succeeds(before.graph, before.store, last.factor, last.outcome) ==>
          EmptiesNamed(before.graph, before.store, last.factor))
  }

  /** Over every run, the fingerprints name every algorithm identity that contributed, through empty results too,
      exactly when no materialisation was let through by the audit on an empty input with a foreign identity. */
  lemma {:induction false} NoHiddenVintage(steps: seq<Step>)
    requires AllAllowed(steps)
    ensures CoveredThroughout(steps) <==> EmptiesNamedThroughout(steps)
  {
    if steps != [] {
      var before := steps[..|steps| - 1];
      NoHiddenVintage(before);
      if CoveredThroughout(before) {
        assert AllCovered(Run(before).store, All);
        match steps[|steps| - 1]
        case Deploy(_) =>
        case Materialise(f, pin, outcome) =>
          var p := Run(before);
          if Succeeds(p.graph, p.store, f, outcome) {
            MaterializeCovers(p.graph, p.store, f, pin, outcome);
            OneMoreCovered(p.store, f, NewProjection(p.graph, p.store, f, pin, outcome));
          }
      }
    }
  }

  // ---------------------------------------------------------------- exact fingerprints

  /** The fingerprint names the contributors and nothing else. */
  ghost predicate Exact(p: Projection) {
    && p.value.identity == Identity(p.algorithmId, p.algorithmVersion)
    && Identities(UsedUpstream(p.value, All)) == Strings.Labels(p.fingerprint.payload)
  }

  ghost predicate AllExact(store: Store) {
    forall f :: f in store ==> Exact(store[f])
  }

  /** The direct inputs are stored under the dictionary in force, with fingerprints that are exact. */
  ghost predicate InputsExact(g: Graph, store: Store, f: FactorId)
    requires f in g
  {
    forall u :: u in g[f].factorInputs ==> u in g && u in store && Exact(store[u]) && Current(g, store[u], u)
  }

  /** Every identity of the closure reaches the new value through some direct input. */
  lemma ReachesNewValue(g: Graph, store: Store, f: FactorId, w: FactorId)
    requires Admitted(g) && w in Closure(g, f) && w in g && f in g && InputsExact(g, store, f)
    ensures NodeIdentity(g[w]) in Identities(UsedByAll(InputValues(store, g[f].factorInputs), All))
  {
    var u := ClosureThroughInput(g, f, w);
    var i :| 0 <= i < |g[f].factorInputs| && g[f].factorInputs[i] == u;
    var v := store[u].value;
    assert Exact(store[u]) && Current(g, store[u], u);
    UpstreamIdentitiesClean(g, u);
    var p: (FactorId, string);
    if w == u {
      p := (v.factor, v.identity);
    } else {
      assert NodeIdentity(g[w]) in UpstreamIdentities(g, u);
      p :| p in UsedUpstream(v, All) && p.1 == NodeIdentity(g[w]);
    }
    assert p in Used(InputValues(store, g[f].factorInputs)[i], All);
    UsedByAllMember(InputValues(store, g[f].factorInputs), All, p);
  }

  lemma InputsStayInClosure(g: Graph, store: Store, f: FactorId, p: (FactorId, string))
    requires Admitted(g) && f in g && InputsExact(g, store, f)
    requires p in UsedByAll(InputValues(store, g[f].factorInputs), All)
    ensures p.1 in UpstreamIdentities(g, f)
  {
    var values := InputValues(store, g[f].factorInputs);
    UsedByAllMember(values, All, p);
    var i :| 0 <= i < |values| && p in Used(values[i], All);
    var u := g[f].factorInputs[i];
    DirectInputReached(g, f, u);
    assert Exact(store[u]);
    BroughtByCurrent(g, store, f, u, All);
    assert p.1 in Identities(Used(store[u].value, All));
  }

  /** A value computed from current, exact projections gets an exact fingerprint. */
  lemma NewProjectionIsExact(g: Graph, store: Store, f: FactorId, pin: Option<(string, nat)>, outcome: Outcome)
    requires Admitted(g) && f in g && InputsExact(g, store, f)
    ensures Exact(NewProjection(g, store, f, pin, outcome))
  {
    var used := UsedByAll(InputValues(store, g[f].factorInputs), All);
    UpstreamIdentitiesClean(g, f);
    forall x | x in Identities(used) ensures x in UpstreamIdentities(g, f) {
      var p :| p in used && x == p.1;
      InputsStayInClosure(g, store, f, p);
    }
    forall x | x in UpstreamIdentities(g, f) ensures x in Identities(used) {
      var w :| w in Closure(g, f) && w in g && x == NodeIdentity(g[w]);
      ReachesNewValue(g, store, f, w);
    }
  }

  ghost predicate ExactUnlessEmpty(store: Store) {
    forall f :: f in store && NoEmptyUpstream(store[f].value) ==> Exact(store[f])
  }

  /** Inputs with rows were audited, so they are current; with nothing empty behind them they are exact. */
  lemma AuditedInputIsExact(g: Graph, store: Store, f: FactorId, u: FactorId)
    requires Admitted(g) && ExactUnlessEmpty(store) && f in g && UpstreamReady(g, store, f) && u in g[f].factorInputs
    requires u in store ==> NoEmptyInside(store[u].value)
    ensures u in g && u in store && Exact(store[u]) && Current(g, store[u], u)
  {
    InputsReadable(g, store, f);
    assert UpstreamError(g, store, u).None?;
    assert NoEmptyUpstream(store[u].value);
  }

  lemma MaterializeKeepsExactUnlessEmpty(g: Graph, store: Store, f: FactorId, pin: Option<(string, nat)>, outcome: Outcome)
    requires Admitted(g) && ExactUnlessEmpty(store) && Succeeds(g, store, f, outcome)
    ensures ExactUnlessEmpty(AfterMaterialize(g, store, f, pin, outcome))
  {
    InputsReadable(g, store, f);
    var p := NewProjection(g, store, f, pin, outcome);
    if NoEmptyUpstream(p.value) {
      var ups := g[f].factorInputs;
      forall u | u in ups ensures u in g && u in store && Exact(store[u]) && Current(g, store[u], u) {
        var i :| 0 <= i < |ups| && ups[i] == u;
        assert NoEmptyInside(p.value.inputs[i]);
        AuditedInputIsExact(g, store, f, u);
      }
      NewProjectionIsExact(g, store, f, pin, outcome);
    }
  }

  /** Over every run, the fingerprint of a projection with nothing empty behind it is exact, whatever came out empty
      elsewhere or before. */
  lemma {:induction false} FingerprintIsExact(steps: seq<Step>)
    requires AllAllowed(steps)
    ensures forall f :: f in Run(steps).store && NoEmptyUpstream(Run(steps).store[f].value) ==> Exact(Run(steps).store[f])
  {
    if steps != [] {
      var before := steps[..|steps| - 1];
      FingerprintIsExact(before);
      match steps[|steps| - 1]
      case Deploy(_) =>
      case Materialise(f, pin, outcome) =>
        if Succeeds(Run(before).graph, Run(before).store, f, outcome) {
          MaterializeKeepsExactUnlessEmpty(Run(before).graph, Run(before).store, f, pin, outcome);
        }
    }
    assert ExactUnlessEmpty(Run(steps).store);
  }

  /** The empty direct inputs would pass the audit if it looked at them. */
  ghost predicate EmptiesCurrent(g: Graph, store: Store, f: FactorId)
    requires f in g
  {
    forall u :: u in g[f].factorInputs && u in g && u in store && store[u].value.empty ==> Current(g, store[u], u)
  }

  ghost predicate EmptiesCurrentThroughout(steps: seq<Step>)
    requires AllAllowed(steps)
  {
    steps == [] ||
    var before, last := Run(steps[..|steps| - 1]), steps[|steps| - 1];
    && EmptiesCurrentThroughout(steps[..|steps| - 1])
    && (last.Materialise? && Succeeds(before.graph, before.store, last.factor, last.outcome) ==>
          EmptiesCurrent(before.graph, before.store, last.factor))
  }

  /** Were empty projections audited like the others, every fingerprint of every run would be exact. */
  lemma {:induction false} AuditingEmptiesMakesExact(steps: seq<Step>)
    requires AllAllowed(steps) && EmptiesCurrentThroughout(steps)
    ensures AllExact(Run(steps).store)
  {
    if steps != [] {
      var before := steps[..|steps| - 1];
      AuditingEmptiesMakesExact(before);
      match steps[|steps| - 1]
      case Deploy(_) =>
      case Materialise(f, pin, outcome) =>
        var p := Run(before);
        if Succeeds(p.graph, p.store, f, outcome) {
          InputsReadable(p.graph, p.store, f);
          forall u | u in p.graph[f].factorInputs ensures u in p.graph && Current(p.graph, p.store[u], u) {
            assert UpstreamError(p.graph, p.store, u).None?;
          }
          NewProjectionIsExact(p.graph, p.store, f, pin, outcome);
        }
    }
  }

  // ---------------------------------------------------------------- what passing the audit means

  /** Every contributor belongs to the closure and ran under the identity its factor has now. */
  ghost predicate OneVintage(g: Graph, f: FactorId, v: Value, t: Trace) {
    forall p :: p in UsedUpstream(v, t) ==> p.0 in Closure(g, f) && p.0 in g && p.1 == NodeIdentity(g[p.0])
  }

  /** Each identity that any deployment or pin of the run uses belongs to one factor. */
  ghost predicate Owned(steps: seq<Step>, owner: map<string, FactorId>) {
    forall s :: s in steps ==>
      match s
      case Deploy(g) => forall f :: f in g ==> NodeIdentity(g[f]) in owner && owner[NodeIdentity(g[f])] == f
      case Materialise(f, pin, _) => pin.Some? ==>
        var identity := Identity(pin.value.0, pin.value.1); identity in owner && owner[identity] == f
  }

  ghost predicate OwnedGraph(g: Graph, owner: map<string, FactorId>) {
    forall f :: f in g ==> NodeIdentity(g[f]) in owner && owner[NodeIdentity(g[f])] == f
  }

  ghost predicate OwnedPairs(pairs: set<(FactorId, string)>, owner: map<string, FactorId>) {
    forall p :: p in pairs ==> p.1 in owner && owner[p.1] == p.0
  }

  ghost predicate OwnedStore(store: Store, owner: map<string, FactorId>) {
    forall f :: f in store ==> OwnedPairs(Used(store[f].value, All), owner)
  }

  lemma InputsAreOwned(store: Store, ups: seq<FactorId>, owner: map<string, FactorId>)
    requires OwnedStore(store, owner) && forall u :: u in ups ==> u in store
    ensures OwnedPairs(UsedByAll(InputValues(store, ups), All), owner)
  {
    forall q | q in UsedByAll(InputValues(store, ups), All) ensures q.1 in owner && owner[q.1] == q.0 {
      UsedByAllMember(InputValues(store, ups), All, q);
      var i :| 0 <= i < |ups| && q in Used(InputValues(store, ups)[i], All);
      assert OwnedPairs(Used(store[ups[i]].value, All), owner);
    }
  }

  lemma MaterializeKeepsOwned(g: Graph, store: Store, f: FactorId, pin: Option<(string, nat)>, outcome: Outcome,
                              owner: map<string, FactorId>)
    requires Admitted(g) && OwnedGraph(g, owner) && OwnedStore(store, owner)
    requires pin.Some? ==> Identity(pin.value.0, pin.value.1) in owner && owner[Identity(pin.value.0, pin.value.1)] == f
    ensures OwnedStore(AfterMaterialize(g, store, f, pin, outcome), owner)
  {
    if Succeeds(g, store, f, outcome) {
      InputsReadable(g, store, f);
      InputsAreOwned(store, g[f].factorInputs, owner);
      assert OwnedPairs(Used(NewProjection(g, store, f, pin, outcome).value, All), owner);
    }
  }

  lemma {:induction false} ContributorsAreOwned(steps: seq<Step>, owner: map<string, FactorId>)
    requires AllAllowed(steps) && Owned(steps, owner)
    ensures OwnedGraph(Run(steps).graph, owner) && OwnedStore(Run(steps).store, owner)
  {
    if steps != [] {
      var before, last := steps[..|steps| - 1], steps[|steps| - 1];
      assert last in steps && forall s :: s in before ==> s in steps;
      ContributorsAreOwned(before, owner);
      match last
      case Deploy(_) =>
      case Materialise(f, pin, outcome) =>
        MaterializeKeepsOwned(Run(before).graph, Run(before).store, f, pin, outcome, owner);
    }
  }

  /** Contributors with rows are contributors. */
  lemma {:induction false} RowsAreUsed(vs: seq<Value>)
    ensures UsedByAll(vs, WithRows) <= UsedByAll(vs, All)
    decreases vs
  {
    if vs != [] {
      RowsAreUsed(vs[0].inputs);
      RowsAreUsed(vs[1..]);
    }
  }

  /** If factors do not share algorithm identities, identities of the closure are its factors' present ones. */
  lemma NamedMeansOneVintage(g: Graph, f: FactorId, v: Value, t: Trace, owner: map<string, FactorId>)
    requires OwnedGraph(g, owner) && OwnedPairs(UsedByAll(v.inputs, All), owner)
    ensures OneVintage(g, f, v, t) <==> Identities(UsedUpstream(v, t)) <= UpstreamIdentities(g, f)
  {
    RowsAreUsed(v.inputs);
    if Identities(UsedUpstream(v, t)) <= UpstreamIdentities(g, f) {
      forall p | p in UsedUpstream(v, t) ensures p.0 in Closure(g, f) && p.0 in g && p.1 == NodeIdentity(g[p.0]) {
        assert p.1 in Identities(UsedUpstream(v, t));
        var w :| w in Closure(g, f) && w in g && p.1 == NodeIdentity(g[w]);
        assert owner[NodeIdentity(g[w])] == w;
      }
    }
  }

  /** If factors do not share algorithm identities, empty results are the only way to mix vintages under a matching
      fingerprint: the value mixes none at all exactly when the fingerprint names every contributor. */
  lemma OwnedMeansOneVintage(steps: seq<Step>, owner: map<string, FactorId>, f: FactorId)
    requires AllAllowed(steps) && Owned(steps, owner)
    requires f in Run(steps).store && Run(steps).store[f].fingerprint == FingerprintOf(Run(steps).graph, f)
    ensures OneVintage(Run(steps).graph, f, Run(steps).store[f].value, WithRows)
    ensures OneVintage(Run(steps).graph, f, Run(steps).store[f].value, All) <==> Covered(Run(steps).store[f], All)
  {
    var g, v := Run(steps).graph, Run(steps).store[f].value;
    RowsAreNamed(steps);
    ContributorsAreOwned(steps, owner);
    UpstreamIdentitiesClean(g, f);
    assert OwnedPairs(Used(v, All), owner);
    NamedMeansOneVintage(g, f, v, All, owner);
    NamedMeansOneVintage(g, f, v, WithRows, owner);
    assert Covered(Run(steps).store[f], WithRows);
  }

  // ---------------------------------------------------------------- when the audit can be trusted

  /** The factors of the closure with the identities they run under; a fingerprint keeps only the identities. */
  ghost function Pairs(g: Graph, f: FactorId): set<(FactorId, string)> {
    set u | u in Closure(g, f) && u in g :: (u, NodeIdentity(g[u]))
  }

  ghost predicate Alike(g: Graph, h: Graph, f: FactorId) {
    UpstreamIdentities(g, f) == UpstreamIdentities(h, f) ==> Pairs(g, f) == Pairs(h, f)
  }

  /** Wherever two of the dictionaries give a factor the same upstream identities, they give them to the same factors. */
  ghost predicate SameMeaning(ds: set<Graph>) {
    forall g, h, f :: g in ds && h in ds ==> Alike(g, h, f)
  }

  ghost predicate AllAdmitted(ds: set<Graph>) {
    forall g :: g in ds ==> Admitted(g)
  }

  /** The run deploys no other dictionaries. */
  ghost predicate Over(steps: seq<Step>, ds: set<Graph>) {
    forall s :: s in steps && s.Deploy? ==> s.graph in ds
  }

  /** What contributed rows is found in the closure of one of the dictionaries, the one the fingerprint is of. */
  ghost predicate Traced(p: Projection, f: FactorId, ds: set<Graph>) {
    && p.value.factor == f && p.value.identity == Identity(p.algorithmId, p.algorithmVersion)
    && exists h :: h in ds && p.fingerprint == FingerprintOf(h, f) && UsedUpstream(p.value, WithRows) <= Pairs(h, f)
  }

  ghost predicate AllTraced(store: Store, ds: set<Graph>) {
    forall f :: f in store ==> Traced(store[f], f, ds)
  }

  /** A current upstream projection brings along only the pairs of the closure. */
  lemma PairsBroughtByCurrent(g: Graph, store: Store, f: FactorId, u: FactorId, ds: set<Graph>)
    requires AllAdmitted(ds) && SameMeaning(ds) && g in ds && u in Closure(g, f) && u in g
    requires u in store && Traced(store[u], u, ds) && Current(g, store[u], u)
    ensures Used(store[u].value, WithRows) <= Pairs(g, f)
  {
    var v := store[u].value;
    var h :| h in ds && store[u].fingerprint == FingerprintOf(h, u) && UsedUpstream(v, WithRows) <= Pairs(h, u);
    FingerprintTracksIdentitySet(h, g, u);
    assert Alike(h, g, u);
    ClosureOfInput(g, f, u);
    assert Pairs(g, u) <= Pairs(g, f);
  }

  /** An input that contributes rows was audited, so it is current. */
  lemma AuditedInputIsTraced(g: Graph, store: Store, f: FactorId, u: FactorId, ds: set<Graph>)
    requires AllAdmitted(ds) && SameMeaning(ds) && g in ds && u in Closure(g, f) && u in g
    requires u in store && Traced(store[u], u, ds) && UpstreamError(g, store, u).None?
    ensures Used(store[u].value, WithRows) <= Pairs(g, f)
  {
    if !store[u].value.empty {
      PairsBroughtByCurrent(g, store, f, u, ds);
    }
  }

  lemma NewValueIsTraced(g: Graph, store: Store, f: FactorId, ds: set<Graph>)
    requires AllAdmitted(ds) && SameMeaning(ds) && g in ds && AllTraced(store, ds) && f in g && UpstreamReady(g, store, f)
    ensures forall u :: u in g[f].factorInputs ==> u in store
    ensures UsedByAll(InputValues(store, g[f].factorInputs), WithRows) <= Pairs(g, f)
  {
    InputsReadable(g, store, f);
    var inputs := g[f].factorInputs;
    forall u | u in inputs ensures Used(store[u].value, WithRows) <= Pairs(g, f) {
      assert UpstreamError(g, store, u).None? && Traced(store[u], u, ds);
      AuditedInputIsTraced(g, store, f, u, ds);
    }
    UsedByAllWithin(InputValues(store, inputs), WithRows, Pairs(g, f));
  }

  lemma {:induction false} UsedByAllWithin(vs: seq<Value>, t: Trace, pairs: set<(FactorId, string)>)
    requires forall i :: 0 <= i < |vs| ==> Used(vs[i], t) <= pairs
    ensures UsedByAll(vs, t) <= pairs
  {
    if vs != [] {
      UsedByAllWithin(vs[1..], t, pairs);
    }
  }

  lemma MaterializeKeepsTraced(g: Graph, store: Store, f: FactorId, pin: Option<(string, nat)>, outcome: Outcome, ds: set<Graph>)
    requires AllAdmitted(ds) && SameMeaning(ds) && g in ds && AllTraced(store, ds)
    ensures AllTraced(AfterMaterialize(g, store, f, pin, outcome), ds)
  {
    if Succeeds(g, store, f, outcome) {
      NewValueIsTraced(g, store, f, ds);
      assert Traced(NewProjection(g, store, f, pin, outcome), f, ds);
    }
  }

  lemma {:induction false} RunIsTraced(steps: seq<Step>, ds: set<Graph>)
    requires AllAdmitted(ds) && SameMeaning(ds) && map[] in ds && AllAllowed(steps) && Over(steps, ds)
    ensures Run(steps).graph in ds && AllTraced(Run(steps).store, ds)
  {
    if steps != [] {
      var before, last := steps[..|steps| - 1], steps[|steps| - 1];
      assert last in steps && forall s :: s in before ==> s in steps;
      RunIsTraced(before, ds);
      match last
      case Deploy(_) =>
      case Materialise(f, pin, outcome) =>
        MaterializeKeepsTraced(Run(before).graph, Run(before).store, f, pin, outcome, ds);
    }
  }

  /** The dictionary before the first deployment has no factors, so it means what any other does. */
  lemma EmptyMeansTheSame(ds: set<Graph>)
    requires SameMeaning(ds)
    ensures SameMeaning(ds + {map[]})
  {
    forall g, h, f | g in ds + {map[]} && h in ds + {map[]} ensures Alike(g, h, f) {
      NoFactorNoPairs(map[], f);
      if g in ds && h in ds {
        assert Alike(g, h, f);
      } else {
        NoIdentitiesNoPairs(g, f);
        NoIdentitiesNoPairs(h, f);
      }
    }
  }

  lemma NoFactorNoPairs(g: Graph, f: FactorId)
    requires f !in g
    ensures Closure(g, f) == {} && Pairs(g, f) == {} && UpstreamIdentities(g, f) == {}
  {
    ClosureIsLeast(g, f, {});
  }

  lemma NoIdentitiesNoPairs(g: Graph, f: FactorId)
    ensures UpstreamIdentities(g, f) == {} <==> Pairs(g, f) == {}
  {
    if p :| p in Pairs(g, f) {
      assert p.1 in UpstreamIdentities(g, f);
    }
    if x :| x in UpstreamIdentities(g, f) {
      var w :| w in Closure(g, f) && w in g && x == NodeIdentity(g[w]);
      assert (w, x) in Pairs(g, f);
    }
  }

  /** With nothing empty behind a value, all its contributors have rows. */
  lemma {:induction false} NoEmptyNoDifference(vs: seq<Value>)
    requires forall i :: 0 <= i < |vs| ==> NoEmptyInside(vs[i])
    ensures UsedByAll(vs, WithRows) == UsedByAll(vs, All)
    decreases vs
  {
    if vs != [] {
      assert NoEmptyInside(vs[0]);
      NoEmptyNoDifference(vs[0].inputs);
      forall i | 0 <= i < |vs[1..]| ensures NoEmptyInside(vs[1..][i]) {
        assert vs[1..][i] == vs[i + 1];
      }
      NoEmptyNoDifference(vs[1..]);
    }
  }

  /** Every projection whose fingerprint matches the dictionary in force mixes no vintages of results with rows. */
  ghost predicate Honest(p: Platform) {
    forall f :: f in p.store && p.store[f].fingerprint == FingerprintOf(p.graph, f) ==>
      OneVintage(p.graph, f, p.store[f].value, WithRows)
  }

  /** When the deployed dictionaries mean the same by the same upstream identities, a matching fingerprint means that
      the value mixes no vintages of results with rows, and none at all if nothing behind it is empty; whatever the
      pins and the outcomes. */
  lemma MatchingFingerprintMeansOneVintage(steps: seq<Step>, ds: set<Graph>, f: FactorId)
    requires AllAdmitted(ds) && SameMeaning(ds) && AllAllowed(steps) && Over(steps, ds)
    requires f in Run(steps).store && Run(steps).store[f].fingerprint == FingerprintOf(Run(steps).graph, f)
    ensures OneVintage(Run(steps).graph, f, Run(steps).store[f].value, WithRows)
    ensures NoEmptyUpstream(Run(steps).store[f].value) ==> OneVintage(Run(steps).graph, f, Run(steps).store[f].value, All)
  {
    EmptyMeansTheSame(ds);
    EmptyIsAdmitted();
    RunIsTraced(steps, ds + {map[]});
    var g, p := Run(steps).graph, Run(steps).store[f];
    assert Traced(p, f, ds + {map[]});
    var h :| h in ds + {map[]} && p.fingerprint == FingerprintOf(h, f) && UsedUpstream(p.value, WithRows) <= Pairs(h, f);
    FingerprintTracksIdentitySet(h, g, f);
    assert Alike(h, g, f);
    if NoEmptyUpstream(p.value) {
      NoEmptyNoDifference(p.value.inputs);
    }
  }

  /** Dictionaries in which every identity belongs to one factor mean the same. */
  lemma OwnedMeansSameMeaning(ds: set<Graph>, owner: map<string, FactorId>)
    requires forall g :: g in ds ==> OwnedGraph(g, owner)
    ensures SameMeaning(ds)
  {
    forall g, h, f | g in ds && h in ds ensures Alike(g, h, f) {
      if UpstreamIdentities(g, f) == UpstreamIdentities(h, f) {
        OwnedPairsAgree(g, h, f, owner);
        OwnedPairsAgree(h, g, f, owner);
      }
    }
  }

  lemma OwnedPairsAgree(g: Graph, h: Graph, f: FactorId, owner: map<string, FactorId>)
    requires OwnedGraph(g, owner) && OwnedGraph(h, owner) && UpstreamIdentities(g, f) == UpstreamIdentities(h, f)
    ensures Pairs(g, f) <= Pairs(h, f)
  {
    forall p | p in Pairs(g, f) ensures p in Pairs(h, f) {
      assert p.1 in UpstreamIdentities(g, f);
      var w :| w in Closure(h, f) && w in h && p.1 == NodeIdentity(h[w]);
      assert owner[NodeIdentity(h[w])] == w && owner[NodeIdentity(g[p.0])] == p.0;
    }
  }

  // ---------------------------------------------------------------- and when it cannot

  ghost predicate AllLatest(g: Graph) {
    forall f :: f in g ==> g[f].materialize == Latest
  }

  /** The factor is stored as the dictionary has it, computed with rows from exactly its closure. */
  ghost predicate Built(g: Graph, store: Store, u: FactorId) {
    && u in g && u in store && Current(g, store[u], u)
    && store[u].value.factor == u && store[u].value.identity == NodeIdentity(g[u]) && !store[u].value.empty
    && UsedUpstream(store[u].value, WithRows) == Pairs(g, u)
  }

  ghost predicate BuiltThrough(g: Graph, store: Store, u: FactorId) {
    Built(g, store, u) && forall w :: w in Closure(g, u) ==> Built(g, store, w)
  }

  ghost predicate StaysBuilt(g: Graph, store: Store, store': Store) {
    forall u :: Built(g, store, u) ==> Built(g, store', u)
  }

  /** A recomputation whose upstream projections pass the audit succeeds, at the end of any run. */
  lemma Recomputed(steps: seq<Step>, p: Platform, f: FactorId, outcome: Outcome) returns (steps': seq<Step>, p': Platform)
    requires AllAllowed(steps) && p == Run(steps) && f in p.graph && p.graph[f].materialize == Latest
    requires UpstreamReady(p.graph, p.store, f) && !outcome.Raised?
    ensures steps' == steps + [Recompute(f, outcome)] && AllAllowed(steps') && p' == Run(steps') && p'.graph == p.graph
    ensures forall u :: u in p.graph[f].factorInputs ==> u in p.store
    ensures p'.store == p.store[f := NewProjection(p.graph, p.store, f, None, outcome)]
    ensures Current(p'.graph, p'.store[f], f)
  {
    InputsReadable(p.graph, p.store, f);
    steps' := steps + [Recompute(f, outcome)];
    assert steps'[..|steps|] == steps;
    p' := Run(steps');
  }

  lemma Deployed(g: Graph, steps: seq<Step>, p: Platform) returns (steps': seq<Step>, p': Platform)
    requires Admitted(g) && AllAllowed(steps) && p == Run(steps)
    ensures steps' == steps + [Deploy(g)] && AllAllowed(steps')
    ensures p' == Run(steps') && p' == Platform(g, p.store)
  {
    steps' := steps + [Deploy(g)];
    assert steps'[..|steps|] == steps;
    p' := Run(steps');
  }

  /** Over a built closure the new value takes in exactly the closure. */
  lemma NewValueIsBuilt(g: Graph, store: Store, f: FactorId)
    requires Admitted(g) && f in g && forall u :: u in Closure(g, f) ==> Built(g, store, u)
    ensures forall u :: u in g[f].factorInputs ==> u in store
    ensures UsedByAll(InputValues(store, g[f].factorInputs), WithRows) == Pairs(g, f)
  {
    forall u | u in g[f].factorInputs ensures u in store && u in Closure(g, f) {
      DirectInputReached(g, f, u);
      assert Built(g, store, u);
    }
    var values := InputValues(store, g[f].factorInputs);
    forall p | p in UsedByAll(values, WithRows) ensures p in Pairs(g, f) {
      UsedByAllMember(values, WithRows, p);
      var i :| 0 <= i < |values| && p in Used(values[i], WithRows);
      BuiltBringsPairs(g, store, f, g[f].factorInputs[i], p);
    }
    forall p | p in Pairs(g, f) ensures p in UsedByAll(values, WithRows) {
      var u := ClosureThroughInput(g, f, p.0);
      var i :| 0 <= i < |values| && g[f].factorInputs[i] == u;
      assert Built(g, store, u);
      assert p in Used(values[i], WithRows);
      UsedByAllMember(values, WithRows, p);
    }
  }

  lemma BuiltBringsPairs(g: Graph, store: Store, f: FactorId, u: FactorId, p: (FactorId, string))
    requires u in Closure(g, f) && Built(g, store, u) && p in Used(store[u].value, WithRows)
    ensures p in Pairs(g, f)
  {
    ClosureOfInput(g, f, u);
    if p.0 != u || p.1 != NodeIdentity(g[u]) {
      assert p in Pairs(g, u);
    }
  }

  lemma ClosureBuilt(g: Graph, store: Store, f: FactorId)
    requires f in g && forall i :: 0 <= i < |g[f].factorInputs| ==> BuiltThrough(g, store, g[f].factorInputs[i])
    ensures forall u :: u in Closure(g, f) ==> Built(g, store, u)
  {
    forall w | w in Closure(g, f) ensures Built(g, store, w) {
      var u := ClosureThroughInput(g, f, w);
      var i :| 0 <= i < |g[f].factorInputs| && g[f].factorInputs[i] == u;
      assert BuiltThrough(g, store, g[f].factorInputs[i]);
    }
  }

  /** Any factor of a dictionary of latest factors can be built, its closure first, and what was built stays so. */
  lemma Rebuilt(g: Graph, f: FactorId, ds: set<Graph>, steps: seq<Step>, p: Platform) returns (steps': seq<Step>, p': Platform)
    requires AllAllowed(steps) && Over(steps, ds) && p == Run(steps) && p.graph == g && AllLatest(g) && f in g
    ensures AllAllowed(steps') && Over(steps', ds) && p' == Run(steps') && p'.graph == g
    ensures BuiltThrough(g, p'.store, f) && StaysBuilt(g, p.store, p'.store)
    decreases |Closure(g, f)|, |g[f].factorInputs| + 1
  {
    var steps1, p1 := InputsRebuilt(g, f, |g[f].factorInputs|, ds, steps, p);
    ClosureBuilt(g, p1.store, f);
    BuiltIsReady(g, p1.store, f);
    steps', p' := Recomputed(steps1, p1, f, ReturnedRows);
    OneMoreBuilt(g, p1.store, f);
  }

  lemma BuiltIsReady(g: Graph, store: Store, f: FactorId)
    requires forall u :: u in Closure(g, f) ==> Built(g, store, u)
    ensures UpstreamReady(g, store, f)
  {
    forall u | u in Closure(g, f) ensures UpstreamError(g, store, u).None? {
      assert Built(g, store, u);
    }
  }

  lemma OneMoreBuilt(g: Graph, store: Store, f: FactorId)
    requires Admitted(g) && f in g && forall u :: u in Closure(g, f) ==> Built(g, store, u)
    ensures forall u :: u in g[f].factorInputs ==> u in store
    ensures var store' := store[f := NewProjection(g, store, f, None, ReturnedRows)];
            BuiltThrough(g, store', f) && StaysBuilt(g, store, store')
  {
    NewValueIsBuilt(g, store, f);
    var store' := store[f := NewProjection(g, store, f, None, ReturnedRows)];
    assert Built(g, store', f);
    forall u | Built(g, store, u) ensures Built(g, store', u) {
      if u != f {
        assert store'[u] == store[u];
      }
    }
  }

  lemma AllStayBuilt(g: Graph, s0: Store, s1: Store, s2: Store, fs: seq<FactorId>)
    requires StaysBuilt(g, s0, s1) && StaysBuilt(g, s1, s2)
    ensures StaysBuilt(g, s0, s2)
    ensures forall i :: 0 <= i < |fs| && BuiltThrough(g, s1, fs[i]) ==> BuiltThrough(g, s2, fs[i])
  {
  }

  lemma InputsRebuilt(g: Graph, f: FactorId, k: nat, ds: set<Graph>, steps: seq<Step>, p: Platform)
      returns (steps': seq<Step>, p': Platform)
    requires AllAllowed(steps) && Over(steps, ds) && p == Run(steps) && p.graph == g && AllLatest(g) && f in g
    requires k <= |g[f].factorInputs|
    ensures AllAllowed(steps') && Over(steps', ds) && p' == Run(steps') && p'.graph == g
    ensures forall i :: 0 <= i < k ==> BuiltThrough(g, p'.store, g[f].factorInputs[i])
    ensures StaysBuilt(g, p.store, p'.store)
    decreases |Closure(g, f)|, k
  {
    if k == 0 {
      steps', p' := steps, p;
    } else {
      var u := g[f].factorInputs[k - 1];
      DirectInputReached(g, f, u);
      ClosureOfInput(g, f, u);
      ClosureIsRegistered(g, f, u);
      var steps1, p1 := InputsRebuilt(g, f, k - 1, ds, steps, p);
      steps', p' := Rebuilt(g, u, ds, steps1, p1);
      AllStayBuilt(g, p.store, p1.store, p'.store, g[f].factorInputs[..k - 1]);
      assert forall i :: 0 <= i < k - 1 ==> g[f].factorInputs[..k - 1][i] == g[f].factorInputs[i];
    }
  }

  /** If one dictionary gives the upstream identities of a factor to other factors than another one does, what is built
      under the first passes for current under the second. */
  lemma DishonestRun(g: Graph, h: Graph, f: FactorId, ds: set<Graph>) returns (steps: seq<Step>)
    requires AllAdmitted(ds) && g in ds && h in ds && AllLatest(g)
    requires UpstreamIdentities(g, f) == UpstreamIdentities(h, f) && !(Pairs(g, f) <= Pairs(h, f))
    ensures AllAllowed(steps) && Over(steps, ds) && !Honest(Run(steps))
  {
    if f !in g {
      NoFactorNoPairs(g, f);
    }
    var steps1, p1 := Deployed(g, [], Run([]));
    var steps2, p2 := Rebuilt(g, f, ds, steps1, p1);
    var steps3, p3 := Deployed(h, steps2, p2);
    FingerprintTracksIdentitySet(g, h, f);
    var q :| q in Pairs(g, f) && q !in Pairs(h, f);
    assert Built(g, p2.store, f) && q in UsedUpstream(p3.store[f].value, WithRows);
    assert !OneVintage(h, f, p3.store[f].value, WithRows);
    steps := steps3;
  }

  /** The condition is exact, and can be checked on the dictionaries before a deployment: for dictionaries of latest
      factors every run over them is honest exactly when they mean the same by the same upstream identities. */
  lemma TrustIsExact(ds: set<Graph>)
    requires AllAdmitted(ds) && forall g :: g in ds ==> AllLatest(g)
    ensures SameMeaning(ds) <==> forall steps :: AllAllowed(steps) && Over(steps, ds) ==> Honest(Run(steps))
  {
    if SameMeaning(ds) {
      forall steps | AllAllowed(steps) && Over(steps, ds) ensures Honest(Run(steps)) {
        var p := Run(steps);
        forall f | f in p.store && p.store[f].fingerprint == FingerprintOf(p.graph, f)
          ensures OneVintage(p.graph, f, p.store[f].value, WithRows)
        {
          MatchingFingerprintMeansOneVintage(steps, ds, f);
        }
      }
    } else {
      var g, h, f :| g in ds && h in ds && !Alike(g, h, f);
      if Pairs(g, f) <= Pairs(h, f) {
        var steps := DishonestRun(h, g, f, ds);
      } else {
        var steps := DishonestRun(g, h, f, ds);
      }
    }
  }

  // ---------------------------------------------------------------- what the audit lets through

  const X := FactorId("d", "x")
  const Y := FactorId("d", "y")
  const Z := FactorId("d", "z")
  const W := FactorId("d", "w")

  /** Two leaf factors under algorithms `a` and `b`, a factor over both, and one over that. */
  function Diamond(a: string, b: string): Graph {
    map[X := FactorNode(a, 1, Latest, []),
        Y := FactorNode(b, 1, Latest, []),
        Z := FactorNode("z", 1, Latest, [X, Y]),
        W := FactorNode("w", 1, Latest, [Z])]
  }

  lemma DiamondClosures(a: string, b: string)
    requires Strings.BAR !in a && Strings.BAR !in b
    ensures var g := Diamond(a, b);
            && Admitted(g)
            && Closure(g, X) == {} && Closure(g, Y) == {} && Closure(g, Z) == {X, Y} && Closure(g, W) == {X, Y, Z}
  {
    var g := Diamond(a, b);
    RankedMeansAcyclic(g, map[X := 0, Y := 0, Z := 1, W := 2]);
    ClosureIsLeast(g, X, {});
    ClosureIsLeast(g, Y, {});
    ClosureIsLeast(g, Z, {X, Y});
    ClosureIsLeast(g, W, {X, Y, Z});
    assert Feeds(g, Z, X) && Feeds(g, Z, Y) && Feeds(g, W, Z);
    DirectInputReached(g, Z, X);
    DirectInputReached(g, Z, Y);
    DirectInputReached(g, W, Z);
    ClosureOfInput(g, W, Z);
  }

  function Recompute(f: FactorId, outcome: Outcome): Step {
    Materialise(f, None, outcome)
  }

  /** The first dictionary with the leaves under `a` and `b`, computed up to the middle factor. */
  function FirstHalf(a: string, b: string, middle: Outcome): seq<Step> {
    [Deploy(Diamond(a, b))] + [Recompute(X, ReturnedRows)] + [Recompute(Y, ReturnedRows)] + [Recompute(Z, middle)]
  }

  /** Then the leaves change to `c` and `d` and are recomputed; the middle factor is not; the top one is. */
  function Upgrade(a: string, b: string, middle: Outcome, c: string, d: string): seq<Step> {
    FirstHalf(a, b, middle) + [Deploy(Diamond(c, d))]
      + [Recompute(X, ReturnedRows)] + [Recompute(Y, ReturnedRows)] + [Recompute(W, ReturnedRows)]
  }

  function Leaf(f: FactorId, a: string): Value {
    Value(f, Identity(a, 1), [], false)
  }

  function Middle(a: string, b: string, empty: bool): Value {
    Value(Z, Identity("z", 1), [Leaf(X, a), Leaf(Y, b)], empty)
  }

  /** The leaves are deployed and computed, whatever was stored before. */
  lemma LeavesComputed(a: string, b: string, before: seq<Step>, p0: Platform) returns (steps: seq<Step>, p: Platform)
    requires Strings.BAR !in a && Strings.BAR !in b && AllAllowed(before) && p0 == Run(before)
    ensures steps == before + [Deploy(Diamond(a, b))] + [Recompute(X, ReturnedRows)] + [Recompute(Y, ReturnedRows)]
    ensures AllAllowed(steps) && p == Run(steps) && p.graph == Diamond(a, b)
    ensures X in p.store && Current(p.graph, p.store[X], X) && p.store[X].value == Leaf(X, a)
    ensures Y in p.store && Current(p.graph, p.store[Y], Y) && p.store[Y].value == Leaf(Y, b)
    ensures Z in p0.store ==> Z in p.store && p.store[Z] == p0.store[Z]
  {
    DiamondClosures(a, b);
    var run1, p1 := Deployed(Diamond(a, b), before, p0);
    var run2, p2 := Recomputed(run1, p1, X, ReturnedRows);
    steps, p := Recomputed(run2, p2, Y, ReturnedRows);
  }

  /** What the middle factor is computed to over the two leaves. */
  lemma MiddleOverLeaves(a: string, b: string, store: Store, middle: Outcome)
    requires X in store && Y in store && store[X].value == Leaf(X, a) && store[Y].value == Leaf(Y, b)
    ensures forall u :: u in Diamond(a, b)[Z].factorInputs ==> u in store
    ensures NewProjection(Diamond(a, b), store, Z, None, middle).value == Middle(a, b, middle.ReturnedNoRows?)
  {
    assert InputValues(store, [X, Y]) == [Leaf(X, a), Leaf(Y, b)];
  }

  lemma MiddleReady(a: string, b: string, store: Store)
    requires Strings.BAR !in a && Strings.BAR !in b && X in store && Y in store
    requires Current(Diamond(a, b), store[X], X) && Current(Diamond(a, b), store[Y], Y)
    ensures UpstreamReady(Diamond(a, b), store, Z)
  {
    DiamondClosures(a, b);
  }

  lemma MiddleComputed(a: string, b: string, middle: Outcome) returns (p: Platform)
    requires Strings.BAR !in a && Strings.BAR !in b && !middle.Raised?
    ensures AllAllowed(FirstHalf(a, b, middle)) && p == Run(FirstHalf(a, b, middle))
    ensures Z in p.store && Current(Diamond(a, b), p.store[Z], Z) && p.store[Z].value == Middle(a, b, middle.ReturnedNoRows?)
  {
    var leaves, p2 := LeavesComputed(a, b, [], Run([]));
    MiddleReady(a, b, p2.store);
    MiddleOverLeaves(a, b, p2.store, middle);
    var steps, p3 := Recomputed(leaves, p2, Z, middle);
    assert steps == FirstHalf(a, b, middle);
    p := p3;
  }

  /** If the middle factor passes the audit unrecomputed, the top one is built on its old value and looks current. */
  lemma TopComputed(a: string, b: string, middle: Outcome, c: string, d: string) returns (p: Platform)
    requires Strings.BAR !in a && Strings.BAR !in b && Strings.BAR !in c && Strings.BAR !in d && !middle.Raised?
    requires middle.ReturnedNoRows? || FingerprintOf(Diamond(a, b), Z) == FingerprintOf(Diamond(c, d), Z)
    ensures AllAllowed(Upgrade(a, b, middle, c, d)) && p == Run(Upgrade(a, b, middle, c, d)) && p.graph == Diamond(c, d)
    ensures W in p.store && Current(p.graph, p.store[W], W)
    ensures p.store[W].value == Value(W, Identity("w", 1), [Middle(a, b, middle.ReturnedNoRows?)], false)
  {
    var p0 := MiddleComputed(a, b, middle);
    var run3, p3 := LeavesComputed(c, d, FirstHalf(a, b, middle), p0);
    DiamondClosures(c, d);
    assert UpstreamError(p3.graph, p3.store, Z).None?;
    var run4, p4 := Recomputed(run3, p3, W, ReturnedRows);
    assert InputValues(p3.store, [Z]) == [p3.store[Z].value];
    assert run4 == Upgrade(a, b, middle, c, d);
    p := p4;
  }

  lemma DiamondIdentities(a: string, b: string)
    requires Strings.BAR !in a && Strings.BAR !in b
    ensures UpstreamIdentities(Diamond(a, b), Z) == {Identity(a, 1), Identity(b, 1)}
    ensures UpstreamIdentities(Diamond(a, b), W) == {Identity(a, 1), Identity(b, 1), Identity("z", 1)}
  {
    DiamondClosures(a, b);
  }

  /** What the first leaf contributed is found in the top value. */
  lemma OldLeafIsUsed(a: string, b: string, empty: bool, t: Trace)
    requires t == All || !empty
    ensures (X, Identity(a, 1)) in UsedByAll([Middle(a, b, empty)], t)
  {
    var pair, inputs := (X, Identity(a, 1)), [Leaf(X, a), Leaf(Y, b)];
    assert pair in Used(inputs[0], t);
    UsedByAllMember(inputs, t, pair);
    assert pair in Used([Middle(a, b, empty)][0], t);
    UsedByAllMember([Middle(a, b, empty)], t, pair);
  }

  /** Swapping the algorithms of two leaves leaves every fingerprint above them as it was. */
  lemma SwapKeepsFingerprint(a: string, b: string)
    requires Strings.BAR !in a && Strings.BAR !in b
    ensures FingerprintOf(Diamond(a, b), Z) == FingerprintOf(Diamond(b, a), Z)
  {
    DiamondIdentities(a, b);
    DiamondIdentities(b, a);
    assert {Identity(a, 1), Identity(b, 1)} == {Identity(b, 1), Identity(a, 1)};
  }

  /** Over the middle value of the old leaves the top value mixes vintages. */
  lemma OldLeafMixes(a: string, b: string, v: Value)
    requires a != b && v.inputs == [Middle(a, b, false)]
    ensures !OneVintage(Diamond(b, a), W, v, WithRows)
  {
    OldLeafIsUsed(a, b, false, WithRows);
    assert (X, Identity(a, 1)) in UsedUpstream(v, WithRows);
    assert NodeIdentity(Diamond(b, a)[X]) == Identity(b, 1);
    IdentityInjective(a, 1, b, 1);
  }

  /** Two factors that trade algorithms defeat the audit: for any two algorithms there is a run that ends with a
      projection whose fingerprint matches the dictionary although its value mixes two vintages. */
  lemma SharedIdentitiesHideVintage(a: string, b: string) returns (p: Platform)
    requires Strings.BAR !in a && Strings.BAR !in b && a != b
    ensures AllAllowed(Upgrade(a, b, ReturnedRows, b, a)) && p == Run(Upgrade(a, b, ReturnedRows, b, a))
    ensures p.graph == Diamond(b, a) && W in p.store && Current(p.graph, p.store[W], W)
    ensures !OneVintage(p.graph, W, p.store[W].value, WithRows)
  {
    SwapKeepsFingerprint(a, b);
    p := TopComputed(a, b, ReturnedRows, b, a);
    OldLeafMixes(a, b, p.store[W].value);
  }

  /** The fingerprint of the top factor does not name an algorithm that the dictionary dropped. */
  lemma DroppedIsNotNamed(a: string, c: string, d: string)
    requires Strings.BAR !in c && Strings.BAR !in d && a !in {c, d, "z"}
    ensures Identity(a, 1) !in Strings.Labels(FingerprintOf(Diamond(c, d), W).payload)
  {
    DiamondIdentities(c, d);
    DiamondClosures(c, d);
    UpstreamIdentitiesClean(Diamond(c, d), W);
    IdentityInjective(a, 1, c, 1);
    IdentityInjective(a, 1, d, 1);
    IdentityInjective(a, 1, "z", 1);
  }

  /** An empty projection is not audited: for any upgrade that drops an algorithm there is a run that ends with a
      current projection computed over an empty result of the dropped algorithm, which its fingerprint does not name. */
  lemma StaleEmptyHidesVintage(a: string, b: string, c: string, d: string) returns (p: Platform)
    requires Strings.BAR !in a && Strings.BAR !in b && Strings.BAR !in c && Strings.BAR !in d && a !in {c, d, "z"}
    ensures AllAllowed(Upgrade(a, b, ReturnedNoRows, c, d)) && p == Run(Upgrade(a, b, ReturnedNoRows, c, d))
    ensures p.graph == Diamond(c, d) && W in p.store && Current(p.graph, p.store[W], W)
    ensures (X, Identity(a, 1)) in UsedUpstream(p.store[W].value, All)
    ensures Identity(a, 1) !in Strings.Labels(p.store[W].fingerprint.payload)
  {
    p := TopComputed(a, b, ReturnedNoRows, c, d);
    OldLeafIsUsed(a, b, true, All);
    DroppedIsNotNamed(a, c, d);
  }
}
