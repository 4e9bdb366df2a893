/** Between the aggregate providers and the exact ones: which mappings of the previous
    scan may be used again, and which families need an exact check. */
module StorePlan {
  import opened Wrappers
  import opened Text
  import opened StoreModel
  import opened StoreReconcile
  import opened StoreTheorems
  import opened StorePipeline
  import opened StoreSanitize

  /** Fourteen days. */
  const MAPPING_WINDOW: nat := 1_209_600_000_000_000

  // ---------------------------------------------------------------- reusable mappings

  /** A mapping is trusted again for the very same package, soon enough, by the same
      version of the provider. */
  predicate Reusable(m: Mapping, f: Family, now: nat, version: string) {
    && m.productId != "" && m.identity == f.identity && m.verifiedAt.Some? && now - m.verifiedAt.value <= MAPPING_WINDOW
    && Trim(m.version) != "" && Trim(version) != "" && m.provider.Key() != ""
    && EqualFold(Trim(m.version), Trim(version))
    && EqualFold(m.mark.identityName, f.mark.identityName)
    && (m.mark.publisherId != "" && f.mark.publisherId != "" ==> EqualFold(m.mark.publisherId, f.mark.publisherId))
    && EqualFold(m.mark.architecture, f.mark.architecture)
    && m.productLike == f.productLike
  }

  method MappingReusable(m: Mapping, runVersion: string, f: Family, now: nat, version: string) returns (reusable: bool)
    ensures reusable == Reusable(m, f, now, version)
  {
    if m.productId == "" || m.identity != f.identity || m.verifiedAt.None? { return false; }
    if now - m.verifiedAt.value > MAPPING_WINDOW { return false; }
    var own := FirstNonEmpty(m.version, runVersion);
    if own == "" || Trim(m.version) == "" || Trim(version) == "" || m.provider.Key() == "" { return false; }
    if !EqualFold(own, Trim(version)) { return false; }
    if !EqualFold(m.mark.identityName, f.mark.identityName) { return false; }
    if m.mark.publisherId != "" && f.mark.publisherId != "" && !EqualFold(m.mark.publisherId, f.mark.publisherId) {
      return false;
    }
    if !EqualFold(m.mark.architecture, f.mark.architecture) { return false; }
    return m.productLike == f.productLike;
  }

  /** The last reusable mapping of each identity. */
  function ReusableIn(ms: seq<Mapping>, byPfn: map<string, Family>, now: nat, version: string): map<Identity, Mapping> {
    if ms == [] then map[]
    else
      var m, earlier := ms[|ms| - 1], ReusableIn(ms[..|ms| - 1], byPfn, now, version);
      if Lower(m.identity.pfn) in byPfn && Reusable(m, byPfn[Lower(m.identity.pfn)], now, version) then
          earlier[m.identity := m] else earlier
  }

  /** Only a published snapshot that was not recovered lends mappings. */
  function ReusableMappings(previous: Option<Snapshot>, byPfn: map<string, Family>, now: nat,
                            version: string): map<Identity, Mapping> {
    if previous.None? || !previous.value.published || previous.value.recovered then map[]
    else ReusableIn(AllMappings(previous.value.runs), byPfn, now, version)
  }

  /** Stamps a run's mappings with what the package looks like now. */
  function Stamped(m: Mapping, byPfn: map<string, Family>, version: string): Mapping {
    if Lower(m.identity.pfn) !in byPfn then m
    else
      var f := byPfn[Lower(m.identity.pfn)];
      m.(mark := Fingerprint(if m.mark.identityName == "" then f.mark.identityName else m.mark.identityName,
                             if m.mark.publisherId == "" then f.mark.publisherId else m.mark.publisherId,
                             if m.mark.architecture == "" then f.mark.architecture else m.mark.architecture),
         productLike := f.productLike, version := if m.version == "" then version else m.version)
  }

  function StampedRun(run: ProviderRun, byPfn: map<string, Family>): ProviderRun {
    run.(mappings := seq(|run.mappings|,
                         i requires 0 <= i < |run.mappings| => Stamped(run.mappings[i], byPfn, run.version)))
  }

  method AttachFingerprints(run: ProviderRun, byPfn: map<string, Family>) returns (out: ProviderRun)
    ensures out == StampedRun(run, byPfn)
  {
    var mappings := run.mappings;
    for n := 0 to |mappings|
      invariant |mappings| == |run.mappings|
      invariant forall k | 0 <= k < n :: mappings[k] == Stamped(run.mappings[k], byPfn, run.version)
      invariant forall k | n <= k < |mappings| :: mappings[k] == run.mappings[k]
    {
      var m := mappings[n];
      if Lower(m.identity.pfn) !in byPfn { continue; }
      var f := byPfn[Lower(m.identity.pfn)];
      if m.mark.identityName == "" { m := m.(mark := m.mark.(identityName := f.mark.identityName)); }
      if m.mark.publisherId == "" { m := m.(mark := m.mark.(publisherId := f.mark.publisherId)); }
      if m.mark.architecture == "" { m := m.(mark := m.mark.(architecture := f.mark.architecture)); }
      m := m.(productLike := f.productLike);
      if m.version == "" { m := m.(version := run.version); }
      mappings := mappings[n := m];
    }
    out := run.(mappings := mappings);
    assert out.mappings == StampedRun(run, byPfn).mappings;
  }

  /** Fourteen days of nanoseconds. */
  const FORTNIGHT := 14 * 24 * 60 * 60 * 1_000_000_000

  function Filled(own: string, known: string): string { if own != "" then own else known }

  /** A mapping stamped when a package looked one way is reusable when it looks another
      way exactly while it is fresh, its provider is known and of the same version, and the
      package is still the same: name, architecture and kind, and publisher if both are
      known. What a mapping says of itself counts before what the package looked like. */
  lemma StampedThenReusedExactlyWhen(m: Mapping, f: Family, later: Family, byPfn: map<string, Family>,
                                     runVersion: string, now: nat, version: string)
    requires Lower(m.identity.pfn) in byPfn && byPfn[Lower(m.identity.pfn)] == f
    ensures var publisher := Filled(m.mark.publisherId, f.mark.publisherId);
      Reusable(Stamped(m, byPfn, runVersion), later, now, version) <==>
        && m.productId != "" && m.verifiedAt.Some? && now - m.verifiedAt.value <= FORTNIGHT
        && Trim(Filled(m.version, runVersion)) != "" && m.provider.Key() != ""
        && EqualFold(Trim(Filled(m.version, runVersion)), Trim(version))
        && m.identity == later.identity && f.productLike == later.productLike
        && EqualFold(Filled(m.mark.identityName, f.mark.identityName), later.mark.identityName)
        && EqualFold(Filled(m.mark.architecture, f.mark.architecture), later.mark.architecture)
        && (publisher == "" || later.mark.publisherId == "" || EqualFold(publisher, later.mark.publisherId))
  {
    FoldBlank(Trim(Filled(m.version, runVersion)), Trim(version));
    hide EqualFold, Trim, Lower;
  }

  /** A mapping stamped for a package that has not changed since is reusable exactly
      while it is fresh and its provider is known and the same. */
  lemma StampedIsReusableExactlyWhen(m: Mapping, f: Family, byPfn: map<string, Family>, runVersion: string, now: nat,
                                     version: string)
    requires Lower(f.identity.pfn) in byPfn && byPfn[Lower(f.identity.pfn)] == f && m.identity == f.identity
    requires m.mark == Fingerprint("", "", "") && m.version == ""
    ensures Reusable(Stamped(m, byPfn, runVersion), f, now, version) <==>
              && m.productId != "" && m.verifiedAt.Some? && now - m.verifiedAt.value <= FORTNIGHT
              && Trim(runVersion) != "" && m.provider.Key() != "" && EqualFold(Trim(runVersion), Trim(version))
  {
    FoldBlank(Trim(runVersion), Trim(version));
  }

  lemma FoldBlank(a: string, b: string)
    ensures EqualFold(a, b) ==> (a == "" <==> b == "")
  {
    assert |Lower(a)| == |a| && |Lower(b)| == |b|;
  }

  // ---------------------------------------------------------------- positives without a target

  predicate NeedsTarget(o: Observation, scan: Scan) {
    && o.scanId == scan.scanId && o.identity.userSid == scan.userSid && o.kind == PositiveOffer && o.health == Healthy
    && !o.Exact(o.identity)
  }

  function Untargeted(obs: seq<Observation>, scan: Scan): seq<Observation> {
    if obs == [] then []
    else Untargeted(obs[..|obs| - 1], scan) + if NeedsTarget(obs[|obs| - 1], scan) then [obs[|obs| - 1]] else []
  }

  const REUSE := Provider(MAPPING_REUSE, "", "snapshot")

  /** The earlier mapping supplies the target the offer lacks. */
  function ReuseObservation(scan: Scan, f: Family, m: Mapping, source: Observation): Observation {
    Observation(REUSE, Healthy, PositiveOffer, f.identity, scan.scanId, source.observedAt,
                FirstNonEmpty(source.installedVersion, f.version), source.availableVersion,
                Some(Target(f.identity, m.provider, m.productId, f.identity.pfn, true, ProviderKey(m.provider),
                            Dated(m.verifiedAt, source.observedAt))))
  }

  datatype Work = Work(reused: Option<ProviderRun>, planned: set<string>)

  function AddReuse(reused: Option<ProviderRun>, scan: Scan, f: Family, m: Mapping, source: Observation): ProviderRun {
    var run := if reused.Some? then reused.value
               else ProviderRun(REUSE, Dated(source.observedAt, scan.startedAt), Healthy, [], [], m.version, false);
    run.(observations := run.observations + [ReuseObservation(scan, f, m, source)],
         mappings := run.mappings + [m.(scanId := scan.scanId)])
  }

  /** Each offer without a target is given one from an earlier mapping, or its family
      is planned for an exact check. */
  function Resolve(positives: seq<Observation>, scan: Scan, byPfn: map<string, Family>,
                   mappings: map<Identity, Mapping>): Work {
    if positives == [] then Work(None, {})
    else
      var o, w := positives[|positives| - 1], Resolve(positives[..|positives| - 1], scan, byPfn, mappings);
      var key := Lower(o.identity.pfn);
      if key !in byPfn then w
      else if byPfn[key].identity in mappings then
        w.(reused := Some(AddReuse(w.reused, scan, byPfn[key], mappings[byPfn[key].identity], o)))
      else w.(planned := w.planned + {key})
  }

  // ---------------------------------------------------------------- the plan

  predicate AggregateIncomplete(runs: seq<ProviderRun>) {
    exists r | r in runs :: RequiredProvider(r.provider) && r.health != Healthy
  }

  predicate HintsAtUpdates(runs: seq<ProviderRun>) {
    exists r | r in runs :: r.hint && r.provider.Key() == CLI_UPDATES && r.health != UnsupportedHealth
  }

  predicate DeniesUpdates(runs: seq<ProviderRun>) {
    exists r | r in runs :: r.provider.Key() == CLI_UPDATES && r.health == Healthy
                            && exists o | o in r.observations :: o.health == Healthy && o.kind == AuthoritativeNegative
  }

  datatype Setting = Setting(clock: nat, deep: bool, version: string, autoUpdate: set<Identity>, ensureMappings: bool)
  function PlanTime(scan: Scan, g: Setting): nat { if scan.startedAt.Some? then scan.startedAt.value else g.clock }

  datatype Plan = Plan(families: seq<Family>, stateChecks: set<string>, reused: Option<ProviderRun>)

  /** The families whose state is checked exactly, beside those of unresolved offers. */
  function Swept(byPfn: map<string, Family>, runs: seq<ProviderRun>, autoUpdate: set<Identity>): set<string> {
    if HintsAtUpdates(runs) || DeniesUpdates(runs) then byPfn.Keys
    else if AggregateIncomplete(runs) then set key | key in byPfn && byPfn[key].identity in autoUpdate :: key
    else {}
  }

  /** Families queried only for their mapping. */
  function Mapped(byPfn: map<string, Family>, mappings: map<Identity, Mapping>): set<string> {
    set key | key in byPfn && byPfn[key].identity !in mappings :: key
  }

  predicate Sorted(families: seq<Family>) {
    forall i, j | 0 <= i < j < |families| :: LexLess(Lower(families[i].identity.pfn), Lower(families[j].identity.pfn))
  }

  ghost predicate Planned(plan: Plan, keys: set<string>, byPfn: map<string, Family>) {
    && Sorted(plan.families)
    && forall f :: f in plan.families <==> exists key :: key in keys && key in byPfn && byPfn[key] == f
  }

  /** What a plan is to be, for a scan that is not deep. */
  ghost predicate PlanFor(plan: Plan, scan: Scan, families: seq<Family>, runs: seq<ProviderRun>,
                          previous: Option<Snapshot>, g: Setting) {
    var byPfn := ByPfn(Concerned(families, scan));
    var now := PlanTime(scan, g);
    var mappings := ReusableMappings(previous, byPfn, now, g.version);
    var work := Resolve(Untargeted(AllObservations(runs), scan), scan, byPfn, mappings);
    var checks := work.planned + Swept(byPfn, runs, g.autoUpdate);
    && plan.reused == work.reused && plan.stateChecks == checks
    && Planned(plan, checks + if g.ensureMappings then Mapped(byPfn, mappings) else {}, byPfn)
  }

  method ReuseEarlierMappings(previous: Option<Snapshot>, byPfn: map<string, Family>, now: nat, version: string)
      returns (reusable: map<Identity, Mapping>)
    ensures reusable == ReusableMappings(previous, byPfn, now, version)
  {
    reusable := map[];
    if previous.None? || !previous.value.published || previous.value.recovered { return; }
    var ms := AllMappings(previous.value.runs);
    for n := 0 to |ms|
      invariant reusable == ReusableIn(ms[..n], byPfn, now, version)
    {
      assert ms[..n + 1][..n] == ms[..n];
      if Lower(ms[n].identity.pfn) !in byPfn { continue; }
      var ok := MappingReusable(ms[n], "", byPfn[Lower(ms[n].identity.pfn)], now, version);
      if ok { reusable := reusable[ms[n].identity := ms[n]]; }
    }
    assert ms[..|ms|] == ms;
  }

  method ResolvePositives(positives: seq<Observation>, scan: Scan, byPfn: map<string, Family>,
                          mappings: map<Identity, Mapping>)
    returns (work: Work)
    ensures work == Resolve(positives, scan, byPfn, mappings)
  {
    work := Work(None, {});
    for n := 0 to |positives|
      invariant work == Resolve(positives[..n], scan, byPfn, mappings)
    {
      assert positives[..n + 1][..n] == positives[..n];
      hide AddReuse;
      var key := Lower(positives[n].identity.pfn);
      if key !in byPfn { continue; }
      var f := byPfn[key];
      if f.identity in mappings {
        work := work.(reused := Some(AddReuse(work.reused, scan, f, mappings[f.identity], positives[n])));
        continue;
      }
      work := work.(planned := work.planned + {key});
    }
    assert positives[..|positives|] == positives;
  }

  predicate Least(k: string, keys: set<string>) {
    k in keys && forall j | j in keys && j != k :: LexLess(k, j)
  }

  /** The least of a set and one more. */
  lemma LeastOfTwo(k: string, m: string, keys: set<string>) returns (least: string)
    requires Least(k, keys)
    ensures Least(least, keys + {m})
  {
    hide LexLess;
    LexTotal(k, m);
    if k == m || LexLess(k, m) { return k; }
    least := m;
    forall j | j in keys && j != m ensures LexLess(m, j) { if j != k { LexTransitive(m, k, j); } }
  }

  lemma {:induction false} LeastExists(keys: set<string>)
    requires keys != {}
    ensures exists k :: Least(k, keys)
  {
    hide LexLess;
    var m :| m in keys;
    var rest := keys - {m};
    assert keys == rest + {m};
    if rest == {} {
      assert Least(m, keys);
    } else {
      LeastExists(rest);
      hide Least;
      var k :| Least(k, rest);
      var least := LeastOfTwo(k, m, rest);
      assert Least(least, keys);
    }
  }

  /** The families of some keys, in key order; the keys may come in any order. */
  method SortedFamilies(keys: set<string>, byPfn: map<string, Family>) returns (families: seq<Family>)
    requires keys <= byPfn.Keys && forall key | key in byPfn :: Lower(byPfn[key].identity.pfn) == key
    ensures Sorted(families)
    ensures forall f :: f in families <==> exists key :: key in keys && key in byPfn && byPfn[key] == f
  {
    families := [];
    var todo := keys;
    while todo != {}
      invariant todo <= keys
      invariant forall f :: f in families <==> exists key :: key in keys && key !in todo && byPfn[key] == f
      invariant Sorted(families)
      invariant forall i, key | 0 <= i < |families| && key in todo :: LexLess(Lower(families[i].identity.pfn), key)
      decreases todo
    {
      LeastExists(todo);
      var k :| k in todo && Least(k, todo);
      todo, families := todo - {k}, families + [byPfn[k]];
    }
  }

  /** Which families an exact provider is asked about, and what an earlier scan's
      mappings contribute. */
  method PlanExactWork(scan: Scan, families: seq<Family>, runs: seq<ProviderRun>, previous: Option<Snapshot>,
                       g: Setting)
    returns (plan: Plan)
    ensures g.deep ==> plan == Plan(Concerned(families, scan), ByPfn(Concerned(families, scan)).Keys, None)
    ensures !g.deep ==> PlanFor(plan, scan, families, runs, previous, g)
  {
    var concerned := Concerned(families, scan);
    var byPfn := ByPfn(concerned);
    ByPfnMembers(concerned);
    if g.deep { return Plan(concerned, byPfn.Keys, None); }
    var now := PlanTime(scan, g);
    var mappings := ReuseEarlierMappings(previous, byPfn, now, g.version);
    var work := ResolvePositives(Untargeted(AllObservations(runs), scan), scan, byPfn, mappings);
    var checks := work.planned + Swept(byPfn, runs, g.autoUpdate);
    PlannedExactly(Untargeted(AllObservations(runs), scan), scan, byPfn, mappings);
    var planned := checks + if g.ensureMappings then Mapped(byPfn, mappings) else {};
    var sorted := SortedFamilies(planned, byPfn);
    return Plan(sorted, checks, work.reused);
  }

  lemma {:induction false} PlannedExactly(positives: seq<Observation>, scan: Scan, byPfn: map<string, Family>,
                                          mappings: map<Identity, Mapping>)
    ensures forall key :: key in Resolve(positives, scan, byPfn, mappings).planned <==>
              key in byPfn && byPfn[key].identity !in mappings && exists o ::
                  o in positives && Lower(o.identity.pfn) == key
  {
    hide AddReuse, Lower;
    if positives != [] {
      PlannedExactly(positives[..|positives| - 1], scan, byPfn, mappings);
      assert positives == positives[..|positives| - 1] + [positives[|positives| - 1]];
    }
  }

  // ---------------------------------------------------------------- what the plan guarantees

  lemma {:induction false} ReusableFacts(ms: seq<Mapping>, byPfn: map<string, Family>, now: nat, version: string)
    ensures forall id | id in ReusableIn(ms, byPfn, now, version) ::
              && ReusableIn(ms, byPfn, now, version)[id] in ms && ReusableIn(ms, byPfn, now, version)[id].identity == id
              && Lower(id.pfn) in byPfn
                    && Reusable(ReusableIn(ms, byPfn, now, version)[id], byPfn[Lower(id.pfn)], now, version)
  {
    if ms != [] {
      ReusableFacts(ms[..|ms| - 1], byPfn, now, version);
      assert ms == ms[..|ms| - 1] + [ms[|ms| - 1]];
    }
  }

  /** The mapping can be reused for the family its name stands for. */
  predicate Serves(m: Mapping, byPfn: map<string, Family>, now: nat, version: string) {
    Lower(m.identity.pfn) in byPfn && Reusable(m, byPfn[Lower(m.identity.pfn)], now, version)
  }

  lemma OneMoreServes(ms: seq<Mapping>, byPfn: map<string, Family>, now: nat, version: string, id: Identity)
    requires ms != []
    ensures var earlier, m := ReusableIn(ms[..|ms| - 1], byPfn, now, version), ms[|ms| - 1];
      if m.identity == id && Serves(m, byPfn, now, version) then
        id in ReusableIn(ms, byPfn, now, version) && ReusableIn(ms, byPfn, now, version)[id] == m
      else
        && (id in ReusableIn(ms, byPfn, now, version) <==> id in earlier)
        && (id in earlier ==> ReusableIn(ms, byPfn, now, version)[id] == earlier[id])
  {
    hide Reusable, Lower;
  }

  /** The last mapping of an identity that can be reused. */
  ghost predicate LastToServe(ms: seq<Mapping>, n: nat, byPfn: map<string, Family>, now: nat, version: string,
                              id: Identity) {
    && n < |ms| && ms[n].identity == id && Serves(ms[n], byPfn, now, version)
    && forall k | n < k < |ms| && ms[k].identity == id :: !Serves(ms[k], byPfn, now, version)
  }

  lemma LastIsStillLast(ms: seq<Mapping>, n: nat, byPfn: map<string, Family>, now: nat, version: string, id: Identity)
    requires ms != [] && LastToServe(ms[..|ms| - 1], n, byPfn, now, version, id)
    requires !(ms[|ms| - 1].identity == id && Serves(ms[|ms| - 1], byPfn, now, version))
    ensures LastToServe(ms, n, byPfn, now, version, id)
  {
    hide Serves;
    forall k | n < k < |ms| && ms[k].identity == id ensures !Serves(ms[k], byPfn, now, version) {
      if k < |ms| - 1 { assert ms[..|ms| - 1][k] == ms[k]; }
    }
  }

  /** Of several mappings of one identity that can be reused, the last one is; an identity
      without any has none. */
  lemma {:induction false} LastOneServes(ms: seq<Mapping>, byPfn: map<string, Family>, now: nat, version: string,
                                         id: Identity)
    returns (n: nat)
    ensures id in ReusableIn(ms, byPfn, now, version) ==>
              LastToServe(ms, n, byPfn, now, version, id) && ReusableIn(ms, byPfn, now, version)[id] == ms[n]
    ensures id !in ReusableIn(ms, byPfn, now, version) ==>
              forall k | 0 <= k < |ms| && ms[k].identity == id :: !Serves(ms[k], byPfn, now, version)
  {
    if ms == [] { return 0; }
    hide ReusableIn, Serves;
    var last := |ms| - 1;
    OneMoreServes(ms, byPfn, now, version, id);
    n := LastOneServes(ms[..last], byPfn, now, version, id);
    if ms[last].identity == id && Serves(ms[last], byPfn, now, version) {
      n := last;
    } else if id in ReusableIn(ms[..last], byPfn, now, version) {
      LastIsStillLast(ms, n, byPfn, now, version, id);
    } else {
      forall k | 0 <= k < |ms| && ms[k].identity == id ensures !Serves(ms[k], byPfn, now, version) {
        if k < last { assert ms[..last][k] == ms[k]; }
      }
    }
  }

  ghost predicate Lends(previous: Option<Snapshot>, m: Mapping, f: Family, now: nat, version: string) {
    && previous.Some? && previous.value.published && !previous.value.recovered
    && m in AllMappings(previous.value.runs) && Reusable(m, f, now, version)
  }

  lemma ReusedAreLent(previous: Option<Snapshot>, byPfn: map<string, Family>, now: nat, version: string, key: string)
    requires key in byPfn && byPfn[key].identity in ReusableMappings(previous, byPfn, now, version)
    requires forall k | k in byPfn :: Lower(byPfn[k].identity.pfn) == k
    ensures Lends(previous, ReusableMappings(previous, byPfn, now, version)[byPfn[key].identity], byPfn[key], now,
                  version)
  {
    ReusableFacts(AllMappings(previous.value.runs), byPfn, now, version);
  }

  /** The run of reused mappings so far. */
  ghost predicate Reuses(run: ProviderRun, positives: seq<Observation>, scan: Scan, byPfn: map<string, Family>,
                         mappings: map<Identity, Mapping>) {
    && run.provider == REUSE && run.health == Healthy
    && (forall x | x in run.observations :: ReusedFor(x, positives, scan, byPfn, mappings))
    && (forall m | m in run.mappings :: exists id :: id in mappings && m == mappings[id].(scanId := scan.scanId))
  }

  ghost predicate ReusedFor(x: Observation, positives: seq<Observation>, scan: Scan, byPfn: map<string, Family>,
                            mappings: map<Identity, Mapping>) {
    exists source | source in positives :: FromOffer(x, source, scan, byPfn, mappings)
  }

  predicate FromOffer(x: Observation, source: Observation, scan: Scan, byPfn: map<string, Family>,
                      mappings: map<Identity, Mapping>) {
    var key := Lower(source.identity.pfn);
    key in byPfn && byPfn[key].identity in mappings
    && x == ReuseObservation(scan, byPfn[key], mappings[byPfn[key].identity], source)
  }

  lemma ReusesMore(run: Option<ProviderRun>, positives: seq<Observation>, o: Observation, scan: Scan,
                   byPfn: map<string, Family>, mappings: map<Identity, Mapping>)
    requires run.Some? ==> Reuses(run.value, positives, scan, byPfn, mappings)
    requires var key := Lower(o.identity.pfn); key in byPfn && byPfn[key].identity in mappings
    ensures var f := byPfn[Lower(o.identity.pfn)];
      Reuses(AddReuse(run, scan, f, mappings[f.identity], o), positives + [o], scan, byPfn, mappings)
  {
    var f := byPfn[Lower(o.identity.pfn)];
    var m, next := mappings[f.identity], AddReuse(run, scan, f, mappings[f.identity], o);
    assert FromOffer(ReuseObservation(scan, f, m, o), o, scan, byPfn, mappings);
    hide ReuseObservation, FromOffer;
    assert o in positives + [o];
    forall x | x in next.observations ensures ReusedFor(x, positives + [o], scan, byPfn, mappings) {
      if run.Some? && x in run.value.observations {
        assert ReusedFor(x, positives, scan, byPfn, mappings);
      } else {
        assert x == ReuseObservation(scan, f, m, o);
      }
    }
    forall x | x in next.mappings ensures exists id :: id in mappings && x == mappings[id].(scanId := scan.scanId) {
      if x == m.(scanId := scan.scanId) { assert f.identity in mappings; }
    }
  }

  lemma ReusesOfMore(run: ProviderRun, positives: seq<Observation>, o: Observation, scan: Scan,
                     byPfn: map<string, Family>, mappings: map<Identity, Mapping>)
    requires Reuses(run, positives, scan, byPfn, mappings)
    ensures Reuses(run, positives + [o], scan, byPfn, mappings)
  {
    hide FromOffer;
    forall x | x in run.observations ensures ReusedFor(x, positives + [o], scan, byPfn, mappings) {
      assert ReusedFor(x, positives, scan, byPfn, mappings);
    }
  }

  lemma {:induction false} ResolveReuses(positives: seq<Observation>, scan: Scan, byPfn: map<string, Family>,
                                         mappings: map<Identity, Mapping>)
    ensures var w := Resolve(positives, scan, byPfn, mappings);
      w.reused.Some? ==> Reuses(w.reused.value, positives, scan, byPfn, mappings)
  {
    hide Reuses, AddReuse, Lower;
    if positives != [] {
      var earlier, o := positives[..|positives| - 1], positives[|positives| - 1];
      assert positives == earlier + [o];
      ResolveReuses(earlier, scan, byPfn, mappings);
      var w, key := Resolve(earlier, scan, byPfn, mappings), Lower(o.identity.pfn);
      if key in byPfn && byPfn[key].identity in mappings {
        ReusesMore(w.reused, earlier, o, scan, byPfn, mappings);
      } else if w.reused.Some? {
        ReusesOfMore(w.reused.value, earlier, o, scan, byPfn, mappings);
      }
    }
  }

  lemma {:induction false} ResolveSettles(positives: seq<Observation>, scan: Scan, byPfn: map<string, Family>,
                                          mappings: map<Identity, Mapping>)
    ensures forall o | o in positives && Lower(o.identity.pfn) in byPfn ::
              Settled(o, Resolve(positives, scan, byPfn, mappings), scan, byPfn, mappings)
  {
    if positives != [] {
      var earlier, o := positives[..|positives| - 1], positives[|positives| - 1];
      ResolveSettles(earlier, scan, byPfn, mappings);
      assert positives == earlier + [o];
      var w, next, key := Resolve(earlier, scan, byPfn, mappings), Resolve(positives, scan, byPfn, mappings),
          Lower(o.identity.pfn);
      hide ReuseObservation, Lower;
      if key in byPfn && byPfn[key].identity in mappings {
        assert ReuseObservation(scan, byPfn[key], mappings[byPfn[key].identity], o) in next.reused.value.observations;
      }
      forall x | x in positives && Lower(x.identity.pfn) in byPfn ensures Settled(x, next, scan, byPfn, mappings) {
        if x in earlier { assert Settled(x, w, scan, byPfn, mappings); }
      }
    }
  }

  /** An offer without a target has got one, or its family is planned. */
  ghost predicate Settled(o: Observation, w: Work, scan: Scan, byPfn: map<string, Family>,
                          mappings: map<Identity, Mapping>)
    requires Lower(o.identity.pfn) in byPfn
  {
    var f := byPfn[Lower(o.identity.pfn)];
    if f.identity in mappings then
        w.reused.Some? && ReuseObservation(scan, f, mappings[f.identity], o) in w.reused.value.observations
    else Lower(o.identity.pfn) in w.planned
  }

  lemma {:induction false} UntargetedMembers(obs: seq<Observation>, scan: Scan)
    ensures forall o :: o in Untargeted(obs, scan) <==> o in obs && NeedsTarget(o, scan)
  {
    if obs != [] {
      UntargetedMembers(obs[..|obs| - 1], scan);
      assert obs == obs[..|obs| - 1] + [obs[|obs| - 1]];
    }
  }

  /** A healthy offer of the scan, for its user, that has no exact target. */
  predicate Lacking(o: Observation, scan: Scan) {
    && o.kind == PositiveOffer && o.health == Healthy && o.scanId == scan.scanId && o.identity.userSid == scan.userSid
    && (o.target.None? || !o.target.value.ExactFor(o.identity))
  }

  lemma LackingNeeds(o: Observation, scan: Scan)
    ensures Lacking(o, scan) <==> NeedsTarget(o, scan)
  {
  }

  /** The offer again, with the target that an earlier mapping of the family supplies. */
  predicate Completes(x: Observation, o: Observation, m: Mapping, f: Family, scan: Scan) {
    && x.health == Healthy && x.kind == PositiveOffer && x.provider.Key() == "store-mapping-reuse"
    && x.identity == f.identity && x.scanId == scan.scanId && x.observedAt == o.observedAt
    && x.availableVersion == o.availableVersion
    && x.installedVersion == Trim(if Trim(o.installedVersion) != "" then o.installedVersion else f.version)
    && x.target.Some?
    && var t := x.target.value;
       t.identity == f.identity && t.provider == m.provider && t.productId == m.productId
       && t.updateId == f.identity.pfn && t.verified
       && t.verifiedAt == (if m.verifiedAt.Some? then m.verifiedAt else o.observedAt)
  }

  lemma ReuseCompletes(scan: Scan, f: Family, m: Mapping, o: Observation)
    ensures Completes(ReuseObservation(scan, f, m, o), o, m, f, scan)
  {
    hide Trim;
  }

  ghost predicate TakenUp(plan: Plan, o: Observation, scan: Scan, byPfn: map<string, Family>)
    requires Lower(o.identity.pfn) in byPfn
  {
    var f := byPfn[Lower(o.identity.pfn)];
    || (Lower(o.identity.pfn) in plan.stateChecks && f in plan.families)
    || (plan.reused.Some? && exists m, x | x in plan.reused.value.observations :: Completes(x, o, m, f, scan))
  }

  /** No offer is dropped for want of a target: its family is checked exactly, or an
      earlier mapping completes it. */
  lemma NoOfferIsDropped(plan: Plan, scan: Scan, families: seq<Family>, runs: seq<ProviderRun>,
                         previous: Option<Snapshot>, g: Setting, o: Observation)
    requires PlanFor(plan, scan, families, runs, previous, g)
    requires o in AllObservations(runs) && Lacking(o, scan)
      && Lower(o.identity.pfn) in ByPfn(Concerned(families, scan))
    ensures TakenUp(plan, o, scan, ByPfn(Concerned(families, scan)))
  {
    var byPfn := ByPfn(Concerned(families, scan));
    var now := PlanTime(scan, g);
    var mappings := ReusableMappings(previous, byPfn, now, g.version);
    var f := byPfn[Lower(o.identity.pfn)];
    UntargetedMembers(AllObservations(runs), scan);
    LackingNeeds(o, scan);
    ResolveSettles(Untargeted(AllObservations(runs), scan), scan, byPfn, mappings);
    if f.identity in mappings { ReuseCompletes(scan, f, mappings[f.identity], o); }
    hide ReuseObservation, ByPfn, Concerned, ReusableMappings, Untargeted, Resolve, NeedsTarget, Swept, Mapped,
         Completes, Lacking;
    assert Settled(o, Resolve(Untargeted(AllObservations(runs), scan), scan, byPfn, mappings), scan, byPfn, mappings);
  }

  ghost predicate OfferedWithoutTarget(f: Family, runs: seq<ProviderRun>, scan: Scan) {
    exists o :: o in AllObservations(runs) && Lacking(o, scan) && EqualFold(o.identity.pfn, f.identity.pfn)
  }

  /** The aggregate listing hinted at updates, or denied some. */
  predicate ListingInDoubt(runs: seq<ProviderRun>) {
    exists r | r in runs && r.provider.Key() == "store-cli-updates" ::
      || (r.hint && r.health != UnsupportedHealth)
      || (r.health == Healthy
          && exists o | o in r.observations :: o.health == Healthy && o.kind == AuthoritativeNegative)
  }

  /** A provider the scan cannot do without was not healthy. */
  predicate Unfinished(runs: seq<ProviderRun>) { exists r | r in runs :: r.health != Healthy && !Optional(r.provider) }

  lemma DoubtsAre(runs: seq<ProviderRun>)
    ensures ListingInDoubt(runs) <==> HintsAtUpdates(runs) || DeniesUpdates(runs)
    ensures Unfinished(runs) <==> AggregateIncomplete(runs)
  {
    forall p: Provider ensures Optional(p) <==> !RequiredProvider(p) {}
    hide Optional, RequiredProvider;
    if HintsAtUpdates(runs) {
      var r :| r in runs && r.hint && r.provider.Key() == CLI_UPDATES && r.health != UnsupportedHealth;
      assert ListingInDoubt(runs);
    }
  }

  /** The families of the scan, and the mappings it can reuse of what came before. */
  function Known(families: seq<Family>, scan: Scan): map<string, Family> { ByPfn(Concerned(families, scan)) }

  function Borrowed(families: seq<Family>, scan: Scan, previous: Option<Snapshot>, g: Setting): map<Identity, Mapping> {
    ReusableMappings(previous, Known(families, scan), if scan.startedAt.Some? then scan.startedAt.value else g.clock,
                     g.version)
  }

  /** A family's state is checked exactly when the aggregate listing is in doubt, when
      it is to be updated unattended and a required provider failed, or when it is
      offered an update that no earlier mapping completes. It is asked about exactly then,
      and where mappings are wanted and it has none to reuse. */
  lemma CheckedExactlyWhen(plan: Plan, scan: Scan, families: seq<Family>, runs: seq<ProviderRun>,
                           previous: Option<Snapshot>, g: Setting, key: string)
    requires PlanFor(plan, scan, families, runs, previous, g)
    ensures var known, borrowed := Known(families, scan), Borrowed(families, scan, previous, g);
      && (key in plan.stateChecks <==> (key in known &&
           (|| ListingInDoubt(runs)
            || (Unfinished(runs) && known[key].identity in g.autoUpdate)
            || (known[key].identity !in borrowed && OfferedWithoutTarget(known[key], runs, scan)))))
      && (key in known ==>
           (known[key] in plan.families <==>
              key in plan.stateChecks || (g.ensureMappings && known[key].identity !in borrowed)))
  {
    var byPfn := ByPfn(Concerned(families, scan));
    var mappings := ReusableMappings(previous, byPfn, PlanTime(scan, g), g.version);
    ByPfnMembers(Concerned(families, scan));
    UntargetedMembers(AllObservations(runs), scan);
    forall o ensures Lacking(o, scan) <==> NeedsTarget(o, scan) { LackingNeeds(o, scan); }
    DoubtsAre(runs);
    hide Lacking, NeedsTarget, ListingInDoubt, Unfinished, HintsAtUpdates, DeniesUpdates, AggregateIncomplete;
    PlannedExactly(Untargeted(AllObservations(runs), scan), scan, byPfn, mappings);
    if key in byPfn {
      forall other | other in byPfn && byPfn[other] == byPfn[key] ensures other == key {
        assert Lower(byPfn[other].identity.pfn) == other;
      }
    }
  }

  /** A hint at updates, or a negative from the aggregate listing, has every family
      asked about; with mappings wanted, so has every family without a reusable one. */
  lemma DoubtSweepsEveryFamily(plan: Plan, scan: Scan, families: seq<Family>, runs: seq<ProviderRun>,
                               previous: Option<Snapshot>, g: Setting, f: Family)
    requires PlanFor(plan, scan, families, runs, previous, g) && f in families && OwesEvidence(f, scan)
    ensures HintsAtUpdates(runs) || DeniesUpdates(runs) ==>
              Lower(f.identity.pfn) in plan.stateChecks && exists p | p in plan.families ::
                  EqualFold(p.identity.pfn, f.identity.pfn)
    ensures g.ensureMappings ==>
              || (exists p | p in plan.families :: EqualFold(p.identity.pfn, f.identity.pfn))
              || exists p, m | p in families && EqualFold(p.identity.pfn, f.identity.pfn) ::
                   Lends(previous, m, p, PlanTime(scan, g), g.version)
  {
    ConcernedMembers(families, scan);
    ByPfnMembers(Concerned(families, scan));
    var byPfn, key := ByPfn(Concerned(families, scan)), Lower(f.identity.pfn);
    var mappings := ReusableMappings(previous, byPfn, PlanTime(scan, g), g.version);
    if byPfn[key].identity in mappings {
      ReusedAreLent(previous, byPfn, PlanTime(scan, g), g.version, key);
      assert byPfn[key] in families;
    }
    hide ByPfn, Concerned, ReusableMappings, Untargeted, Resolve, HintsAtUpdates, DeniesUpdates, Lends;
    assert byPfn[key] in plan.families || byPfn[key].identity in mappings
           || !(HintsAtUpdates(runs) || DeniesUpdates(runs) || g.ensureMappings);
  }

  lemma ReuseIsExact(scan: Scan, f: Family, m: Mapping, source: Observation, previous: Snapshot, now: nat,
                     version: string)
    requires SnapshotValid(previous) && Lends(Some(previous), m, f, now, version) && OwesEvidence(f, scan)
    ensures var x := ReuseObservation(scan, f, m, source);
      ObservationValid(x, scan) && Classify(x, f.identity, scan) == ExactOffer
    ensures m.(scanId := scan.scanId).VerifiedFor(f.identity, scan)
    ensures ReuseObservation(scan, f, m, source).identity == f.identity
    ensures ReuseObservation(scan, f, m, source).target.Some?
      && ReuseObservation(scan, f, m, source).target.value.productId == m.productId
  {
    MappingsOfRuns(previous.runs, m);
    var r :| r in previous.runs && m in r.mappings;
    assert m.VerifiedFor(m.identity, previous.scan);
    TrimIdem(m.productId);
    var v := Trim(m.productId);
    assert Trim(v) == v;
  }

  lemma {:induction false} MappingsOfRuns(runs: seq<ProviderRun>, m: Mapping)
    requires m in AllMappings(runs)
    ensures exists r | r in runs :: m in r.mappings
  {
    if m in runs[0].mappings {
      assert runs[0] in runs;
    } else {
      MappingsOfRuns(runs[1..], m);
      var r :| r in runs[1..] && m in r.mappings;
      assert r in runs;
    }
  }

  /** The observation completes an offer of this scan from an earlier mapping that a
      published snapshot lends. */
  ghost predicate Reoffers(x: Observation, o: Observation, scan: Scan, families: seq<Family>, previous: Snapshot,
                           now: nat, version: string) {
    exists m: Mapping, f: Family ::
      && f in families && EqualFold(o.identity.pfn, f.identity.pfn) && Completes(x, o, m, f, scan)
      && Lends(Some(previous), m, f, now, version)
  }

  ghost predicate ReoffersSome(x: Observation, runs: seq<ProviderRun>, scan: Scan, families: seq<Family>,
                               previous: Snapshot, now: nat, version: string) {
    exists o | o in AllObservations(runs) :: Lacking(o, scan) && Reoffers(x, o, scan, families, previous, now, version)
  }

  /** What earlier mappings contribute is exact evidence of this scan: each completes an
      offer that lacks a target, lent by a valid published snapshot for an unchanged package
      within the window; the run passes the snapshot's checks although nobody sanitises it. */
  lemma ReusedRunIsSound(plan: Plan, scan: Scan, families: seq<Family>, runs: seq<ProviderRun>, previous: Snapshot,
                         g: Setting)
    requires PlanFor(plan, scan, families, runs, Some(previous), g) && SnapshotValid(previous) && plan.reused.Some?
    ensures RunValid(plan.reused.value, scan)
    ensures forall x | x in plan.reused.value.observations ::
              && Classify(x, x.identity, scan) == ExactOffer
              && ReoffersSome(x, runs, scan, families, previous, PlanTime(scan, g), g.version)
  {
    var byPfn := ByPfn(Concerned(families, scan));
    var now := PlanTime(scan, g);
    var mappings := ReusableMappings(Some(previous), byPfn, now, g.version);
    ConcernedMembers(families, scan);
    ByPfnMembers(Concerned(families, scan));
    ResolveReuses(Untargeted(AllObservations(runs), scan), scan, byPfn, mappings);
    var run := plan.reused.value;
    hide ByPfn, Concerned, ReusableMappings, Untargeted, Resolve, Planned;
    var positives := Untargeted(AllObservations(runs), scan);
    UntargetedMembers(AllObservations(runs), scan);
    hide ReuseObservation, Lends, SnapshotValid, OwesEvidence, Classify, Completes, Lacking, NeedsTarget;
    assert Reuses(run, positives, scan, byPfn, mappings);
    forall x | x in run.observations
      ensures ObservationValid(x, scan) && Classify(x, x.identity, scan) == ExactOffer
      ensures ReoffersSome(x, runs, scan, families, previous, now, g.version)
    {
      assert ReusedFor(x, positives, scan, byPfn, mappings);
      var source :| source in positives && FromOffer(x, source, scan, byPfn, mappings);
      var key := Lower(source.identity.pfn);
      var f, m := byPfn[key], mappings[byPfn[key].identity];
      ReusedAreLent(Some(previous), byPfn, now, g.version, key);
      ReuseIsExact(scan, f, m, source, previous, now, g.version);
      ReuseCompletes(scan, f, m, source);
      LackingNeeds(source, scan);
      assert Reoffers(x, source, scan, families, previous, now, g.version);
    }
    forall m | m in run.mappings ensures m.VerifiedFor(m.identity, scan) {
      var id :| id in mappings && m == mappings[id].(scanId := scan.scanId);
      LentMapping(previous, byPfn, now, g.version, id);
      ReuseIsExact(scan, byPfn[Lower(id.pfn)], mappings[id], AnyObservation(scan), previous, now, g.version);
    }
  }

  function AnyObservation(scan: Scan): Observation {
    Observation(REUSE, Healthy, EmptyResult, Identity("", ""), "", None, "", "", None)
  }

  lemma LentMapping(previous: Snapshot, byPfn: map<string, Family>, now: nat, version: string, id: Identity)
    requires id in ReusableMappings(Some(previous), byPfn, now, version)
    ensures Lower(id.pfn) in byPfn && byPfn[Lower(id.pfn)].identity == id
    ensures Lends(Some(previous), ReusableMappings(Some(previous), byPfn, now, version)[id], byPfn[Lower(id.pfn)], now,
                  version)
    ensures ReusableMappings(Some(previous), byPfn, now, version)[id].identity == id
  {
    ReusableFacts(AllMappings(previous.runs), byPfn, now, version);
  }
}
