/** Scans that make the pipeline show an update nobody ever offered. */
module StoreFalseAlarm {
  import opened Wrappers
  import opened Text
  import opened StoreModel
  import opened StoreReconcile
  import opened StoreTheorems
  import opened StorePipeline
  import opened StoreSanitize
  import opened StoreHysteresis

  /** The provider of the inventory, and one whose answer every scan needs. */
  datatype Providers = Providers(inventory: Provider, catalog: Provider) {
    ghost predicate Valid() {
      && inventory.Key() == INVENTORY_PROVIDER
      && RequiredProvider(catalog) && catalog.Key() != INVENTORY_PROVIDER && catalog.Key() != ""
    }
  }

  function InventoryRun(scan: Scan, ps: Providers): ProviderRun {
    ProviderRun(ps.inventory, scan.startedAt, Healthy, [], [], "", false)
  }

  /** The catalog provider failed; its run is prepared as every run is. */
  function FailedRun(scan: Scan, f: Family, ps: Providers): ProviderRun {
    Prepared(scan, ProviderRun(ps.catalog, scan.startedAt, FailedHealth, [], [], "", false), [f])
  }

  /** The catalog provider answered that there is no update. */
  function DenyingRun(scan: Scan, f: Family, ps: Providers): ProviderRun {
    ProviderRun(ps.catalog, scan.startedAt, Healthy,
                [Observation(ps.catalog, Healthy, AuthoritativeNegative, f.identity, scan.scanId, scan.startedAt,
                             f.version, "", None)],
                [], "", false)
  }

  function Failing(scan: Scan, f: Family, ps: Providers): Round {
    Round(scan, [f], [InventoryRun(scan, ps), FailedRun(scan, f, ps)], true)
  }

  function Denying(scan: Scan, f: Family, ps: Providers): Round {
    Round(scan, [f], [InventoryRun(scan, ps), DenyingRun(scan, f, ps)], true)
  }

  /** A round as the pipeline runs it: prepared runs, the status they give, published. */
  ghost predicate AsRun(r: Round) {
    && (exists id | id != "" :: r.scan.status == CompletionStatus(id, r.families, false, r.runs))
    && (forall run | run in r.runs :: exists raw :: run == Prepared(r.scan, raw, r.families))
    && r.published == ShouldPublish(r.scan, r.families)
  }

  lemma FailedRunFacts(scan: Scan, f: Family, ps: Providers)
    requires ps.Valid() && OwesEvidence(f, scan)
    ensures var run := FailedRun(scan, f, ps);
      && run.health == FailedHealth && run.provider == ps.catalog && run.observations != [] && run.mappings == []
      && forall o | o in run.observations :: o.health != Healthy && o.identity == f.identity && o.scanId == scan.scanId
  {
    var bare := ProviderRun(ps.catalog, scan.startedAt, FailedHealth, [], [], "", false);
    BareStays(scan, bare);
    var gap := OnlyGap(scan, bare, f);
    CatalogIsNotDiscovery(ps);
    hide RequiredProvider, SeenFamilies, Gaps, Sanitize;
    PreparedIs(scan, bare, f, gap);
    OneObservation(scan, bare.(observations := [gap]));
  }

  lemma CatalogIsNotDiscovery(ps: Providers)
    requires ps.Valid()
    ensures ps.catalog.Key() != WINRT_DISCOVERY
  {
  }

  lemma PreparedIs(scan: Scan, bare: ProviderRun, f: Family, gap: Observation)
    requires Sanitize(scan, bare) == bare && Gaps(scan, bare, [f]) == [gap] && bare.observations == []
    requires bare.health != Healthy && bare.provider.Key() != WINRT_DISCOVERY
    ensures Prepared(scan, bare, [f]) == Sanitize(scan, bare.(observations := [gap]))
  {
    hide Sanitize, Gaps;
    assert bare.observations + [gap] == [gap];
  }

  lemma BareStays(scan: Scan, bare: ProviderRun)
    requires bare.observations == [] && bare.mappings == [] && bare.provider.Key() != "" && bare.health == FailedHealth
    ensures Sanitize(scan, bare) == bare
  {
  }

  lemma OnlyGap(scan: Scan, bare: ProviderRun, f: Family) returns (gap: Observation)
    requires bare.observations == [] && OwesEvidence(f, scan)
    ensures Gaps(scan, bare, [f]) == [gap] && gap == GapObservation(scan, bare, f)
  {
    gap := GapObservation(scan, bare, f);
    assert [f][..0] == [] && Gaps(scan, bare, []) == [];
    assert SeenFamilies([], scan) == {};
  }

  lemma OneObservation(scan: Scan, run: ProviderRun)
    requires |run.observations| == 1 && ObservationValid(run.observations[0], scan) && run.mappings == []
    requires run.provider.Key() != "" && run.health == FailedHealth
    ensures var out := Sanitize(scan, run);
      && out.provider == run.provider && out.health == FailedHealth && out.mappings == [] && |out.observations| == 1
      && var o, kept := run.observations[0], out.observations[0];
      kept.health == o.health && kept.identity == o.identity && kept.scanId == o.scanId
  {
    var o := run.observations[0];
    assert run.observations == [o] && [o][..0] == [];
    assert KeptObservations([], scan, run.provider, run.completedAt) == [];
  }

  lemma {:induction false} FirstBlocks(m: seq<Observation>)
    requires m != [] && forall o | o in m :: Blocks(o)
    ensures FirstBlocking(m).Some?
  {
    if |m| > 1 { FirstBlocks(m[..|m| - 1]); }
  }

  lemma {:induction false} NoneOfClass(obs: seq<Observation>, i: Input, c: Class)
    requires (forall o | o in obs :: o.health != Healthy) && c != Mute && c != Foreign
    ensures OfClass(obs, i, c) == []
  {
    if obs != [] { NoneOfClass(obs[..|obs| - 1], i, c); }
  }

  /** Failures alone leave a package unknown. */
  lemma FailuresTellNothing(i: Input)
    requires forall o | o in i.observations :: o.health != Healthy
    ensures Reconcile(i).state == Unknown && !AvailableWhen(Members(i.observations), i.identity, i.scan)
  {
    FailuresAreUnknown(i);
    AvailableExactlyWhen(i);
    hide Reconcile, AvailableWhen, Members;
  }

  lemma FailuresAreUnknown(i: Input)
    requires forall o | o in i.observations :: o.health != Healthy
    ensures Reconcile(i).state == Unknown
  {
    forall c | c != Mute && c != Foreign ensures OfClass(i.observations, i, c) == [] {
      NoneOfClass(i.observations, i, c);
    }
    MatchingMembers(i.observations, i);
    if Matching(i.observations, i) != [] { FirstBlocks(Matching(i.observations, i)); }
    hide OfClass, Matching, FirstBlocking;
  }

  lemma OneRow(f: Family, scan: Scan, runs: seq<ProviderRun>, before: map<Identity, Published>)
    requires f.productLike
    ensures Rows(scan, [f], runs, before) == [Row(scan, AssessmentOf(scan, f.identity, runs), runs, before)]
  {
    assert [f][..0] == [] && Rows(scan, [], runs, before) == [];
  }

  lemma TwoRuns(a: ProviderRun, b: ProviderRun)
    requires a.observations == [] && a.mappings == [] && b.mappings == []
    ensures AllObservations([a, b]) == b.observations && AllMappings([a, b]) == []
  {
    assert [a, b][1..] == [b] && [b][1..] == [];
    assert AllObservations([]) == [] && AllMappings([]) == [];
  }

  // ---------------------------------------------------------------- failing scans

  lemma TwoRunsAsRun(scan: Scan, f: Family, a: ProviderRun, b: ProviderRun, rawA: ProviderRun, rawB: ProviderRun)
    requires a == Prepared(scan, rawA, [f]) && b == Prepared(scan, rawB, [f])
    requires a.health == Healthy && Mandatory(b.provider)
    requires scan.status == if b.health == Healthy then ScanCompleted else ScanIncomplete
    ensures AsRun(Round(scan, [f], [a, b], true))
  {
    hide Prepared, Mandatory;
    var runs := [a, b];
    assert b in runs && (b.health != Healthy ==> Spoils(b, |runs|)) && !Spoils(a, |runs|);
    assert CompletionStatus("scan", [f], false, runs) == scan.status && "scan" != "";
  }

  lemma FailingIsAsRun(scan: Scan, f: Family, ps: Providers)
    requires ps.Valid() && OwesEvidence(f, scan) && scan.status == ScanIncomplete
    ensures AsRun(Failing(scan, f, ps)) && !Offers(Failing(scan, f, ps), f.identity)
  {
    FailedRunFacts(scan, f, ps);
    var raw := ProviderRun(ps.catalog, scan.startedAt, FailedHealth, [], [], "", false);
    BareIsPrepared(scan, InventoryRun(scan, ps), [f]);
    assert Mandatory(ps.catalog);
    hide Prepared, Mandatory, AsRun, RequiredProvider;
    TwoRunsAsRun(scan, f, InventoryRun(scan, ps), FailedRun(scan, f, ps), InventoryRun(scan, ps), raw);
    FailingOffersNothing(scan, f, ps);
  }

  lemma FailingOffersNothing(scan: Scan, f: Family, ps: Providers)
    requires ps.Valid() && OwesEvidence(f, scan)
    ensures !Offers(Failing(scan, f, ps), f.identity)
  {
    var runs := Failing(scan, f, ps).runs;
    FailedRunFacts(scan, f, ps);
    hide FailedRun, AvailableWhen, RequiredProvider;
    TwoRuns(InventoryRun(scan, ps), FailedRun(scan, f, ps));
    FailuresTellNothing(Input(f.identity, scan, Required(runs), AllObservations(runs)));
  }

  lemma BareIsPrepared(scan: Scan, run: ProviderRun, families: seq<Family>)
    requires Sane(run, scan) && run.health == Healthy
    ensures Prepared(scan, run, families) == run
  {
    SanitizeMakesSane(scan, run);
  }

  /** The row of a failing scan. */
  lemma FailingRow(scan: Scan, f: Family, ps: Providers, previous: seq<Published>)
    requires ps.Valid() && OwesEvidence(f, scan) && scan.status == ScanIncomplete
    requires |previous| <= 1 && forall p | p in previous :: p.a.identity == f.identity
    ensures var rows := Stored(Failing(scan, f, ps), previous);
      && |rows| == 1 && rows[0].a.identity == f.identity
      && rows[0].a.state == (if previous == [] then Unknown else Available) && rows[0].stale == (previous != [])
  {
    var runs, before := Failing(scan, f, ps).runs, PreviousRows(previous);
    var i := Input(f.identity, scan, Required(runs), AllObservations(runs));
    FailedRunFacts(scan, f, ps);
    TwoRuns(InventoryRun(scan, ps), FailedRun(scan, f, ps));
    FailuresTellNothing(i);
    ReconcileKeepsIdentity(i);
    if previous != [] {
      assert previous == [previous[0]] && previous[0] in previous;
      OnlyRow(previous[0]);
    }
    OneRow(f, scan, runs, before);
    RowOfUnknown(scan, AssessmentOf(scan, f.identity, runs), runs, before);
  }

  lemma RowOfUnknown(scan: Scan, a: Assessment, runs: seq<ProviderRun>, before: map<Identity, Published>)
    requires a.state == Unknown && scan.status == ScanIncomplete
    ensures var stored := StoredRow(Row(scan, a, runs, before));
      && stored.a.identity == a.identity && stored.stale == (a.identity in before)
      && stored.a.state == if a.identity in before then Available else Unknown
  {
    RetractionVetoNeverFires(scan, a, runs);
    var row := Row(scan, a, runs, before);
    RowKeepsIdentity(scan, a, runs, before);
    StoredRowFacts(StoredRow(row), row);
  }

  function Failures(scans: seq<Scan>, f: Family, ps: Providers): seq<Round> {
    seq(|scans|, i requires 0 <= i < |scans| => Failing(scans[i], f, ps))
  }

  /** Nothing but failures: after the first scan the package is unknown, and from the
      second on it is shown as available, though no scan ever offered anything. */
  lemma {:induction false} FailuresBecomeAvailable(scans: seq<Scan>, f: Family, ps: Providers)
    requires ps.Valid() && scans != []
    requires forall scan | scan in scans :: OwesEvidence(f, scan) && scan.status == ScanIncomplete
    ensures var rounds := Failures(scans, f, ps);
      && (forall r | r in rounds :: AsRun(r) && !Offers(r, f.identity))
      && |History(rounds)| == 1 && History(rounds)[0].a.identity == f.identity
      && History(rounds)[0].a.state == (if |scans| == 1 then Unknown else Available)
      && History(rounds)[0].stale == (|scans| > 1)
  {
    hide *;
    var n := |scans| - 1;
    var rounds, earlier := Failures(scans, f, ps), Failures(scans[..n], f, ps);
    AllAsRun(scans, f, ps);
    FailuresGrow(scans, f, ps);
    assert scans[n] in scans;
    if n > 0 {
      FailuresBecomeAvailable(scans[..n], f, ps);
      assert forall p | p in History(earlier) :: p == History(earlier)[0];
    } else {
      NoHistory(earlier);
    }
    FailingRow(scans[n], f, ps, History(earlier));
    LastRound(rounds, f, ps);
  }

  lemma NoHistory(rounds: seq<Round>)
    ensures |rounds| == 0 ==> History(rounds) == []
  {
  }

  lemma FailuresGrow(scans: seq<Scan>, f: Family, ps: Providers)
    requires scans != []
    ensures var rounds, n := Failures(scans, f, ps), |scans| - 1;
      |rounds| == n + 1 && rounds[..n] == Failures(scans[..n], f, ps) && rounds[n] == Failing(scans[n], f, ps)
      && rounds[n].published
  {
    hide FailedRun;
  }

  lemma AllAsRun(scans: seq<Scan>, f: Family, ps: Providers)
    requires ps.Valid() && forall scan | scan in scans :: OwesEvidence(f, scan) && scan.status == ScanIncomplete
    ensures forall r | r in Failures(scans, f, ps) :: AsRun(r) && !Offers(r, f.identity)
  {
    hide AsRun, Offers, Failing, OwesEvidence;
    var rounds := Failures(scans, f, ps);
    forall r | r in rounds ensures AsRun(r) && !Offers(r, f.identity) {
      var k :| 0 <= k < |rounds| && rounds[k] == r;
      assert scans[k] in scans;
      FailingIsAsRun(scans[k], f, ps);
    }
  }

  lemma LastRound(rounds: seq<Round>, f: Family, ps: Providers)
    requires rounds != [] && rounds[|rounds| - 1].published
    ensures History(rounds) == Stored(rounds[|rounds| - 1], History(rounds[..|rounds| - 1]))
  {
  }

  // ---------------------------------------------------------------- a package known to be current

  lemma DenyingFacts(scan: Scan, f: Family, ps: Providers)
    requires ps.Valid() && OwesEvidence(f, scan) && scan.CompleteFor(f.identity)
    ensures AsRun(Denying(scan, f, ps)) && !Offers(Denying(scan, f, ps), f.identity)
    ensures AssessmentOf(scan, f.identity, Denying(scan, f, ps).runs).state == Current
  {
    DenyingIsAsRun(scan, f, ps);
    var o := DenyingInput(scan, f, ps);
    OneDenial(scan, Denying(scan, f, ps).runs, ps.catalog, o, f.identity);
    hide AsRun, Denying, AvailableWhen, Reconcile;
  }

  /** All a denying scan knows. */
  lemma DenyingInput(scan: Scan, f: Family, ps: Providers) returns (o: Observation)
    requires ps.Valid()
    ensures var runs := Denying(scan, f, ps).runs; AllObservations(runs) == [o] && Required(runs) == [ps.catalog]
    ensures o.provider == ps.catalog && o.Matches(f.identity, scan) && o.health == Healthy
      && o.kind == AuthoritativeNegative
    ensures Denying(scan, f, ps).scan == scan
  {
    hide RequiredProvider;
    var denying := DenyingRun(scan, f, ps);
    OnlyRequired(scan, f, ps);
    TwoRuns(InventoryRun(scan, ps), denying);
    o := denying.observations[0];
  }

  lemma OneDenial(scan: Scan, runs: seq<ProviderRun>, catalog: Provider, o: Observation, id: Identity)
    requires AllObservations(runs) == [o] && Required(runs) == [catalog] && o.provider == catalog && catalog.Key() != ""
    requires o.Matches(id, scan) && o.health == Healthy && o.kind == AuthoritativeNegative
    requires id.Resolved() && scan.userSid == id.userSid && scan.CompleteFor(id)
    ensures AssessmentOf(scan, id, runs).state == Current && !AvailableWhen(Members(AllObservations(runs)), id, scan)
  {
    hide AvailableWhen, Reconcile, AllObservations, Required;
    var i := Input(id, scan, [catalog], [o]);
    assert Members([o]) == {o} && RequiredKeys([catalog]) == {catalog.Key()};
    DenialMeansCurrent(i, o);
  }

  lemma OnlyRequired(scan: Scan, f: Family, ps: Providers)
    requires ps.Valid()
    ensures Required(Denying(scan, f, ps).runs) == [ps.catalog]
  {
    var inventory, denying := InventoryRun(scan, ps), DenyingRun(scan, f, ps);
    assert [inventory, denying][1..] == [denying] && [denying][1..] == [];
    assert Required([]) == [] && Required([denying]) == [ps.catalog];
  }

  lemma DenyingIsAsRun(scan: Scan, f: Family, ps: Providers)
    requires ps.Valid() && OwesEvidence(f, scan) && scan.CompleteFor(f.identity)
    ensures AsRun(Denying(scan, f, ps))
  {
    BareIsPrepared(scan, InventoryRun(scan, ps), [f]);
    BareIsPrepared(scan, DenyingRun(scan, f, ps), [f]);
    assert Mandatory(ps.catalog);
    hide Prepared, Mandatory, AsRun, RequiredProvider;
    TwoRunsAsRun(scan, f, InventoryRun(scan, ps), DenyingRun(scan, f, ps), InventoryRun(scan, ps),
                 DenyingRun(scan, f, ps));
  }

  lemma OnlyDenied(e: set<Observation>, o: Observation, id: Identity, scan: Scan)
    requires e == {o} && o.Matches(id, scan) && o.health == Healthy && o.kind == AuthoritativeNegative
    requires o.provider.Key() != ""
    ensures forall c :: Has(e, id, scan, c) ==> c == Negative
    ensures AnsweredNegative(e, id, scan, o.provider.Key()) && !Blocks(o)
  {
    assert o in e && Classify(o, id, scan) == Negative;
  }

  lemma DenialMeansCurrent(i: Input, o: Observation)
    requires Members(i.observations) == {o} && RequiredKeys(i.required) == {o.provider.Key()} && o.provider.Key() != ""
    requires o.Matches(i.identity, i.scan) && o.health == Healthy && o.kind == AuthoritativeNegative
    requires i.identity.Resolved() && i.scan.userSid == i.identity.userSid && i.scan.CompleteFor(i.identity)
    ensures Reconcile(i).state == Current && !AvailableWhen(Members(i.observations), i.identity, i.scan)
  {
    OnlyDenied(Members(i.observations), o, i.identity, i.scan);
    CurrentExactlyWhen(i);
    hide Has, AnsweredNegative, Reconcile, Members, Agree, Contradicted;
  }

  /** A package that a complete scan found current is shown as available as soon as one
      scan fails. */
  lemma CurrentBecomesRetainedAvailable(first: Scan, second: Scan, f: Family, ps: Providers)
    requires ps.Valid() && OwesEvidence(f, first) && first.CompleteFor(f.identity)
    requires OwesEvidence(f, second) && second.status == ScanIncomplete
    ensures var rounds := [Denying(first, f, ps), Failing(second, f, ps)];
      && (forall r | r in rounds :: AsRun(r) && !Offers(r, f.identity))
      && History(rounds[..1]) != [] && History(rounds[..1])[0].a.state == Current
      && |History(rounds)| == 1 && History(rounds)[0].a.identity == f.identity
      && History(rounds)[0].a.state == Available && History(rounds)[0].stale
  {
    hide *;
    var rounds := [Denying(first, f, ps), Failing(second, f, ps)];
    assert Denying(first, f, ps).published && Failing(second, f, ps).published by {
      WitnessesArePublished(first, second, f, ps);
    }
    DenyingFacts(first, f, ps);
    FailingIsAsRun(second, f, ps);
    DenyingRow(first, f, ps);
    assert rounds[..1] == [rounds[0]] && rounds[..1][..0] == [];
    NoHistory([]);
    LastRound(rounds[..1], f, ps);
    LastRound(rounds, f, ps);
    assert forall p | p in History(rounds[..1]) :: p == History(rounds[..1])[0];
    FailingRow(second, f, ps, History(rounds[..1]));
  }

  lemma WitnessesArePublished(first: Scan, second: Scan, f: Family, ps: Providers)
    ensures Denying(first, f, ps).published && Failing(second, f, ps).published
  {
    hide FailedRun, DenyingRun;
  }

  lemma DenyingRow(scan: Scan, f: Family, ps: Providers)
    requires ps.Valid() && OwesEvidence(f, scan) && scan.CompleteFor(f.identity)
    ensures var rows := Stored(Denying(scan, f, ps), []);
      |rows| == 1 && rows[0].a.identity == f.identity && rows[0].a.state == Current && !rows[0].stale
  {
    var runs := Denying(scan, f, ps).runs;
    DenyingFacts(scan, f, ps);
    OneRow(f, scan, runs, map[]);
    var a := AssessmentOf(scan, f.identity, runs);
    AssessmentFacts(scan, f.identity, runs);
    FreshRowFacts(scan, a, VerifiedIds(AllMappings(runs), scan, a.identity), Row(scan, a, runs, map[]));
    StoredRowFacts(StoredRow(Row(scan, a, runs, map[])), Row(scan, a, runs, map[]));
  }
}
