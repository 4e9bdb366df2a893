/** What the pipeline does to a provider's run before anyone reconciles it. */
module StoreSanitize {
  import opened Wrappers
  import opened Text
  import opened StoreModel
  import opened StoreReconcile
  import opened StoreTheorems
  import opened StorePipeline

  const UNKNOWN_PROVIDER := "unknown-provider"

  function Attributed(p: Provider, run: Provider): Provider { if p.Key() == "" then run else p }

  function Dated(at: Option<nat>, completedAt: Option<nat>): Option<nat> { if at.None? then completedAt else at }

  /** The observations that belong to the scan and its user. */
  function KeptObservations(obs: seq<Observation>, scan: Scan, provider: Provider,
                            completedAt: Option<nat>): seq<Observation> {
    if obs == [] then []
    else
      var o := obs[|obs| - 1];
      KeptObservations(obs[..|obs| - 1], scan, provider, completedAt)
      + if ObservationValid(o, scan)
        then [o.(provider := Attributed(o.provider, provider), observedAt := Dated(o.observedAt, completedAt))]
        else []
  }

  function KeptMappings(ms: seq<Mapping>, scan: Scan, provider: Provider): seq<Mapping> {
    if ms == [] then []
    else
      var m := ms[|ms| - 1];
      KeptMappings(ms[..|ms| - 1], scan, provider)
      + if m.VerifiedFor(m.identity, scan) then [m.(provider := Attributed(m.provider, provider))] else []
  }

  predicate Blocked(obs: seq<Observation>) { exists o | o in obs :: Blocks(o) }

  /** A run with foreign evidence has failed; a healthy run with blocking evidence is
      incomplete. */
  function Sanitize(scan: Scan, run: ProviderRun): ProviderRun {
    var provider := if run.provider.Key() == "" then run.provider.(id := UNKNOWN_PROVIDER) else run.provider;
    var obs := KeptObservations(run.observations, scan, provider, run.completedAt);
    var ms := KeptMappings(run.mappings, scan, provider);
    var health := if |obs| < |run.observations| || |ms| < |run.mappings| then FailedHealth
                  else if run.health == NoHealth || (run.health == Healthy && Blocked(obs)) then IncompleteHealth
                  else run.health;
    run.(provider := provider, health := health, observations := obs, mappings := ms)
  }

  lemma {:induction false} KeptObservationsFacts(obs: seq<Observation>, scan: Scan, provider: Provider,
                                                 completedAt: Option<nat>)
    requires provider.Key() != ""
    ensures var kept := KeptObservations(obs, scan, provider, completedAt);
      && |kept| <= |obs| && (|kept| == |obs| <==> forall o | o in obs :: ObservationValid(o, scan))
      && forall o | o in kept :: SaneObservation(o, scan, completedAt)
  {
    if obs != [] {
      KeptObservationsFacts(obs[..|obs| - 1], scan, provider, completedAt);
      assert obs == obs[..|obs| - 1] + [obs[|obs| - 1]];
    }
  }

  lemma {:induction false} KeptMappingsFacts(ms: seq<Mapping>, scan: Scan, provider: Provider)
    requires provider.Key() != ""
    ensures var kept := KeptMappings(ms, scan, provider);
      && |kept| <= |ms| && (|kept| == |ms| <==> forall m | m in ms :: m.VerifiedFor(m.identity, scan))
      && forall m | m in kept :: SaneMapping(m, scan)
  {
    if ms != [] {
      KeptMappingsFacts(ms[..|ms| - 1], scan, provider);
      assert ms == ms[..|ms| - 1] + [ms[|ms| - 1]];
    }
  }

  method DowngradeForBlockingObservations(run: ProviderRun) returns (out: ProviderRun)
    ensures out == if run.health == Healthy && Blocked(run.observations) then run.(health := IncompleteHealth) else run
  {
    out := run;
    if run.health != Healthy { return; }
    for n := 0 to |run.observations|
      invariant forall k | 0 <= k < n :: !Blocks(run.observations[k])
      invariant out == run
    {
      if Blocks(run.observations[n]) {
        assert run.observations[n] in run.observations;
        return run.(health := IncompleteHealth);
      }
    }
  }

  lemma OneMoreObservation(obs: seq<Observation>, n: nat, scan: Scan, provider: Provider, completedAt: Option<nat>)
    requires n < |obs|
    ensures KeptObservations(obs[..n + 1], scan, provider, completedAt)
      == KeptObservations(obs[..n], scan, provider, completedAt)
      + if ObservationValid(obs[n], scan)
        then [obs[n].(provider := Attributed(obs[n].provider, provider),
                      observedAt := Dated(obs[n].observedAt, completedAt))]
        else []
  {
    assert obs[..n + 1][..n] == obs[..n];
  }

  lemma OneMoreMapping(ms: seq<Mapping>, n: nat, scan: Scan, provider: Provider)
    requires n < |ms|
    ensures KeptMappings(ms[..n + 1], scan, provider) == KeptMappings(ms[..n], scan, provider)
      + if ms[n].VerifiedFor(ms[n].identity, scan) then [ms[n].(provider := Attributed(ms[n].provider, provider))]
          else []
  {
    assert ms[..n + 1][..n] == ms[..n];
  }

  method FilterObservations(scan: Scan, run: ProviderRun, provider: Provider)
      returns (kept: seq<Observation>, foreign: bool)
    ensures kept == KeptObservations(run.observations, scan, provider, run.completedAt)
    ensures foreign <==> |kept| < |run.observations|
  {
    kept, foreign := [], false;
    for n := 0 to |run.observations|
      invariant kept == KeptObservations(run.observations[..n], scan, provider, run.completedAt)
      invariant |kept| <= n && (foreign <==> |kept| < n)
    {
      OneMoreObservation(run.observations, n, scan, provider, run.completedAt);
      var o := run.observations[n];
      if o.provider.Key() == "" { o := o.(provider := provider); }
      if o.scanId != scan.scanId || o.identity.userSid != scan.userSid || !o.identity.Resolved() {
        foreign := true;
        continue;
      }
      if o.observedAt.None? { o := o.(observedAt := run.completedAt); }
      kept := kept + [o];
    }
    assert run.observations[..|run.observations|] == run.observations;
  }

  method FilterMappings(scan: Scan, run: ProviderRun, provider: Provider)
      returns (kept: seq<Mapping>, unverifiable: bool)
    ensures kept == KeptMappings(run.mappings, scan, provider)
    ensures unverifiable <==> |kept| < |run.mappings|
  {
    kept, unverifiable := [], false;
    for n := 0 to |run.mappings|
      invariant kept == KeptMappings(run.mappings[..n], scan, provider)
      invariant |kept| <= n && (unverifiable <==> |kept| < n)
    {
      OneMoreMapping(run.mappings, n, scan, provider);
      var m := run.mappings[n];
      if m.provider.Key() == "" { m := m.(provider := provider); }
      if !m.VerifiedFor(m.identity, scan) {
        unverifiable := true;
        continue;
      }
      kept := kept + [m];
    }
    assert run.mappings[..|run.mappings|] == run.mappings;
  }

  /** The passes over a run's observations and mappings. */
  method SanitizeRun(scan: Scan, run: ProviderRun) returns (out: ProviderRun)
    ensures out == Sanitize(scan, run)
  {
    var provider, health := run.provider, run.health;
    if provider.Key() == "" { provider := provider.(id := UNKNOWN_PROVIDER); }
    if health == NoHealth { health := IncompleteHealth; }
    var observations, foreign := FilterObservations(scan, run, provider);
    if foreign { health := FailedHealth; }
    var mappings, unverifiable := FilterMappings(scan, run, provider);
    if unverifiable { health := FailedHealth; }
    out := DowngradeForBlockingObservations(run.(provider := provider, health := health, observations := observations,
                                                 mappings := mappings));
  }

  // ---------------------------------------------------------------- sane runs

  predicate SaneObservation(o: Observation, scan: Scan, completedAt: Option<nat>) {
    ObservationValid(o, scan) && o.provider.Key() != "" && (o.observedAt.Some? || completedAt.None?)
  }

  predicate SaneMapping(m: Mapping, scan: Scan) { m.VerifiedFor(m.identity, scan) && m.provider.Key() != "" }

  /** Everything attributed, dated and in scope, and a health the evidence supports. */
  predicate Sane(run: ProviderRun, scan: Scan) {
    && run.provider.Key() != "" && run.health != NoHealth
    && (forall o | o in run.observations :: SaneObservation(o, scan, run.completedAt))
    && (forall m | m in run.mappings :: SaneMapping(m, scan))
    && (run.health == Healthy ==> !Blocked(run.observations))
  }

  /** Sanitising makes a run sane, and changes exactly the runs that are not: so it
      is idempotent, and what it returns passes the snapshot's own checks. */
  lemma SanitizeMakesSane(scan: Scan, run: ProviderRun)
    ensures Sane(Sanitize(scan, run), scan)
    ensures Sanitize(scan, run) == run <==> Sane(run, scan)
    ensures Sanitize(scan, Sanitize(scan, run)) == Sanitize(scan, run)
    ensures RunValid(Sanitize(scan, run), scan)
  {
    SanitizedIsSane(scan, run);
    if Sane(run, scan) { SaneIsFixed(scan, run); }
    SaneIsFixed(scan, Sanitize(scan, run));
  }

  lemma SanitizedIsSane(scan: Scan, run: ProviderRun)
    ensures Sane(Sanitize(scan, run), scan)
  {
    var provider := Sanitize(scan, run).provider;
    KeptObservationsFacts(run.observations, scan, provider, run.completedAt);
    KeptMappingsFacts(run.mappings, scan, provider);
  }

  lemma {:induction false} SaneObservationsKept(obs: seq<Observation>, scan: Scan, provider: Provider,
                                                completedAt: Option<nat>)
    requires forall o | o in obs :: SaneObservation(o, scan, completedAt)
    ensures KeptObservations(obs, scan, provider, completedAt) == obs
  {
    if obs != [] {
      var o := obs[|obs| - 1];
      assert obs == obs[..|obs| - 1] + [o];
      assert SaneObservation(o, scan, completedAt);
      assert o.(provider := Attributed(o.provider, provider), observedAt := Dated(o.observedAt, completedAt)) == o;
      SaneObservationsKept(obs[..|obs| - 1], scan, provider, completedAt);
    }
  }

  lemma {:induction false} SaneMappingsKept(ms: seq<Mapping>, scan: Scan, provider: Provider)
    requires forall m | m in ms :: SaneMapping(m, scan)
    ensures KeptMappings(ms, scan, provider) == ms
  {
    if ms != [] {
      var m := ms[|ms| - 1];
      assert ms == ms[..|ms| - 1] + [m];
      assert SaneMapping(m, scan);
      assert m.(provider := Attributed(m.provider, provider)) == m;
      SaneMappingsKept(ms[..|ms| - 1], scan, provider);
    }
  }

  lemma SaneIsFixed(scan: Scan, run: ProviderRun)
    requires Sane(run, scan)
    ensures Sanitize(scan, run) == run
  {
    SaneObservationsKept(run.observations, scan, run.provider, run.completedAt);
    SaneMappingsKept(run.mappings, scan, run.provider);
  }

  /** Sanitising withholds health exactly for cause: the result is healthy exactly
      when the provider said so and everything it returned was usable. */
  lemma HealthyExactlyWhen(scan: Scan, run: ProviderRun)
    ensures Sanitize(scan, run).health == Healthy <==>
              && run.health == Healthy
              && (forall o | o in run.observations :: ObservationValid(o, scan) && !Blocks(o))
              && (forall m | m in run.mappings :: m.VerifiedFor(m.identity, scan))
  {
    var out := Sanitize(scan, run);
    KeptObservationsFacts(run.observations, scan, out.provider, run.completedAt);
    KeptMappingsFacts(run.mappings, scan, out.provider);
    if forall o | o in run.observations :: ObservationValid(o, scan) {
      KeepingKeepsBlocking(run.observations, scan, out.provider, run.completedAt);
    }
  }

  lemma {:induction false} KeepingKeepsBlocking(obs: seq<Observation>, scan: Scan, provider: Provider,
                                                completedAt: Option<nat>)
    requires forall o | o in obs :: ObservationValid(o, scan)
    ensures Blocked(KeptObservations(obs, scan, provider, completedAt)) <==> Blocked(obs)
  {
    if obs != [] {
      var earlier, last := obs[..|obs| - 1], obs[|obs| - 1];
      assert obs == earlier + [last];
      KeepingKeepsBlocking(earlier, scan, provider, completedAt);
      var o := last.(provider := Attributed(last.provider, provider),
                     observedAt := Dated(last.observedAt, completedAt));
      assert Blocks(o) == Blocks(last);
      var kept := KeptObservations(earlier, scan, provider, completedAt);
      assert KeptObservations(obs, scan, provider, completedAt) == kept + [o];
      assert forall x :: x in kept + [o] <==> x in kept || x == o;
    }
  }

  // ---------------------------------------------------------------- filling gaps

  function KindFor(health: Health): Kind {
    match health
    case FailedHealth => ProviderFailure
    case UnsupportedHealth => UnsupportedProvider
    case StaleHealth => StaleResult
    case _ => IncompleteResult
  }

  function SeenFamilies(obs: seq<Observation>, scan: Scan): set<string> {
    set o | o in obs && o.identity.userSid == scan.userSid && o.identity.pfn != "" :: Lower(o.identity.pfn)
  }

  predicate OwesEvidence(f: Family, scan: Scan) {
    f.productLike && f.identity.Resolved() && f.identity.userSid == scan.userSid
  }

  function Stamp(scan: Scan, run: ProviderRun): Option<nat> {
    Dated(Dated(run.completedAt, scan.completedAt), scan.startedAt)
  }

  function GapObservation(scan: Scan, run: ProviderRun, f: Family): Observation {
    Observation(run.provider, run.health, KindFor(run.health), f.identity, scan.scanId, Stamp(scan, run), f.version, "",
                None)
  }

  function Gaps(scan: Scan, run: ProviderRun, families: seq<Family>): seq<Observation> {
    if families == [] then []
    else
      var f := families[|families| - 1];
      Gaps(scan, run, families[..|families| - 1])
      + if OwesEvidence(f, scan) && Lower(f.identity.pfn) !in SeenFamilies(run.observations, scan)
        then [GapObservation(scan, run, f)] else []
  }

  predicate GapsFilled(run: ProviderRun) { run.health != Healthy && run.provider.Key() != WINRT_DISCOVERY }

  function Synthesize(scan: Scan, run: ProviderRun, families: seq<Family>): ProviderRun {
    if GapsFilled(run) then run.(observations := run.observations + Gaps(scan, run, families)) else run
  }

  method SynthesizeMissingObservations(scan: Scan, run: ProviderRun, families: seq<Family>) returns (out: ProviderRun)
    ensures out == Synthesize(scan, run, families)
  {
    out := run;
    if run.health == Healthy { return; }
    if run.provider.Key() == WINRT_DISCOVERY { return; }
    var kind := KindFor(run.health);
    var seen: set<string> := {};
    for n := 0 to |run.observations|
      invariant seen == SeenFamilies(run.observations[..n], scan)
    {
      var o := run.observations[n];
      assert run.observations[..n + 1] == run.observations[..n] + [o];
      if o.identity.userSid == scan.userSid && o.identity.pfn != "" { seen := seen + {Lower(o.identity.pfn)}; }
    }
    assert run.observations[..|run.observations|] == run.observations;
    var observedAt := run.completedAt;
    if observedAt.None? { observedAt := scan.completedAt; }
    if observedAt.None? { observedAt := scan.startedAt; }
    var added: seq<Observation> := [];
    for n := 0 to |families|
      invariant added == Gaps(scan, run, families[..n])
    {
      var f := families[n];
      OneMoreFamily(scan, run, families, n);
      if !f.productLike || !f.identity.Resolved() || f.identity.userSid != scan.userSid { continue; }
      if Lower(f.identity.pfn) in seen { continue; }
      added := added + [Observation(run.provider, run.health, kind, f.identity, scan.scanId, observedAt, f.version, "",
                                    None)];
    }
    assert families[..|families|] == families;
    out := run.(observations := run.observations + added);
  }

  lemma OneMoreFamily(scan: Scan, run: ProviderRun, families: seq<Family>, n: nat)
    requires n < |families|
    ensures Gaps(scan, run, families[..n + 1]) == Gaps(scan, run, families[..n])
      + if OwesEvidence(families[n], scan) && Lower(families[n].identity.pfn) !in SeenFamilies(run.observations, scan)
        then [GapObservation(scan, run, families[n])] else []
  {
    assert families[..n + 1][..n] == families[..n];
  }

  /** What a provider contributes to a scan. */
  function Prepared(scan: Scan, run: ProviderRun, families: seq<Family>): ProviderRun {
    Sanitize(scan, Synthesize(scan, Sanitize(scan, run), families))
  }

  lemma {:induction false} GapsFacts(scan: Scan, run: ProviderRun, families: seq<Family>)
    requires run.provider.Key() != ""
    ensures forall o | o in Gaps(scan, run, families) ::
              && SaneObservation(o, scan, run.completedAt) && o.provider == run.provider && o.health == run.health
              && exists f | f in families :: OwesEvidence(f, scan) && f.identity == o.identity
    ensures forall f | f in families && OwesEvidence(f, scan)
      && Lower(f.identity.pfn) !in SeenFamilies(run.observations, scan) ::
              GapObservation(scan, run, f) in Gaps(scan, run, families)
  {
    if families != [] {
      var earlier, last := families[..|families| - 1], families[|families| - 1];
      GapsFacts(scan, run, earlier);
      assert families == earlier + [last];
      assert forall f :: f in families <==> f in earlier || f == last;
    }
  }

  /** Filling the gaps of a sane run leaves it sane: the second sanitising pass
      finds nothing to do. */
  lemma SecondPassChangesNothing(scan: Scan, run: ProviderRun, families: seq<Family>)
    ensures Prepared(scan, run, families) == Synthesize(scan, Sanitize(scan, run), families)
  {
    var sane := Sanitize(scan, run);
    SanitizedIsSane(scan, run);
    GapsFacts(scan, sane, families);
    SaneIsFixed(scan, Synthesize(scan, sane, families));
  }

  ghost predicate Speaks(obs: seq<Observation>, f: Family, scan: Scan) {
    exists o | o in obs :: ObservationValid(o, scan) && EqualFold(o.identity.pfn, f.identity.pfn)
  }

  /** An unhealthy run, other than WinRT discovery, says something about every
      resolved product-like family of the scan's user. */
  lemma UnhealthyRunsCoverEveryFamily(scan: Scan, run: ProviderRun, families: seq<Family>, f: Family)
    requires f in families && OwesEvidence(f, scan)
    requires GapsFilled(Prepared(scan, run, families))
    ensures Speaks(Prepared(scan, run, families).observations, f, scan)
  {
    var sane := Sanitize(scan, run);
    SecondPassChangesNothing(scan, run, families);
    SanitizedIsSane(scan, run);
    GapsFacts(scan, sane, families);
    if Lower(f.identity.pfn) in SeenFamilies(sane.observations, scan) {
      var o :| o in sane.observations && Lower(o.identity.pfn) == Lower(f.identity.pfn);
      assert o in Prepared(scan, run, families).observations;
    } else {
      assert GapObservation(scan, sane, f) in Prepared(scan, run, families).observations;
    }
  }

  /** Filling gaps never manufactures a decision: an added observation blocks, so a
      healthy verdict about a family can only come from what a provider returned. */
  lemma GapsAlwaysBlock(scan: Scan, run: ProviderRun, families: seq<Family>)
    ensures Prepared(scan, run, families).health == Sanitize(scan, run).health
    ensures forall o | o in Prepared(scan, run, families).observations ::
      o in Sanitize(scan, run).observations || Blocks(o)
  {
    SecondPassChangesNothing(scan, run, families);
    SanitizedIsSane(scan, run);
    GapsFacts(scan, Sanitize(scan, run), families);
  }

  // ---------------------------------------------------------------- what is kept and what is added

  /** Kept as it was, but attributed and dated if it was not. */
  predicate KeptAs(o: Observation, kept: Observation, provider: Provider, completedAt: Option<nat>) {
    && kept == o.(provider := kept.provider, observedAt := kept.observedAt)
    && kept.provider == (if o.provider.Key() != "" then o.provider else provider)
    && kept.observedAt == (if o.observedAt.Some? then o.observedAt else completedAt)
  }

  predicate MappingKeptAs(m: Mapping, kept: Mapping, provider: Provider) {
    kept == m.(provider := kept.provider)
    && kept.provider == if m.provider.Key() != "" then m.provider else provider
  }

  /** One of the usable observations, kept. */
  ghost predicate KeptFrom(k: Observation, obs: seq<Observation>, scan: Scan, run: ProviderRun) {
    exists o | o in obs :: ObservationValid(o, scan) && KeptAs(o, k, run.provider, run.completedAt)
  }

  ghost predicate KeptIn(o: Observation, kept: seq<Observation>, run: ProviderRun) {
    exists k | k in kept :: KeptAs(o, k, run.provider, run.completedAt)
  }

  ghost predicate MappingKeptFrom(k: Mapping, ms: seq<Mapping>, scan: Scan, provider: Provider) {
    exists m | m in ms :: m.VerifiedFor(m.identity, scan) && MappingKeptAs(m, k, provider)
  }

  ghost predicate MappingKeptIn(m: Mapping, kept: seq<Mapping>, provider: Provider) {
    exists k | k in kept :: MappingKeptAs(m, k, provider)
  }

  lemma {:induction false} KeptObservationsAre(obs: seq<Observation>, scan: Scan, run: ProviderRun)
    ensures var kept := KeptObservations(obs, scan, run.provider, run.completedAt);
      && (forall k | k in kept :: KeptFrom(k, obs, scan, run))
      && (forall o | o in obs && ObservationValid(o, scan) :: KeptIn(o, kept, run))
  {
    if obs != [] {
      var earlier, o := obs[..|obs| - 1], obs[|obs| - 1];
      assert obs == earlier + [o];
      KeptObservationsAre(earlier, scan, run);
      var before, kept := KeptObservations(earlier, scan, run.provider, run.completedAt),
          KeptObservations(obs, scan, run.provider, run.completedAt);
      var last := o.(provider := Attributed(o.provider, run.provider),
                     observedAt := Dated(o.observedAt, run.completedAt));
      assert KeptAs(o, last, run.provider, run.completedAt);
      assert kept == before + if ObservationValid(o, scan) then [last] else [];
      hide KeptAs, ObservationValid, KeptObservations;
      forall k | k in kept ensures KeptFrom(k, obs, scan, run) {
        if k in before { assert KeptFrom(k, earlier, scan, run); } else { assert k == last && o in obs; }
      }
      forall x | x in obs && ObservationValid(x, scan) ensures KeptIn(x, kept, run) {
        if x in earlier { assert KeptIn(x, before, run); } else { assert x == o && last in kept; }
      }
    }
  }

  lemma {:induction false} KeptMappingsAre(ms: seq<Mapping>, scan: Scan, provider: Provider)
    ensures var kept := KeptMappings(ms, scan, provider);
      && (forall k | k in kept :: MappingKeptFrom(k, ms, scan, provider))
      && (forall m | m in ms && m.VerifiedFor(m.identity, scan) :: MappingKeptIn(m, kept, provider))
  {
    if ms != [] {
      var earlier, m := ms[..|ms| - 1], ms[|ms| - 1];
      assert ms == earlier + [m];
      KeptMappingsAre(earlier, scan, provider);
      var before, kept := KeptMappings(earlier, scan, provider), KeptMappings(ms, scan, provider);
      var last := m.(provider := Attributed(m.provider, provider));
      assert MappingKeptAs(m, last, provider);
      assert kept == before + if m.VerifiedFor(m.identity, scan) then [last] else [];
      hide MappingKeptAs, KeptMappings;
      forall k | k in kept ensures MappingKeptFrom(k, ms, scan, provider) {
        if k in before { assert MappingKeptFrom(k, earlier, scan, provider); } else { assert k == last && m in ms; }
      }
      forall x | x in ms && x.VerifiedFor(x.identity, scan) ensures MappingKeptIn(x, kept, provider) {
        if x in earlier { assert MappingKeptIn(x, before, provider); } else { assert x == m && last in kept; }
      }
    }
  }

  /** Every observation of the scan and its user, and every mapping verified in it, is
      kept, and nothing else; the rest of the run is as it was. */
  lemma SanitizeKeepsWhatBelongs(scan: Scan, run: ProviderRun)
    ensures var out := Sanitize(scan, run);
      && out == run.(provider := out.provider, health := out.health, observations := out.observations,
                     mappings := out.mappings)
      && out.provider == (if run.provider.Key() != "" then run.provider else run.provider.(id := "unknown-provider"))
      && (forall k | k in out.observations :: KeptFrom(k, run.observations, scan, out))
      && (forall o | o in run.observations && ObservationValid(o, scan) :: KeptIn(o, out.observations, out))
      && (forall k | k in out.mappings :: MappingKeptFrom(k, run.mappings, scan, out.provider))
      && (forall m | m in run.mappings && m.VerifiedFor(m.identity, scan) ::
            MappingKeptIn(m, out.mappings, out.provider))
  {
    var out := Sanitize(scan, run);
    KeptObservationsAre(run.observations, scan, out);
    KeptMappingsAre(run.mappings, scan, out.provider);
    hide KeptObservations, KeptMappings, KeptFrom, KeptIn, MappingKeptFrom, MappingKeptIn, ObservationValid, Blocked;
  }

  /** The health a run is left with: failed if any of its evidence was foreign, otherwise
      as reported, but incomplete if it reported none or was healthy beside evidence that
      is not. */
  lemma SanitizedHealth(scan: Scan, run: ProviderRun)
    ensures var foreign := (exists o | o in run.observations :: !ObservationValid(o, scan))
                           || exists m | m in run.mappings :: !m.VerifiedFor(m.identity, scan);
      var open := exists o | o in run.observations :: Blocks(o);
      Sanitize(scan, run).health ==
        if foreign then FailedHealth
        else if run.health == NoHealth || (run.health == Healthy && open) then IncompleteHealth else run.health
  {
    var out := Sanitize(scan, run);
    KeptObservationsFacts(run.observations, scan, out.provider, run.completedAt);
    KeptMappingsFacts(run.mappings, scan, out.provider);
    if forall o | o in run.observations :: ObservationValid(o, scan) {
      KeepingKeepsBlocking(run.observations, scan, out.provider, run.completedAt);
    }
    hide KeptObservations, KeptMappings, SaneObservation, SaneMapping, ObservationValid, Blocks;
  }

  /** What stands in for a provider that did not finish says no more than that, about a
      family it said nothing about, at the latest time known. */
  predicate StandsIn(o: Observation, run: ProviderRun, f: Family, scan: Scan) {
    && o.provider == run.provider && o.health == run.health && o.identity == f.identity && o.scanId == scan.scanId
    && o.installedVersion == f.version && o.availableVersion == "" && o.target.None?
    && (o.kind == ProviderFailure <==> run.health == FailedHealth)
    && (o.kind == UnsupportedProvider <==> run.health == UnsupportedHealth)
    && (o.kind == StaleResult <==> run.health == StaleHealth)
    && (o.kind == IncompleteResult <==> run.health !in {FailedHealth, UnsupportedHealth, StaleHealth})
    && o.observedAt == (if run.completedAt.Some? then run.completedAt
                        else if scan.completedAt.Some? then scan.completedAt else scan.startedAt)
  }

  predicate SaidNothing(obs: seq<Observation>, f: Family, scan: Scan) {
    forall o | o in obs && o.identity.userSid == scan.userSid && o.identity.pfn != "" ::
      !EqualFold(o.identity.pfn, f.identity.pfn)
  }

  /** The observations say nothing of a product-like package of the scan's user. */
  predicate Lacks(obs: seq<Observation>, f: Family, scan: Scan) {
    f.productLike && f.identity.userSid == scan.userSid != "" && f.identity.pfn != "" && SaidNothing(obs, f, scan)
  }

  ghost predicate StandsInForOne(o: Observation, run: ProviderRun, families: seq<Family>, scan: Scan) {
    exists f | f in families :: Lacks(run.observations, f, scan) && StandsIn(o, run, f, scan)
  }

  ghost predicate HasStandIn(f: Family, added: seq<Observation>, run: ProviderRun, scan: Scan) {
    exists o | o in added :: StandsIn(o, run, f, scan)
  }

  lemma GapStandsIn(run: ProviderRun, f: Family, scan: Scan)
    ensures StandsIn(GapObservation(scan, run, f), run, f, scan)
  {
  }

  lemma {:induction false} GapsAre(scan: Scan, run: ProviderRun, families: seq<Family>)
    ensures forall o | o in Gaps(scan, run, families) :: StandsInForOne(o, run, families, scan)
    ensures forall f | f in families && Lacks(run.observations, f, scan) ::
              HasStandIn(f, Gaps(scan, run, families), run, scan)
  {
    if families != [] {
      var earlier, f := families[..|families| - 1], families[|families| - 1];
      assert families == earlier + [f];
      GapsAre(scan, run, earlier);
      SeenMeansSaid(run.observations, f, scan);
      GapStandsIn(run, f, scan);
      var before, gaps, gap := Gaps(scan, run, earlier), Gaps(scan, run, families), GapObservation(scan, run, f);
      assert gaps == before + if Lacks(run.observations, f, scan) then [gap] else [];
      hide Gaps, GapObservation, StandsIn, Lacks;
      forall o | o in gaps ensures StandsInForOne(o, run, families, scan) {
        if o in before { assert StandsInForOne(o, run, earlier, scan); } else { assert o == gap && f in families; }
      }
      forall x | x in families && Lacks(run.observations, x, scan) ensures HasStandIn(x, gaps, run, scan) {
        if x in earlier { assert HasStandIn(x, before, run, scan); } else { assert x == f && gap in gaps; }
      }
    }
  }

  lemma SeenMeansSaid(obs: seq<Observation>, f: Family, scan: Scan)
    ensures Lower(f.identity.pfn) !in SeenFamilies(obs, scan) <==> SaidNothing(obs, f, scan)
  {
  }

  /** A provider that is healthy, or only discovers, contributes its sane run as it is. Any
      other contributes beside it one stand-in for each family it owes evidence about and
      said nothing about. */
  lemma PreparedAddsStandIns(scan: Scan, run: ProviderRun, families: seq<Family>)
    ensures var sane, out := Sanitize(scan, run), Prepared(scan, run, families);
      && (sane.health == Healthy || sane.provider.Key() == WINRT_DISCOVERY ==> out == sane)
      && out == sane.(observations := out.observations) && sane.observations <= out.observations
      && (sane.health != Healthy && sane.provider.Key() != WINRT_DISCOVERY ==>
            var added := out.observations[|sane.observations|..];
            && (forall o | o in added :: StandsInForOne(o, sane, families, scan))
            && (forall f | f in families && Lacks(sane.observations, f, scan) :: HasStandIn(f, added, sane, scan)))
  {
    SecondPassChangesNothing(scan, run, families);
    GapsAre(scan, Sanitize(scan, run), families);
    hide Sanitize, Gaps, StandsInForOne, HasStandIn, Lacks;
  }

  // ---------------------------------------------------------------- the families a scan owes evidence about

  function Concerned(families: seq<Family>, scan: Scan): seq<Family> {
    if families == [] then []
    else Concerned(families[..|families| - 1], scan)
         + if OwesEvidence(families[|families| - 1], scan) then [families[|families| - 1]] else []
  }

  /** The families by lower-cased name; the last of several wins. */
  function ByPfn(concerned: seq<Family>): map<string, Family> {
    if concerned == [] then map[]
    else ByPfn(concerned[..|concerned| - 1])[Lower(concerned[|concerned| - 1].identity.pfn) :=
                                             concerned[|concerned| - 1]]
  }

  lemma {:induction false} ConcernedMembers(families: seq<Family>, scan: Scan)
    ensures forall f :: f in Concerned(families, scan) <==> f in families && OwesEvidence(f, scan)
  {
    if families != [] {
      ConcernedMembers(families[..|families| - 1], scan);
      assert families == families[..|families| - 1] + [families[|families| - 1]];
    }
  }

  lemma {:induction false} ByPfnMembers(concerned: seq<Family>)
    ensures var m := ByPfn(concerned);
      && (forall key | key in m :: m[key] in concerned && Lower(m[key].identity.pfn) == key)
      && (forall f | f in concerned :: Lower(f.identity.pfn) in m)
  {
    if concerned != [] {
      ByPfnMembers(concerned[..|concerned| - 1]);
      assert concerned == concerned[..|concerned| - 1] + [concerned[|concerned| - 1]];
    }
  }

  // ---------------------------------------------------------------- the status of a scan

  /** How a scan ended; `troubled` says the inventory was partial or reported errors. */
  function CompletionStatus(inventoryScanId: string, families: seq<Family>, troubled: bool,
                            runs: seq<ProviderRun>): ScanStatus {
    if inventoryScanId == "" || (families == [] && troubled) then ScanFailed
    else if exists r | r in runs :: Spoils(r, |runs|) then ScanIncomplete
    else ScanCompleted
  }

  /** One of so many runs keeps the scan from completing. */
  predicate Spoils(r: ProviderRun, runs: nat) { r.health != Healthy && (Mandatory(r.provider) || runs == 1) }

  predicate Mandatory(p: Provider) { p.Key() == INVENTORY_PROVIDER || RequiredProvider(p) }

  method ScanCompletionStatus(inventoryScanId: string, families: seq<Family>, troubled: bool, runs: seq<ProviderRun>)
    returns (status: ScanStatus)
    ensures status == CompletionStatus(inventoryScanId, families, troubled, runs)
  {
    hide Mandatory;
    if inventoryScanId == "" || (|families| == 0 && troubled) { return ScanFailed; }
    for n := 0 to |runs|
      invariant forall k | 0 <= k < n :: !Spoils(runs[k], |runs|)
    {
      var r := runs[n];
      assert r in runs;
      if Mandatory(r.provider) {
        if r.health != Healthy { return ScanIncomplete; }
        continue;
      }
      if r.health != Healthy && |runs| == 1 { return ScanIncomplete; }
    }
    return ScanCompleted;
  }

  lemma RequiredKeysAre(runs: seq<ProviderRun>, key: string)
    ensures key in RequiredKeys(Required(runs)) <==>
              && key !in {"", "store-current-user-inventory"} && (exists r | r in runs :: r.provider.Key() == key)
              && key !in {"store-cli-exact", "winget-msstore-exact", "store-mapping-reuse", "store-winrt-discovery"}
  {
    RequiredMembers(runs);
    if r :| r in runs && r.provider.Key() == key != "" && r.provider.Key() != INVENTORY_PROVIDER {
      if RequiredProvider(r.provider) { assert r.provider in Required(runs); }
    }
  }

  /** The providers a scan can do without. */
  predicate Optional(p: Provider) {
    p.Key() in {"store-cli-exact", "winget-msstore-exact", "store-mapping-reuse", "store-winrt-discovery"}
  }

  /** Nothing kept the runs from being conclusive: all healthy, but for optional ones that
      are not the only ones. */
  predicate Conclusive(runs: seq<ProviderRun>) {
    forall r | r in runs :: r.health == Healthy || (Optional(r.provider) && |runs| > 1)
  }

  /** When a scan completes, and when its snapshot is published: a failed inventory never
      is, and an empty one only if nothing was wrong with it. */
  lemma PublishedExactlyWhen(scan: Scan, families: seq<Family>, inventoryScanId: string, troubled: bool,
                             runs: seq<ProviderRun>)
    requires scan.status == CompletionStatus(inventoryScanId, families, troubled, runs)
    ensures scan.status == ScanCompleted
      <==> inventoryScanId != "" && (families != [] || !troubled) && Conclusive(runs)
    ensures scan.status == ScanFailed <==> inventoryScanId == "" || (families == [] && troubled)
    ensures scan.status in {ScanCompleted, ScanIncomplete, ScanFailed}
    ensures ShouldPublish(scan, families)
      <==> inventoryScanId != "" && (families != [] || (!troubled && Conclusive(runs)))
  {
    forall r | r in runs
      ensures Spoils(r, |runs|) <==> !(r.health == Healthy || (Optional(r.provider) && |runs| > 1))
    {
      assert |runs| > 0;
    }
    hide Spoils, Optional;
  }

  lemma {:induction false} RequiredMembers(runs: seq<ProviderRun>)
    ensures forall p :: p in Required(runs) <==>
              exists r | r in runs :: r.provider == p && p.Key() != INVENTORY_PROVIDER && RequiredProvider(p)
  {
    if runs != [] {
      assert runs == [runs[0]] + runs[1..];
      RequiredMembers(runs[1..]);
    }
  }

  /** A package is called current only on a scan whose inventory and required
      providers were all healthy, and each of those providers answered for it. */
  lemma CurrentNeedsEveryRequiredProvider(scan: Scan, id: Identity, inventoryScanId: string, families: seq<Family>,
                                          troubled: bool,
                                          runs: seq<ProviderRun>)
    requires scan.status == CompletionStatus(inventoryScanId, families, troubled, runs)
    requires AssessmentOf(scan, id, runs).state == Current
    ensures forall r | r in runs && Mandatory(r.provider) :: r.health == Healthy
    ensures forall r | r in runs && RequiredProvider(r.provider) && r.provider.Key() != INVENTORY_PROVIDER
      && r.provider.Key() != "" ::
              AnsweredNegative(Members(AllObservations(runs)), id, scan, r.provider.Key())
  {
    CurrentExactlyWhen(Input(id, scan, Required(runs), AllObservations(runs)));
    RequiredMembers(runs);
    forall r | r in runs && RequiredProvider(r.provider) && r.provider.Key() != INVENTORY_PROVIDER
        && r.provider.Key() != ""
      ensures AnsweredNegative(Members(AllObservations(runs)), id, scan, r.provider.Key())
    {
      assert r.provider in Required(runs);
      assert r.provider.Key() in RequiredKeys(Required(runs));
    }
  }
}
