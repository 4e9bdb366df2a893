/** One Store scan generation: from provider runs to published rows, keeping
    earlier rows as stale diagnostics while scans are incomplete. */
module StorePipeline {
  import opened Wrappers
  import opened Text
  import opened StoreModel
  import opened StoreReconcile

  predicate RequiredProvider(p: Provider) {
    p.Key() != CLI_EXACT && p.Key() != WINGET_EXACT && p.Key() != MAPPING_REUSE && p.Key() != WINRT_DISCOVERY
  }

  function Required(runs: seq<ProviderRun>): seq<Provider> {
    if runs == [] then []
    else (if runs[0].provider.Key() != INVENTORY_PROVIDER && RequiredProvider(runs[0].provider) then [runs[0].provider]
          else [])
         + Required(runs[1..])
  }

  function AllObservations(runs: seq<ProviderRun>): seq<Observation> {
    if runs == [] then [] else runs[0].observations + AllObservations(runs[1..])
  }

  function AllMappings(runs: seq<ProviderRun>): seq<Mapping> {
    if runs == [] then [] else runs[0].mappings + AllMappings(runs[1..])
  }

  // ---------------------------------------------------------------- verified product IDs

  /** The product IDs verified for an identity, in the order reported. */
  function VerifiedIds(mappings: seq<Mapping>, scan: Scan, id: Identity): seq<string> {
    if mappings == [] then []
    else
      var last := mappings[|mappings| - 1];
      VerifiedIds(mappings[..|mappings| - 1], scan, id)
      + (if last.identity == id && last.VerifiedFor(last.identity, scan) then [last.productId] else [])
  }

  predicate ProductConflict(ids: seq<string>) { ids != [] && exists p | p in ids :: !EqualFold(ids[0], p) }

  function VerifiedProduct(ids: seq<string>): string { if ids == [] || ProductConflict(ids) then "" else ids[0] }

  datatype ProductState = ProductState(productId: string, conflict: bool)

  predicate Tracks(states: map<Identity, ProductState>, mappings: seq<Mapping>, scan: Scan, id: Identity) {
    var ids := VerifiedIds(mappings, scan, id);
    if ids == [] then id !in states
    else id in states && states[id] == ProductState(ids[0], ProductConflict(ids))
  }

  ghost predicate AllTracked(states: map<Identity, ProductState>, mappings: seq<Mapping>, scan: Scan) {
    forall id :: Tracks(states, mappings, scan, id)
  }

  /** One pass over all mappings; disagreeing product IDs make an identity conflicting. */
  method VerifiedProductIds(runs: seq<ProviderRun>, scan: Scan)
      returns (verified: map<Identity, string>, conflicts: set<Identity>)
    ensures forall id :: id in conflicts <==> ProductConflict(VerifiedIds(AllMappings(runs), scan, id))
    ensures forall id ::
      (if id in verified then verified[id] else "") == VerifiedProduct(VerifiedIds(AllMappings(runs), scan, id))
  {
    var mappings := AllMappings(runs);
    var states: map<Identity, ProductState> := map[];
    for n := 0 to |mappings|
      invariant AllTracked(states, mappings[..n], scan)
    {
      var mapping := mappings[n];
      ghost var before := states;
      if mapping.VerifiedFor(mapping.identity, scan) {
        var key := mapping.identity;
        if key !in states {
          states := states[key := ProductState(mapping.productId, false)];
        } else if !EqualFold(states[key].productId, mapping.productId) {
          states := states[key := states[key].(conflict := true)];
        }
      }
      AllTracksStep(before, states, mappings, n, scan);
    }
    assert mappings[..|mappings|] == mappings;
    verified := map id | id in states && !states[id].conflict :: states[id].productId;
    conflicts := set id | id in states && states[id].conflict;
    forall id ensures id in conflicts <==> ProductConflict(VerifiedIds(mappings, scan, id)) {
      assert Tracks(states, mappings, scan, id);
    }
    forall id
      ensures (if id in verified then verified[id] else "") == VerifiedProduct(VerifiedIds(mappings, scan, id))
    {
      assert Tracks(states, mappings, scan, id);
    }
  }

  /** The effect of one mapping on the states. */
  function Tracked(before: map<Identity, ProductState>, m: Mapping, scan: Scan): map<Identity, ProductState> {
    if !m.VerifiedFor(m.identity, scan) then before
    else if m.identity !in before then before[m.identity := ProductState(m.productId, false)]
    else if !EqualFold(before[m.identity].productId, m.productId) then
        before[m.identity := before[m.identity].(conflict := true)]
    else before
  }

  lemma AllTracksStep(before: map<Identity, ProductState>, states: map<Identity, ProductState>, mappings: seq<Mapping>,
                      n: nat, scan: Scan)
    requires n < |mappings| && AllTracked(before, mappings[..n], scan)
    requires states == Tracked(before, mappings[n], scan)
    ensures AllTracked(states, mappings[..n + 1], scan)
  {
    var extended := mappings[..n + 1];
    forall id ensures Tracks(states, extended, scan, id) {
      assert Tracks(before, mappings[..n], scan, id);
      TracksStep(before, states, mappings, n, scan, id);
    }
  }

  lemma TracksStep(before: map<Identity, ProductState>, states: map<Identity, ProductState>, mappings: seq<Mapping>,
                   n: nat, scan: Scan, id: Identity)
    requires n < |mappings| && Tracks(before, mappings[..n], scan, id)
    requires states == Tracked(before, mappings[n], scan)
    ensures Tracks(states, mappings[..n + 1], scan, id)
  {
    var m := mappings[n];
    assert mappings[..n + 1][..n] == mappings[..n];
    var ids := VerifiedIds(mappings[..n], scan, id);
    if m.identity == id && m.VerifiedFor(m.identity, scan) {
      var ids' := ids + [m.productId];
      assert forall p :: p in ids' <==> p in ids || p == m.productId;
      assert ids != [] ==> ids'[0] == ids[0];
    }
  }

  // ---------------------------------------------------------------- rows and retention

  predicate ShouldRetain(scan: Scan, a: Assessment) {
    a.state != Conflict && scan.status != ScanCompleted
        && (a.state == Unknown || a.state == Current || a.state == Inapplicable)
  }

  /** A completed scan in which a healthy provider withdrew the update. */
  predicate HealthyRetraction(scan: Scan, id: Identity, runs: seq<ProviderRun>) {
    && scan.status == ScanCompleted
    && exists r | r in runs :: r.health == Healthy && exists o | o in r.observations ::
         o.Matches(id, scan) && o.health == Healthy
             && (o.kind == AuthoritativeNegative || o.kind == NoApplicableInstaller)
  }

  function Applicability(a: Assessment): string {
    if a.state == Inapplicable then "not_applicable"
    else if a.state == Available || a.state == Pending then "applicable"
    else "unknown"
  }

  function Retained(a: Assessment, previous: Published): Published {
    Published(a.(state := Available, reason := RetainedPrevious,
                 availableVersion := previous.a.availableVersion, target := previous.a.target),
              previous.observedAt, true, previous.productId, previous.updateId, previous.exact, previous.applicability)
  }

  function FreshRow(scan: Scan, a: Assessment, ids: seq<string>): Published {
    var a1 := if ProductConflict(ids) && a.state == Available
              then a.(state := Conflict, reason := ProductMappingConflict, target := None, availableVersion := "")
              else a;
    var productId := if a1.target.Some? then a1.target.value.productId else "";
    Published(a1, if scan.completedAt.Some? then scan.completedAt else scan.startedAt, false,
              if productId == "" then VerifiedProduct(ids) else productId,
              if a1.target.Some? then a1.target.value.updateId else "",
              a1.target.Some? && a1.target.value.ExactFor(a1.identity), Applicability(a1))
  }

  predicate Retains(scan: Scan, a: Assessment, runs: seq<ProviderRun>, previous: map<Identity, Published>) {
    a.identity in previous && ShouldRetain(scan, a) && !HealthyRetraction(scan, a.identity, runs)
  }

  function AssessmentOf(scan: Scan, id: Identity, runs: seq<ProviderRun>): Assessment {
    Reconcile(Input(id, scan, Required(runs), AllObservations(runs)))
  }

  function Row(scan: Scan, a: Assessment, runs: seq<ProviderRun>, previous: map<Identity, Published>): Published {
    if Retains(scan, a, runs, previous) then Retained(a, previous[a.identity])
    else FreshRow(scan, a, VerifiedIds(AllMappings(runs), scan, a.identity))
  }

  function Rows(scan: Scan, families: seq<Family>, runs: seq<ProviderRun>,
                previous: map<Identity, Published>): seq<Published> {
    if families == [] then []
    else
      var f := families[|families| - 1];
      Rows(scan, families[..|families| - 1], runs, previous)
      + if f.productLike then [Row(scan, AssessmentOf(scan, f.identity, runs), runs, previous)] else []
  }

  lemma ReconcileKeepsIdentity(i: Input)
    ensures Reconcile(i).identity == i.identity && Reconcile(i).scanId == i.scan.scanId
  {
    WeighKeepsIdentity(i, Matching(i.observations, i), OfClass(i.observations, i, ExactOffer),
                       OfClass(i.observations, i, InexactOffer),
                       OfClass(i.observations, i, Negative), OfClass(i.observations, i, NoInstaller),
                           OfClass(i.observations, i, PendingClass));
  }

  lemma WeighKeepsIdentity(i: Input, m: seq<Observation>, exact: seq<Observation>, inexact: seq<Observation>,
                           negatives: seq<Observation>, noInstaller: seq<Observation>, pending: seq<Observation>)
    requires Targeted(exact)
    ensures var a := Weigh(i, m, exact, inexact, negatives, noInstaller, pending);
      a.identity == i.identity && a.scanId == i.scan.scanId
  {
    if m != [] && exact != [] {
      OffersKeepIdentity(i, exact, negatives, noInstaller, WeighOffers(i, exact, negatives, noInstaller));
    }
    if m != [] && exact == [] { RestKeepsIdentity(i, m, inexact, negatives, noInstaller, pending); }
  }

  lemma OffersKeepIdentity(i: Input, exact: seq<Observation>, negatives: seq<Observation>,
                           noInstaller: seq<Observation>, a: Assessment)
    requires exact != [] && Targeted(exact) && a == WeighOffers(i, exact, negatives, noInstaller)
    ensures a.identity == i.identity && a.scanId == i.scan.scanId
  {
  }

  lemma RestKeepsIdentity(i: Input, m: seq<Observation>, inexact: seq<Observation>, negatives: seq<Observation>,
                          noInstaller: seq<Observation>, pending: seq<Observation>)
    ensures var a := WeighRest(i, m, inexact, negatives, noInstaller, pending);
      a.identity == i.identity && a.scanId == i.scan.scanId
  {
  }

  method ReconcileScan(scan: Scan, families: seq<Family>, runs: seq<ProviderRun>, previous: map<Identity, Published>)
    returns (rows: seq<Published>)
    ensures rows == Rows(scan, families, runs, previous)
  {
    var required, observations := Required(runs), AllObservations(runs);
    var verified, conflicts := VerifiedProductIds(runs, scan);
    rows := [];
    for n := 0 to |families|
      invariant rows == Rows(scan, families[..n], runs, previous)
    {
      var f := families[n];
      assert families[..n + 1][..n] == families[..n];
      if !f.productLike { continue; }
      var a := ReconcileStoreUpdate(Input(f.identity, scan, required, observations));
      ReconcileKeepsIdentity(Input(f.identity, scan, required, observations));
      if f.identity in previous && ShouldRetain(scan, a) && !HealthyRetraction(scan, f.identity, runs) {
        rows := rows + [Retained(a, previous[f.identity])];
        continue;
      }
      if f.identity in conflicts && a.state == Available {
        a := a.(state := Conflict, reason := ProductMappingConflict, target := None, availableVersion := "");
      }
      var observedAt := if scan.completedAt.None? then scan.startedAt else scan.completedAt;
      var productId, updateId, exact := "", "", false;
      if a.target.Some? {
        productId, updateId := a.target.value.productId, a.target.value.updateId;
        exact := a.target.value.ExactFor(f.identity);
      }
      if productId == "" { productId := if f.identity in verified then verified[f.identity] else ""; }
      rows := rows + [Published(a, observedAt, false, productId, updateId, exact, Applicability(a))];
    }
    assert families[..|families|] == families;
  }

  /** The later of two rows for one identity wins. */
  function PreviousRows(rows: seq<Published>): map<Identity, Published> {
    if rows == [] then map[]
    else PreviousRows(rows[..|rows| - 1])[rows[|rows| - 1].a.identity := rows[|rows| - 1]]
  }

  predicate ShouldPublish(scan: Scan, families: seq<Family>) {
    scan.status != ScanFailed && (|families| > 0 || scan.status == ScanCompleted)
  }

  // ---------------------------------------------------------------- what is stored

  function CleanRow(p: Published): Published {
    if !p.exact then p
    else if !TargetValid(p) then p.(exact := false, a := p.a.(target := None), productId := "", updateId := "")
    else p.(productId := FirstNonEmpty(p.productId, p.a.target.value.productId),
            updateId := FirstNonEmpty(p.updateId, p.a.target.value.updateId))
  }

  /** An executable target must be the row's own: same identity, same IDs. */
  predicate TargetValid(p: Published) {
    && p.a.target.Some? && p.a.target.value.ExactFor(p.a.identity)
    && (Trim(p.productId) != "" ==> Trim(p.productId) == Trim(p.a.target.value.productId))
    && (Trim(p.updateId) != "" ==> Trim(p.updateId) == Trim(p.a.target.value.updateId))
  }

  function CleanRows(rows: seq<Published>): seq<Published> {
    seq(|rows|, i requires 0 <= i < |rows| => CleanRow(rows[i]))
  }

  function Clean(s: Snapshot): Snapshot { s.(rows := CleanRows(s.rows)) }

  /** Executable targets that are not the row's own lose it. */
  method NormalizeExactTargets(s: Snapshot) returns (out: Snapshot)
    ensures out == Clean(s)
  {
    var rows := s.rows;
    for n := 0 to |s.rows|
      invariant |rows| == |s.rows|
      invariant forall k | 0 <= k < n :: rows[k] == CleanRow(s.rows[k])
      invariant forall k | n <= k < |rows| :: rows[k] == s.rows[k]
    {
      hide CleanRow;
      var row := NormalizeRow(rows[n]);
      rows := rows[n := row];
    }
    hide CleanRow;
    assert rows == CleanRows(s.rows);
    out := s.(rows := rows);
  }

  method NormalizeRow(p: Published) returns (row: Published)
    ensures row == CleanRow(p)
  {
    row := p;
    if !row.exact { return; }
    if !TargetValid(row) {
      row := row.(exact := false, a := row.a.(target := None), productId := "", updateId := "");
      return;
    }
    row := row.(productId := FirstNonEmpty(row.productId, row.a.target.value.productId),
                updateId := FirstNonEmpty(row.updateId, row.a.target.value.updateId));
  }

  function WithTargetIds(p: Published): Published {
    if p.a.target.None? then p
    else p.(productId := FirstNonEmpty(p.productId, p.a.target.value.productId),
            updateId := FirstNonEmpty(p.updateId, p.a.target.value.updateId))
  }

  function StoredRow(p: Published): Published { WithTargetIds(CleanRow(p)) }

  function StoredRows(rows: seq<Published>): seq<Published> {
    seq(|rows|, i requires 0 <= i < |rows| => StoredRow(rows[i]))
  }

  /** The snapshot as it is written to a generation file. */
  function StoredForm(s: Snapshot): Snapshot { s.(rows := StoredRows(s.rows)) }

  predicate ObservationValid(o: Observation, scan: Scan) {
    o.scanId == scan.scanId && o.identity.userSid == scan.userSid && o.identity.Resolved()
  }

  predicate RunValid(r: ProviderRun, scan: Scan) {
    && (forall m | m in r.mappings :: m.VerifiedFor(m.identity, scan))
    && (forall o | o in r.observations :: ObservationValid(o, scan))
  }

  predicate SnapshotValid(s: Snapshot) {
    && s.scan.scanId != "" && s.scan.userSid != "" && s.scan.startedAt.Some?
    && (forall f | f in s.families :: f.identity.Resolved() && f.identity.userSid == s.scan.userSid)
    && (forall r | r in s.runs :: RunValid(r, s.scan))
    && (forall p | p in s.rows ::
          && p.a.scanId == s.scan.scanId && p.a.identity.userSid == s.scan.userSid && p.a.identity.Resolved()
          && (p.exact ==> TargetValid(p)))
  }
}
