/** What the rows of a scan say, as computed and as stored. */
module StoreRows {
  import opened Wrappers
  import opened Text
  import opened StoreModel
  import opened StoreReconcile
  import opened StoreTheorems
  import opened StorePipeline
  import opened StoreHysteresis

  function OffersOf(scan: Scan, runs: seq<ProviderRun>, id: Identity): (offers: set<Observation>)
    ensures forall o | o in offers :: o.target.Some?
  {
    OffersIn(Members(AllObservations(runs)), id, scan)
  }

  // ---------------------------------------------------------------- carried over or assessed afresh

  /** A row is carried over exactly when the scan did not complete, the family had a row
      before, and the scan's evidence leaves the state unknown or speaks against an
      update without contradicting one. */
  lemma RowIsStaleExactlyWhen(scan: Scan, families: seq<Family>, runs: seq<ProviderRun>,
                              previous: map<Identity, Published>, p: Published)
    requires p in Rows(scan, families, runs, previous)
    ensures var state :=
              Decide(Members(AllObservations(runs)), RequiredKeys(Required(runs)), p.a.identity, scan);
      p.stale <==> p.a.identity in previous && scan.status != ScanCompleted
                   && (state == Unknown || state == Current || state == Inapplicable)
  {
    RowsMembers(scan, families, runs, previous);
    var i := Input(p.a.identity, scan, Required(runs), AllObservations(runs));
    var a := Reconcile(i);
    StateDependsOnTheEvidenceSet(i);
    ReconcileKeepsIdentity(i);
    hide Reconcile, Decide, RequiredKeys, Rows;
    FreshRowFacts(scan, a, VerifiedIds(AllMappings(runs), scan, a.identity),
                  FreshRow(scan, a, VerifiedIds(AllMappings(runs), scan, a.identity)));
    hide FreshRow;
  }

  /** A row carried over says what the earlier one said, but for the version its scan
      found installed. */
  ghost predicate CarriedOver(p: Published, before: Published, scan: Scan, installed: string) {
    && p.a.state == Available && p.a.scanId == scan.scanId
    && p.a.availableVersion == before.a.availableVersion && p.a.target == before.a.target
    && p.observedAt == before.observedAt && p.productId == before.productId && p.updateId == before.updateId
    && p.exact == before.exact && p.applicability == before.applicability
    && p.a.installedVersion == installed
  }

  lemma StaleRowsCarryOver(scan: Scan, families: seq<Family>, runs: seq<ProviderRun>,
                           previous: map<Identity, Published>, p: Published)
    requires p in Rows(scan, families, runs, previous) && p.stale
    ensures p.a.identity in previous
    ensures CarriedOver(p, previous[p.a.identity], scan, AssessmentOf(scan, p.a.identity, runs).installedVersion)
  {
    RowsMembers(scan, families, runs, previous);
    var i := Input(p.a.identity, scan, Required(runs), AllObservations(runs));
    ReconcileKeepsIdentity(i);
    RetainedFacts(scan, Reconcile(i), runs, previous, p);
  }

  /** When the scan was over, or began if it never was. */
  predicate Dated(at: Option<nat>, scan: Scan) {
    (scan.completedAt.Some? ==> at == scan.completedAt) && (scan.completedAt.None? ==> at == scan.startedAt)
  }

  ghost predicate Applies(word: string, state: UpdateState) {
    && (word == "applicable" <==> state == Available || state == Pending)
    && (word == "not_applicable" <==> state == Inapplicable)
    && (word == "unknown" <==> state == Unknown || state == Current || state == Conflict)
  }

  /** A fresh row repeats its assessment, unless verified product IDs disagree about an
      available update: then it is a conflict with nothing to execute. Without a product
      ID of its own it shows the verified one. */
  ghost predicate RepeatsAssessment(p: Published, a: Assessment, ids: seq<string>) {
    if a.state == Available && ProductConflict(ids) then
      && p.a.state == Conflict && p.a.target.None? && p.a.availableVersion == ""
      && p.a.installedVersion == a.installedVersion && p.productId == "" && p.updateId == "" && !p.exact
    else
      && p.a == a && (p.exact <==> a.target.Some? && a.target.value.ExactFor(a.identity))
      && (a.target.Some? ==> p.updateId == a.target.value.updateId)
      && (a.target.Some? && a.target.value.productId != "" ==> p.productId == a.target.value.productId)
      && (a.target.None? ==> p.updateId == "")
      && (a.target.None? || a.target.value.productId == "" ==>
            (ids == [] || ProductConflict(ids) ==> p.productId == "")
            && (ids != [] && !ProductConflict(ids) ==> p.productId == ids[0]))
  }

  lemma FreshRowRepeats(scan: Scan, a: Assessment, ids: seq<string>, p: Published)
    requires p == FreshRow(scan, a, ids)
    ensures Dated(p.observedAt, scan) && Applies(p.applicability, p.a.state) && RepeatsAssessment(p, a, ids)
  {
    ApplicabilityApplies(p.a);
    hide Applicability, Applies, ProductConflict;
  }

  lemma ApplicabilityApplies(a: Assessment)
    ensures Applies(Applicability(a), a.state)
  {
  }

  lemma FreshRowsRepeat(scan: Scan, families: seq<Family>, runs: seq<ProviderRun>, previous: map<Identity, Published>,
                        p: Published)
    requires p in Rows(scan, families, runs, previous) && !p.stale
    ensures Dated(p.observedAt, scan) && Applies(p.applicability, p.a.state)
    ensures var id := p.a.identity;
      RepeatsAssessment(p, AssessmentOf(scan, id, runs), VerifiedIds(AllMappings(runs), scan, id))
  {
    RowsMembers(scan, families, runs, previous);
    var i := Input(p.a.identity, scan, Required(runs), AllObservations(runs));
    ReconcileKeepsIdentity(i);
    var a := Reconcile(i);
    assert Row(scan, a, runs, previous) == p;
    hide Reconcile, Rows, RepeatsAssessment, Applies, FreshRow;
    FreshRowRepeats(scan, a, VerifiedIds(AllMappings(runs), scan, a.identity), p);
  }

  // ---------------------------------------------------------------- as stored

  lemma {:induction false} VerifiedIdsLook(mappings: seq<Mapping>, scan: Scan, id: Identity)
    ensures forall v | v in VerifiedIds(mappings, scan, id) :: Trim(v) != ""
    ensures VerifiedIds(mappings, scan, id) == [] <==>
              forall m | m in mappings && m.identity == id :: !m.VerifiedFor(id, scan)
  {
    if mappings != [] {
      VerifiedIdsLook(mappings[..|mappings| - 1], scan, id);
      assert mappings == mappings[..|mappings| - 1] + [mappings[|mappings| - 1]];
    }
  }

  lemma Blankless(s: string, t: string)
    requires s == Trim(t)
    ensures Trim(s) == s
  {
    TrimIdem(t);
  }

  /** Some provider verified a product ID for the package in this scan. */
  ghost predicate HasVerified(mappings: seq<Mapping>, scan: Scan, id: Identity) {
    exists m | m in mappings && m.identity == id :: m.VerifiedFor(id, scan)
  }

  ghost predicate SomeNamesProduct(offers: set<Observation>)
    requires forall o | o in offers :: o.target.Some?
  {
    exists o | o in offers :: Trim(o.target.value.productId) != ""
  }

  /** A stored row keeps an executable target exactly when the row's IDs are the target's,
      and then it shows the target's IDs; otherwise it is left with none. */
  lemma StoredTargets(p: Published, q: Published)
    requires p == StoredRow(q) && q.exact && q.a.target.Some? && q.a.target.value.ExactFor(q.a.identity)
    ensures p.exact <==>
      && (Trim(q.productId) == "" || Trim(q.productId) == Trim(q.a.target.value.productId))
      && (Trim(q.updateId) == "" || Trim(q.updateId) == Trim(q.a.target.value.updateId))
    ensures p.exact ==> p.a == q.a
    ensures p.exact ==> p.productId == Trim(q.a.target.value.productId)
    ensures p.exact ==> p.updateId == Trim(q.a.target.value.updateId)
    ensures !p.exact ==> p.a == q.a.(target := None) && p.productId == "" && p.updateId == ""
  {
    var t := q.a.target.value;
    TrimIdem(q.productId);
    TrimIdem(q.updateId);
    TrimIdem(t.productId);
    TrimIdem(t.updateId);
    hide Trim;
  }

  /** A row without an executable target is stored as it is, its IDs trimmed and filled in
      from whatever target it has. */
  lemma StoredOthers(p: Published, q: Published)
    requires p == StoredRow(q) && !q.exact
    ensures !p.exact && p.a == q.a
    ensures q.a.target.None? ==> p == q
    ensures q.a.target.Some? ==> p.productId == FirstNonEmpty(q.productId, q.a.target.value.productId)
    ensures q.a.target.Some? ==> p.updateId == FirstNonEmpty(q.updateId, q.a.target.value.updateId)
  {
  }

  /** An available row keeps its executable target when it is stored exactly when one of
      the offers names a product, or no provider verified one: a verified product ID
      beside offers by update ID alone costs the row its target. A stored target shows
      what the offers said. */
  lemma StoredKeepsTargetExactlyWhen(scan: Scan, families: seq<Family>, runs: seq<ProviderRun>,
                                     previous: map<Identity, Published>, q: Published, p: Published)
    requires q in Rows(scan, families, runs, previous) && !q.stale && q.a.state == Available && p == StoredRow(q)
    ensures var id := q.a.identity;
      p.exact <==> SomeNamesProduct(OffersOf(scan, runs, id)) || !HasVerified(AllMappings(runs), scan, id)
    ensures p.exact ==> p.a == q.a && SaysWhatWasOffered(p.a, OffersOf(scan, runs, q.a.identity), q.a.identity.pfn)
    ensures p.exact ==> p.productId == p.a.target.value.productId && p.updateId == p.a.target.value.updateId
    ensures !p.exact ==> p.a.target.None? && p.productId == "" && p.updateId == ""
  {
    var id := q.a.identity;
    var i := Input(id, scan, Required(runs), AllObservations(runs));
    FreshRowIsSound(scan, families, runs, previous, q);
    FreshRowsRepeat(scan, families, runs, previous, q);
    VerifiedIdsLook(AllMappings(runs), scan, id);
    hide Rows, FreshRow, Reconcile, VerifiedIds, AvailableWhen, CurrentWhen, AllMappings, AllObservations, StoredRow;
    AvailableSaysWhatWasOffered(i);
    hide SaysWhatWasOffered, SomeNamesProduct, ProductConflict, Applies, Dated, OffersOf;
    TargetKept(q, p, VerifiedIds(AllMappings(runs), scan, id), OffersOf(scan, runs, id));
  }

  lemma TargetKept(q: Published, p: Published, ids: seq<string>, offers: set<Observation>)
    requires forall o | o in offers :: o.target.Some?
    requires p == StoredRow(q) && q.exact && RepeatsAssessment(q, q.a, ids) && !ProductConflict(ids)
    requires SaysWhatWasOffered(q.a, offers, q.a.identity.pfn) && forall v | v in ids :: Trim(v) != ""
    ensures p.exact <==> SomeNamesProduct(offers) || ids == []
    ensures p.exact ==> p.a == q.a
    ensures p.exact ==> p.productId == p.a.target.value.productId && p.updateId == p.a.target.value.updateId
    ensures !p.exact ==> p.a.target.None? && p.productId == "" && p.updateId == ""
  {
    TargetNamesProduct(q.a, offers, q.a.identity.pfn);
    hide SaysWhatWasOffered, SomeNamesProduct;
    StoredTargets(p, q);
    hide StoredRow, Trim, LooksLikeProductId;
    KeepsWhen(p, q, q.a.target.value, ids);
  }

  lemma KeepsWhen(p: Published, q: Published, t: Target, ids: seq<string>)
    requires q.a.target == Some(t) && RepeatsAssessment(q, q.a, ids) && q.exact && !ProductConflict(ids)
    requires Trim(t.productId) == t.productId && Trim(t.updateId) == t.updateId
    requires ids != [] ==> Trim(ids[0]) != ""
    requires p.exact <==>
      && (Trim(q.productId) == "" || Trim(q.productId) == Trim(t.productId))
      && (Trim(q.updateId) == "" || Trim(q.updateId) == Trim(t.updateId))
    ensures p.exact <==> t.productId != "" || ids == []
  {
    assert Trim("") == "";
    hide ProductConflict, Trim;
  }

  lemma IdsAreTrimmed(offers: set<Observation>)
    requires forall o | o in offers :: o.target.Some?
    ensures forall v | v in ProductIds(offers) || v in UpdateIds(offers) :: Trim(v) == v
    ensures (exists v | v in ProductIds(offers) :: v != "") <==> SomeNamesProduct(offers)
  {
    forall o | o in offers
      ensures Trim(Trim(o.target.value.productId)) == Trim(o.target.value.productId)
      ensures Trim(Trim(o.target.value.updateId)) == Trim(o.target.value.updateId)
    {
      TrimIdem(o.target.value.productId);
      TrimIdem(o.target.value.updateId);
    }
    hide Trim;
    if o :| o in offers && Trim(o.target.value.productId) != "" {
      assert Trim(o.target.value.productId) in ProductIds(offers);
    }
  }

  lemma TargetNamesProduct(a: Assessment, offers: set<Observation>, pfn: string)
    requires forall o | o in offers :: o.target.Some?
    requires SaysWhatWasOffered(a, offers, pfn)
    ensures a.target.value.productId != "" <==> SomeNamesProduct(offers)
    ensures Trim(a.target.value.productId) == a.target.value.productId
    ensures Trim(a.target.value.updateId) == a.target.value.updateId
  {
    IdsAreTrimmed(offers);
    assert Trim("") == "";
    hide Trim, ProductIds, UpdateIds, OfferedVersions, SomeNamesProduct, Fronts, Unrivalled, PrefersFamily;
  }

  // ---------------------------------------------------------------- an update that storage disarms

  function FamilyOffer(id: Identity, p: Provider, scanId: string): Observation {
    Observation(p, Healthy, PositiveOffer, id, scanId, Some(1), "1.0", "2.0",
                Some(Target(id, p, "", id.pfn, true, p.Key(), Some(1))))
  }

  /** One provider offers an update by the family's name and verifies its product ID. */
  function OfferAndMapping(id: Identity, p: Provider, product: string, scanId: string): ProviderRun {
    ProviderRun(p, Some(2), Healthy, [FamilyOffer(id, p, scanId)],
                [Mapping(id, product, p, scanId, Some(1), Fingerprint("", "", ""), true, "")], "", false)
  }

  lemma OneOfferIsAvailable(o: Observation, id: Identity, scan: Scan)
    requires id.Resolved() && scan.UsableFor(id) && Classify(o, id, scan) == ExactOffer
    ensures AvailableWhen({o}, id, scan)
  {
    var offers := OffersIn({o}, id, scan);
    assert offers == {o};
    assert ProductKeys(offers) <= {ProductKey(o)} && UpdateKeys(offers) <= {UpdateKey(o)};
    assert VersionKeys(offers) <= {VersionKey(o)};
    SubsetSize(ProductKeys(offers), {ProductKey(o)});
    SubsetSize(UpdateKeys(offers), {UpdateKey(o)});
    SubsetSize(VersionKeys(offers), {VersionKey(o)});
  }

  lemma TheRun(id: Identity, p: Provider, product: string, scan: Scan)
    requires id.Resolved() && Trim(id.pfn) != "" && scan.UsableFor(id) && LooksLikeProductId(product) && product != ""
    ensures var o, runs := FamilyOffer(id, p, scan.scanId), [OfferAndMapping(id, p, product, scan.scanId)];
      && AllObservations(runs) == [o] && Classify(o, id, scan) == ExactOffer
      && VerifiedIds(AllMappings(runs), scan, id) == [product] && HasVerified(AllMappings(runs), scan, id)
  {
    var run := OfferAndMapping(id, p, product, scan.scanId);
    hide LooksLikeProductId;
    assert [run][1..] == [] && AllObservations([run][1..]) == [] && AllMappings([run][1..]) == [];
    assert run.mappings[..0] == [] && run.mappings[0].VerifiedFor(id, scan);
  }

  lemma OneFamily(scan: Scan, f: Family, runs: seq<ProviderRun>)
    requires f.productLike
    ensures Rows(scan, [f], runs, map[]) == [Row(scan, AssessmentOf(scan, f.identity, runs), runs, map[])]
  {
    hide Row, Reconcile;
    assert [f][..0] == [] && Rows(scan, [], runs, map[]) == [];
  }

  lemma AvailableRow(scan: Scan, id: Identity, runs: seq<ProviderRun>, q: Published)
    requires q == Row(scan, AssessmentOf(scan, id, runs), runs, map[])
    requires AvailableWhen(Members(AllObservations(runs)), id, scan)
    requires !ProductConflict(VerifiedIds(AllMappings(runs), scan, id))
    ensures q.a.state == Available && !q.stale && q.a.identity == id
  {
    var a := AssessmentOf(scan, id, runs);
    AssessmentFacts(scan, id, runs);
    hide AvailableWhen, Reconcile;
    FreshRowFacts(scan, a, VerifiedIds(AllMappings(runs), scan, id), q);
  }

  /** Of any package with a name: such a scan finds its update available and executable,
      and the stored row has nothing left to execute. */
  lemma StoringDisarmsFamilyOffer(f: Family, p: Provider, product: string, scan: Scan)
    requires f.productLike && f.identity.Resolved() && Trim(f.identity.pfn) != "" && scan.UsableFor(f.identity)
    requires LooksLikeProductId(product) && product != ""
    ensures var rows := Rows(scan, [f], [OfferAndMapping(f.identity, p, product, scan.scanId)], map[]);
      && |rows| == 1 && rows[0].a.state == Available && rows[0].exact
      && var q := StoredRow(rows[0]); q.a.state == Available && !q.exact && q.a.target.None? && q.updateId == ""
  {
    var id := f.identity;
    var o, runs := FamilyOffer(id, p, scan.scanId), [OfferAndMapping(id, p, product, scan.scanId)];
    TheRun(id, p, product, scan);
    OneOfferIsAvailable(o, id, scan);
    NoProductNamed(o, id, scan);
    hide Classify, LooksLikeProductId, AllMappings, AllObservations, VerifiedIds, HasVerified, AvailableWhen, Reconcile,
         FreshRow, CurrentWhen;
    assert Members([o]) == {o};
    OneFamily(scan, f, runs);
    var rows := Rows(scan, [f], runs, map[]);
    AvailableRow(scan, id, runs, rows[0]);
    hide Row, Rows, OfferAndMapping, FamilyOffer, StoredRow, OffersIn;
    FreshRowIsSound(scan, [f], runs, map[], rows[0]);
    StoredKeepsTargetExactlyWhen(scan, [f], runs, map[], rows[0], StoredRow(rows[0]));
    StoredRowFacts(StoredRow(rows[0]), rows[0]);
  }

  lemma NoProductNamed(o: Observation, id: Identity, scan: Scan)
    requires o.target.Some? && o.target.value.productId == ""
    ensures var offers := OffersIn({o}, id, scan);
      (forall x | x in offers :: x.target.Some?) && !SomeNamesProduct(offers)
  {
    assert Trim("") == "";
  }
}
