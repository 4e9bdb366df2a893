/** What the aggregate provider's run says, and what becomes of it. */
module StoreCliRuns {
  import opened Wrappers
  import opened Text
  import opened StoreModel
  import opened StoreReconcile
  import opened StoreTheorems
  import opened StoreSanitize
  import opened StoreCliParse
  import opened StoreCliReadings
  import opened StoreCliObserve

  /** The offer names a family of the scan and something that looks like a product ID. */
  ghost predicate Understood(o: Offer, families: seq<Family>, scan: Scan) {
    && LooksLikeProductId(Trim(o.productId))
    && exists f | f in families :: OwesEvidence(f, scan) && EqualFold(f.identity.pfn, o.pfn)
  }

  lemma UsableMeansUnderstood(o: Offer, families: seq<Family>, scan: Scan)
    ensures Usable(o, ByPfn(Concerned(families, scan))) <==> Understood(o, families, scan)
  {
    var concerned := Concerned(families, scan);
    ConcernedMembers(families, scan);
    ByPfnMembers(concerned);
    hide Concerned, ByPfn, OwesEvidence, LooksLikeProductId;
    if Lower(o.pfn) in ByPfn(concerned) { assert ByPfn(concerned)[Lower(o.pfn)] in families; }
  }

  /** The health of a run: unsupported without the command, healthy if there is nothing to
      ask about or the listing is complete and understood to the last offer, and
      incomplete otherwise. It hints at updates if the listing announced any. */
  lemma ObservedHealthExactlyWhen(scan: Scan, families: seq<Family>, l: Listing, cli: Provider, now: nat)
    ensures var run, p := Observe(scan, families, l, cli, now), Parse(l.lines);
      var idle := forall f | f in families :: !OwesEvidence(f, scan);
      && run.provider == cli && run.completedAt == Some(now) && run.version == l.version
      && (run.health == UnsupportedHealth <==> !l.available)
      && (run.health == Healthy <==>
            l.available && (idle || (l.ok && !l.cancelled && p.complete
                                     && forall o | o in p.st.offers :: Understood(o, families, scan))))
      && (run.health == Healthy || run.health == UnsupportedHealth || run.health == IncompleteHealth)
      && (run.hint <==> l.available && !idle && exists x | x in l.lines :: x.Hint?)
  {
    var concerned := Concerned(families, scan);
    ConcernedMembers(families, scan);
    forall o ensures Usable(o, ByPfn(concerned)) <==> Understood(o, families, scan) {
      UsableMeansUnderstood(o, families, scan);
    }
    HintsAreRecorded(l.lines);
    assert concerned == [] <==> forall f | f in families :: !OwesEvidence(f, scan) by {
      if concerned != [] { assert concerned[0] in concerned; }
    }
    CompleteMeans(l.lines);
    hide OfferObservations, OfferMappings, Negatives, Parse, Concerned, ByPfn, MatchedPfns, Usable, Understood,
         OwesEvidence;
  }

  lemma HintsAreRecorded(lines: seq<Line>)
    ensures var st := Parse(lines).st;
      st.hint || st.expected > |st.offers| <==> exists x | x in lines :: x.Hint?
  {
    StepsFacts(lines);
    FlushKeeps(lines, Steps(lines));
  }

  lemma CompleteMeans(lines: seq<Line>)
    ensures var p := Parse(lines);
      && p.failed == !p.complete && (p.complete && p.st.noUpdates ==> p.st.offers == [])
  {
    hide Steps, Flush;
  }

  // ---------------------------------------------------------------- the evidence

  /** What the provider reports of an offer: an exact target for the family it names, or
      that no installer applies. */
  predicate Reports(x: Observation, o: Offer, f: Family, scan: Scan, cli: Provider, now: nat) {
    && x.provider == cli && x.health == Healthy && x.identity == f.identity && x.scanId == scan.scanId
    && x.observedAt == Some(now) && x.installedVersion == f.version && x.availableVersion == o.version
    && (o.inapplicable ==> x.kind == NoApplicableInstaller && x.target.None?)
    && (!o.inapplicable ==>
          && x.kind == PositiveOffer && x.target.Some?
          && var t := x.target.value;
             t.identity == f.identity && t.provider == cli && t.productId == Trim(o.productId)
             && t.updateId == f.identity.pfn && t.verified && t.verifiedAt == Some(now))
  }

  /** And of a family without one. */
  predicate Denies(x: Observation, f: Family, scan: Scan, cli: Provider, now: nat) {
    && x.provider == cli && x.health == Healthy && x.identity == f.identity && x.scanId == scan.scanId
    && x.observedAt == Some(now) && x.installedVersion == f.version && x.availableVersion == ""
    && x.kind == AuthoritativeNegative && x.target.None?
  }

  predicate Maps(m: Mapping, o: Offer, f: Family, scan: Scan, cli: Provider, now: nat) {
    m.identity == f.identity && m.productId == Trim(o.productId) && m.provider == cli && m.scanId == scan.scanId
    && m.verifiedAt == Some(now)
  }

  /** The family an offer is about. */
  predicate About(o: Offer, f: Family, families: seq<Family>, scan: Scan) {
    && f in families && f.productLike && f.identity.userSid == scan.userSid != "" && f.identity.pfn != ""
    && EqualFold(f.identity.pfn, o.pfn) && LooksLikeProductId(Trim(o.productId))
  }

  ghost predicate ReportsSome(x: Observation, offers: seq<Offer>, families: seq<Family>, scan: Scan, cli: Provider,
                              now: nat) {
    exists o, f | o in offers :: About(o, f, families, scan) && Reports(x, o, f, scan, cli, now)
  }

  ghost predicate DeniesSome(x: Observation, families: seq<Family>, scan: Scan, cli: Provider, now: nat) {
    exists f | f in families :: OwesEvidence(f, scan) && Denies(x, f, scan, cli, now)
  }

  ghost predicate MapsSome(m: Mapping, offers: seq<Offer>, families: seq<Family>, scan: Scan, cli: Provider, now: nat) {
    exists o, f | o in offers :: About(o, f, families, scan) && Maps(m, o, f, scan, cli, now)
  }

  ghost predicate Reported(o: Offer, run: ProviderRun, families: seq<Family>, scan: Scan, now: nat) {
    exists f, x | x in run.observations :: About(o, f, families, scan) && Reports(x, o, f, scan, run.provider, now)
  }

  ghost predicate MappedFor(o: Offer, run: ProviderRun, families: seq<Family>, scan: Scan, now: nat) {
    exists f, m | m in run.mappings :: About(o, f, families, scan) && Maps(m, o, f, scan, run.provider, now)
  }

  lemma OfferReports(o: Offer, f: Family, scan: Scan, cli: Provider, now: nat)
    ensures Reports(OfferObservation(o, f, scan, cli, now), o, f, scan, cli, now)
    ensures Maps(OfferMapping(o, f, scan, cli, now), o, f, scan, cli, now)
    ensures Denies(NegativeObservation(f, scan, cli, now), f, scan, cli, now)
  {
  }

  lemma UsableIsAbout(o: Offer, families: seq<Family>, scan: Scan)
    requires Usable(o, ByPfn(Concerned(families, scan)))
    ensures About(o, ByPfn(Concerned(families, scan))[Lower(o.pfn)], families, scan)
  {
    ConcernedMembers(families, scan);
    ByPfnMembers(Concerned(families, scan));
    hide Concerned, ByPfn, LooksLikeProductId;
  }

  lemma OfferEvidence(offers: seq<Offer>, families: seq<Family>, scan: Scan, cli: Provider, now: nat)
    ensures var byPfn := ByPfn(Concerned(families, scan));
      && (forall x | x in OfferObservations(offers, byPfn, scan, cli, now) ::
            ReportsSome(x, offers, families, scan, cli, now))
      && (forall m | m in OfferMappings(offers, byPfn, scan, cli, now) ::
            MapsSome(m, offers, families, scan, cli, now))
  {
    var byPfn := ByPfn(Concerned(families, scan));
    OfferMembers(offers, byPfn, scan, cli, now);
    forall o | o in offers && Usable(o, byPfn)
      ensures ReportsSome(OfferObservation(o, byPfn[Lower(o.pfn)], scan, cli, now), offers, families, scan, cli, now)
      ensures MapsSome(OfferMapping(o, byPfn[Lower(o.pfn)], scan, cli, now), offers, families, scan, cli, now)
    {
      UsableIsAbout(o, families, scan);
      OfferReports(o, byPfn[Lower(o.pfn)], scan, cli, now);
    }
    hide OfferObservations, OfferMappings, OfferObservation, OfferMapping, ReportsSome, MapsSome, Usable, Concerned,
         ByPfn;
  }

  lemma NegativeEvidence(families: seq<Family>, matched: set<string>, scan: Scan, cli: Provider, now: nat)
    ensures forall x | x in Negatives(Concerned(families, scan), matched, scan, cli, now) ::
              DeniesSome(x, families, scan, cli, now)
  {
    var concerned := Concerned(families, scan);
    NegativeMembers(concerned, matched, scan, cli, now);
    ConcernedMembers(families, scan);
    forall f | f in concerned ensures DeniesSome(NegativeObservation(f, scan, cli, now), families, scan, cli, now) {
      OfferReports(Offer("", "", "", false), f, scan, cli, now);
    }
    hide Negatives, NegativeObservation, DeniesSome, Concerned;
  }

  /** Everything in the run reports an offer of the listing or, in a healthy run alone,
      denies that a family has one; mappings come from offers too. */
  lemma RunsReportTheListing(scan: Scan, families: seq<Family>, l: Listing, cli: Provider, now: nat)
    ensures var run, offers := Observe(scan, families, l, cli, now), Parse(l.lines).st.offers;
      && (forall x | x in run.observations ::
            ReportsSome(x, offers, families, scan, cli, now)
            || (run.health == Healthy && DeniesSome(x, families, scan, cli, now)))
      && (forall m | m in run.mappings :: MapsSome(m, offers, families, scan, cli, now))
  {
    var concerned, offers := Concerned(families, scan), Parse(l.lines).st.offers;
    OfferEvidence(offers, families, scan, cli, now);
    NegativeEvidence(families, {}, scan, cli, now);
    NegativeEvidence(families, MatchedPfns(offers, ByPfn(concerned)), scan, cli, now);
    hide OfferObservations, OfferMappings, Negatives, Parse, Concerned, ByPfn, MatchedPfns, ReportsSome, MapsSome,
         DeniesSome, AllUsable;
  }

  lemma OfferIsReported(scan: Scan, families: seq<Family>, offers: seq<Offer>, o: Offer, run: ProviderRun, now: nat)
    requires o in offers && Understood(o, families, scan)
    requires var byPfn := ByPfn(Concerned(families, scan));
      && OfferObservations(offers, byPfn, scan, run.provider, now) <= run.observations
      && OfferMappings(offers, byPfn, scan, run.provider, now) <= run.mappings
    ensures Reported(o, run, families, scan, now) && MappedFor(o, run, families, scan, now)
  {
    var byPfn := ByPfn(Concerned(families, scan));
    UsableMeansUnderstood(o, families, scan);
    UsableIsAbout(o, families, scan);
    OfferMembers(offers, byPfn, scan, run.provider, now);
    AllMappingsKept(offers, byPfn, scan, run.provider, now);
    var f := byPfn[Lower(o.pfn)];
    OfferReports(o, f, scan, run.provider, now);
    hide OfferObservations, OfferMappings, OfferObservation, OfferMapping, Usable, Concerned, ByPfn, About, Reports,
         Maps;
    assert OfferObservation(o, f, scan, run.provider, now) in run.observations;
    assert OfferMapping(o, f, scan, run.provider, now) in run.mappings;
  }

  lemma {:induction false} AllMappingsKept(offers: seq<Offer>, byPfn: map<string, Family>, scan: Scan, cli: Provider,
                                           now: nat)
    ensures forall o | o in offers && Usable(o, byPfn) ::
              OfferMapping(o, byPfn[Lower(o.pfn)], scan, cli, now) in OfferMappings(offers, byPfn, scan, cli, now)
  {
    if offers != [] {
      AllMappingsKept(offers[..|offers| - 1], byPfn, scan, cli, now);
      assert offers == offers[..|offers| - 1] + [offers[|offers| - 1]];
      hide OfferMapping, Usable;
    }
  }

  /** Every offer that names a family of the scan is reported and mapped, whether or not
      the listing counts as complete. */
  lemma OffersAreReported(scan: Scan, families: seq<Family>, l: Listing, cli: Provider, now: nat, o: Offer)
    requires l.available && o in Parse(l.lines).st.offers && Understood(o, families, scan)
    ensures var run := Observe(scan, families, l, cli, now);
      Reported(o, run, families, scan, now) && MappedFor(o, run, families, scan, now)
  {
    var concerned, offers := Concerned(families, scan), Parse(l.lines).st.offers;
    ConcernedMembers(families, scan);
    CompleteMeans(l.lines);
    assert concerned != [];
    var run := Observe(scan, families, l, cli, now);
    hide Parse, Understood, OfferObservations, OfferMappings, Negatives, Concerned, ByPfn, MatchedPfns, AllUsable;
    assert run.provider == cli;
    assert OfferObservations(offers, ByPfn(concerned), scan, cli, now) <= run.observations;
    assert OfferMappings(offers, ByPfn(concerned), scan, cli, now) <= run.mappings;
    hide Observe;
    OfferIsReported(scan, families, offers, o, run, now);
  }

  // ---------------------------------------------------------------- from the listing to the verdict

  /** The offer is the listing's only one for a family, and no other family of the scan has
      that name. */
  ghost predicate OnlyOffer(o: Offer, f: Family, families: seq<Family>, l: Listing, scan: Scan) {
    && o in Parse(l.lines).st.offers && About(o, f, families, scan)
    && (forall other | other in Parse(l.lines).st.offers && EqualFold(other.pfn, f.identity.pfn) :: other == o)
    && (forall g | g in families && OwesEvidence(g, scan) && EqualFold(g.identity.pfn, f.identity.pfn) :: g == f)
  }

  /** All the run says of the family is that offer. */
  lemma OnlyReports(scan: Scan, families: seq<Family>, l: Listing, cli: Provider, now: nat, o: Offer, f: Family,
                    x: Observation)
    requires l.available && OnlyOffer(o, f, families, l, scan)
    requires x in Observe(scan, families, l, cli, now).observations && x.identity == f.identity
    ensures Reports(x, o, f, scan, cli, now)
  {
    var run, offers := Observe(scan, families, l, cli, now), Parse(l.lines).st.offers;
    RunsReportTheListing(scan, families, l, cli, now);
    if run.health == Healthy {
      HealthyRunDecidesEveryFamily(scan, families, l, cli, now, f);
      assert Listed(l, f);
    }
    hide Observe, Parse, LooksLikeProductId, OwesEvidence, Lower;
    if ReportsSome(x, offers, families, scan, cli, now) {
      var o', f' :| o' in offers && About(o', f', families, scan) && Reports(x, o', f', scan, cli, now);
      assert o' == o && f' == f;
    }
  }

  lemma ReportIsExact(x: Observation, o: Offer, f: Family, scan: Scan, cli: Provider, now: nat)
    requires Reports(x, o, f, scan, cli, now) && LooksLikeProductId(Trim(o.productId))
    ensures Classify(x, f.identity, scan) == if o.inapplicable then NoInstaller else ExactOffer
    ensures !o.inapplicable ==>
              x.target.Some? && Trim(x.target.value.productId) == Trim(o.productId)
              && Trim(x.target.value.updateId) == Trim(f.identity.pfn)
  {
    TrimIdem(o.productId);
  }

  /** All the exact offers there are say this. */
  ghost predicate SayAll(offers: set<Observation>, product: string, update: string, version: string) {
    forall x | x in offers ::
      x.target.Some? && Trim(x.target.value.productId) == product && Trim(x.target.value.updateId) == update
      && Trim(x.availableVersion) == version
  }

  lemma OneVoiceAgrees(id: Identity, offers: set<Observation>, product: string, update: string, version: string)
    requires SayAll(offers, product, update, version)
    ensures Agree(id, offers)
  {
    assert ProductKeys(offers) <= {Lower(product)};
    assert UpdateKeys(offers) <= {Lower(update)};
    assert VersionKeys(offers) <= {Lower(version)};
    SubsetSize(ProductKeys(offers), {Lower(product)});
    SubsetSize(UpdateKeys(offers), {Lower(update)});
    SubsetSize(VersionKeys(offers), {Lower(version)});
  }

  lemma OneWordIsHeard(value: string, offered: set<string>, said: string)
    requires DrawnFrom(value, offered) && offered == {said}
    ensures value == said
  {
    assert said in offered;
  }

  lemma OneVoiceSaysOneThing(offers: set<Observation>, product: string, update: string, version: string)
    requires offers != {} && SayAll(offers, product, update, version)
    ensures forall o | o in offers :: o.target.Some?
    ensures ProductIds(offers) == {product} && UpdateIds(offers) == {update} && OfferedVersions(offers) == {version}
  {
    var x :| x in offers;
    hide Trim;
    assert Trim(x.target.value.productId) in ProductIds(offers);
    assert Trim(x.target.value.updateId) in UpdateIds(offers);
    assert Trim(x.availableVersion) in OfferedVersions(offers);
  }

  lemma OneVoiceIsHeard(a: Assessment, offers: set<Observation>, pfn: string, product: string, update: string,
                        version: string)
    requires offers != {} && SayAll(offers, product, update, version)
    requires SaysWhatWasOffered(a, offers, pfn)
    ensures a.target.value.productId == product && a.target.value.updateId == update && a.availableVersion == version
  {
    hide DrawnFrom, Unrivalled, PrefersFamily, ProductIds, UpdateIds, OfferedVersions, Fronts, SayAll;
    OneVoiceSaysOneThing(offers, product, update, version);
    OneWordIsHeard(a.target.value.productId, ProductIds(offers), product);
    OneWordIsHeard(a.target.value.updateId, UpdateIds(offers), update);
    OneWordIsHeard(a.availableVersion, OfferedVersions(offers), version);
  }

  /** The only offer a listing has for a family becomes its available update, with the
      product and version the listing gives; a remark that it does not apply rules that
      out. */
  lemma ListedUpdateIsAvailable(scan: Scan, families: seq<Family>, l: Listing, cli: Provider, now: nat, o: Offer,
                                f: Family, required: seq<Provider>)
    requires l.available && OnlyOffer(o, f, families, l, scan) && scan.UsableFor(f.identity)
    ensures var a := Reconcile(Input(f.identity, scan, required, Observe(scan, families, l, cli, now).observations));
      && (a.state == Available <==> !o.inapplicable)
      && (a.state == Available ==>
            a.target.Some? && a.target.value.productId == Trim(o.productId)
            && a.target.value.updateId == Trim(f.identity.pfn) && a.availableVersion == Trim(o.version))
  {
    var run, id := Observe(scan, families, l, cli, now), f.identity;
    var i := Input(id, scan, required, run.observations);
    var e := Members(run.observations);
    forall x | x in run.observations && x.identity == id ensures Reports(x, o, f, scan, cli, now) {
      OnlyReports(scan, families, l, cli, now, o, f, x);
    }
    IsReported(scan, families, l, cli, now, o, f);
    hide Observe, Parse, OnlyOffer;
    forall x | x in e && x.Matches(id, scan)
      ensures Classify(x, id, scan) == if o.inapplicable then NoInstaller else ExactOffer
      ensures !o.inapplicable ==> SayAll({x}, Trim(o.productId), Trim(id.pfn), Trim(o.version))
    {
      ReportIsExact(x, o, f, scan, cli, now);
      hide Trim, LooksLikeProductId;
    }
    hide Reports, Trim, LooksLikeProductId, OwesEvidence;
    AvailableExactlyWhen(i);
    var offers := OffersIn(e, id, scan);
    var x :| x in e && x.Matches(id, scan);
    if o.inapplicable {
      assert Has(e, id, scan, NoInstaller);
    } else {
      assert x in offers;
      OneVoice(e, id, scan, offers, Trim(o.productId), Trim(id.pfn), Trim(o.version));
      AvailableSaysWhatWasOffered(i);
      OneVoiceIsHeard(Reconcile(i), offers, id.pfn, Trim(o.productId), Trim(id.pfn), Trim(o.version));
    }
  }

  lemma AllOfThem(offers: set<Observation>, product: string, update: string, version: string)
    requires forall x | x in offers :: SayAll({x}, product, update, version)
    ensures SayAll(offers, product, update, version)
  {
    hide Trim;
    forall x | x in offers ensures x in {x} && SayAll({x}, product, update, version) {}
  }

  /** Evidence that is nothing but agreeing exact offers makes an update available. */
  lemma OneVoice(e: set<Observation>, id: Identity, scan: Scan, offers: set<Observation>, product: string,
                 update: string, version: string)
    requires id.Resolved() && scan.UsableFor(id) && offers == OffersIn(e, id, scan) && offers != {}
    requires forall x | x in e && x.Matches(id, scan) ::
               Classify(x, id, scan) == ExactOffer && SayAll({x}, product, update, version)
    ensures AvailableWhen(e, id, scan) && SayAll(offers, product, update, version)
  {
    hide SayAll, Agree;
    forall y | y in e ensures Classify(y, id, scan) == ExactOffer || Classify(y, id, scan) == Foreign {}
    forall x | x in offers ensures x in e && x.Matches(id, scan) {}
    hide Classify;
    AllOfThem(offers, product, update, version);
    OneVoiceAgrees(id, offers, product, update, version);
    var x :| x in offers;
    assert Evidence(e, id, scan) && Has(e, id, scan, ExactOffer);
  }

  lemma IsReported(scan: Scan, families: seq<Family>, l: Listing, cli: Provider, now: nat, o: Offer, f: Family)
    requires l.available && OnlyOffer(o, f, families, l, scan)
    ensures f.identity.Resolved()
    ensures LooksLikeProductId(Trim(o.productId))
    ensures exists x :: x in Members(Observe(scan, families, l, cli, now).observations) && x.Matches(f.identity, scan)
  {
    var run := Observe(scan, families, l, cli, now);
    ObservedHealthExactlyWhen(scan, families, l, cli, now);
    hide Observe, Parse, LooksLikeProductId;
    assert Understood(o, families, scan);
    OffersAreReported(scan, families, l, cli, now, o);
    hide Understood;
    assert Reported(o, run, families, scan, now);
    var g, x :| x in run.observations && About(o, g, families, scan) && Reports(x, o, g, scan, run.provider, now);
    assert g == f by { hide Reports; }
    hide About, OnlyOffer;
    assert x in Members(run.observations) && x.Matches(f.identity, scan);
  }
}
