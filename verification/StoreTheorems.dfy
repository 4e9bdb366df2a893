/** What reconciliation guarantees, stated without its passes and orders. */
module StoreTheorems {
  import opened Wrappers
  import opened Text
  import opened StoreModel
  import opened StoreReconcile

  /** Some observation in the evidence falls into the class. */
  ghost predicate Has(e: set<Observation>, id: Identity, scan: Scan, c: Class) {
    exists o | o in e :: Classify(o, id, scan) == c
  }

  function OffersIn(e: set<Observation>, id: Identity, scan: Scan): set<Observation> {
    set o | o in e && Classify(o, id, scan) == ExactOffer
  }

  ghost predicate Evidence(e: set<Observation>, id: Identity, scan: Scan) {
    && id.Resolved() && scan.UsableFor(id)
    && exists o | o in e :: o.Matches(id, scan)
  }

  /** Listings that are known to miss updates, so that a catalogue's offer outweighs them. */
  predicate MayMiss(n: Observation) {
    n.provider.Key() in {"store-cli-updates", "store-cli-exact", "winget-msstore-exact"}
  }

  /** An exact offer that a catalogue was asked for, or whose target a catalogue supplied. */
  predicate FromCatalogue(o: Observation) {
    var catalogues := {"store-cli-exact", "winget-msstore-exact", "store-winrt-discovery"};
    o.Exact(o.identity) && (o.provider.Key() in catalogues || o.target.value.provider.Key() in catalogues)
  }

  /** Healthy evidence against the exact offers that they do not outweigh. */
  ghost predicate Contradicted(e: set<Observation>, id: Identity, scan: Scan) {
    || Has(e, id, scan, NoInstaller)
    || (Has(e, id, scan, Negative)
        && !((exists o | o in e :: Classify(o, id, scan) == ExactOffer && FromCatalogue(o))
             && forall o | o in e && Classify(o, id, scan) == Negative :: MayMiss(o)))
  }

  ghost predicate Answered(e: set<Observation>, id: Identity, scan: Scan, key: string) {
    exists o | o in e :: o.Matches(id, scan) && ProviderKey(o.provider) == key
  }

  ghost predicate AnsweredNegative(e: set<Observation>, id: Identity, scan: Scan, key: string) {
    exists o | o in e :: Classify(o, id, scan) == Negative && ProviderKey(o.provider) == key
  }

  /** An update is available exactly when exact offers exist, nothing healthy
      contradicts them and they agree. */
  ghost predicate AvailableWhen(e: set<Observation>, id: Identity, scan: Scan) {
    && Evidence(e, id, scan) && Has(e, id, scan, ExactOffer) && !Contradicted(e, id, scan)
    && Agree(id, OffersIn(e, id, scan))
  }

  /** A package is current exactly when the scan completed, every required provider
      (and there is one) returned an authoritative negative, and no evidence for it
      offers, withholds or leaves open anything else. */
  ghost predicate CurrentWhen(e: set<Observation>, required: set<string>, id: Identity, scan: Scan) {
    && Evidence(e, id, scan) && scan.CompleteFor(id)
    && required != {} && (forall key | key in required :: AnsweredNegative(e, id, scan, key))
    && (forall o | o in e && o.Matches(id, scan) :: !Blocks(o))
    && !Has(e, id, scan, ExactOffer) && !Has(e, id, scan, InexactOffer)
    && !Has(e, id, scan, NoInstaller) && !Has(e, id, scan, PendingClass)
  }

  ghost predicate ConflictWhen(e: set<Observation>, id: Identity, scan: Scan) {
    && Evidence(e, id, scan) && Has(e, id, scan, ExactOffer)
    && (Contradicted(e, id, scan) || !Agree(id, OffersIn(e, id, scan)))
  }

  /** Complete, unblocked evidence without any offer. */
  ghost predicate Settled(e: set<Observation>, required: set<string>, id: Identity, scan: Scan) {
    && Evidence(e, id, scan) && !Has(e, id, scan, ExactOffer) && !Has(e, id, scan, InexactOffer)
    && (forall key | key in required :: Answered(e, id, scan, key))
    && (forall o | o in e && o.Matches(id, scan) :: !Blocks(o))
  }

  /** The state as a function of the evidence taken as a set. */
  ghost function Decide(e: set<Observation>, required: set<string>, id: Identity, scan: Scan): UpdateState {
    if AvailableWhen(e, id, scan) then Available
    else if ConflictWhen(e, id, scan) then Conflict
    else if CurrentWhen(e, required, id, scan) then Current
    else if Settled(e, required, id, scan) && Has(e, id, scan, PendingClass) then Pending
    else if Settled(e, required, id, scan) && Has(e, id, scan, NoInstaller) then Inapplicable
    else Unknown
  }

  lemma HasMeans(i: Input, c: Class)
    ensures (OfClass(i.observations, i, c) != []) <==> Has(Members(i.observations), i.identity, i.scan, c)
    ensures forall o ::
              o in OfClass(i.observations, i, c) <==> o in i.observations && Classify(o, i.identity, i.scan) == c
  {
    OfClassMembers(i.observations, i, c);
    var found := OfClass(i.observations, i, c);
    if found != [] { assert found[0] in found; }
  }

  lemma FirstBlockingMeans(m: seq<Observation>)
    ensures FirstBlocking(m).Some? <==> exists o | o in m :: Blocks(o)
    ensures FirstBlocking(m).Some? ==> FirstBlocking(m).value in m
  {
    if m != [] { assert m == m[..|m| - 1] + [m[|m| - 1]]; }
  }

  lemma CataloguesAre(o: Observation)
    ensures FromCatalogue(o) <==> CatalogOffer(o)
    ensures MayMiss(o) <==> KnownFalseNegative(o.provider.Key())
  {
  }

  lemma YieldsMean(exact: seq<Observation>, negatives: seq<Observation>)
    ensures CanYield(exact, negatives)
      <==> negatives == [] || ((exists o | o in exact :: FromCatalogue(o)) && forall n | n in negatives :: MayMiss(n))
  {
    forall o ensures FromCatalogue(o) <==> CatalogOffer(o) { CataloguesAre(o); }
    forall n ensures MayMiss(n) <==> KnownFalseNegative(n.provider.Key()) { CataloguesAre(n); }
    hide FromCatalogue, CatalogOffer, MayMiss, KnownFalseNegative;
  }

  lemma YieldMeans(i: Input)
    requires Has(Members(i.observations), i.identity, i.scan, ExactOffer)
    ensures (OfClass(i.observations, i, NoInstaller) != []
             || !CanYield(OfClass(i.observations, i, ExactOffer), OfClass(i.observations, i, Negative)))
        <==> Contradicted(Members(i.observations), i.identity, i.scan)
  {
    hide FromCatalogue, MayMiss, CanYield, OfClass, Classify;
    HasMeans(i, NoInstaller);
    HasMeans(i, ExactOffer);
    HasMeans(i, Negative);
    YieldsMean(OfClass(i.observations, i, ExactOffer), OfClass(i.observations, i, Negative));
  }

  lemma ExactCase(i: Input)
    requires Evidence(Members(i.observations), i.identity, i.scan)
      && Has(Members(i.observations), i.identity, i.scan, ExactOffer)
    ensures Reconcile(i).state == Decide(Members(i.observations), RequiredKeys(i.required), i.identity, i.scan)
  {
    HasMeans(i, ExactOffer);
    YieldMeans(i);
    MatchingMembers(i.observations, i);
    assert Members(OfClass(i.observations, i, ExactOffer)) == OffersIn(Members(i.observations), i.identity, i.scan);
    var o :| o in Members(i.observations) && o.Matches(i.identity, i.scan);
    assert o in Matching(i.observations, i);
  }

  lemma AnswersMean(i: Input)
    ensures RequiredKeys(i.required) <= Keys(Matching(i.observations, i)) <==>
              forall key | key in RequiredKeys(i.required) :: Answered(Members(i.observations), i.identity, i.scan, key)
  {
    MatchingMembers(i.observations, i);
    forall key
      ensures key in Keys(Matching(i.observations, i))
        <==> Answered(Members(i.observations), i.identity, i.scan, key) {}
  }

  lemma NegativesMean(i: Input)
    ensures var negatives, required := OfClass(i.observations, i, Negative), RequiredKeys(i.required);
      required != {} && required <= Keys(negatives) && negatives != [] <==>
      required != {} && forall key | key in required ::
          AnsweredNegative(Members(i.observations), i.identity, i.scan, key)
    ensures forall key :: AnsweredNegative(Members(i.observations), i.identity, i.scan, key) ==>
              Answered(Members(i.observations), i.identity, i.scan, key)
  {
    forall key { NegativeAnswers(Members(i.observations), i.identity, i.scan, key); }
    var e, negatives, required := Members(i.observations), OfClass(i.observations, i, Negative),
        RequiredKeys(i.required);
    OfClassMembers(i.observations, i, Negative);
    forall key ensures key in Keys(negatives) <==> AnsweredNegative(e, i.identity, i.scan, key) {}
    if required != {} && forall key | key in required :: AnsweredNegative(e, i.identity, i.scan, key) {
      var key :| key in required;
      assert key in Keys(negatives);
    }
  }

  lemma BlockingMeans(i: Input)
    ensures FirstBlocking(Matching(i.observations, i)).None? <==>
              forall o | o in Members(i.observations) && o.Matches(i.identity, i.scan) :: !Blocks(o)
    ensures (exists o | o in Matching(i.observations, i) :: Blocks(o))
      <==> FirstBlocking(Matching(i.observations, i)).Some?
    ensures (Matching(i.observations, i) != [])
      <==> exists o | o in Members(i.observations) :: o.Matches(i.identity, i.scan)
  {
    MatchingMembers(i.observations, i);
    FirstBlockingMeans(Matching(i.observations, i));
    var m := Matching(i.observations, i);
    assert m != [] ==> m[0] in m;
  }

  lemma NegativeAnswers(e: set<Observation>, id: Identity, scan: Scan, key: string)
    ensures AnsweredNegative(e, id, scan, key) ==> Answered(e, id, scan, key)
  {
    if AnsweredNegative(e, id, scan, key) {
      var n :| n in e && Classify(n, id, scan) == Negative && ProviderKey(n.provider) == key;
      assert n.Matches(id, scan);
    }
  }

  lemma OtherCase(i: Input)
    requires Evidence(Members(i.observations), i.identity, i.scan)
      && !Has(Members(i.observations), i.identity, i.scan, ExactOffer)
    ensures Reconcile(i).state == Decide(Members(i.observations), RequiredKeys(i.required), i.identity, i.scan)
  {
    HasMeans(i, ExactOffer);
    HasMeans(i, InexactOffer);
    HasMeans(i, NoInstaller);
    HasMeans(i, PendingClass);
    AnswersMean(i);
    NegativesMean(i);
    BlockingMeans(i);
    DecideOther(Members(i.observations), RequiredKeys(i.required), i.identity, i.scan);
    OtherWeighed(i, Matching(i.observations, i), OfClass(i.observations, i, InexactOffer),
                 OfClass(i.observations, i, Negative),
                 OfClass(i.observations, i, NoInstaller), OfClass(i.observations, i, PendingClass));
  }

  lemma DecideOther(e: set<Observation>, required: set<string>, id: Identity, scan: Scan)
    requires Evidence(e, id, scan) && !Has(e, id, scan, ExactOffer)
    requires forall key :: AnsweredNegative(e, id, scan, key) ==> Answered(e, id, scan, key)
    ensures Decide(e, required, id, scan) ==
      if Has(e, id, scan, InexactOffer) || !(forall key | key in required :: Answered(e, id, scan, key))
         || !(forall o | o in e && o.Matches(id, scan) :: !Blocks(o)) then Unknown
      else if Has(e, id, scan, PendingClass) then Pending
      else if Has(e, id, scan, NoInstaller) then Inapplicable
      else if scan.CompleteFor(id) && required != {} && forall key | key in required ::
          AnsweredNegative(e, id, scan, key) then Current
      else Unknown
  {
  }

  /** The decision without exact offers, case by case. */
  lemma OtherWeighed(i: Input, m: seq<Observation>, inexact: seq<Observation>, negatives: seq<Observation>,
                     noInstaller: seq<Observation>, pending: seq<Observation>)
    requires m != [] && (FirstBlocking(m).Some? <==> exists o | o in m :: Blocks(o))
    ensures var a := Weigh(i, m, [], inexact, negatives, noInstaller, pending);
      var required := RequiredKeys(i.required);
      a.state == if inexact != [] || !(required <= Keys(m)) || FirstBlocking(m).Some? then Unknown
                 else if pending != [] then Pending
                 else if noInstaller != [] then Inapplicable
                 else if i.scan.CompleteFor(i.identity) && required != {} && required <= Keys(negatives)
                     && negatives != [] then Current
                 else Unknown
  {
  }

  /** Reconciliation is a function of the set of observations and of the required
      provider keys: neither the order in which providers report nor repeated
      reports can change the state. */
  lemma StateDependsOnTheEvidenceSet(i: Input)
    ensures Reconcile(i).state == Decide(Members(i.observations), RequiredKeys(i.required), i.identity, i.scan)
  {
    var e := Members(i.observations);
    if Evidence(e, i.identity, i.scan) {
      if Has(e, i.identity, i.scan, ExactOffer) { ExactCase(i); } else { OtherCase(i); }
    } else if i.identity.Resolved() && i.scan.UsableFor(i.identity) {
      BlockingMeans(i);
    }
  }

  lemma OrderDoesNotMatter(a: Input, b: Input)
    requires a.identity == b.identity && a.scan == b.scan && RequiredKeys(a.required) == RequiredKeys(b.required)
    requires forall o :: o in a.observations <==> o in b.observations
    ensures Reconcile(a).state == Reconcile(b).state
  {
    StateDependsOnTheEvidenceSet(a);
    StateDependsOnTheEvidenceSet(b);
    assert Members(a.observations) == Members(b.observations);
  }

  lemma AvailableExactlyWhen(i: Input)
    ensures Reconcile(i).state == Available <==> AvailableWhen(Members(i.observations), i.identity, i.scan)
  {
    StateDependsOnTheEvidenceSet(i);
  }

  lemma CurrentExactlyWhen(i: Input)
    ensures Reconcile(i).state == Current
      <==> CurrentWhen(Members(i.observations), RequiredKeys(i.required), i.identity, i.scan)
  {
    StateDependsOnTheEvidenceSet(i);
  }

  // ---------------------------------------------------------------- the order of keys

  lemma {:induction false} LexTotal(a: string, b: string)
    ensures !LexLess(a, a)
    ensures LexLess(a, b) || LexLess(b, a) || a == b
    ensures !(LexLess(a, b) && LexLess(b, a))
  {
    if a != "" { LexTotal(a[1..], if b == "" then "" else b[1..]); }
    if a != "" && b != "" && a[0] == b[0] && a[1..] == b[1..] { assert a == [a[0]] + a[1..] && b == [b[0]] + b[1..]; }
  }

  /** One string sorts before another exactly when they agree up to some place where the
      first ends or has the smaller character. */
  lemma {:induction false} LexMeans(a: string, b: string)
    ensures LexLess(a, b)
      <==> exists k :: 0 <= k <= |a| && k < |b| && a[..k] == b[..k] && (k == |a| || a[k] < b[k])
  {
    if a != "" && b != "" && a[0] == b[0] {
      LexMeans(a[1..], b[1..]);
      var c, d := a[1..], b[1..];
      if k :| 0 <= k <= |c| && k < |d| && c[..k] == d[..k] && (k == |c| || c[k] < d[k]) {
        assert a[..k + 1] == [a[0]] + c[..k] && b[..k + 1] == [b[0]] + d[..k];
      }
      if k :| 0 <= k <= |a| && k < |b| && a[..k] == b[..k] && (k == |a| || a[k] < b[k]) {
        assert k > 0;
        assert c[..k - 1] == a[..k][1..] && d[..k - 1] == b[..k][1..];
      }
    } else if b != "" {
      assert a[..0] == b[..0];
    }
  }

  lemma {:induction false} LexTransitive(a: string, b: string, c: string)
    requires LexLess(a, b) && LexLess(b, c)
    ensures LexLess(a, c)
  {
    if a != "" && a[0] == b[0] == c[0] { LexTransitive(a[1..], b[1..], c[1..]); }
  }

  // ---------------------------------------------------------------- the target of an available update

  lemma LastProductIdFacts(sorted: seq<Observation>)
    requires Targeted(sorted)
    ensures if exists o | o in sorted :: ProductKey(o) != ""
            then exists o | o in sorted ::
                ProductKey(o) != "" && LastProductId(sorted) == Trim(o.target.value.productId)
            else LastProductId(sorted) == ""
  {
    if sorted != [] {
      assert sorted == sorted[..|sorted| - 1] + [sorted[|sorted| - 1]];
      LastProductIdFacts(sorted[..|sorted| - 1]);
    }
  }

  lemma LastUpdateIdFacts(sorted: seq<Observation>, key: string)
    requires Targeted(sorted) && exists o | o in sorted :: UpdateKey(o) == key
    ensures exists o | o in sorted :: UpdateKey(o) == key && LastUpdateId(sorted, key) == Trim(o.target.value.updateId)
  {
    var last := |sorted| - 1;
    assert sorted == sorted[..last] + [sorted[last]];
    if UpdateKey(sorted[last]) != key { LastUpdateIdFacts(sorted[..last], key); }
  }

  lemma LeastKeyFacts(keys: set<string>, sorted: seq<Observation>)
    requires Targeted(sorted) && "" !in keys
    ensures LeastKey(keys, sorted) == "" || LeastKey(keys, sorted) in keys
    ensures (exists o | o in sorted :: UpdateKey(o) in keys) ==> LeastKey(keys, sorted) in keys
  {
    if sorted != [] { assert sorted == [sorted[0]] + sorted[1..]; LeastKeyFacts(keys, sorted[1..]); }
  }

  lemma PreferredIsOffered(id: Identity, sorted: seq<Observation>)
    requires Targeted(sorted)
    ensures var u := PreferredUpdateId(id, sorted);
      if exists o | o in sorted :: UpdateKey(o) != ""
      then exists o | o in sorted :: UpdateKey(o) != "" && u == Trim(o.target.value.updateId)
      else u == ""
  {
    var keys, family := UpdateKeys(Members(sorted)), Lower(Trim(id.pfn));
    if o :| o in sorted && UpdateKey(o) != "" {
      assert UpdateKey(o) in keys;
      LeastKeyFacts(keys, sorted);
      var key := if family in keys then family else LeastKey(keys, sorted);
      assert key in keys;
      LastUpdateIdFacts(sorted, key);
    } else {
      assert keys == {};
    }
  }

  /** The target of an available update is exact for its identity. */
  lemma AvailableTargetIsExact(i: Input)
    requires Reconcile(i).state == Available
    ensures var a := Reconcile(i); a.identity == i.identity && a.target.Some? && a.target.value.ExactFor(i.identity)
  {
    AvailableIsAgreed(i, Reconcile(i));
    OfClassMembers(i.observations, i, ExactOffer);
    AgreedIsExact(i, OfClass(i.observations, i, ExactOffer), Reconcile(i));
  }

  lemma AvailableIsAgreed(i: Input, a: Assessment)
    requires a == Reconcile(i) && a.state == Available
    ensures var exact := OfClass(i.observations, i, ExactOffer);
      exact != [] && a == Agreed(i, exact)
  {
    WeighAvailable(i, Matching(i.observations, i), OfClass(i.observations, i, ExactOffer),
                   OfClass(i.observations, i, InexactOffer),
                   OfClass(i.observations, i, Negative), OfClass(i.observations, i, NoInstaller),
                       OfClass(i.observations, i, PendingClass));
  }

  lemma WeighAvailable(i: Input, m: seq<Observation>, exact: seq<Observation>, inexact: seq<Observation>,
                       negatives: seq<Observation>, noInstaller: seq<Observation>, pending: seq<Observation>)
    requires Targeted(exact)
    requires Weigh(i, m, exact, inexact, negatives, noInstaller, pending).state == Available
    ensures exact != [] && Weigh(i, m, exact, inexact, negatives, noInstaller, pending) == Agreed(i, exact)
  {
  }

  lemma AgreedIsExact(i: Input, exact: seq<Observation>, a: Assessment)
    requires exact != [] && Targeted(exact) && forall o | o in exact :: o.Exact(i.identity)
    requires a == Agreed(i, exact)
    ensures a.identity == i.identity && a.target.Some? && a.target.value.ExactFor(i.identity)
  {
    ConsensusIsExact(i.identity, exact);
  }

  lemma ConsensusIsExact(id: Identity, offers: seq<Observation>)
    requires offers != [] && Targeted(offers) && forall o | o in offers :: o.Exact(id)
    ensures Consensus(id, offers).0.ExactFor(id)
  {
    var sorted := SortOffers(offers);
    assert offers[0] in sorted;
    assert sorted[0] in sorted;
    LastProductIdFacts(sorted);
    PreferredIsOffered(id, sorted);
    var t := Consensus(id, offers).0;
    if o :| o in sorted && t.productId == Trim(o.target.value.productId) { TrimIdem(o.target.value.productId); }
    if o :| o in sorted && t.updateId == Trim(o.target.value.updateId) { TrimIdem(o.target.value.updateId); }
    LowerEmpty(Trim(sorted[0].target.value.productId));
    LowerEmpty(Trim(sorted[0].target.value.updateId));
    forall o | o in sorted ensures (ProductKey(o) != "" <==> Trim(o.target.value.productId) != "")
    {
      LowerEmpty(Trim(o.target.value.productId));
    }
    forall o | o in sorted ensures (UpdateKey(o) != "" <==> Trim(o.target.value.updateId) != "")
    {
      LowerEmpty(Trim(o.target.value.updateId));
    }
  }

  // ---------------------------------------------------------------- what the offers said

  /** The product IDs, update IDs and versions of the offers, blank ones included. */
  function ProductIds(offers: set<Observation>): set<string>
    requires forall o | o in offers :: o.target.Some?
  {
    set o | o in offers :: Trim(o.target.value.productId)
  }

  function UpdateIds(offers: set<Observation>): set<string>
    requires forall o | o in offers :: o.target.Some?
  {
    set o | o in offers :: Trim(o.target.value.updateId)
  }

  function OfferedVersions(offers: set<Observation>): set<string> { set o | o in offers :: Trim(o.availableVersion) }

  /** The value is one of those offered, and blank only if all of them are. */
  predicate DrawnFrom(value: string, offered: set<string>) {
    if value == "" then forall v | v in offered :: v == "" else value in offered
  }

  /** Nothing else was offered, up to letter case. */
  predicate Unrivalled(value: string, offered: set<string>) {
    forall v | v in offered && v != "" :: EqualFold(v, value)
  }

  /** The family's own update ID if it was offered, the only other one otherwise. */
  ghost predicate PrefersFamily(value: string, offered: set<string>, pfn: string) {
    if exists v | v in offered && v != "" :: EqualFold(v, Trim(pfn)) then EqualFold(value, Trim(pfn))
    else Unrivalled(value, offered)
  }

  /** One offer supplies everything that the others need not agree on: the one whose
      description comes first. */
  ghost predicate Fronts(o: Observation, offers: set<Observation>, a: Assessment)
    requires forall x | x in offers :: x.target.Some?
    requires a.target.Some?
  {
    && o in offers && (forall x | x in offers :: !LexLess(SortKey(x), SortKey(o)))
    && a.installedVersion == o.installedVersion
    && var t, own := a.target.value, o.target.value;
       t.identity == own.identity && t.provider == own.provider && t.verified == own.verified
       && t.verifiedAt == own.verifiedAt && t.verifiedBy == Trim(own.verifiedBy)
  }

  /** What the assessment tells to execute is what the offers said. */
  ghost predicate SaysWhatWasOffered(a: Assessment, offers: set<Observation>, pfn: string)
    requires forall o | o in offers :: o.target.Some?
  {
    && a.target.Some?
    && DrawnFrom(a.target.value.productId, ProductIds(offers))
    && Unrivalled(a.target.value.productId, ProductIds(offers))
    && DrawnFrom(a.target.value.updateId, UpdateIds(offers))
    && PrefersFamily(a.target.value.updateId, UpdateIds(offers), pfn)
    && DrawnFrom(a.availableVersion, OfferedVersions(offers))
    && Unrivalled(a.availableVersion, OfferedVersions(offers))
    && exists o :: Fronts(o, offers, a)
  }

  lemma LastVersionFacts(sorted: seq<Observation>)
    ensures if exists o | o in sorted :: VersionKey(o) != ""
            then exists o | o in sorted :: VersionKey(o) != "" && LastVersion(sorted) == Trim(o.availableVersion)
            else LastVersion(sorted) == ""
  {
    if sorted != [] {
      assert sorted == sorted[..|sorted| - 1] + [sorted[|sorted| - 1]];
      LastVersionFacts(sorted[..|sorted| - 1]);
    }
  }

  lemma BlankKeys(o: Observation)
    ensures VersionKey(o) == "" <==> Trim(o.availableVersion) == ""
    ensures o.target.Some? ==> (ProductKey(o) == "" <==> Trim(o.target.value.productId) == "")
    ensures o.target.Some? ==> (UpdateKey(o) == "" <==> Trim(o.target.value.updateId) == "")
  {
    LowerEmpty(Trim(o.availableVersion));
    if o.target.Some? { LowerEmpty(Trim(o.target.value.productId)); LowerEmpty(Trim(o.target.value.updateId)); }
  }

  lemma AtMostOne<T>(s: set<T>, a: T, b: T)
    requires |s| <= 1 && a in s && b in s
    ensures a == b
  {
    if a != b { assert {a, b} <= s; assert |{a, b}| == 2; SubsetSize({a, b}, s); }
  }

  lemma ProductIsOffered(sorted: seq<Observation>)
    requires Targeted(sorted) && |ProductKeys(Members(sorted))| <= 1
    ensures var ids := ProductIds(Members(sorted));
      DrawnFrom(LastProductId(sorted), ids) && Unrivalled(LastProductId(sorted), ids)
  {
    LastProductIdFacts(sorted);
    forall o | o in sorted { BlankKeys(o); }
    if o :| o in sorted && ProductKey(o) != "" && LastProductId(sorted) == Trim(o.target.value.productId) {
      assert o in Members(sorted) && LastProductId(sorted) in ProductIds(Members(sorted));
      forall x | x in sorted && ProductKey(x) != "" ensures ProductKey(x) == ProductKey(o) {
        AtMostOne(ProductKeys(Members(sorted)), ProductKey(x), ProductKey(o));
      }
    }
  }

  lemma VersionIsOffered(sorted: seq<Observation>)
    requires |VersionKeys(Members(sorted))| <= 1
    ensures var versions := OfferedVersions(Members(sorted));
      DrawnFrom(LastVersion(sorted), versions) && Unrivalled(LastVersion(sorted), versions)
  {
    LastVersionFacts(sorted);
    forall o | o in sorted { BlankKeys(o); }
    if o :| o in sorted && VersionKey(o) != "" && LastVersion(sorted) == Trim(o.availableVersion) {
      assert o in Members(sorted) && LastVersion(sorted) in OfferedVersions(Members(sorted));
      forall x | x in sorted && VersionKey(x) != "" ensures VersionKey(x) == VersionKey(o) {
        AtMostOne(VersionKeys(Members(sorted)), VersionKey(x), VersionKey(o));
      }
    }
  }

  /** Which key the preferred update ID is filed under. */
  lemma PreferredKey(id: Identity, sorted: seq<Observation>) returns (from: Observation)
    requires Targeted(sorted) && UpdateKeys(Members(sorted)) != {}
    ensures from in sorted && PreferredUpdateId(id, sorted) == Trim(from.target.value.updateId)
    ensures UpdateKey(from) in UpdateKeys(Members(sorted))
    ensures Lower(Trim(id.pfn)) in UpdateKeys(Members(sorted)) ==> UpdateKey(from) == Lower(Trim(id.pfn))
  {
    var keys, family, u := UpdateKeys(Members(sorted)), Lower(Trim(id.pfn)), PreferredUpdateId(id, sorted);
    LeastKeyFacts(keys, sorted);
    var k :| k in keys;
    var x :| x in Members(sorted) && UpdateKey(x) == k;
    var key := if family in keys then family else LeastKey(keys, sorted);
    assert exists o | o in sorted :: UpdateKey(o) == key;
    LastUpdateIdFacts(sorted, key);
    hide *;
    from :| from in sorted && UpdateKey(from) == key && u == Trim(from.target.value.updateId);
  }

  lemma OneKeyButTheFamily(id: Identity, keys: set<string>, a: string, b: string)
    requires !UpdateIdsConflict(id.pfn, keys) && Lower(Trim(id.pfn)) !in keys && a in keys && b in keys
    ensures a == b
  {
    assert keys - {Lower(Trim(id.pfn))} == keys;
    AtMostOne(keys, a, b);
  }

  lemma UpdateKeysAreIds(offers: set<Observation>)
    requires forall o | o in offers :: o.target.Some?
    ensures forall key :: key in UpdateKeys(offers) <==> exists v | v in UpdateIds(offers) :: v != "" && Lower(v) == key
  {
    forall o | o in offers { BlankKeys(o); }
    forall key | key in UpdateKeys(offers) ensures exists v | v in UpdateIds(offers) :: v != "" && Lower(v) == key {
      var o :| o in offers && UpdateKey(o) == key;
      assert Trim(o.target.value.updateId) in UpdateIds(offers);
    }
    forall v | v in UpdateIds(offers) && v != "" ensures Lower(v) in UpdateKeys(offers) {
      var o :| o in offers && Trim(o.target.value.updateId) == v;
      assert UpdateKey(o) == Lower(v);
    }
  }

  lemma UpdateIsOffered(id: Identity, sorted: seq<Observation>)
    requires Targeted(sorted) && !UpdateIdsConflict(id.pfn, UpdateKeys(Members(sorted)))
    ensures var ids := UpdateIds(Members(sorted));
      DrawnFrom(PreferredUpdateId(id, sorted), ids) && PrefersFamily(PreferredUpdateId(id, sorted), ids, id.pfn)
  {
    var keys, ids, u := UpdateKeys(Members(sorted)), UpdateIds(Members(sorted)), PreferredUpdateId(id, sorted);
    UpdateKeysAreIds(Members(sorted));
    LowerEmpty(u);
    if keys == {} {
      assert u == "";
      forall v | v in ids ensures v == "" || Lower(v) in keys {}
    } else {
      var from := PreferredKey(id, sorted);
      assert u in ids && Lower(u) in keys by { assert from in Members(sorted); }
      hide PreferredUpdateId, UpdateKeys, UpdateIds, UpdateIdsConflict, Lower, Trim, Members;
      if exists v | v in ids && v != "" :: EqualFold(v, Trim(id.pfn)) {
        var v :| v in ids && v != "" && EqualFold(v, Trim(id.pfn));
        assert Lower(Trim(id.pfn)) in keys;
      } else {
        assert Lower(Trim(id.pfn)) !in keys;
        forall v | v in ids && v != "" ensures Lower(v) == Lower(u) {
          OneKeyButTheFamily(id, keys, Lower(v), Lower(u));
        }
      }
    }
  }

  /** The first of the sorted offers has the least key. */
  ghost predicate Leads(sorted: seq<Observation>)
    requires Targeted(sorted)
  {
    forall x | x in sorted :: !LexLess(SortKey(x), SortKey(sorted[0]))
  }

  lemma InsertLeads(sorted: seq<Observation>, o: Observation)
    requires Targeted(sorted) && o.target.Some? && Leads(sorted)
    ensures InsertOffer(sorted, o) != [] && Leads(InsertOffer(sorted, o))
  {
    LexTotal(SortKey(o), SortKey(o));
    if sorted != [] && LexLess(SortKey(o), SortKey(sorted[0])) {
      LexTotal(SortKey(o), SortKey(sorted[0]));
      forall x | x in sorted && LexLess(SortKey(x), SortKey(o)) ensures false {
        LexTransitive(SortKey(x), SortKey(o), SortKey(sorted[0]));
      }
    }
  }

  lemma {:induction false} SortedLeads(offers: seq<Observation>)
    requires Targeted(offers)
    ensures Leads(SortOffers(offers))
  {
    if offers != [] {
      var last := |offers| - 1;
      assert offers == offers[..last] + [offers[last]];
      SortedLeads(offers[..last]);
      InsertLeads(SortOffers(offers[..last]), offers[last]);
    }
  }

  lemma AgreedSaysWhatWasOffered(i: Input, exact: seq<Observation>, a: Assessment)
    requires exact != [] && Targeted(exact) && Agree(i.identity, Members(exact)) && a == Agreed(i, exact)
    ensures SaysWhatWasOffered(a, Members(exact), i.identity.pfn)
  {
    var sorted := SortOffers(exact);
    assert Members(sorted) == Members(exact);
    assert exact[0] in sorted;
    assert sorted[0] in Members(exact);
    ProductIsOffered(sorted);
    VersionIsOffered(sorted);
    UpdateIsOffered(i.identity, sorted);
    SortedLeads(exact);
    hide LexLess, SortKey, LastProductId, LastVersion, PreferredUpdateId, ProductIds, UpdateIds, OfferedVersions,
         DrawnFrom, Unrivalled, PrefersFamily, SortOffers, Agree;
    assert Fronts(sorted[0], Members(exact), a);
  }

  /** An available update is the update the exact offers of its evidence describe: its
      product ID and version are the only ones any of them names, its update ID is the
      family's own or the only other one, each is blank only if no offer has it, and the
      rest comes from the first of the offers. */
  lemma AvailableSaysWhatWasOffered(i: Input)
    requires Reconcile(i).state == Available
    ensures forall o | o in OffersIn(Members(i.observations), i.identity, i.scan) :: o.target.Some?
    ensures SaysWhatWasOffered(Reconcile(i), OffersIn(Members(i.observations), i.identity, i.scan), i.identity.pfn)
  {
    var e, exact := Members(i.observations), OfClass(i.observations, i, ExactOffer);
    AvailableIsAgreed(i, Reconcile(i));
    AvailableExactlyWhen(i);
    OfClassMembers(i.observations, i, ExactOffer);
    assert Members(exact) == OffersIn(e, i.identity, i.scan);
    AgreedSaysWhatWasOffered(i, exact, Reconcile(i));
  }

  // ---------------------------------------------------------------- what other assessments say

  /** The first observation of its class, in the order reported. */
  ghost predicate FirstOf(i: Input, c: Class, n: nat) {
    && n < |i.observations| && Classify(i.observations[n], i.identity, i.scan) == c
    && forall m | 0 <= m < n :: Classify(i.observations[m], i.identity, i.scan) != c
  }

  /** The first observation of the identity that leaves its state open. */
  ghost predicate FirstBlock(i: Input, n: nat) {
    && n < |i.observations| && i.observations[n].Matches(i.identity, i.scan) && Blocks(i.observations[n])
    && forall m | 0 <= m < n :: !(i.observations[m].Matches(i.identity, i.scan) && Blocks(i.observations[m]))
  }

  predicate Quotes(a: Assessment, o: Observation) {
    a.installedVersion == o.installedVersion && a.availableVersion == o.availableVersion
  }

  predicate SaysNothing(a: Assessment) { a.installedVersion == "" && a.availableVersion == "" && a.target.None? }

  lemma {:induction false} OfClassFirst(obs: seq<Observation>, i: Input, c: Class) returns (n: nat)
    requires OfClass(obs, i, c) != []
    ensures n < |obs| && obs[n] == OfClass(obs, i, c)[0] && Classify(obs[n], i.identity, i.scan) == c
    ensures forall m | 0 <= m < n :: Classify(obs[m], i.identity, i.scan) != c
  {
    var last := |obs| - 1;
    if OfClass(obs[..last], i, c) != [] {
      n := OfClassFirst(obs[..last], i, c);
      forall m | 0 <= m < n ensures Classify(obs[m], i.identity, i.scan) != c { assert obs[..last][m] == obs[m]; }
    } else {
      n := last;
      OfClassMembers(obs[..last], i, c);
      forall m | 0 <= m < n ensures Classify(obs[m], i.identity, i.scan) != c { assert obs[m] in obs[..last]; }
    }
  }

  lemma FirstBlockingGrows(m: seq<Observation>, more: seq<Observation>)
    requires |more| <= 1
    ensures FirstBlocking(m + more) == if FirstBlocking(m).Some? then FirstBlocking(m)
      else if more != [] && Blocks(more[0]) then Some(more[0]) else None
  {
    if more != [] { assert (m + more)[..|m|] == m; } else { assert m + more == m; }
  }

  lemma {:induction false} BlockingFirst(obs: seq<Observation>, i: Input) returns (n: nat)
    requires FirstBlocking(Matching(obs, i)).Some?
    ensures n < |obs| && FirstBlocking(Matching(obs, i)) == Some(obs[n])
    ensures obs[n].Matches(i.identity, i.scan) && Blocks(obs[n])
    ensures forall m | 0 <= m < n :: !(obs[m].Matches(i.identity, i.scan) && Blocks(obs[m]))
  {
    var last := |obs| - 1;
    var before := Matching(obs[..last], i);
    FirstBlockingGrows(before, if obs[last].Matches(i.identity, i.scan) then [obs[last]] else []);
    if FirstBlocking(before).Some? {
      n := BlockingFirst(obs[..last], i);
      forall m | 0 <= m < n ensures !(obs[m].Matches(i.identity, i.scan) && Blocks(obs[m])) {
        assert obs[..last][m] == obs[m];
      }
    } else {
      n := last;
      MatchingMembers(obs[..last], i);
      FirstBlockingMeans(before);
      forall m | 0 <= m < n ensures !(obs[m].Matches(i.identity, i.scan) && Blocks(obs[m])) {
        assert obs[m] in obs[..last];
      }
    }
  }

  ghost predicate QuotesFirst(i: Input, a: Assessment, c: Class) {
    exists n: nat :: FirstOf(i, c, n) && Quotes(a, i.observations[n]) && a.target == i.observations[n].target
  }

  ghost predicate QuotesBlock(i: Input, a: Assessment) {
    exists n: nat :: FirstBlock(i, n) && Quotes(a, i.observations[n]) && a.target == i.observations[n].target
  }

  /** An assessment that is not available quotes the first observation of the class that
      decided it, target included; disagreeing offers leave it no target, and an unknown
      state may have nothing to quote. */
  ghost predicate QuotesItsGround(i: Input, a: Assessment) {
    match a.state
    case Available => true
    case Conflict =>
      if Contradicted(Members(i.observations), i.identity, i.scan) then QuotesFirst(i, a, ExactOffer)
      else a.target.None? && exists n: nat :: FirstOf(i, ExactOffer, n) && Quotes(a, i.observations[n])
    case Current => QuotesFirst(i, a, Negative)
    case Pending => QuotesFirst(i, a, PendingClass)
    case Inapplicable => QuotesFirst(i, a, NoInstaller)
    case Unknown => SaysNothing(a) || QuotesFirst(i, a, InexactOffer) || QuotesBlock(i, a)
  }

  lemma FirstIsQuoted(i: Input, a: Assessment, c: Class)
    requires OfClass(i.observations, i, c) != [] && Quotes(a, OfClass(i.observations, i, c)[0])
    ensures exists n: nat :: FirstOf(i, c, n) && Quotes(a, i.observations[n])
    ensures a.target == OfClass(i.observations, i, c)[0].target ==> QuotesFirst(i, a, c)
  {
    var n := OfClassFirst(i.observations, i, c);
    hide OfClass, Classify;
    assert FirstOf(i, c, n);
  }

  lemma BlockIsQuoted(i: Input, a: Assessment)
    requires var b := FirstBlocking(Matching(i.observations, i));
      b.Some? && Quotes(a, b.value) && a.target == b.value.target
    ensures QuotesBlock(i, a)
  {
    var n := BlockingFirst(i.observations, i);
    hide FirstBlocking, Matching;
    assert FirstBlock(i, n);
  }

  lemma OffersQuote(i: Input, exact: seq<Observation>, negatives: seq<Observation>, noInstaller: seq<Observation>,
                    a: Assessment)
    requires exact != [] && Targeted(exact) && a == WeighOffers(i, exact, negatives, noInstaller)
    ensures a.state == Available || a.state == Conflict
    ensures a.state == Conflict ==> Quotes(a, exact[0])
    ensures a.state == Conflict ==>
      a.target == if noInstaller != [] || !CanYield(exact, negatives) then exact[0].target else None
  {
    hide CanYield, Agree, Consensus, SortOffers, LastVersion;
  }

  lemma RestQuotes(i: Input, m: seq<Observation>, inexact: seq<Observation>, negatives: seq<Observation>,
                   noInstaller: seq<Observation>, pending: seq<Observation>, a: Assessment)
    requires a == WeighRest(i, m, inexact, negatives, noInstaller, pending)
    ensures a.state == Current || a.state == Pending || a.state == Inapplicable || a.state == Unknown
    ensures a.state == Current ==> negatives != [] && Quotes(a, negatives[0]) && a.target == negatives[0].target
    ensures a.state == Pending ==> pending != [] && Quotes(a, pending[0]) && a.target == pending[0].target
    ensures a.state == Inapplicable ==>
      noInstaller != [] && Quotes(a, noInstaller[0]) && a.target == noInstaller[0].target
    ensures a.state == Unknown ==>
      || SaysNothing(a)
      || (inexact != [] && Quotes(a, inexact[0]) && a.target == inexact[0].target)
      || (FirstBlocking(m).Some? && Quotes(a, FirstBlocking(m).value) && a.target == FirstBlocking(m).value.target)
  {
    hide FirstBlocking, RequiredKeys, Keys;
  }

  /** What each of the three outcomes of weighing quotes. */
  lemma WeighQuotes(i: Input, m: seq<Observation>, exact: seq<Observation>, inexact: seq<Observation>,
                    negatives: seq<Observation>, noInstaller: seq<Observation>, pending: seq<Observation>)
    requires Targeted(exact)
    ensures var a := Weigh(i, m, exact, inexact, negatives, noInstaller, pending);
      || (a.state == Unknown && SaysNothing(a))
      || (exact != [] && a == WeighOffers(i, exact, negatives, noInstaller))
      || (exact == [] && a == WeighRest(i, m, inexact, negatives, noInstaller, pending))
  {
    hide WeighOffers, WeighRest;
  }

  lemma ClassesQuote(i: Input, exact: seq<Observation>, inexact: seq<Observation>, negatives: seq<Observation>,
                     noInstaller: seq<Observation>, pending: seq<Observation>, a: Assessment)
    requires exact == OfClass(i.observations, i, ExactOffer) && inexact == OfClass(i.observations, i, InexactOffer)
    requires negatives == OfClass(i.observations, i, Negative)
    requires noInstaller == OfClass(i.observations, i, NoInstaller)
    requires pending == OfClass(i.observations, i, PendingClass)
    requires exact == [] && a == WeighRest(i, Matching(i.observations, i), inexact, negatives, noInstaller, pending)
    ensures QuotesItsGround(i, a)
  {
    RestQuotes(i, Matching(i.observations, i), inexact, negatives, noInstaller, pending, a);
    hide WeighRest, OfClass, QuotesFirst, QuotesBlock, Matching, FirstBlocking;
    if negatives != [] && Quotes(a, negatives[0]) { FirstIsQuoted(i, a, Negative); }
    if pending != [] && Quotes(a, pending[0]) { FirstIsQuoted(i, a, PendingClass); }
    if noInstaller != [] && Quotes(a, noInstaller[0]) { FirstIsQuoted(i, a, NoInstaller); }
    if inexact != [] && Quotes(a, inexact[0]) { FirstIsQuoted(i, a, InexactOffer); }
    var b := FirstBlocking(Matching(i.observations, i));
    if b.Some? && Quotes(a, b.value) && a.target == b.value.target { BlockIsQuoted(i, a); }
  }

  lemma ConflictQuotes(i: Input, exact: seq<Observation>, negatives: seq<Observation>, noInstaller: seq<Observation>,
                       a: Assessment)
    requires exact == OfClass(i.observations, i, ExactOffer) && negatives == OfClass(i.observations, i, Negative)
    requires noInstaller == OfClass(i.observations, i, NoInstaller)
    requires exact != [] && a == WeighOffers(i, exact, negatives, noInstaller)
    ensures QuotesItsGround(i, a)
  {
    OffersQuote(i, exact, negatives, noInstaller, a);
    HasMeans(i, ExactOffer);
    YieldMeans(i);
    hide WeighOffers, OfClass, QuotesFirst, CanYield, Contradicted;
    if a.state == Conflict { FirstIsQuoted(i, a, ExactOffer); }
  }

  lemma AssessmentsQuoteTheirGround(i: Input)
    ensures QuotesItsGround(i, Reconcile(i))
  {
    var a, m, exact, inexact := Reconcile(i), Matching(i.observations, i), OfClass(i.observations, i, ExactOffer),
        OfClass(i.observations, i, InexactOffer);
    var negatives, noInstaller, pending := OfClass(i.observations, i, Negative),
        OfClass(i.observations, i, NoInstaller), OfClass(i.observations, i, PendingClass);
    assert (a.state == Unknown && SaysNothing(a)) || a == Weigh(i, m, exact, inexact, negatives, noInstaller, pending)
    by {
      hide Weigh, OfClass, Matching;
    }
    WeighQuotes(i, m, exact, inexact, negatives, noInstaller, pending);
    hide Reconcile, Weigh, WeighOffers, WeighRest, OfClass, Matching;
    if a.state == Unknown && SaysNothing(a) {
    } else if exact != [] {
      ConflictQuotes(i, exact, negatives, noInstaller, a);
    } else {
      ClassesQuote(i, exact, inexact, negatives, noInstaller, pending, a);
    }
  }

  /** Evidence is filed under its provider's ID, or else its backend, or else its name. */
  lemma FiledUnder(p: Provider)
    ensures p.id != "" ==> ProviderKey(p) == p.id
    ensures p.id == "" && p.backend != "" ==> ProviderKey(p) == p.backend
    ensures p.id == "" && p.backend == "" && p.name != "" ==> ProviderKey(p) == p.name
    ensures p.id == "" && p.backend == "" && p.name == "" ==> ProviderKey(p) == "unknown"
  {
  }

  // ---------------------------------------------------------------- the two verdicts, spelt out

  /** The scan is the user's, has begun, and has an ID. */
  predicate Begun(scan: Scan, id: Identity) {
    id.userSid != "" && id.pfn != "" && scan.userSid == id.userSid && scan.scanId != "" && scan.startedAt.Some?
  }

  /** Current means that the scan is over and that every single observation of the package
      in it is a healthy authoritative negative. */
  lemma CurrentMeansOnlyNegatives(i: Input)
    requires Reconcile(i).state == Current
    ensures Begun(i.scan, i.identity) && i.scan.status == ScanCompleted && i.scan.completedAt.Some?
    ensures forall o | o in i.observations && o.identity == i.identity && o.scanId == i.scan.scanId ::
              o.health == Healthy && o.kind == AuthoritativeNegative
    ensures exists o | o in i.observations :: o.identity == i.identity && o.scanId == i.scan.scanId
  {
    CurrentExactlyWhen(i);
    var e := Members(i.observations);
    hide Reconcile;
    forall o | o in i.observations && o.identity == i.identity && o.scanId == i.scan.scanId
      ensures o.health == Healthy && o.kind == AuthoritativeNegative
    {
      assert o in e && o.Matches(i.identity, i.scan);
      var c := Classify(o, i.identity, i.scan);
      assert c != ExactOffer && c != InexactOffer && c != NoInstaller && c != PendingClass;
    }
  }

  /** What a product ID of the Store looks like: seven to thirty-two capitals and digits,
      at least one digit among them. */
  predicate StoreId(v: string) {
    7 <= |v| <= 32 && (forall c | c in v :: 'A' <= c <= 'Z' || '0' <= c <= '9') && exists c | c in v :: '0' <= c <= '9'
  }

  lemma StoreIdsLookLike(v: string)
    ensures LooksLikeProductId(v) <==> StoreId(Trim(v))
  {
    var t := Trim(v);
    if i :| 0 <= i < |t| && '0' <= t[i] <= '9' { assert t[i] in t; }
    if StoreId(t) {
      forall i | 0 <= i < |t| ensures IsProductIdChar(t[i]) { assert t[i] in t; }
      var c :| c in t && '0' <= c <= '9';
      var i :| 0 <= i < |t| && t[i] == c;
    }
    hide Trim;
  }

  /** Available means that there is a verified, dated target for this very package with an
      ID to execute, and that a product ID it names is one the Store could have given. */
  lemma AvailableMeansExecutable(i: Input)
    requires Reconcile(i).state == Available
    ensures Begun(i.scan, i.identity)
    ensures var t := Reconcile(i).target;
      && t.Some? && t.value.identity == i.identity && t.value.verified && t.value.verifiedAt.Some?
      && (Trim(t.value.productId) != "" || Trim(t.value.updateId) != "")
      && (Trim(t.value.productId) != "" ==> StoreId(Trim(t.value.productId)))
  {
    AvailableTargetIsExact(i);
    AvailableExactlyWhen(i);
    var t := Reconcile(i).target.value;
    StoreIdsLookLike(Trim(t.productId));
    TrimIdem(t.productId);
    hide Reconcile, Trim, StoreId, LooksLikeProductId;
  }
}
