/** How the evidence of one scan generation becomes one assessment. */
module StoreReconcile {
  import opened Wrappers
  import opened Text
  import opened StoreModel

  datatype Input = Input(identity: Identity, scan: Scan, required: seq<Provider>, observations: seq<Observation>)

  /** What an observation says about an identity in a scan. */
  datatype Class = Foreign | Mute | ExactOffer | InexactOffer | Negative | NoInstaller | PendingClass

  function Classify(o: Observation, id: Identity, scan: Scan): Class {
    if !o.Matches(id, scan) then Foreign
    else if o.health != Healthy then Mute
    else match o.kind
      case PositiveOffer => if o.Exact(id) then ExactOffer else InexactOffer
      case AuthoritativeNegative => Negative
      case NoApplicableInstaller => NoInstaller
      case PendingUpdate => PendingClass
      case _ => Mute
  }

  function OfClass(obs: seq<Observation>, i: Input, c: Class): (found: seq<Observation>)
    ensures c == ExactOffer ==> Targeted(found)
  {
    if obs == [] then []
    else
      OfClass(obs[..|obs| - 1], i, c)
      + (if Classify(obs[|obs| - 1], i.identity, i.scan) == c then [obs[|obs| - 1]] else [])
  }

  function Matching(obs: seq<Observation>, i: Input): seq<Observation> {
    if obs == [] then []
    else Matching(obs[..|obs| - 1], i) + (if obs[|obs| - 1].Matches(i.identity, i.scan) then [obs[|obs| - 1]] else [])
  }

  function RequiredKeys(required: seq<Provider>): set<string> {
    set p | p in required && p.Key() != "" :: p.Key()
  }

  predicate KnownFalseNegative(key: string) { key == CLI_UPDATES || key == CLI_EXACT || key == WINGET_EXACT }
  predicate ExactCatalog(key: string) { key == CLI_EXACT || key == WINGET_EXACT || key == WINRT_DISCOVERY }

  predicate CatalogOffer(o: Observation) {
    && o.Exact(o.identity)
    && (ExactCatalog(o.provider.Key()) || ExactCatalog(o.target.value.provider.Key()))
  }

  predicate CanYield(offers: seq<Observation>, negatives: seq<Observation>) {
    || negatives == []
    || ((exists o | o in offers :: CatalogOffer(o)) && forall n | n in negatives ::
        KnownFalseNegative(n.provider.Key()))
  }

  // ---------------------------------------------------------------- consensus of exact offers

  function ProductKey(o: Observation): string requires o.target.Some? { Lower(Trim(o.target.value.productId)) }
  function UpdateKey(o: Observation): string requires o.target.Some? { Lower(Trim(o.target.value.updateId)) }
  function VersionKey(o: Observation): string { Lower(Trim(o.availableVersion)) }

  predicate Targeted(offers: seq<Observation>) { forall o | o in offers :: o.target.Some? }

  function ProductKeys(offers: set<Observation>): set<string>
    requires forall o | o in offers :: o.target.Some?
  {
    set o | o in offers && ProductKey(o) != "" :: ProductKey(o)
  }

  function UpdateKeys(offers: set<Observation>): set<string>
    requires forall o | o in offers :: o.target.Some?
  {
    set o | o in offers && UpdateKey(o) != "" :: UpdateKey(o)
  }

  function VersionKeys(offers: set<Observation>): set<string> {
    set o | o in offers && VersionKey(o) != "" :: VersionKey(o)
  }

  function Members<T>(s: seq<T>): set<T> { set x | x in s }

  /** More than one update ID is a conflict unless just one differs from the family name. */
  predicate UpdateIdsConflict(pfn: string, keys: set<string>) {
    && |keys| > 1
    && (var family := Lower(Trim(pfn));
        family == "" || |keys - {family}| > 1 || |keys - {family}| == |keys|)
  }

  predicate Agree(id: Identity, offers: set<Observation>)
    requires forall o | o in offers :: o.target.Some?
  {
    && |ProductKeys(offers)| <= 1
    && !UpdateIdsConflict(id.pfn, UpdateKeys(offers))
    && |VersionKeys(offers)| <= 1
  }

  predicate LexLess(a: string, b: string) {
    b != "" && (a == "" || a[0] < b[0] || (a[0] == b[0] && LexLess(a[1..], b[1..])))
  }

  function SortKey(o: Observation): string
    requires o.target.Some?
  {
    var t := o.target.value;
    Lower(ProviderKey(t.provider) + "|" + Trim(t.provider.backend) + "|" + Trim(t.productId) + "|"
          + Trim(t.updateId) + "|" + Trim(o.availableVersion))
  }

  /** Stable insertion by sort key: later arrivals go after equal keys. */
  function InsertOffer(sorted: seq<Observation>, o: Observation): seq<Observation>
    requires Targeted(sorted) && o.target.Some?
    ensures forall x :: x in InsertOffer(sorted, o) <==> x in sorted || x == o
  {
    if sorted == [] then [o]
    else if LexLess(SortKey(o), SortKey(sorted[0])) then [o] + sorted
    else [sorted[0]] + InsertOffer(sorted[1..], o)
  }

  function SortOffers(offers: seq<Observation>): seq<Observation>
    requires Targeted(offers)
    ensures forall x :: x in SortOffers(offers) <==> x in offers
  {
    if offers == [] then []
    else
      var last := |offers| - 1;
      assert offers == offers[..last] + [offers[last]];
      InsertOffer(SortOffers(offers[..last]), offers[last])
  }

  /** The last update ID, in sorted order, filed under a key. */
  function LastUpdateId(sorted: seq<Observation>, key: string): string
    requires Targeted(sorted)
  {
    if sorted == [] then ""
    else
      var last := |sorted| - 1;
      if UpdateKey(sorted[last]) == key then Trim(sorted[last].target.value.updateId)
          else LastUpdateId(sorted[..last], key)
  }

  function LastProductId(sorted: seq<Observation>): string
    requires Targeted(sorted)
  {
    if sorted == [] then ""
    else
      var last := |sorted| - 1;
      if ProductKey(sorted[last]) != "" then Trim(sorted[last].target.value.productId)
          else LastProductId(sorted[..last])
  }

  function LastVersion(sorted: seq<Observation>): string {
    if sorted == [] then ""
    else
      var last := |sorted| - 1;
      if VersionKey(sorted[last]) != "" then Trim(sorted[last].availableVersion) else LastVersion(sorted[..last])
  }

  function LeastKey(keys: set<string>, sorted: seq<Observation>): string
    requires Targeted(sorted)
  {
    if sorted == [] then ""
    else
      var rest := LeastKey(keys, sorted[1..]);
      var key := UpdateKey(sorted[0]);
      if key in keys && (rest == "" || LexLess(key, rest)) then key else rest
  }

  function PreferredUpdateId(id: Identity, sorted: seq<Observation>): string
    requires Targeted(sorted)
  {
    var keys, family := UpdateKeys(Members(sorted)), Lower(Trim(id.pfn));
    if keys == {} then ""
    else if family in keys then LastUpdateId(sorted, family)
    else LastUpdateId(sorted, LeastKey(keys, sorted))
  }

  /** The offer the agreeing providers make together. */
  function Consensus(id: Identity, offers: seq<Observation>): (Target, Observation)
    requires offers != [] && Targeted(offers)
  {
    var sorted := SortOffers(offers);
    assert offers[0] in sorted;
    var t := sorted[0].target.value;
    (t.(productId := LastProductId(sorted), updateId := PreferredUpdateId(id, sorted),
        verifiedBy := Trim(t.verifiedBy)), sorted[0])
  }

  // ---------------------------------------------------------------- the decision

  function Undecided(i: Input, reason: Reason): Assessment {
    Assessment(Unknown, i.identity, i.scan.scanId, reason, "", "", None)
  }

  function DecideOn(i: Input, state: UpdateState, o: Observation, reason: Reason): Assessment {
    Assessment(state, i.identity, i.scan.scanId, reason, o.installedVersion, o.availableVersion, o.target)
  }

  function FirstBlocking(m: seq<Observation>): Option<Observation> {
    if m == [] then None
    else
      var earlier := FirstBlocking(m[..|m| - 1]);
      if earlier.None? && Blocks(m[|m| - 1]) then Some(m[|m| - 1]) else earlier
  }

  function Keys(obs: seq<Observation>): set<string> { set o | o in obs :: ProviderKey(o.provider) }

  lemma OfClassMembers(obs: seq<Observation>, i: Input, c: Class)
    ensures forall o :: o in OfClass(obs, i, c) <==> o in obs && Classify(o, i.identity, i.scan) == c
  {
    if obs != [] { assert obs == obs[..|obs| - 1] + [obs[|obs| - 1]]; }
  }

  lemma MatchingMembers(obs: seq<Observation>, i: Input)
    ensures forall o :: o in Matching(obs, i) <==> o in obs && o.Matches(i.identity, i.scan)
  {
    if obs != [] { assert obs == obs[..|obs| - 1] + [obs[|obs| - 1]]; }
  }

  function Reconcile(i: Input): Assessment {
    if !i.identity.Resolved() then Undecided(i, IdentityUnresolved)
    else if i.scan.userSid != i.identity.userSid then Undecided(i, WrongUser)
    else if !i.scan.UsableFor(i.identity) then Undecided(i, ScanContextIncomplete)
    else Weigh(i, Matching(i.observations, i), OfClass(i.observations, i, ExactOffer),
               OfClass(i.observations, i, InexactOffer),
               OfClass(i.observations, i, Negative), OfClass(i.observations, i, NoInstaller),
                   OfClass(i.observations, i, PendingClass))
  }

  /** The order in which the classes of evidence count. */
  function Weigh(i: Input, m: seq<Observation>, exact: seq<Observation>, inexact: seq<Observation>,
                 negatives: seq<Observation>,
                 noInstaller: seq<Observation>, pending: seq<Observation>): Assessment
    requires Targeted(exact)
  {
    if m == [] then Undecided(i, NoEvidence)
    else if exact != [] then WeighOffers(i, exact, negatives, noInstaller)
    else WeighRest(i, m, inexact, negatives, noInstaller, pending)
  }

  function WeighOffers(i: Input, exact: seq<Observation>, negatives: seq<Observation>,
                       noInstaller: seq<Observation>): Assessment
    requires exact != [] && Targeted(exact)
  {
    if noInstaller != [] || !CanYield(exact, negatives) then DecideOn(i, Conflict, exact[0], ProvidersDisagree)
    else if !Agree(i.identity, Members(exact)) then
      DecideOn(i, Conflict, exact[0], OffersDisagree).(target := None)
    else Agreed(i, exact)
  }

  function Agreed(i: Input, exact: seq<Observation>): Assessment
    requires exact != [] && Targeted(exact)
  {
    var (target, canonical) := Consensus(i.identity, exact);
    DecideOn(i, Available, canonical, ExactPositive)
      .(target := Some(target), availableVersion := LastVersion(SortOffers(exact)))
  }

  function WeighRest(i: Input, m: seq<Observation>, inexact: seq<Observation>, negatives: seq<Observation>,
                     noInstaller: seq<Observation>, pending: seq<Observation>): Assessment
  {
    var required := RequiredKeys(i.required);
    var blocking := FirstBlocking(m);
    if inexact != [] then DecideOn(i, Unknown, inexact[0], InexactPositive)
    else if !(required <= Keys(m)) then Undecided(i, RequiredSilent)
    else if exists o | o in m :: Blocks(o) && ProviderKey(o.provider) in required then
      Undecided(i, RequiredBlocked)
    else if blocking.Some? then DecideOn(i, Unknown, blocking.value, ProviderBlocked)
    else if pending != [] then DecideOn(i, Pending, pending[0], UpdatePending)
    else if noInstaller != [] then DecideOn(i, Inapplicable, noInstaller[0], NoInstallerApplies)
    else if !i.scan.CompleteFor(i.identity) then Undecided(i, ScanIncompleteReason)
    else if required != {} && required <= Keys(negatives) && negatives != [] then
      DecideOn(i, Current, negatives[0], AllNegative)
    else Undecided(i, NotAuthoritative)
  }

  lemma OneMore(i: Input, n: nat)
    requires n < |i.observations|
    ensures var obs, o := i.observations, i.observations[n];
      && Matching(obs[..n + 1], i) == Matching(obs[..n], i) + (if o.Matches(i.identity, i.scan) then [o] else [])
      && forall c :: OfClass(obs[..n + 1], i, c) == OfClass(obs[..n], i, c)
            + (if Classify(o, i.identity, i.scan) == c then [o] else [])
  {
    assert i.observations[..n + 1][..n] == i.observations[..n];
  }

  /** One pass over the observations, then the decision. */
  method ReconcileStoreUpdate(i: Input) returns (a: Assessment)
    ensures a == Reconcile(i)
  {
    if !i.identity.Resolved() { return Undecided(i, IdentityUnresolved); }
    if i.scan.userSid != i.identity.userSid { return Undecided(i, WrongUser); }
    if !i.scan.UsableFor(i.identity) { return Undecided(i, ScanContextIncomplete); }
    var m, exact, inexact, negatives, noInstaller, pending := [], [], [], [], [], [];
    for n := 0 to |i.observations|
      invariant m == Matching(i.observations[..n], i)
      invariant exact == OfClass(i.observations[..n], i, ExactOffer)
      invariant inexact == OfClass(i.observations[..n], i, InexactOffer)
      invariant negatives == OfClass(i.observations[..n], i, Negative)
      invariant noInstaller == OfClass(i.observations[..n], i, NoInstaller)
      invariant pending == OfClass(i.observations[..n], i, PendingClass)
    {
      var o := i.observations[n];
      OneMore(i, n);
      if !o.Matches(i.identity, i.scan) { continue; }
      m := m + [o];
      if o.health != Healthy { continue; }
      match o.kind {
        case PositiveOffer => if o.Exact(i.identity) { exact := exact + [o]; } else { inexact := inexact + [o]; }
        case AuthoritativeNegative => negatives := negatives + [o];
        case NoApplicableInstaller => noInstaller := noInstaller + [o];
        case PendingUpdate => pending := pending + [o];
        case _ =>
      }
    }
    assert i.observations[..|i.observations|] == i.observations;
    a := Weigh(i, m, exact, inexact, negatives, noInstaller, pending);
  }
}
