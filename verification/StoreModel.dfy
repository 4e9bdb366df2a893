/** Microsoft Store evidence: identities, observations, assessments, snapshots. */
module StoreModel {
  import opened Wrappers
  import opened Text

  /** A package of one user; display names never identify anything. */
  datatype Identity = Identity(userSid: string, pfn: string) {
    predicate Resolved() { userSid != "" && pfn != "" }
  }

  datatype Provider = Provider(id: string, name: string, backend: string) {
    function Key(): string { if id != "" then id else if backend != "" then backend else name }
  }

  const INVENTORY_PROVIDER := "store-current-user-inventory"
  const CLI_EXACT := "store-cli-exact"
  const CLI_UPDATES := "store-cli-updates"
  const WINGET_EXACT := "winget-msstore-exact"
  const WINRT_DISCOVERY := "store-winrt-discovery"
  const MAPPING_REUSE := "store-mapping-reuse"

  /** The key under which reconciliation files a provider's evidence. */
  function ProviderKey(p: Provider): string { if p.Key() != "" then p.Key() else "unknown" }

  datatype Health = NoHealth | Healthy | FailedHealth | IncompleteHealth | UnsupportedHealth | StaleHealth

  datatype Kind =
    | PositiveOffer | AuthoritativeNegative | ProviderFailure | IncompleteResult | UnsupportedProvider
    | StaleResult | NoApplicableInstaller | PendingUpdate | EmptyResult

  datatype ScanStatus = ScanPending | ScanRunning | ScanCompleted | ScanIncomplete | ScanFailed

  /** Times are nanoseconds; None is the zero time. */
  datatype Scan = Scan(scanId: string, userSid: string, startedAt: Option<nat>, completedAt: Option<nat>,
                       status: ScanStatus) {
    predicate UsableFor(id: Identity) { scanId != "" && userSid == id.userSid && startedAt.Some? }
    predicate CompleteFor(id: Identity) { UsableFor(id) && status == ScanCompleted && completedAt.Some? }
  }

  predicate IsProductIdChar(c: char) { 'A' <= c <= 'Z' || '0' <= c <= '9' }

  predicate LooksLikeProductId(value: string) {
    var v := Trim(value);
    7 <= |v| <= 32 && (forall i | 0 <= i < |v| :: IsProductIdChar(v[i])) && exists i | 0 <= i < |v| ::
        '0' <= v[i] <= '9'
  }

  datatype Target = Target(identity: Identity, provider: Provider, productId: string, updateId: string,
                           verified: bool, verifiedBy: string, verifiedAt: Option<nat>) {
    predicate ExactFor(id: Identity) {
      && verified && identity == id
      && (Trim(productId) == "" || LooksLikeProductId(Trim(productId)))
      && (Trim(productId) != "" || Trim(updateId) != "")
      && verifiedAt.Some?
    }
  }

  datatype Observation = Observation(provider: Provider, health: Health, kind: Kind, identity: Identity, scanId: string,
                                     observedAt: Option<nat>, installedVersion: string, availableVersion: string,
                                     target: Option<Target>) {
    predicate Matches(id: Identity, scan: Scan) { scanId == scan.scanId && identity == id }
    predicate Exact(id: Identity) { target.Some? && target.value.ExactFor(id) }
  }

  /** What must not have changed about a package for a mapping to be trusted again. */
  datatype Fingerprint = Fingerprint(identityName: string, publisherId: string, architecture: string)

  datatype Mapping = Mapping(identity: Identity, productId: string, provider: Provider, scanId: string,
                             verifiedAt: Option<nat>,
                             mark: Fingerprint, productLike: bool, version: string) {
    predicate VerifiedFor(id: Identity, scan: Scan) {
      productId != "" && LooksLikeProductId(productId) && scanId == scan.scanId && identity == id && verifiedAt.Some?
    }
  }

  datatype ProviderRun = ProviderRun(provider: Provider, completedAt: Option<nat>, health: Health,
                                     observations: seq<Observation>, mappings: seq<Mapping>, version: string,
                                         hint: bool)

  datatype Family = Family(identity: Identity, productLike: bool, version: string, fullName: string, mark: Fingerprint)

  datatype UpdateState = Unknown | Current | Available | Conflict | Inapplicable | Pending

  /** Why an assessment has its state; shown, never decided on. */
  datatype Reason =
    | IdentityUnresolved | WrongUser | ScanContextIncomplete | NoEvidence | ProvidersDisagree | OffersDisagree
    | ExactPositive | InexactPositive | RequiredSilent | RequiredBlocked | ProviderBlocked | UpdatePending
    | NoInstallerApplies | ScanIncompleteReason | AllNegative | NotAuthoritative
    | ProductMappingConflict | RetainedPrevious

  datatype Assessment = Assessment(state: UpdateState, identity: Identity, scanId: string, reason: Reason,
                                   installedVersion: string, availableVersion: string, target: Option<Target>)

  datatype Published = Published(a: Assessment, observedAt: Option<nat>, stale: bool, productId: string,
                                 updateId: string,
                                 exact: bool, applicability: string)

  datatype Snapshot = Snapshot(published: bool, recovered: bool, scan: Scan, families: seq<Family>,
                               runs: seq<ProviderRun>, rows: seq<Published>)

  predicate Blocks(o: Observation) {
    || o.health != Healthy
    || o.kind == ProviderFailure || o.kind == IncompleteResult || o.kind == UnsupportedProvider
    || o.kind == StaleResult || o.kind == EmptyResult
  }

  function Concat<T>(parts: seq<seq<T>>): seq<T> {
    if parts == [] then [] else parts[0] + Concat(parts[1..])
  }

  lemma SubsetSize<T>(a: set<T>, b: set<T>)
    requires a <= b
    ensures |a| <= |b|
  {
    assert b == a + (b - a);
  }
}
