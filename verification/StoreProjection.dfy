/** Published Store rows laid over the package inventory, and what they authorise. */
module StoreProjection {
  import opened Wrappers
  import opened Text
  import opened StoreModel

  // ---------------------------------------------------------------- freshness

  /** Two hours. */
  const FRESHNESS_WINDOW: nat := 7_200_000_000_000

  /** Evidence from the future counts as new. */
  predicate Recent(at: Option<nat>, now: nat) { at.Some? && now - at.value <= FRESHNESS_WINDOW }

  predicate VersionKnown(version: string) { Trim(version) != "" && !EqualFold(Trim(version), "unknown") }

  predicate Fresh(s: Snapshot, row: Published, installed: string, now: nat) {
    && s.published && !s.recovered && !row.stale
    && Recent(s.scan.completedAt, now) && Recent(row.observedAt, now)
    && VersionKnown(installed) && VersionKnown(row.a.installedVersion)
    && EqualFold(Trim(installed), Trim(row.a.installedVersion))
  }

  method EvaluateFreshness(s: Snapshot, row: Published, installed: string, now: nat) returns (isFresh: bool)
    ensures isFresh == Fresh(s, row, installed, now)
  {
    if !s.published || s.recovered || row.stale { return false; }
    if s.scan.completedAt.None? { return false; }
    var age := now - s.scan.completedAt.value;
    if age < 0 { age := 0; }
    if age > FRESHNESS_WINDOW { return false; }
    if row.observedAt.None? { return false; }
    age := now - row.observedAt.value;
    if age < 0 { age := 0; }
    if age > FRESHNESS_WINDOW { return false; }
    var current, assessed := Trim(installed), Trim(row.a.installedVersion);
    return VersionKnown(installed) && VersionKnown(row.a.installedVersion) && EqualFold(current, assessed);
  }

  /** A row that is not fresh stays visible but loses its executable target. */
  function Projected(s: Snapshot, row: Published, installed: string, now: nat): Published {
    if Fresh(s, row, installed, now) then row else row.(stale := true, exact := false)
  }

  // ---------------------------------------------------------------- packages and their policy

  datatype Source = NativeAppX | AppX | OtherSource
  datatype Backend = AppXInventory | StoreCli | OtherBackend
  datatype TargetKind = NoTarget | ProductId | UpdateId | ProductAndUpdate

  /** Why a package cannot be updated now. */
  datatype Bar =
    | NoBar | NoUpdate | Unsupported | VersionUnknown | IsPinned | IdentityInexact
    | StateIs(state: UpdateState) | NeedsFreshAssessment | NeedsExactTarget | NoExecutor

  datatype Package = Package(
    store: bool, id: string, version: string, source: Source, matchText: string, backend: Backend,
    unknownVersion: bool, pinned: bool, updateSupported: bool, updateAvailable: bool, availableVersion: string,
    installedPfn: string, updateState: Option<UpdateState>, stale: bool, scanId: string, exact: bool,
    productId: string, updateId: string, installedVersion: string, offeredVersion: string,
    eligible: bool, canUpdateNow: bool, bar: Bar, kind: TargetKind)

  function Count(s: string, c: char): nat { if s == "" then 0 else (if s[0] == c then 1 else 0) + Count(s[1..], c) }

  predicate LooksLikePfn(value: string) {
    var v := Trim(value);
    && v != "" && ' ' !in v && '/' !in v && '\\' !in v && Count(v, '_') <= 1
    && if '_' in v then v[0] != '_' && v[|v| - 1] != '_' else '.' in v
  }

  /** The package family name a Store package is installed under, if it can be told. */
  function InstalledPfn(p: Package): string {
    if Trim(p.installedPfn) != "" then Trim(p.installedPfn)
    else if p.source == NativeAppX then Trim(p.id)
    else if (p.source == AppX || p.backend == AppXInventory) && Trim(p.matchText) != "" then Trim(p.matchText)
    else if LooksLikePfn(p.id) then Trim(p.id)
    else if LooksLikePfn(p.matchText) then Trim(p.matchText)
    else ""
  }

  function KindOf(productId: string, updateId: string): TargetKind {
    if Trim(productId) != "" then if Trim(updateId) != "" then ProductAndUpdate else ProductId
    else if Trim(updateId) != "" then UpdateId else NoTarget
  }

  /** A Store package has a preference key exactly when its family name is known. */
  predicate Eligible(p: Package) { if p.store then InstalledPfn(p) != "" else p.updateSupported }

  /** The first thing that stands in the way of updating the package. */
  function BarOf(p: Package, allowUnknown: bool, allowPinned: bool): Bar {
    if !p.store then
      if !p.updateAvailable then NoUpdate
      else if !p.updateSupported then Unsupported
      else OverrideBar(p, allowUnknown, allowPinned)
    else if !Eligible(p) then IdentityInexact
    else if p.updateState != Some(Available) then StateIs(if p.updateState.None? then Unknown else p.updateState.value)
    else if p.stale then NeedsFreshAssessment
    else if !p.exact || KindOf(p.productId, p.updateId) == NoTarget then NeedsExactTarget
    else if !p.updateSupported then NoExecutor
    else OverrideBar(p, allowUnknown, allowPinned)
  }

  function OverrideBar(p: Package, allowUnknown: bool, allowPinned: bool): Bar {
    if p.unknownVersion && !allowUnknown then VersionUnknown
    else if p.pinned && !allowPinned then IsPinned
    else NoBar
  }

  function WithCapabilities(p: Package): Package {
    var bar := BarOf(p, false, false);
    p.(eligible := Eligible(p), canUpdateNow := bar == NoBar, bar := bar, kind := KindOf(p.productId, p.updateId))
  }

  // ---------------------------------------------------------------- one row over one package

  predicate OffersUpdate(row: Published) { row.a.state == Available && !row.stale && row.exact }

  function Overlaid(p: Package, row: Published): Package {
    p.(updateState := Some(row.a.state), stale := row.stale, scanId := row.a.scanId, exact := row.exact,
       installedPfn := row.a.identity.pfn, productId := row.productId, updateId := row.updateId,
       installedVersion := FirstNonEmpty(row.a.installedVersion, p.version), offeredVersion := row.a.availableVersion,
       updateAvailable := OffersUpdate(row),
       availableVersion := if OffersUpdate(row) || row.a.state == Pending then row.a.availableVersion else "",
       updateSupported := OffersUpdate(row) || (p.updateSupported && !row.stale),
       backend := if (row.productId != "" || row.updateId != "") && row.exact then StoreCli else p.backend)
  }

  function Applied(p: Package, row: Published): Package { WithCapabilities(Overlaid(p, row)) }

  function NewPackage(row: Published, families: map<string, Family>): Package {
    var key := RowKey(row);
    var known := key in families && families[key].identity.pfn != "";
    var version := if known then FirstNonEmpty(row.a.installedVersion, families[key].version)
        else row.a.installedVersion;
    var pfn := row.a.identity.pfn;
    Package(true, pfn, version, NativeAppX,
            FirstNonEmpty(if key in families then families[key].fullName else "", pfn), AppXInventory,
            false, false, row.exact, false, "", pfn, None, false, "", row.exact, "", "", "", "",
            false, false, NoBar, NoTarget)
  }

  // ---------------------------------------------------------------- the whole inventory

  function RowKey(row: Published): string { Lower(Trim(row.a.identity.pfn)) }

  datatype Projection = Projection(packages: seq<Package>, byPfn: map<string, nat>)

  /** Store packages by family name; the last of several wins. */
  function Index(packages: seq<Package>): (byPfn: map<string, nat>)
    ensures forall key | key in byPfn :: byPfn[key] < |packages|
  {
    if packages == [] then map[]
    else
      var n := |packages| - 1;
      var earlier := Index(packages[..n]);
      if packages[n].store && InstalledPfn(packages[n]) != "" then earlier[Lower(InstalledPfn(packages[n])) := n]
          else earlier
  }

  ghost predicate Indexed(st: Projection) { forall key | key in st.byPfn :: st.byPfn[key] < |st.packages| }

  function ApplyRow(st: Projection, s: Snapshot, row: Published, families: map<string, Family>,
                    now: nat): (next: Projection)
    requires Indexed(st)
    ensures Indexed(next)
  {
    var key := RowKey(row);
    if Trim(row.a.identity.pfn) == "" then st
    else if key !in st.byPfn then
      var projected := Projected(s, row, "", now);
      Projection(st.packages + [Applied(NewPackage(projected, families), projected)], st.byPfn[key := |st.packages|])
    else
      var k := st.byPfn[key];
      st.(packages := st.packages[k := Applied(st.packages[k], Projected(s, row, st.packages[k].version, now))])
  }

  function ApplyRows(st: Projection, s: Snapshot, rows: seq<Published>, families: map<string, Family>,
                     now: nat): (next: Projection)
    requires Indexed(st)
    ensures Indexed(next)
  {
    if rows == [] then st
    else ApplyRow(ApplyRows(st, s, rows[..|rows| - 1], families, now), s, rows[|rows| - 1], families, now)
  }

  function Project(packages: seq<Package>, s: Snapshot, families: map<string, Family>, now: nat): seq<Package> {
    ApplyRows(Projection(packages, Index(packages)), s, s.rows, families, now).packages
  }

  /** The two passes over the inventory and the rows. */
  method ApplyPublishedAssessments(inventory: seq<Package>, s: Snapshot, families: map<string, Family>, now: nat)
    returns (packages: seq<Package>)
    ensures packages == Project(inventory, s, families, now)
  {
    packages := inventory;
    var byPfn: map<string, nat> := map[];
    for n := 0 to |inventory|
      invariant byPfn == Index(inventory[..n])
    {
      assert inventory[..n + 1][..n] == inventory[..n];
      if !inventory[n].store { continue; }
      var pfn := Lower(InstalledPfn(inventory[n]));
      LowerEmpty(InstalledPfn(inventory[n]));
      if pfn != "" { byPfn := byPfn[pfn := n]; }
    }
    assert inventory[..|inventory|] == inventory;
    ghost var start := Projection(inventory, byPfn);
    for n := 0 to |s.rows|
      invariant Indexed(Projection(packages, byPfn))
      invariant Projection(packages, byPfn) == ApplyRows(start, s, s.rows[..n], families, now)
    {
      assert s.rows[..n + 1][..n] == s.rows[..n];
      var row := s.rows[n];
      if Trim(row.a.identity.pfn) == "" { continue; }
      var key := RowKey(row);
      if key !in byPfn {
        row := Projected(s, row, "", now);
        var added := Applied(NewPackage(row, families), row);
        packages, byPfn := packages + [added], byPfn[key := |packages|];
        continue;
      }
      var k := byPfn[key];
      row := Projected(s, row, packages[k].version, now);
      packages := packages[k := Applied(packages[k], row)];
    }
    assert s.rows[..|s.rows|] == s.rows;
  }
}

/** Who may be updated after projection. */
module StoreAuthorisation {
  import opened Wrappers
  import opened Text
  import opened StoreModel
  import opened StoreProjection

  /** The row is an executable, current offer for this installed package. */
  predicate Authorises(s: Snapshot, row: Published, p: Package, now: nat) {
    && row.a.state == Available && row.exact && KindOf(row.productId, row.updateId) != NoTarget
    && Fresh(s, row, p.version, now)
    && !p.unknownVersion && !p.pinned
  }

  lemma {:induction false} CountConcat(a: string, b: string, c: char)
    ensures Count(a + b, c) == Count(a, c) + Count(b, c)
  {
    if a == "" {
      assert a + b == b;
    } else {
      CountConcat(a[1..], b, c);
      assert (a + b)[1..] == a[1..] + b;
    }
  }

  lemma {:induction false} CountedAtAll(s: string, c: char)
    ensures Count(s, c) == 0 <==> c !in s
  {
    if s != "" {
      CountedAtAll(s[1..], c);
      assert s == [s[0]] + s[1..];
    }
  }

  lemma CountAround(s: string, i: nat, c: char)
    requires i < |s| && s[i] == c
    ensures Count(s, c) == Count(s[..i], c) + 1 + Count(s[i + 1..], c)
  {
    CountConcat(s[..i], s[i..], c);
    assert s == s[..i] + s[i..] && s[i..][1..] == s[i + 1..];
  }

  /** The character stands in one place alone. */
  lemma CountedOnce(s: string, c: char)
    ensures Count(s, c) == 1 <==> exists i :: 0 <= i < |s| && s[i] == c && c !in s[..i] && c !in s[i + 1..]
  {
    CountedAtAll(s, c);
    forall i | 0 <= i < |s| && s[i] == c
      ensures Count(s, c) == 1 <==> c !in s[..i] && c !in s[i + 1..]
    {
      CountAround(s, i, c);
      CountedAtAll(s[..i], c);
      CountedAtAll(s[i + 1..], c);
    }
  }

  /** A package family name, by the look of it: no space or slash, and either one
      underscore that is neither first nor last, or none and a dot. */
  lemma FamilyNamesLookLike(value: string)
    ensures var v := Trim(value);
      LooksLikePfn(value) <==>
        && v != "" && (forall c | c in {' ', '/', '\\'} :: c !in v)
        && (|| ('_' !in v && '.' in v)
            || exists i :: 0 < i < |v| - 1 && v[i] == '_' && '_' !in v[..i] && '_' !in v[i + 1..])
  {
    var v := Trim(value);
    CountedOnce(v, '_');
    CountedAtAll(v, '_');
    hide Trim, Count;
  }

  /** The family name a package is filed under is the one it was given, or else for a native
      package its ID, for one found in the AppX inventory what it matched, and for any
      other its ID or what it matched if that looks like one. */
  lemma FamilyNameComesFrom(p: Package)
    ensures var name := InstalledPfn(p); var found := p.source == AppX || p.backend == AppXInventory;
      && (Trim(p.installedPfn) != "" ==> name == Trim(p.installedPfn))
      && (Trim(p.installedPfn) == "" && p.source == NativeAppX ==> name == Trim(p.id))
      && (Trim(p.installedPfn) == "" && p.source != NativeAppX && found && Trim(p.matchText) != "" ==>
            name == Trim(p.matchText))
      && (Trim(p.installedPfn) == "" && p.source != NativeAppX && !(found && Trim(p.matchText) != "") ==>
            && (LooksLikePfn(p.id) ==> name == Trim(p.id))
            && (!LooksLikePfn(p.id) && LooksLikePfn(p.matchText) ==> name == Trim(p.matchText))
            && (!LooksLikePfn(p.id) && !LooksLikePfn(p.matchText) ==> name == ""))
  {
    hide LooksLikePfn, Trim;
  }

  /** What kind of target IDs make. */
  lemma KindsAre(productId: string, updateId: string)
    ensures KindOf(productId, updateId) in {ProductId, ProductAndUpdate} <==> Trim(productId) != ""
    ensures KindOf(productId, updateId) in {UpdateId, ProductAndUpdate} <==> Trim(updateId) != ""
    ensures KindOf(productId, updateId) == NoTarget <==> Trim(productId) == "" && Trim(updateId) == ""
  {
  }

  const TWO_HOURS := 2 * 60 * 60 * 1_000_000_000

  predicate KnownVersion(version: string) { Trim(version) != "" && Lower(Trim(version)) != "unknown" }

  /** Evidence is fresh exactly if the snapshot is published and not recovered, the row was
      assessed afresh, both are dated and at most two hours old, and the installed version is
      known and the one assessed. */
  lemma FreshExactlyWhen(s: Snapshot, row: Published, installed: string, now: nat)
    ensures Fresh(s, row, installed, now) <==>
              && s.published && !s.recovered && !row.stale
              && s.scan.completedAt.Some? && now <= s.scan.completedAt.value + TWO_HOURS
              && row.observedAt.Some? && now <= row.observedAt.value + TWO_HOURS
              && KnownVersion(installed) && Lower(Trim(installed)) == Lower(Trim(row.a.installedVersion))
  {
    LowerEmpty(Trim(installed));
    LowerEmpty(Trim(row.a.installedVersion));
    assert Lower("unknown") == "unknown";
    hide Trim, Lower;
  }

  lemma NewPackageIsInert(s: Snapshot, row: Published, families: map<string, Family>, now: nat, q: Package)
    requires q == Applied(NewPackage(Projected(s, row, "", now), families), Projected(s, row, "", now))
    ensures !q.canUpdateNow && q.store && q.stale
    ensures Shown(q, row, false, q.version)
  {
    assert !VersionKnown("");
  }

  /** The package a row brings along is the family itself: an installed Store package
      found in the AppX inventory, at the version the scan found or else the family's. */
  lemma NewPackageIsTheFamily(s: Snapshot, row: Published, families: map<string, Family>, now: nat, q: Package)
    requires q == Applied(NewPackage(Projected(s, row, "", now), families), Projected(s, row, "", now))
    ensures q.id == row.a.identity.pfn && q.source == NativeAppX && q.backend == AppXInventory
    ensures !q.unknownVersion && !q.pinned && !q.updateSupported
    ensures Trim(q.version) == Trim(if Trim(row.a.installedVersion) != "" then row.a.installedVersion
                                    else if RowKey(row) in families && families[RowKey(row)].identity.pfn != ""
                                      then families[RowKey(row)].version else "")
    ensures Trim(q.matchText) == Trim(if RowKey(row) in families && Trim(families[RowKey(row)].fullName) != ""
                                      then families[RowKey(row)].fullName else row.a.identity.pfn)
  {
    assert !VersionKnown("");
    TrimIdem(row.a.installedVersion);
    TrimIdem(row.a.identity.pfn);
    if RowKey(row) in families { TrimIdem(families[RowKey(row)].version); TrimIdem(families[RowKey(row)].fullName); }
    assert Trim("") == "";
    hide Trim, Lower, Recent, BarOf, KindOf, InstalledPfn;
  }

  /** What a package shows of the row last laid over it: state, scan and IDs always; an
      executable target and an update only while the row is fresh; the version offered as
      available only with an update or one pending. */
  predicate Shown(q: Package, row: Published, isFresh: bool, version: string) {
    && q.updateState == Some(row.a.state) && q.scanId == row.a.scanId && q.installedPfn == row.a.identity.pfn
    && q.productId == row.productId && q.updateId == row.updateId && q.offeredVersion == row.a.availableVersion
    && (q.stale <==> !isFresh) && (q.exact <==> isFresh && row.exact)
    && (q.updateAvailable <==> isFresh && row.exact && row.a.state == Available)
    && (q.updateAvailable || row.a.state == Pending ==> q.availableVersion == row.a.availableVersion)
    && (!q.updateAvailable && row.a.state != Pending ==> q.availableVersion == "")
    && (q.updateAvailable ==> q.updateSupported) && (q.stale ==> !q.updateSupported)
    && q.installedVersion == Trim(if Trim(row.a.installedVersion) == "" then version else row.a.installedVersion)
  }

  lemma OverlaidShows(s: Snapshot, row: Published, p: Package, now: nat, q: Package)
    requires q == Applied(p, Projected(s, row, p.version, now))
    ensures Shown(q, row, Fresh(s, row, p.version, now), p.version)
  {
    hide Recent, VersionKnown, BarOf, Eligible, KindOf, InstalledPfn, Trim;
  }

  /** What else laying a row over a package changes, and what it leaves alone. */
  lemma OverlayFrame(s: Snapshot, row: Published, p: Package, now: nat, q: Package)
    requires q == Applied(p, Projected(s, row, p.version, now))
    ensures q.id == p.id && q.source == p.source && q.matchText == p.matchText
    ensures q.updateSupported <==> q.updateAvailable || (p.updateSupported && !q.stale)
    ensures q.backend == if q.exact && (row.productId != "" || row.updateId != "") then StoreCli else p.backend
    ensures q.bar == BarOf(q, false, false) && q.kind == KindOf(row.productId, row.updateId)
    ensures q.eligible <==> if q.store then InstalledPfn(q) != "" else q.updateSupported
    ensures Trim(row.a.identity.pfn) != "" ==> Lower(InstalledPfn(q)) == RowKey(row)
  {
    hide Fresh, Trim, Lower, LooksLikePfn;
  }

  /** A bar names something that stands in the way, and nothing does without one. */
  lemma BarsAreObstacles(p: Package, allowUnknown: bool, allowPinned: bool)
    ensures var bar := BarOf(p, allowUnknown, allowPinned);
      match bar
      case NoBar =>
        && p.updateSupported && (p.unknownVersion ==> allowUnknown) && (p.pinned ==> allowPinned)
        && (p.store ==> InstalledPfn(p) != "" && p.updateState == Some(Available) && !p.stale && p.exact
                        && (Trim(p.productId) != "" || Trim(p.updateId) != ""))
        && (!p.store ==> p.updateAvailable)
      case NoUpdate => !p.store && !p.updateAvailable
      case Unsupported => !p.store && !p.updateSupported
      case VersionUnknown => p.unknownVersion && !allowUnknown
      case IsPinned => p.pinned && !allowPinned
      case IdentityInexact => p.store && InstalledPfn(p) == ""
      case StateIs(state) => p.store && p.updateState != Some(Available)
          && p.updateState == (if state == Unknown && p.updateState.None? then None else Some(state))
      case NeedsFreshAssessment => p.store && p.stale
      case NeedsExactTarget => p.store && (!p.exact || (Trim(p.productId) == "" && Trim(p.updateId) == ""))
      case NoExecutor => p.store && !p.updateSupported
  {
  }

  /** A projected row makes its package updatable exactly when it authorises it. */
  lemma OverlayAuthorisesExactly(s: Snapshot, row: Published, p: Package, now: nat, q: Package)
    requires p.store && Trim(row.a.identity.pfn) != "" && q == Applied(p, Projected(s, row, p.version, now))
    ensures q.canUpdateNow <==> Authorises(s, row, p, now)
    ensures q.store && q.productId == row.productId && q.updateId == row.updateId
    ensures q.version == p.version && q.unknownVersion == p.unknownVersion && q.pinned == p.pinned
  {
  }

  /** A Store package without Store evidence is never updatable. */
  lemma NoEvidenceNoUpdate(p: Package, allowUnknown: bool, allowPinned: bool)
    requires p.store && p.updateState.None?
    ensures BarOf(p, allowUnknown, allowPinned) != NoBar
  {
  }

  // ---------------------------------------------------------------- rows by family

  predicate Keyed(row: Published, key: string) { Trim(row.a.identity.pfn) != "" && RowKey(row) == key }

  function FirstRow(rows: seq<Published>, key: string): Option<Published> {
    if rows == [] then None
    else
      var earlier, last := FirstRow(rows[..|rows| - 1], key), rows[|rows| - 1];
      if earlier.None? && Keyed(last, key) then Some(last) else earlier
  }

  function LastRow(rows: seq<Published>, key: string): Option<Published> {
    if rows == [] then None
    else if Keyed(rows[|rows| - 1], key) then Some(rows[|rows| - 1])
    else LastRow(rows[..|rows| - 1], key)
  }

  function Matches(rows: seq<Published>, key: string): nat {
    if rows == [] then 0 else Matches(rows[..|rows| - 1], key) + if Keyed(rows[|rows| - 1], key) then 1 else 0
  }

  lemma RowsBy(rows: seq<Published>, row: Published, key: string)
    ensures LastRow(rows + [row], key) == if Keyed(row, key) then Some(row) else LastRow(rows, key)
    ensures FirstRow(rows + [row], key) == if Keyed(row, key) && FirstRow(rows, key).None? then Some(row)
      else FirstRow(rows, key)
    ensures Matches(rows + [row], key) == Matches(rows, key) + if Keyed(row, key) then 1 else 0
  {
    assert (rows + [row])[..|rows|] == rows;
  }

  lemma {:induction false} RowsFound(rows: seq<Published>, key: string)
    ensures FirstRow(rows, key).Some? <==> LastRow(rows, key).Some?
    ensures FirstRow(rows, key).Some? <==> Matches(rows, key) > 0
    ensures LastRow(rows, key).Some? ==> LastRow(rows, key).value in rows && Keyed(LastRow(rows, key).value, key)
    ensures Matches(rows, key) == 1 ==> FirstRow(rows, key) == LastRow(rows, key)
  {
    if rows != [] {
      RowsFound(rows[..|rows| - 1], key);
      assert rows == rows[..|rows| - 1] + [rows[|rows| - 1]];
    }
  }

  ghost predicate DistinctKeys(rows: seq<Published>) {
    forall i, j | 0 <= i < j < |rows| && Trim(rows[i].a.identity.pfn) != "" :: RowKey(rows[i]) != RowKey(rows[j])
  }

  lemma {:induction false} NoneMatch(rows: seq<Published>, key: string)
    requires forall i | 0 <= i < |rows| :: !Keyed(rows[i], key)
    ensures Matches(rows, key) == 0
  {
    if rows != [] { NoneMatch(rows[..|rows| - 1], key); }
  }

  lemma {:induction false} DistinctMatchOnce(rows: seq<Published>, key: string)
    requires DistinctKeys(rows)
    ensures Matches(rows, key) <= 1
  {
    if rows != [] {
      var earlier, last := rows[..|rows| - 1], rows[|rows| - 1];
      DistinctMatchOnce(earlier, key);
      if Keyed(last, key) {
        forall i | 0 <= i < |earlier|
          ensures !Keyed(earlier[i], key)
        {
          assert rows[i] == earlier[i] && rows[|earlier|] == last;
        }
        NoneMatch(earlier, key);
      }
    }
  }

  // ---------------------------------------------------------------- one slot of the package list

  /** The fields no row changes. */
  predicate Frame(q: Package, p: Package) {
    q.store == p.store && q.version == p.version && q.unknownVersion == p.unknownVersion && q.pinned == p.pinned
  }

  /** The package a row brings along. */
  function AddedBy(s: Snapshot, row: Published, families: map<string, Family>, now: nat): Package {
    Applied(NewPackage(Projected(s, row, "", now), families), Projected(s, row, "", now))
  }

  /** An inventory package after the rows of its family: as it was, or updatable
      exactly when the last of them authorises it, and showing that row. */
  predicate BaseSlot(q: Package, p: Package, row: Option<Published>, s: Snapshot, now: nat) {
    if row.None? then q == p
    else
      && Frame(q, p) && (q.canUpdateNow <==> Authorises(s, row.value, p, now))
      && Shown(q, row.value, Fresh(s, row.value, p.version, now), p.version)
  }

  /** An added package after the rows of its family: updatable exactly when a later row
      authorises what the first one brought along. */
  predicate AddedSlot(q: Package, rows: seq<Published>, key: string, s: Snapshot, families: map<string, Family>,
                      now: nat) {
    && FirstRow(rows, key).Some? && LastRow(rows, key).Some?
    && var p := AddedBy(s, FirstRow(rows, key).value, families, now);
       var last := LastRow(rows, key).value;
       && Frame(q, p) && (q.canUpdateNow <==> Matches(rows, key) >= 2 && Authorises(s, last, p, now))
       && Shown(q, last, Matches(rows, key) >= 2 && Fresh(s, last, p.version, now), p.version)
  }

  lemma BaseSlotStep(q: Package, p: Package, before: Option<Published>, row: Published, s: Snapshot, now: nat)
    requires BaseSlot(q, p, before, s, now) && p.store && Trim(row.a.identity.pfn) != ""
    ensures BaseSlot(Applied(q, Projected(s, row, q.version, now)), p, Some(row), s, now)
  {
    OverlayAuthorisesExactly(s, row, q, now, Applied(q, Projected(s, row, q.version, now)));
    OverlaidShows(s, row, q, now, Applied(q, Projected(s, row, q.version, now)));
    hide Applied, Projected, Shown, Fresh;
  }

  lemma AddedSlotStep(q: Package, rows: seq<Published>, key: string, row: Published, s: Snapshot,
                      families: map<string, Family>, now: nat)
    requires AddedSlot(q, rows, key, s, families, now) && Keyed(row, key)
    ensures AddedSlot(Applied(q, Projected(s, row, q.version, now)), rows + [row], key, s, families, now)
  {
    RowsBy(rows, row, key);
    RowsFound(rows, key);
    var p := AddedBy(s, FirstRow(rows, key).value, families, now);
    NewPackageIsInert(s, FirstRow(rows, key).value, families, now, p);
    OverlayAuthorisesExactly(s, row, q, now, Applied(q, Projected(s, row, q.version, now)));
    OverlaidShows(s, row, q, now, Applied(q, Projected(s, row, q.version, now)));
    hide Applied, Projected, Shown, Fresh;
  }

  lemma AddedSlotStart(rows: seq<Published>, key: string, row: Published, s: Snapshot, families: map<string, Family>,
                       now: nat)
    requires FirstRow(rows, key).None? && Keyed(row, key)
    ensures AddedSlot(AddedBy(s, row, families, now), rows + [row], key, s, families, now)
  {
    hide Applied, Projected, Shown, Fresh, NewPackage, Authorises, Keyed, FirstRow, LastRow, Matches;
    RowsBy(rows, row, key);
    RowsFound(rows, key);
    NewPackageIsInert(s, row, families, now, AddedBy(s, row, families, now));
  }

  lemma OtherSlot(q: Package, rows: seq<Published>, row: Published, key: string, s: Snapshot,
                  families: map<string, Family>, now: nat)
    requires !Keyed(row, key) && AddedSlot(q, rows, key, s, families, now)
    ensures AddedSlot(q, rows + [row], key, s, families, now)
  {
    RowsBy(rows, row, key);
  }

  // ---------------------------------------------------------------- the whole list

  predicate OneKeyEach(index: map<string, nat>) {
    forall a, b | a in index && b in index && index[a] == index[b] :: a == b
  }

  /** The inventory's entries keep their places; each family the inventory lacks has
      one place after them once a row has named it. */
  ghost predicate Filed(base: seq<Package>, st: Projection, rows: seq<Published>, index: map<string, nat>) {
    && Indexed(st) && OneKeyEach(st.byPfn) && |base| <= |st.packages|
    && (forall key | key in index :: index[key] < |base| && key in st.byPfn && st.byPfn[key] == index[key])
    && (forall key | key !in index :: key in st.byPfn <==> FirstRow(rows, key).Some?)
    && (forall key | key in st.byPfn && key !in index :: |base| <= st.byPfn[key])
    && (forall k | |base| <= k < |st.packages| :: Placed(st.byPfn, k))
  }

  ghost predicate Placed(byPfn: map<string, nat>, k: int) { exists key :: key in byPfn && byPfn[key] == k }

  ghost predicate BaseSlots(base: seq<Package>, packages: seq<Package>, rows: seq<Published>, index: map<string, nat>,
                            s: Snapshot, now: nat)
    requires |base| <= |packages| && forall key | key in index :: index[key] < |base|
  {
    && (forall k: nat | k < |base| && !Placed(index, k) :: packages[k] == base[k])
    && (forall key | key in index :: BaseSlot(packages[index[key]], base[index[key]], LastRow(rows, key), s, now))
  }

  ghost predicate AddedSlots(st: Projection, rows: seq<Published>, index: map<string, nat>, s: Snapshot,
                             families: map<string, Family>, now: nat)
    requires Indexed(st)
  {
    forall key | key in st.byPfn && key !in index :: AddedSlot(st.packages[st.byPfn[key]], rows, key, s, families, now)
  }

  ghost predicate Overlay(base: seq<Package>, st: Projection, rows: seq<Published>, index: map<string, nat>,
                          s: Snapshot,
                          families: map<string, Family>, now: nat) {
    Filed(base, st, rows, index) && BaseSlots(base, st.packages, rows, index, s, now)
        && AddedSlots(st, rows, index, s, families, now)
  }

  ghost predicate StoreIndex(base: seq<Package>, index: map<string, nat>) {
    forall key | key in index :: index[key] < |base| && base[index[key]].store
  }

  lemma NoKey(row: Published, key: string)
    ensures Keyed(row, key) <==> Trim(row.a.identity.pfn) != "" && RowKey(row) == key
  {
  }

  /** A row leaves the slots of the families it does not name as they were. */
  lemma OthersStay(base: seq<Package>, st: Projection, rows: seq<Published>, row: Published, index: map<string, nat>,
                   s: Snapshot,
                   families: map<string, Family>, now: nat)
    requires Overlay(base, st, rows, index, s, families, now)
    ensures forall key | key in index && !Keyed(row, key) ::
              BaseSlot(st.packages[index[key]], base[index[key]], LastRow(rows + [row], key), s, now)
    ensures forall key | key in st.byPfn && key !in index && !Keyed(row, key) ::
              AddedSlot(st.packages[st.byPfn[key]], rows + [row], key, s, families, now)
    ensures forall key | !Keyed(row, key) :: FirstRow(rows + [row], key) == FirstRow(rows, key)
  {
    hide BaseSlot, AddedSlot, Keyed;
    forall key | key in index && !Keyed(row, key)
      ensures BaseSlot(st.packages[index[key]], base[index[key]], LastRow(rows + [row], key), s, now)
    {
      RowsBy(rows, row, key);
    }
    forall key | key in st.byPfn && key !in index && !Keyed(row, key)
      ensures AddedSlot(st.packages[st.byPfn[key]], rows + [row], key, s, families, now)
    {
      OtherSlot(st.packages[st.byPfn[key]], rows, row, key, s, families, now);
    }
    forall key | !Keyed(row, key) ensures FirstRow(rows + [row], key) == FirstRow(rows, key) { RowsBy(rows, row, key); }
  }

  lemma BuildOverlay(base: seq<Package>, st: Projection, rows: seq<Published>, index: map<string, nat>, s: Snapshot,
                     families: map<string, Family>, now: nat)
    requires Filed(base, st, rows, index) && BaseSlots(base, st.packages, rows, index, s, now)
      && AddedSlots(st, rows, index, s, families, now)
    ensures Overlay(base, st, rows, index, s, families, now)
  {
  }

  lemma BaseSlotsNext(base: seq<Package>, packages: seq<Package>, next: seq<Package>, rows: seq<Published>,
                      index: map<string, nat>,
                      s: Snapshot, now: nat, own: string)
    requires |base| <= |packages| <= |next| && (forall key | key in index :: index[key] < |base|) && OneKeyEach(index)
    requires forall k: nat | k < |base| && !Placed(index, k) :: packages[k] == base[k]
    requires forall key | key in index && key != own ::
      BaseSlot(packages[index[key]], base[index[key]], LastRow(rows, key), s, now)
    requires own in index ==> BaseSlot(next[index[own]], base[index[own]], LastRow(rows, own), s, now)
    requires forall k: nat | k < |base| && !(own in index && index[own] == k) :: next[k] == packages[k]
    ensures BaseSlots(base, next, rows, index, s, now)
  {
    hide BaseSlot, LastRow;
    if own in index { assert Placed(index, index[own]); }
  }

  lemma AddedSlotsNext(st: Projection, next: Projection, rows: seq<Published>, index: map<string, nat>, s: Snapshot,
                       families: map<string, Family>, now: nat, own: string)
    requires Indexed(st) && Indexed(next)
    requires forall key | key in st.byPfn && key !in index && key != own ::
      AddedSlot(st.packages[st.byPfn[key]], rows, key, s, families, now)
    requires own in next.byPfn && own !in index ==>
      AddedSlot(next.packages[next.byPfn[own]], rows, own, s, families, now)
    requires forall key | key in next.byPfn && key !in index && key != own ::
               key in st.byPfn && next.byPfn[key] == st.byPfn[key]
                   && next.packages[next.byPfn[key]] == st.packages[st.byPfn[key]]
    ensures AddedSlots(next, rows, index, s, families, now)
  {
    hide AddedSlot;
  }

  /** Overwriting a slot keeps the filing. */
  lemma FiledStays(base: seq<Package>, st: Projection, next: Projection, rows: seq<Published>, row: Published,
                   index: map<string, nat>, own: string)
    requires Filed(base, st, rows, index) && next.byPfn == st.byPfn && |next.packages| == |st.packages|
      && own in st.byPfn
    requires forall key | key != own :: FirstRow(rows + [row], key) == FirstRow(rows, key)
    ensures Filed(base, next, rows + [row], index)
  {
    RowsBy(rows, row, own);
  }

  ghost predicate OnlyKey(row: Published, own: string) { forall key :: Keyed(row, key) <==> key == own }

  lemma StepBlank(base: seq<Package>, st: Projection, rows: seq<Published>, row: Published, index: map<string, nat>,
                  s: Snapshot,
                  families: map<string, Family>, now: nat)
    requires Overlay(base, st, rows, index, s, families, now) && forall key :: !Keyed(row, key)
    ensures Overlay(base, st, rows + [row], index, s, families, now)
  {
    OthersStay(base, st, rows, row, index, s, families, now);
    hide BaseSlot, AddedSlot, Keyed, FirstRow, LastRow;
    FiledSame(base, st, rows, rows + [row], index);
    hide Placed;
    BaseSlotsNext(base, st.packages, st.packages, rows + [row], index, s, now, "");
    AddedSlotsNext(st, st, rows + [row], index, s, families, now, "");
    hide *;
    BuildOverlay(base, st, rows + [row], index, s, families, now);
  }

  lemma FiledSame(base: seq<Package>, st: Projection, rows: seq<Published>, more: seq<Published>,
                  index: map<string, nat>)
    requires Filed(base, st, rows, index) && forall key :: FirstRow(more, key) == FirstRow(rows, key)
    ensures Filed(base, st, more, index) && OneKeyEach(index)
  {
    hide Placed, FirstRow;
  }

  lemma OnlyOneSlot(base: seq<Package>, st: Projection, rows: seq<Published>, index: map<string, nat>, own: string,
                    q: Package, next: Projection)
    requires Filed(base, st, rows, index) && own in st.byPfn
      && next == Projection(st.packages[st.byPfn[own] := q], st.byPfn)
    ensures |next.packages| == |st.packages| && next.packages[st.byPfn[own]] == q && OneKeyEach(index)
    ensures own in index ==> st.byPfn[own] == index[own]
    ensures forall j: nat | j < |base| && !(own in index && index[own] == j) :: next.packages[j] == st.packages[j]
    ensures forall key | key in st.byPfn && key !in index && key != own ::
      next.packages[st.byPfn[key]] == st.packages[st.byPfn[key]]
  {
    hide Placed, FirstRow;
  }

  /** A row for a family that has its place: the package in it becomes `q`. */
  lemma StepOver(base: seq<Package>, st: Projection, rows: seq<Published>, row: Published, index: map<string, nat>,
                 s: Snapshot,
                 families: map<string, Family>, now: nat, own: string, q: Package, next: Projection)
    requires Overlay(base, st, rows, index, s, families, now) && OnlyKey(row, own) && own in st.byPfn
    requires own in index ==> BaseSlot(q, base[index[own]], LastRow(rows + [row], own), s, now)
    requires own !in index ==> AddedSlot(q, rows + [row], own, s, families, now)
    requires next == Projection(st.packages[st.byPfn[own] := q], st.byPfn)
    ensures Overlay(base, next, rows + [row], index, s, families, now)
  {
    var k := st.byPfn[own];
    OthersStay(base, st, rows, row, index, s, families, now);
    hide BaseSlot, AddedSlot, Keyed, FirstRow, LastRow;
    FiledStays(base, st, next, rows, row, index, own);
    OnlyOneSlot(base, st, rows, index, own, q, next);
    hide Placed, OneKeyEach;
    BaseSlotsNext(base, st.packages, next.packages, rows + [row], index, s, now, own);
    AddedSlotsNext(st, next, rows + [row], index, s, families, now, own);
    hide *;
    BuildOverlay(base, next, rows + [row], index, s, families, now);
  }

  /** A row for a family without a place adds one. */
  lemma StepNew(base: seq<Package>, st: Projection, rows: seq<Published>, row: Published, index: map<string, nat>,
                s: Snapshot,
                families: map<string, Family>, now: nat, own: string, q: Package, next: Projection)
    requires Overlay(base, st, rows, index, s, families, now) && OnlyKey(row, own) && own !in st.byPfn
    requires AddedSlot(q, rows + [row], own, s, families, now) && FirstRow(rows + [row], own).Some?
    requires next == Projection(st.packages + [q], st.byPfn[own := |st.packages|])
    ensures Overlay(base, next, rows + [row], index, s, families, now)
  {
    OthersStay(base, st, rows, row, index, s, families, now);
    hide BaseSlot, AddedSlot, Keyed, FirstRow, LastRow;
    FiledGrows(base, st, next, rows, row, index, own);
    hide Placed;
    BaseSlotsNext(base, st.packages, next.packages, rows + [row], index, s, now, own);
    AddedSlotsNext(st, next, rows + [row], index, s, families, now, own);
    hide *;
    BuildOverlay(base, next, rows + [row], index, s, families, now);
  }

  lemma FiledGrows(base: seq<Package>, st: Projection, next: Projection, rows: seq<Published>, row: Published,
                   index: map<string, nat>, own: string)
    requires Filed(base, st, rows, index) && own !in st.byPfn && next.byPfn == st.byPfn[own := |st.packages|]
    requires |next.packages| == |st.packages| + 1 && FirstRow(rows + [row], own).Some?
    requires forall key | key != own :: FirstRow(rows + [row], key) == FirstRow(rows, key)
    ensures Filed(base, next, rows + [row], index)
  {
    forall k | |base| <= k < |next.packages| ensures Placed(next.byPfn, k) {
      if k < |st.packages| {
        assert Placed(st.byPfn, k);
        var key :| key in st.byPfn && st.byPfn[key] == k;
        assert next.byPfn[key] == k;
      } else {
        assert next.byPfn[own] == k;
      }
    }
  }

  lemma RowStep(base: seq<Package>, st: Projection, rows: seq<Published>, row: Published, index: map<string, nat>,
                s: Snapshot,
                families: map<string, Family>, now: nat, next: Projection)
    requires Overlay(base, st, rows, index, s, families, now) && StoreIndex(base, index)
    requires next == ApplyRow(st, s, row, families, now)
    ensures Overlay(base, next, rows + [row], index, s, families, now)
  {
    var own := RowKey(row);
    RowsBy(rows, row, own);
    forall key ensures Keyed(row, key) <==> Trim(row.a.identity.pfn) != "" && key == own {}
    if Trim(row.a.identity.pfn) == "" {
      hide *;
      StepBlank(base, st, rows, row, index, s, families, now);
    } else {
      KeptIndex(base, st, rows, index, s, families, now);
      assert OnlyKey(row, own);
      if own in index {
        var q := Applied(st.packages[index[own]], Projected(s, row, st.packages[index[own]].version, now));
        BaseSlotStep(st.packages[index[own]], base[index[own]], LastRow(rows, own), row, s, now);
        hide Applied, Projected, NewPackage, BaseSlot, AddedSlot, Overlay, OnlyKey, FirstRow, LastRow, Matches;
        StepOver(base, st, rows, row, index, s, families, now, own, q, next);
      } else if own in st.byPfn {
        var q := Applied(st.packages[st.byPfn[own]], Projected(s, row, st.packages[st.byPfn[own]].version, now));
        AddedSlotStep(st.packages[st.byPfn[own]], rows, own, row, s, families, now);
        hide Applied, Projected, NewPackage, BaseSlot, AddedSlot, Overlay, OnlyKey, FirstRow, LastRow, Matches;
        StepOver(base, st, rows, row, index, s, families, now, own, q, next);
      } else {
        AddedSlotStart(rows, own, row, s, families, now);
        hide Applied, Projected, NewPackage, BaseSlot, AddedSlot, Overlay, OnlyKey, FirstRow, LastRow, Matches;
        StepNew(base, st, rows, row, index, s, families, now, own, AddedBy(s, row, families, now), next);
      }
    }
  }

  lemma KeptIndex(base: seq<Package>, st: Projection, rows: seq<Published>, index: map<string, nat>, s: Snapshot,
                  families: map<string, Family>, now: nat)
    requires Overlay(base, st, rows, index, s, families, now)
    ensures |base| <= |st.packages|
    ensures forall key | key in index :: index[key] < |base| && key in st.byPfn && st.byPfn[key] == index[key]
    ensures forall key | key in index :: BaseSlot(st.packages[index[key]], base[index[key]], LastRow(rows, key), s, now)
    ensures forall key | key in st.byPfn && key !in index ::
              st.byPfn[key] < |st.packages| && AddedSlot(st.packages[st.byPfn[key]], rows, key, s, families, now)
    ensures forall key | key !in index && key !in st.byPfn :: FirstRow(rows, key).None?
  {
    hide BaseSlot, AddedSlot, FirstRow, LastRow, Placed;
  }

  ghost predicate WellIndexed(packages: seq<Package>, index: map<string, nat>) {
    && StoreIndex(packages, index) && OneKeyEach(index)
    && forall key | key in index :: index[key] < |packages| && Lower(InstalledPfn(packages[index[key]])) == key
  }

  lemma OneMoreIndexed(packages: seq<Package>, p: Package, index: map<string, nat>)
    requires WellIndexed(packages, index)
    ensures WellIndexed(packages + [p], index)
    ensures p.store ==> WellIndexed(packages + [p], index[Lower(InstalledPfn(p)) := |packages|])
  {
    hide InstalledPfn, Lower;
    var more := packages + [p];
    forall k | 0 <= k < |packages| ensures more[k] == packages[k] {}
  }

  lemma {:induction false} IndexIsWell(packages: seq<Package>)
    ensures WellIndexed(packages, Index(packages))
  {
    if packages != [] {
      var n := |packages| - 1;
      IndexIsWell(packages[..n]);
      OneMoreIndexed(packages[..n], packages[n], Index(packages[..n]));
      assert packages == packages[..n] + [packages[n]];
      hide WellIndexed, InstalledPfn, Lower;
    }
  }

  lemma IndexedPackagesAreStore(packages: seq<Package>)
    ensures StoreIndex(packages, Index(packages)) && OneKeyEach(Index(packages))
    ensures forall key | key in Index(packages) :: Lower(InstalledPfn(packages[Index(packages)[key]])) == key
  {
    IndexIsWell(packages);
    hide Index, InstalledPfn, Lower;
  }

  lemma NoRowsYet(base: seq<Package>, start: Projection, index: map<string, nat>, s: Snapshot,
                  families: map<string, Family>, now: nat)
    requires Indexed(start) && start == Projection(base, index) && StoreIndex(base, index) && OneKeyEach(index)
    ensures Overlay(base, start, [], index, s, families, now)
  {
    hide AddedSlot, Frame;
  }

  lemma {:induction false} RowsOverlay(base: seq<Package>, start: Projection, rows: seq<Published>,
                                       index: map<string, nat>, s: Snapshot,
                                       families: map<string, Family>, now: nat)
    requires Indexed(start) && start == Projection(base, index) && StoreIndex(base, index) && OneKeyEach(index)
    ensures Overlay(base, ApplyRows(start, s, rows, families, now), rows, index, s, families, now)
  {
    if rows == [] {
      NoRowsYet(base, start, index, s, families, now);
      hide Overlay;
    } else {
      var earlier, row := rows[..|rows| - 1], rows[|rows| - 1];
      RowsOverlay(base, start, earlier, index, s, families, now);
      assert rows == earlier + [row];
      hide Overlay, StoreIndex, OneKeyEach, ApplyRow;
      var before := ApplyRows(start, s, earlier, families, now);
      RowStep(base, before, earlier, row, index, s, families, now, ApplyRow(before, s, row, families, now));
    }
  }

  // ---------------------------------------------------------------- who may be updated

  /** The last row filed under a package's family, for an inventory package the index
      points to. */
  ghost predicate LastSays(base: seq<Package>, rows: seq<Published>, k: nat, row: Published) {
    exists key :: key in Index(base) && Index(base)[key] == k && LastRow(rows, key) == Some(row)
  }

  /** After projection over an inventory without updatable Store packages, an inventory
      package of the Store can be updated exactly when the last published row of its
      family authorises it: an available, exact offer of a published, unrecovered
      snapshot, not retained, with both ages within the window, for the version
      installed. */
  lemma UpdatableExactlyWhenAuthorised(base: seq<Package>, s: Snapshot, families: map<string, Family>, now: nat, k: nat)
    requires k < |base| && base[k].store && !base[k].canUpdateNow
    ensures k < |Project(base, s, families, now)|
    ensures Project(base, s, families, now)[k].canUpdateNow <==>
              exists row :: LastSays(base, s.rows, k, row) && Authorises(s, row, base[k], now)
  {
    var index := Index(base);
    IndexedPackagesAreStore(base);
    RowsOverlay(base, Projection(base, index), s.rows, index, s, families, now);
    var packages := Project(base, s, families, now);
    hide Index, Authorises, Shown;
    if Placed(index, k) {
      var key :| key in index && index[key] == k;
      assert BaseSlot(packages[k], base[k], LastRow(s.rows, key), s, now);
      forall other | other in index && index[other] == k ensures other == key {}
      if LastRow(s.rows, key).Some? { assert LastSays(base, s.rows, k, LastRow(s.rows, key).value); }
    } else {
      assert packages[k] == base[k];
    }
  }

  /** An inventory package shows the last row of its family, and is left as it was
      without one; its update is shown only as long as that row is fresh. */
  lemma PackagesShowTheLastRow(base: seq<Package>, s: Snapshot, families: map<string, Family>, now: nat, k: nat)
    requires k < |base| && base[k].store
    ensures k < |Project(base, s, families, now)|
    ensures var q := Project(base, s, families, now)[k];
      && (forall row | LastSays(base, s.rows, k, row) ::
            Frame(q, base[k]) && Shown(q, row, Fresh(s, row, base[k].version, now), base[k].version))
      && ((forall row :: !LastSays(base, s.rows, k, row)) ==> q == base[k])
  {
    var index := Index(base);
    IndexedPackagesAreStore(base);
    RowsOverlay(base, Projection(base, index), s.rows, index, s, families, now);
    var packages := Project(base, s, families, now);
    hide Index, Authorises, Shown, Frame, ApplyRows, LastRow, Fresh;
    if Placed(index, k) {
      var key :| key in index && index[key] == k;
      assert BaseSlot(packages[k], base[k], LastRow(s.rows, key), s, now);
      forall other | other in index && index[other] == k ensures other == key {}
      if LastRow(s.rows, key).Some? { assert LastSays(base, s.rows, k, LastRow(s.rows, key).value); }
    } else {
      assert packages[k] == base[k];
    }
  }

  /** The package is installed under the family name a key stands for. */
  predicate Bears(q: Package, key: string) { Lower(Trim(q.installedPfn)) == key }

  lemma AddedBearsItsKey(q: Package, rows: seq<Published>, key: string, s: Snapshot, families: map<string, Family>,
                         now: nat)
    requires AddedSlot(q, rows, key, s, families, now)
    ensures Bears(q, key)
  {
    RowsFound(rows, key);
    hide Frame, Authorises, Fresh, AddedBy, FirstRow, LastRow, Matches, Lower, Trim;
  }

  /** The package was added for a family the inventory lacks, and shows its last row. */
  ghost predicate StandsFor(q: Package, rows: seq<Published>, index: map<string, nat>, s: Snapshot,
                            families: map<string, Family>, now: nat) {
    exists key :: key !in index && AddedSlot(q, rows, key, s, families, now) && Bears(q, key)
  }

  lemma AddedPlaces(base: seq<Package>, st: Projection, rows: seq<Published>, index: map<string, nat>, s: Snapshot,
                    families: map<string, Family>, now: nat)
    requires Filed(base, st, rows, index)
    requires forall key | key in st.byPfn && key !in index ::
               AddedSlot(st.packages[st.byPfn[key]], rows, key, s, families, now)
               && Bears(st.packages[st.byPfn[key]], key)
    ensures forall k | |base| <= k < |st.packages| :: StandsFor(st.packages[k], rows, index, s, families, now)
    ensures forall key | key !in index && FirstRow(rows, key).Some? ::
              exists k :: |base| <= k < |st.packages| && AddedSlot(st.packages[k], rows, key, s, families, now)
    ensures forall j, k, key | |base| <= j < k < |st.packages| && Bears(st.packages[j], key) ::
              !Bears(st.packages[k], key)
  {
    hide AddedSlot, FirstRow, Bears;
    forall k | |base| <= k < |st.packages|
      ensures StandsFor(st.packages[k], rows, index, s, families, now)
    {
      var key := KeyOf(base, st, rows, index, k);
    }
    forall j, k, key | |base| <= j < k < |st.packages| && Bears(st.packages[j], key)
      ensures !Bears(st.packages[k], key)
    {
      var a := KeyOf(base, st, rows, index, j);
      var b := KeyOf(base, st, rows, index, k);
      OneFamilyEach(st.packages[j], a, key);
      if Bears(st.packages[k], key) { OneFamilyEach(st.packages[k], b, key); }
    }
  }

  lemma OneFamilyEach(q: Package, a: string, b: string)
    requires Bears(q, a) && Bears(q, b)
    ensures a == b
  {
  }

  lemma KeyOf(base: seq<Package>, st: Projection, rows: seq<Published>, index: map<string, nat>, k: nat)
    returns (key: string)
    requires Filed(base, st, rows, index) && |base| <= k < |st.packages|
    ensures key in st.byPfn && key !in index && st.byPfn[key] == k
  {
    hide FirstRow;
    assert Placed(st.byPfn, k);
    key :| key in st.byPfn && st.byPfn[key] == k;
  }

  /** Each family the inventory lacks gets one package, and each package that was added
      shows the last row of such a family. */
  lemma AddedPackagesShowTheirFamilies(base: seq<Package>, s: Snapshot, families: map<string, Family>, now: nat)
    ensures var packages := Project(base, s, families, now);
      && |base| <= |packages|
      && (forall k | |base| <= k < |packages| :: StandsFor(packages[k], s.rows, Index(base), s, families, now))
      && (forall key | key !in Index(base) && FirstRow(s.rows, key).Some? ::
            exists k :: |base| <= k < |packages| && AddedSlot(packages[k], s.rows, key, s, families, now))
      && (forall j, k, key | |base| <= j < k < |packages| && Bears(packages[j], key) :: !Bears(packages[k], key))
  {
    var index := Index(base);
    IndexedPackagesAreStore(base);
    var st := ApplyRows(Projection(base, index), s, s.rows, families, now);
    RowsOverlay(base, Projection(base, index), s.rows, index, s, families, now);
    hide AddedSlot, ApplyRows, FirstRow, Index, Bears, BaseSlots, Filed, StandsFor;
    forall key | key in st.byPfn && key !in index ensures Bears(st.packages[st.byPfn[key]], key) {
      AddedBearsItsKey(st.packages[st.byPfn[key]], s.rows, key, s, families, now);
    }
    assert |base| <= |st.packages| by { KeptIndex(base, st, s.rows, index, s, families, now); }
    AddedPlaces(base, st, s.rows, index, s, families, now);
  }

  /** A package the projection added can be updated exactly when its family's rows are
      repeated and the last of them authorises what the first brought along. */
  ghost predicate Repeats(base: seq<Package>, s: Snapshot, families: map<string, Family>, now: nat, key: string) {
    && key !in Index(base) && Matches(s.rows, key) >= 2
    && FirstRow(s.rows, key).Some? && LastRow(s.rows, key).Some?
    && Authorises(s, LastRow(s.rows, key).value, AddedBy(s, FirstRow(s.rows, key).value, families, now), now)
  }

  lemma SlotRepeats(q: Package, base: seq<Package>, s: Snapshot, families: map<string, Family>, now: nat, key: string)
    requires AddedSlot(q, s.rows, key, s, families, now) && key !in Index(base)
    ensures q.canUpdateNow <==> Repeats(base, s, families, now, key)
  {
    hide Index, Authorises, AddedBy, Frame, Shown, FirstRow, LastRow, Matches;
  }

  lemma AddedUpdatableExactlyWhenRepeated(base: seq<Package>, s: Snapshot, families: map<string, Family>, now: nat)
    ensures var packages := Project(base, s, families, now);
      (exists k | |base| <= k < |packages| :: packages[k].canUpdateNow)
          <==> exists key :: Repeats(base, s, families, now, key)
  {
    var packages := Project(base, s, families, now);
    AddedPackagesShowTheirFamilies(base, s, families, now);
    hide Index, AddedSlot, Project, Bears;
    if k :| |base| <= k < |packages| && packages[k].canUpdateNow {
      assert StandsFor(packages[k], s.rows, Index(base), s, families, now);
      var key :| key !in Index(base) && AddedSlot(packages[k], s.rows, key, s, families, now);
      SlotRepeats(packages[k], base, s, families, now, key);
    }
    if key :| Repeats(base, s, families, now, key) {
      var k :| |base| <= k < |packages| && AddedSlot(packages[k], s.rows, key, s, families, now);
      SlotRepeats(packages[k], base, s, families, now, key);
    }
  }

  /** With one row per family, packages that only the projection added are never
      updatable. */
  lemma AddedNeverUpdatable(base: seq<Package>, s: Snapshot, families: map<string, Family>, now: nat, k: nat)
    requires DistinctKeys(s.rows) && |base| <= k < |Project(base, s, families, now)|
    ensures !Project(base, s, families, now)[k].canUpdateNow
  {
    AddedUpdatableExactlyWhenRepeated(base, s, families, now);
    forall key ensures !Repeats(base, s, families, now, key) { DistinctMatchOnce(s.rows, key); }
  }

  /** Packages of other managers are left alone. */
  lemma OtherManagersUntouched(base: seq<Package>, s: Snapshot, families: map<string, Family>, now: nat, k: nat)
    requires k < |base| && !base[k].store
    ensures k < |Project(base, s, families, now)| && Project(base, s, families, now)[k] == base[k]
  {
    var index := Index(base);
    IndexedPackagesAreStore(base);
    RowsOverlay(base, Projection(base, index), s.rows, index, s, families, now);
    assert !Placed(index, k);
  }

  /** Distinct family names matter: a repeated row is compared with the version the
      first one brought along, and authorises a package the inventory never had. */
  lemma RepeatedRowAuthorisesAbsentPackage(s: Snapshot, row: Published, now: nat)
    requires s.rows == [row, row] && Trim(row.a.identity.pfn) != ""
    requires row.a.state == Available && row.exact && KindOf(row.productId, row.updateId) != NoTarget
    requires Fresh(s, row, row.a.installedVersion, now)
    ensures var packages := Project([], s, map[], now);
      |packages| == 1 && packages[0].canUpdateNow
  {
    var start := Projection([], Index([]));
    var once := ApplyRow(start, s, row, map[], now);
    assert s.rows[..1] == [row] && s.rows[..1][..0] == [];
    assert ApplyRows(start, s, s.rows[..1], map[], now) == once by {
      assert ApplyRows(start, s, [], map[], now) == start;
    }
    var p := once.packages[0];
    assert p.version == row.a.installedVersion;
    OverlayAuthorisesExactly(s, row, p, now, Applied(p, Projected(s, row, p.version, now)));
  }
}
