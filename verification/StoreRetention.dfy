/** How much retention keeps, and what it can never remove. */
module StoreRetention {
  import opened Wrappers
  import opened Text
  import opened StoreModel
  import opened StoreReconcile
  import opened StoreTheorems
  import opened StorePipeline
  import opened StoreRepoModel
  import opened StoreRepoTheorems

  // ---------------------------------------------------------------- ranks

  /** Newest first. */
  predicate Sorted(u: Catalog, s: seq<string>) {
    && (forall id | id in s :: id in u)
    && forall i, j | 0 <= i < j < |s| :: SortsAfter(u[s[i]], u[s[j]])
  }

  ghost predicate Lists(u: Catalog, s: seq<string>) { Sorted(u, s) && forall id | id in u :: id in s }

  function Firsts(s: seq<string>, i: nat): set<string>
    requires i <= |s|
  {
    set k | 0 <= k < i :: s[k]
  }

  lemma SortedDiffer(u: Catalog, s: seq<string>, i: nat, j: nat)
    requires Sorted(u, s) && i < j < |s|
    ensures s[i] != s[j]
  {
    AfterTotal(NameOf(u[s[i]].scan), NameOf(u[s[j]].scan));
  }

  lemma PrefixSize(u: Catalog, s: seq<string>, i: nat)
    requires i <= |s| && Sorted(u, s)
    ensures |Firsts(s, i)| == i
  {
    hide Sorted;
    if i > 0 {
      PrefixSize(u, s, i - 1);
      assert Firsts(s, i) == Firsts(s, i - 1) + {s[i - 1]};
      forall k | 0 <= k < i - 1 ensures s[k] != s[i - 1] { SortedDiffer(u, s, k, i - 1); }
    } else {
      assert Firsts(s, i) == {};
    }
  }

  /** A scan's rank is its position in the sorted list. */
  lemma RankIsPosition(u: Catalog, s: seq<string>, i: nat)
    requires Lists(u, s) && i < |s|
    ensures Newer(u, s[i]) == Firsts(s, i) && |Newer(u, s[i])| == i
  {
    PrefixSize(u, s, i);
    forall k | 0 <= k < |s| ensures SortsAfter(u[s[k]], u[s[i]]) <==> k < i {
      AfterTotal(NameOf(u[s[k]].scan), NameOf(u[s[i]].scan));
    }
    forall id ensures id in Newer(u, s[i]) <==> id in Firsts(s, i) {
      if id in Newer(u, s[i]) { assert id in s; }
    }
  }

  lemma SortedExists(u: Catalog, ids: set<string>) returns (s: seq<string>)
    requires Keyed(u) && ids <= u.Keys
    ensures Sorted(u, s) && forall id :: id in s <==> id in ids
    decreases ids
  {
    if ids == {} { return []; }
    var any :| any in ids;
    var first := Greatest(u, ids, any);
    var rest := SortedExists(u, ids - {first});
    s := [first] + rest;
    forall i, j | 0 <= i < j < |s| ensures SortsAfter(u[s[i]], u[s[j]]) {
      assert rest[j - 1] in rest;
      if i > 0 { assert s[i] == rest[i - 1] && s[j] == rest[j - 1]; }
    }
  }

  lemma FewAreNeverSurplus(u: Catalog, keep: Option<string>)
    requires |u| <= RETENTION
    ensures Surplus(u, keep) == {}
  {
    forall id | id in u ensures |Newer(u, id)| < RETENTION {
      AfterTotal(NameOf(u[id].scan), NameOf(u[id].scan));
      SubsetSize(Newer(u, id), u.Keys - {id});
    }
  }

  /** The one beyond the newest that is kept all the same. */
  function Spared(u: Catalog, keep: Option<string>): set<string> {
    if keep.Some? && keep.value in u && |Newer(u, keep.value)| >= RETENTION then {keep.value} else {}
  }

  /** How many scans lie within retention: the newest, and the one to keep. */
  function KeptCount(u: Catalog, keep: Option<string>): nat {
    (if |u| < RETENTION then |u| else RETENTION) + |Spared(u, keep)|
  }

  lemma KeptAreCounted(u: Catalog, keep: Option<string>)
    requires Keyed(u)
    ensures |u.Keys - Surplus(u, keep)| == KeptCount(u, keep)
  {
    var s := SortedExists(u, u.Keys);
    ListHasAll(u, s);
    var top := if |u| < RETENTION then |u| else RETENTION;
    PrefixSize(u, s, top);
    forall id
      ensures id in u.Keys - Surplus(u, keep) <==> id in Firsts(s, top) + Spared(u, keep)
      ensures !(id in Firsts(s, top) && id in Spared(u, keep))
    {
      TopOrSpared(u, s, top, keep, id);
    }
    CountBoth(u.Keys - Surplus(u, keep), Firsts(s, top), Spared(u, keep));
    hide Surplus, Firsts, Newer;
  }

  lemma CountBoth(all: set<string>, a: set<string>, b: set<string>)
    requires (forall id :: id in all <==> id in a + b) && forall id :: !(id in a && id in b)
    ensures |all| == |a| + |b|
  {
    assert all == a + b;
    assert a !! b;
  }

  lemma TopOrSpared(u: Catalog, s: seq<string>, top: nat, keep: Option<string>, id: string)
    requires Lists(u, s) && top <= |s| && (top == RETENTION || (top == |s| <= RETENTION))
    ensures id in u.Keys - Surplus(u, keep) <==> id in Firsts(s, top) + Spared(u, keep)
    ensures !(id in Firsts(s, top) && id in Spared(u, keep))
  {
    FirstsAreListed(u, s, top, id);
    if id in u {
      var i :| 0 <= i < |s| && s[i] == id;
      FirstsAreTop(u, s, top, i);
    }
    hide Firsts, Newer, Lists;
  }

  lemma FirstsAreListed(u: Catalog, s: seq<string>, top: nat, id: string)
    requires Lists(u, s) && top <= |s|
    ensures id in Firsts(s, top) ==> id in u
  {
  }

  lemma FirstsAreTop(u: Catalog, s: seq<string>, top: nat, i: nat)
    requires Lists(u, s) && i < |s| && top <= |s| && (top == RETENTION || (top == |s| <= RETENTION))
    ensures s[i] in Firsts(s, top) <==> |Newer(u, s[i])| < RETENTION
  {
    RankIsPosition(u, s, i);
    if s[i] in Firsts(s, top) {
      var k :| 0 <= k < top && s[k] == s[i];
      RankIsPosition(u, s, k);
    }
  }

  lemma ListHasAll(u: Catalog, s: seq<string>)
    requires Lists(u, s)
    ensures |s| == |u|
  {
    PrefixSize(u, s, |s|);
    assert Firsts(s, |s|) == u.Keys;
    assert |u| == |u.Keys|;
  }

  // ---------------------------------------------------------------- what a completed pruning leaves

  /** The scans of an earlier listing whose files are still there. */
  ghost function Survivors(env: Env, before: Disk, after: Disk): set<string> {
    set id | id in CatalogOf(env, before.files) && SourceOf(env, before.files, id) in after.files
  }

  /** Scans beyond retention that the listing takes from temporary files. */
  ghost function SurplusLeftovers(env: Env, d: Disk): set<string> {
    set id | id in Surplus(CatalogOf(env, d.files), Protected(env, d)) && SourceOf(env, d.files, id).Temp?
  }

  /** Pruning went through: no file of a surplus scan's proper name is left. */
  ghost predicate Pruned(env: Env, before: Disk, after: Disk) {
    Shrunk(env, before, after) && forall f | f in after.files :: !IsSurplusFile(env, before, f)
  }

  lemma SurvivesExactlyWhen(env: Env, before: Disk, after: Disk, id: string)
    requires WellNamed(env, before.files) && Pruned(env, before, after) && id in CatalogOf(env, before.files)
    ensures SourceOf(env, before.files, id) in after.files <==>
              id !in Surplus(CatalogOf(env, before.files), Protected(env, before))
                  || SourceOf(env, before.files, id).Temp?
  {
    var u, f := CatalogOf(env, before.files), SourceOf(env, before.files, id);
    hide Protected, Surplus;
    CatalogFacts(env, before.files);
    ShrunkFiles(env, before, after, f);
    assert u[id] == Snap(env, before.files, f);
    if f.Gen? {
      assert f == FileOf(u[id]);
      if id in Surplus(u, Protected(env, before)) { assert IsSurplusFile(env, before, f); }
    }
  }

  lemma SurvivorsAre(env: Env, before: Disk, after: Disk)
    requires WellNamed(env, before.files) && Pruned(env, before, after)
    ensures var u, keep := CatalogOf(env, before.files), Protected(env, before);
      Survivors(env, before, after) == (u.Keys - Surplus(u, keep)) + SurplusLeftovers(env, before)
  {
    var u, keep := CatalogOf(env, before.files), Protected(env, before);
    forall id | id in u
      ensures SourceOf(env, before.files, id) in after.files
        <==> id !in Surplus(u, keep) || SourceOf(env, before.files, id).Temp?
    {
      SurvivesExactlyWhen(env, before, after, id);
    }
    hide CatalogOf, Protected, Pruned;
  }

  /** The scan that a load finds, or the newest published one if it finds none. */
  ghost predicate IsToKeep(env: Env, d: Disk, id: string) {
    if Load(env, d).Found? then Load(env, d).s.scan.scanId == id else LatestPublished(CatalogOf(env, d.files), id)
  }

  lemma ProtectedMeans(env: Env, d: Disk, id: string)
    ensures Protected(env, d) == Some(id) <==> IsToKeep(env, d, id)
  {
    hide CatalogOf, Load;
    if !Load(env, d).Found? && LatestPublished(CatalogOf(env, d.files), id) {
      forall other | LatestPublished(CatalogOf(env, d.files), other) ensures other == id {
        LatestIsUnique(CatalogOf(env, d.files), other, id);
      }
    }
  }

  /** The scans of a listing that started later. */
  function LaterScans(u: Catalog, id: string): set<string>
    requires id in u
  {
    set other | other in u && StartedLater(u[other], u[id])
  }

  lemma LaterIsNewer(u: Catalog, id: string)
    requires id in u
    ensures LaterScans(u, id) == Newer(u, id)
  {
    forall other | other in u ensures StartedLater(u[other], u[id]) <==> SortsAfter(u[other], u[id]) {
      SortsAfterMeans(u[other], u[id]);
    }
    hide StartedLater, SortsAfter;
  }

  /** A completed pruning leaves the file of a scan exactly if fewer than fifty scans
      started later, or a load needs it, or it is a temporary file. */
  lemma KeptExactlyWhen(env: Env, before: Disk, after: Disk, id: string)
    requires WellNamed(env, before.files) && Pruned(env, before, after) && id in CatalogOf(env, before.files)
    ensures SourceOf(env, before.files, id) in after.files <==>
              || |LaterScans(CatalogOf(env, before.files), id)| < 50 || IsToKeep(env, before, id)
              || SourceOf(env, before.files, id).Temp?
  {
    SurvivesExactlyWhen(env, before, after, id);
    ProtectedMeans(env, before, id);
    LaterIsNewer(CatalogOf(env, before.files), id);
    hide CatalogOf, Pruned, WellNamed, LaterScans, Newer, Protected, IsToKeep;
  }

  /** A completed pruning keeps the newest scans, the one to keep, and every surplus scan
      that the listing took from a temporary file: those it can never remove. A file it
      made usable was hidden by a removed one of the same scan. */
  lemma RetentionIsExact(env: Env, before: Disk, after: Disk)
    requires WellNamed(env, before.files) && Pruned(env, before, after)
    ensures var u, keep := CatalogOf(env, before.files), Protected(env, before);
      |Survivors(env, before, after)| == KeptCount(u, keep) + |SurplusLeftovers(env, before)|
    ensures KeptCount(CatalogOf(env, before.files), Protected(env, before)) <= 51
    ensures forall f | Usable(env, after.files, f) && !Usable(env, before.files, f) ::
              exists k | k in before.files && k !in after.files :: Hides(env, before.files, k, f)
    ensures UniqueIds(env, before.files) ==> CatalogOf(env, after.files).Keys == Survivors(env, before, after)
  {
    var u, keep := CatalogOf(env, before.files), Protected(env, before);
    CatalogFacts(env, before.files);
    SurvivorsAre(env, before, after);
    KeptAreCounted(u, keep);
    assert (u.Keys - Surplus(u, keep)) !! SurplusLeftovers(env, before);
    forall f | Usable(env, after.files, f) && !Usable(env, before.files, f)
      ensures exists k | k in before.files && k !in after.files :: Hides(env, before.files, k, f)
    {
      var k := NewlyUsable(env, before, after, f);
    }
    if UniqueIds(env, before.files) { OnlySurvivorsListed(env, before, after); }
    hide *;
  }

  lemma OnlySurvivorsListed(env: Env, before: Disk, after: Disk)
    requires WellNamed(env, before.files) && Pruned(env, before, after) && UniqueIds(env, before.files)
    ensures CatalogOf(env, after.files).Keys == Survivors(env, before, after)
  {
    CatalogFacts(env, before.files);
    CatalogFacts(env, after.files);
    forall id ensures id in CatalogOf(env, after.files) <==> id in Survivors(env, before, after) {
      if id in CatalogOf(env, after.files) {
        var f := SourceIs(env, after.files, id);
        ShrunkFiles(env, before, after, f);
        assert Usable(env, before.files, f);
        var g := SourceOf(env, before.files, id);
        assert !Twin(env, before.files, f, g);
      }
      if id in Survivors(env, before, after) { SurvivorCounts(env, before, after, SourceOf(env, before.files, id)); }
    }
  }

  // ---------------------------------------------------------------- two generations of one scan

  /** A full repository with two files of one scan: k, withdrawn and older than all
      others, and m, the newest. */
  ghost predicate TwinsAround(env: Env, files: map<File, Content>, k: Name, m: Name) {
    var u := CatalogOf(env, files);
    && WellNamed(env, files) && Twin(env, files, Gen(k), Gen(m)) && k.startedAt < m.startedAt
    && (forall f | Twin(env, files, Gen(k), f) :: f == Gen(m))
          && (forall f | Twin(env, files, Gen(m), f) :: f == Gen(k))
    && |u.Keys - {k.scanId}| == RETENTION
    && (forall id | id in u && id != k.scanId ::
          SortsAfter(u[id], Snap(env, files, Gen(k))) && SortsAfter(Snap(env, files, Gen(m)), u[id]))
    && Snap(env, files, Gen(m)).published && !Snap(env, files, Gen(k)).published
  }

  lemma OlderTwinIsListed(env: Env, files: map<File, Content>, k: Name, m: Name)
    requires TwinsAround(env, files, k, m)
    ensures Usable(env, files, Gen(k)) && IdOf(env, files, Gen(k)) == k.scanId
    ensures k.scanId in CatalogOf(env, files) && CatalogOf(env, files)[k.scanId] == Snap(env, files, Gen(k))
    ensures Hides(env, files, Gen(k), Gen(m)) && NameOf(Snap(env, files, Gen(k)).scan) == k
  {
    CatalogFacts(env, files);
  }

  lemma OnlyTwinIsSurplus(u: Catalog, id: string, keep: Option<string>)
    requires Keyed(u) && id in u && |u.Keys - {id}| == RETENTION && keep != Some(id)
    requires forall other | other in u && other != id :: SortsAfter(u[other], u[id])
    ensures Surplus(u, keep) == {id}
  {
    AfterTotal(NameOf(u[id].scan), NameOf(u[id].scan));
    assert Newer(u, id) == u.Keys - {id};
    forall other | other in u && other != id ensures |Newer(u, other)| < RETENTION {
      AfterTotal(NameOf(u[other].scan), NameOf(u[other].scan));
      AfterTotal(NameOf(u[other].scan), NameOf(u[id].scan));
      SubsetSize(Newer(u, other), u.Keys - {id} - {other});
    }
  }

  lemma TwinIsSurplus(env: Env, files: map<File, Content>, k: Name, m: Name)
    requires TwinsAround(env, files, k, m)
    ensures Surplus(CatalogOf(env, files), Protected(env, Disk(files, {}, NoPointer))) == {k.scanId}
  {
    var u, d := CatalogOf(env, files), Disk(files, {}, NoPointer);
    OlderTwinIsListed(env, files, k, m);
    CatalogFacts(env, files);
    UnpublishedIsNotRecovered(u, k.scanId, Snap(env, files, Gen(k)));
    ProtectedIsLatest(env, d);
    hide CatalogOf, Protected, Load;
    OnlyTwinIsSurplus(u, k.scanId, Protected(env, d));
  }

  lemma ProtectedIsLatest(env: Env, d: Disk)
    requires d.pointer == NoPointer
    ensures Protected(env, d).Some? ==> LatestPublished(CatalogOf(env, d.files), Protected(env, d).value)
  {
    var u := CatalogOf(env, d.files);
    CatalogFacts(env, d.files);
    if id :| LatestPublished(u, id) {
      RecoveredIs(u, id);
    }
  }

  lemma TwinIsPruned(env: Env, files: map<File, Content>, k: Name, m: Name)
    requires TwinsAround(env, files, k, m)
    ensures Pruned(env, Disk(files, {}, NoPointer), Disk(files - {Gen(k)}, {}, NoPointer))
  {
    TwinIsSurplus(env, files, k, m);
    OlderTwinIsListed(env, files, k, m);
    OneIsPruned(env, files, k.scanId);
    hide TwinsAround, Pruned, Surplus, Protected;
  }

  lemma OneIsPruned(env: Env, files: map<File, Content>, id: string)
    requires var u := CatalogOf(env, files); id in u && Surplus(u, Protected(env, Disk(files, {}, NoPointer))) == {id}
    ensures Pruned(env, Disk(files, {}, NoPointer), Disk(files - {FileOf(CatalogOf(env, files)[id])}, {}, NoPointer))
  {
    hide CatalogOf, Surplus, Protected;
    var before, u := Disk(files, {}, NoPointer), CatalogOf(env, files);
    assert id in Surplus(u, Protected(env, before)) && IsSurplusFile(env, before, FileOf(u[id]));
  }

  /** Retention can change what a recovery finds: the withdrawn twin is removed, and the
      newest file takes the others' place. */
  lemma PrunedTwinChangesTheLoad(env: Env, files: map<File, Content>, k: Name, m: Name)
    requires TwinsAround(env, files, k, m)
    ensures var before, d := Disk(files, {}, NoPointer), Disk(files - {Gen(k)}, {}, NoPointer);
      && Pruned(env, before, d)
      && Load(env, d) == Found(Snap(env, files, Gen(m)).(recovered := true)) != Load(env, before)
  {
    var before, d := Disk(files, {}, NoPointer), Disk(files - {Gen(k)}, {}, NoPointer);
    TwinIsPruned(env, files, k, m);
    OlderTwinIsListed(env, files, k, m);
    HiddenCounts(env, before, d, Gen(k), Gen(m));
    TwinIsLatest(env, files, k, m);
    RecoveredIs(CatalogOf(env, d.files), k.scanId);
    TwinWasUnpublished(env, files, k, m);
    hide TwinsAround, Pruned, Recovered, Hides;
  }

  lemma TwinIsLatest(env: Env, files: map<File, Content>, k: Name, m: Name)
    requires TwinsAround(env, files, k, m)
    requires var v := CatalogOf(env, files - {Gen(k)}); k.scanId in v && v[k.scanId] == Snap(env, files, Gen(m))
    ensures LatestPublished(CatalogOf(env, files - {Gen(k)}), k.scanId)
  {
    var u, v := CatalogOf(env, files), CatalogOf(env, files - {Gen(k)});
    forall id | id in v && v[id].published && id != k.scanId ensures SortsAfter(v[k.scanId], v[id]) {
      var f := SourceIs(env, files - {Gen(k)}, id);
      OtherStaysListed(env, files, k, f);
      CatalogFacts(env, files);
    }
  }

  lemma OtherStaysListed(env: Env, files: map<File, Content>, k: Name, f: File)
    requires Usable(env, files - {Gen(k)}, f)
      && (Accepted(env, files, Gen(k)) ==> IdOf(env, files, Gen(k)) != Snap(env, files - {Gen(k)}, f).scan.scanId)
    ensures Usable(env, files, f) && Snap(env, files, f) == Snap(env, files - {Gen(k)}, f)
  {
    forall g | Twin(env, files, f, g) ensures Earlier(f, g) { assert Twin(env, files - {Gen(k)}, f, g); }
  }

  lemma TwinWasUnpublished(env: Env, files: map<File, Content>, k: Name, m: Name)
    requires TwinsAround(env, files, k, m)
    ensures Load(env, Disk(files, {}, NoPointer)) != Found(Snap(env, files, Gen(m)).(recovered := true))
  {
    OlderTwinIsListed(env, files, k, m);
    CatalogFacts(env, files);
    UnpublishedIsNotRecovered(CatalogOf(env, files), k.scanId, Snap(env, files, Gen(m)));
    hide TwinsAround, CatalogOf, Recovered;
  }

  lemma UnpublishedIsNotRecovered(u: Catalog, id: string, s: Snapshot)
    requires Keyed(u) && id in u && !u[id].published && s.scan.scanId == id
    ensures Recovered(u) != Found(s.(recovered := true)) && forall other :: LatestPublished(u, other) ==> other != id
  {
    if other :| LatestPublished(u, other) {
      RecoveredIs(u, other);
      assert u[other].(recovered := true).scan == u[other].scan && s.(recovered := true).scan == s.scan;
    }
  }

  // ---------------------------------------------------------------- such a repository

  const ANYONE := Env("u", c => "", c => 0)
  const ELDER := Name(1, "x")
  const YOUNGER := Name(100, "x")

  /** A scan without rows. */
  function Bare(n: Name): Snapshot {
    Snapshot(n != ELDER, false, Scan(n.scanId, "u", Some(n.startedAt), Some(n.startedAt), ScanCompleted), [], [], [])
  }

  function Other(i: nat): Name { Name(2 + i, seq(i + 1, _ => 'a')) }

  function Others(n: nat): set<Name> { set i | 0 <= i < n :: Other(i) }

  const NAMES: set<Name> := Others(RETENTION) + {ELDER, YOUNGER}

  function Directory(): map<File, Content> {
    map f | f in (set n | n in NAMES :: Gen(n)) :: if f.Gen? then Encoded(Bare(f.name)) else Garbled
  }

  lemma OtherIds(i: nat, j: nat)
    requires i < j
    ensures Other(i).scanId != Other(j).scanId && Other(i) != Other(j) && Other(i).scanId != "x"
  {
    assert |Other(i).scanId| == i + 1 && |Other(j).scanId| == j + 1;
    assert Other(i).scanId[0] == 'a';
  }

  lemma CountIds(n: nat)
    ensures |set i | 0 <= i < n :: Other(i).scanId| == n
  {
    var ids := set i | 0 <= i < n :: Other(i).scanId;
    if n > 0 {
      CountIds(n - 1);
      var fewer := set i | 0 <= i < n - 1 :: Other(i).scanId;
      assert ids == fewer + {Other(n - 1).scanId};
      forall i | 0 <= i < n - 1 ensures Other(i).scanId != Other(n - 1).scanId { OtherIds(i, n - 1); }
    } else {
      assert ids == {};
    }
  }

  lemma BareIsRead(n: Name)
    requires n.scanId != ""
    ensures ReadSnapshot(ANYONE, Encoded(Bare(n))) == Good(Bare(n)) == Decode(ANYONE, Encoded(Bare(n)))
    ensures NameOf(Bare(n).scan) == n && Bare(n).scan.scanId == n.scanId
  {
    assert CleanRows([]) == [];
  }

  /** What is in a directory of bare scans. */
  ghost predicate AllBare(files: map<File, Content>) {
    && (forall f :: f in files <==> f.Gen? && f.name in NAMES)
    && (forall f | f in files ::
          && Accepted(ANYONE, files, f) && Snap(ANYONE, files, f) == Decode(ANYONE, files[f]).s == Bare(f.name)
          && NameOf(Bare(f.name).scan) == f.name && Bare(f.name).scan.scanId == f.name.scanId)
  }

  lemma DirectoryIsBare()
    ensures AllBare(Directory())
  {
    forall f | f in Directory()
      ensures Accepted(ANYONE, Directory(), f)
      ensures Snap(ANYONE, Directory(), f) == Decode(ANYONE, Directory()[f]).s == Bare(f.name)
      ensures NameOf(Bare(f.name).scan) == f.name && Bare(f.name).scan.scanId == f.name.scanId
    {
      assert f.name.scanId != "";
      BareIsRead(f.name);
    }
  }

  lemma NamesDiffer(m: Name, n: Name)
    requires m in NAMES && n in NAMES && m.scanId == n.scanId && m != n
    ensures m in {ELDER, YOUNGER} && n in {ELDER, YOUNGER}
  {
    OthersDiffer(m, n);
    OthersDiffer(n, m);
  }

  lemma OthersDiffer(m: Name, n: Name)
    requires m in NAMES && n in NAMES
    ensures m in Others(RETENTION) ==> m.scanId != n.scanId || m == n
  {
    if m in Others(RETENTION) {
      var i: nat :| i < RETENTION && m == Other(i);
      OtherIds(i, i + 1);
      if n in Others(RETENTION) {
        var j: nat :| j < RETENTION && n == Other(j);
        if i < j { OtherIds(i, j); }
        if j < i { OtherIds(j, i); }
      }
    }
  }

  lemma OnlyTwins(files: map<File, Content>, f: File, g: File)
    requires AllBare(files) && Twin(ANYONE, files, f, g)
    ensures f.Gen? && f.name in {ELDER, YOUNGER} && g.Gen? && g.name in {ELDER, YOUNGER} && f != g
  {
    hide Decode, Bare;
    NamesDiffer(f.name, g.name);
  }

  lemma OtherIsListed(files: map<File, Content>, i: nat)
    requires AllBare(files) && i < RETENTION
    ensures var u, id := CatalogOf(ANYONE, files), Other(i).scanId; id in u && u[id] == Bare(Other(i)) && id != "x"
  {
    OtherIds(i, i + 1);
    assert Other(i) in Others(RETENTION);
    hide Decode, Bare, Others;
    var f := Gen(Other(i));
    assert f in files;
    forall g ensures !Twin(ANYONE, files, f, g) {
      if Twin(ANYONE, files, f, g) { OnlyTwins(files, f, g); }
    }
    assert Usable(ANYONE, files, f);
    CatalogFacts(ANYONE, files);
  }

  function OtherScans(): set<string> { set i | 0 <= i < RETENTION :: Other(i).scanId }

  lemma ListedIsOther(files: map<File, Content>, id: string)
    requires AllBare(files) && id in CatalogOf(ANYONE, files) && id != "x"
    ensures id in OtherScans()
  {
    hide Decode, Bare, ReadSnapshot;
    var f := SourceIs(ANYONE, files, id);
    assert f in files && f.name.scanId == id;
  }

  lemma TwinsCatalog(files: map<File, Content>)
    requires AllBare(files)
    ensures var u := CatalogOf(ANYONE, files);
      u.Keys - {"x"} == OtherScans() && |u.Keys - {"x"}| == RETENTION
      && forall id | id in u && id != "x" ::
           SortsAfter(u[id], Bare(ELDER)) && SortsAfter(Bare(YOUNGER), u[id])
  {
    hide AllBare, Bare, CatalogOf, SortsAfter, Other;
    var u := CatalogOf(ANYONE, files);
    forall id ensures id in u && id != "x" <==> id in OtherScans() {
      if id in u && id != "x" { ListedIsOther(files, id); }
      if id in OtherScans() {
        var i: nat :| i < RETENTION && Other(i).scanId == id;
        OtherIsListed(files, i);
      }
    }
    assert u.Keys - {"x"} == OtherScans();
    CountIds(RETENTION);
    forall id | id in u && id != "x" ensures SortsAfter(u[id], Bare(ELDER)) && SortsAfter(Bare(YOUNGER), u[id]) {
      assert id in OtherScans();
      var i: nat :| i < RETENTION && Other(i).scanId == id;
      OtherIsListed(files, i);
      OthersBetween(i);
    }
  }

  lemma OthersBetween(i: nat)
    requires i < RETENTION
    ensures SortsAfter(Bare(Other(i)), Bare(ELDER)) && SortsAfter(Bare(YOUNGER), Bare(Other(i)))
  {
  }

  lemma TwinsAreNamed(files: map<File, Content>)
    requires AllBare(files)
    ensures WellNamed(ANYONE, files) && Twin(ANYONE, files, Gen(ELDER), Gen(YOUNGER))
    ensures Snap(ANYONE, files, Gen(YOUNGER)) == Bare(YOUNGER) && Snap(ANYONE, files, Gen(ELDER)) == Bare(ELDER)
  {
    hide Decode, ReadSnapshot, Others;
    assert Gen(ELDER) in files && Gen(YOUNGER) in files;
  }

  /** There are repositories that retention changes so. */
  lemma TwinsAroundExist()
    ensures TwinsAround(ANYONE, Directory(), ELDER, YOUNGER)
  {
    hide Directory, AllBare, CatalogOf, WellNamed, Twin, SortsAfter, Snap, OtherScans;
    DirectoryIsBare();
    var files := Directory();
    TwinsAreNamed(files);
    TwinsCatalog(files);
    TwinsAreAlone(files);
  }

  lemma TwinsAreAlone(files: map<File, Content>)
    requires AllBare(files)
    ensures forall f | Twin(ANYONE, files, Gen(ELDER), f) :: f == Gen(YOUNGER)
    ensures forall f | Twin(ANYONE, files, Gen(YOUNGER), f) :: f == Gen(ELDER)
  {
    hide AllBare, Twin;
    forall f | Twin(ANYONE, files, Gen(ELDER), f) ensures f == Gen(YOUNGER) { OnlyTwins(files, Gen(ELDER), f); }
    forall f | Twin(ANYONE, files, Gen(YOUNGER), f) ensures f == Gen(ELDER) { OnlyTwins(files, Gen(YOUNGER), f); }
  }

  // ---------------------------------------------------------------- what persisting keeps

  /** Every file that decodes, or may yet, is as it was. */
  ghost predicate KeepsFiles(before: Disk, d: Disk) {
    forall f | f in before.files && before.files[f] != Garbled :: f in d.files && d.files[f] == before.files[f]
  }

  /** The listed scans that started after a snapshot. */
  function Later(u: Catalog, s: Snapshot): set<string> { set id | id in u && StartedLater(u[id], s) }

  /** At least fifty scans started after it, the incoming one counted. */
  predicate Overtaken(u: Catalog, incoming: Snapshot, s: Snapshot) {
    |Later(u, s)| + (if StartedLater(incoming, s) then 1 else 0) >= 50
  }

  ghost predicate OvertakenFile(env: Env, before: Disk, incoming: Snapshot, f: File) {
    var u := CatalogOf(env, before.files);
    exists id :: id in u && f == FileOf(u[id]) && Overtaken(u, incoming, u[id])
  }

  /** Files are as they were, but for those that do not decode and those of scans that
      fifty others have overtaken, which may be gone. */
  ghost predicate KeepsAll(env: Env, before: Disk, d: Disk, incoming: Snapshot) {
    forall f | f in before.files && before.files[f] != Garbled ::
      if f in d.files then d.files[f] == before.files[f] else OvertakenFile(env, before, incoming, f)
  }

  /** The incoming scan is in its file, unless fifty others started after it. */
  ghost predicate Stores(env: Env, before: Disk, d: Disk, incoming: Snapshot, published: bool) {
    var f := FileOf(incoming);
    if f in d.files then d.files[f] == Encoded(incoming.(published := published))
    else |Later(CatalogOf(env, before.files), incoming)| >= 50
  }

  lemma KeepingIsKeepingAll(env: Env, before: Disk, d: Disk, incoming: Snapshot)
    requires KeepsFiles(before, d)
    ensures KeepsAll(env, before, d, incoming)
  {
    hide CatalogOf;
  }

  /** A file of another scan reads the same before and after. */
  lemma OthersRead(env: Env, before: Disk, written: Disk, incoming: Snapshot, f: File)
    requires KeepsFiles(before, written) && Adds(before, written, incoming)
    requires forall g | Accepted(env, before.files, g) :: IdOf(env, before.files, g) != incoming.scan.scanId
    ensures Accepted(env, before.files, f) <==>
              Accepted(env, written.files, f) && IdOf(env, written.files, f) != incoming.scan.scanId
    ensures Accepted(env, before.files, f) ==> Snap(env, written.files, f) == Snap(env, before.files, f)
    ensures Accepted(env, written.files, f) && IdOf(env, written.files, f) == incoming.scan.scanId ==>
              Snap(env, written.files, f).scan == incoming.scan
  {
    hide SnapshotValid, CleanRows;
  }

  lemma UnusedMeans(env: Env, files: map<File, Content>, id: string)
    requires WellNamed(env, files) && id !in CatalogOf(env, files)
    ensures forall f | Accepted(env, files, f) :: IdOf(env, files, f) != id
  {
    CatalogFacts(env, files);
    hide CatalogOf;
    forall f | Accepted(env, files, f) ensures IdOf(env, files, f) != id {
      var first := FirstIsUsable(env, files, f, set g | g in files && Twin(env, files, f, g) && Earlier(g, f));
    }
  }

  lemma OthersUsable(env: Env, before: Disk, written: Disk, incoming: Snapshot, f: File)
    requires KeepsFiles(before, written) && Adds(before, written, incoming)
    requires forall g | Accepted(env, before.files, g) :: IdOf(env, before.files, g) != incoming.scan.scanId
    ensures Usable(env, before.files, f) <==>
              Usable(env, written.files, f) && IdOf(env, written.files, f) != incoming.scan.scanId
  {
    forall g
      ensures Accepted(env, before.files, g) <==>
                Accepted(env, written.files, g) && IdOf(env, written.files, g) != incoming.scan.scanId
      ensures Accepted(env, before.files, g) ==> IdOf(env, written.files, g) == IdOf(env, before.files, g)
    {
      OthersRead(env, before, written, incoming, g);
    }
    hide KeepsFiles, Adds, ReadSnapshot;
    if Accepted(env, before.files, f) {
      forall g ensures Twin(env, before.files, f, g) <==> Twin(env, written.files, f, g) {}
    }
  }

  /** The listing after a scan was written is the listing before, and perhaps that scan. */
  lemma ListingGrows(env: Env, before: Disk, written: Disk, incoming: Snapshot)
    requires KeepsFiles(before, written) && Adds(before, written, incoming) && WellNamed(env, before.files)
    requires incoming.scan.scanId !in CatalogOf(env, before.files)
    ensures var u, v, own := CatalogOf(env, before.files), CatalogOf(env, written.files), incoming.scan.scanId;
      && (forall id | id != own :: id in u <==> id in v) && (forall id | id in u :: id in v && v[id] == u[id])
      && (own in v ==> v[own].scan == incoming.scan)
  {
    var u, v, own := CatalogOf(env, before.files), CatalogOf(env, written.files), incoming.scan.scanId;
    UnusedMeans(env, before.files, own);
    CatalogFacts(env, before.files);
    CatalogFacts(env, written.files);
    hide CatalogOf, KeepsFiles, Adds, Usable;
    forall id | id in u ensures id in v && v[id] == u[id] {
      var f := SourceIs(env, before.files, id);
      OthersUsable(env, before, written, incoming, f);
      OthersRead(env, before, written, incoming, f);
    }
    forall id | id in v && id != own ensures id in u {
      var f := SourceIs(env, written.files, id);
      OthersUsable(env, before, written, incoming, f);
      OthersRead(env, before, written, incoming, f);
    }
    if own in v {
      var f := SourceIs(env, written.files, own);
      OthersRead(env, before, written, incoming, f);
    }
  }

  lemma SameScanSameOrder(a: Snapshot, b: Snapshot, c: Snapshot)
    requires a.scan == b.scan
    ensures StartedLater(a, c) <==> StartedLater(b, c)
    ensures StartedLater(c, a) <==> StartedLater(c, b)
  {
  }

  /** Surplus after the scan was written means overtaken before. */
  lemma SurplusIsOvertaken(u: Catalog, v: Catalog, incoming: Snapshot, keep: Option<string>, id: string)
    requires Keyed(v) && id in Surplus(v, keep)
    requires (forall other | other != incoming.scan.scanId :: other in u <==> other in v)
      && (forall other | other in u :: other in v && v[other] == u[other])
    requires incoming.scan.scanId !in u
    requires incoming.scan.scanId in v ==> v[incoming.scan.scanId].scan == incoming.scan
    ensures id in u ==> Overtaken(u, incoming, u[id])
    ensures id !in u ==> id == incoming.scan.scanId && |Later(u, incoming)| >= 50
  {
    var own := incoming.scan.scanId;
    forall other | other in v ensures StartedLater(v[other], v[id]) <==> other in Newer(v, id) {
      SortsAfterMeans(v[other], v[id]);
    }
    AfterTotal(NameOf(v[id].scan), NameOf(v[id].scan));
    assert |Newer(v, id)| >= RETENTION;
    hide StartedLater, SortsAfter, Surplus;
    var s := if id in u then u[id] else incoming;
    forall other | other in v ensures StartedLater(v[other], v[id]) <==> StartedLater(v[other], s) {
      SameScanSameOrder(v[id], s, v[other]);
    }
    if own in v { SameScanSameOrder(v[own], incoming, s); }
    var bound := Later(u, s) + if StartedLater(incoming, s) then {own} else {};
    assert Newer(v, id) <= if id in u then bound else Later(u, s);
    SubsetSize(Newer(v, id), if id in u then bound else Later(u, s));
  }

  lemma RemovedIsOvertaken(env: Env, before: Disk, written: Disk, incoming: Snapshot, f: File)
    requires KeepsFiles(before, written) && Adds(before, written, incoming) && WellNamed(env, before.files)
    requires incoming.scan.scanId !in CatalogOf(env, before.files) && IsSurplusFile(env, written, f)
    ensures if f == FileOf(incoming) then |Later(CatalogOf(env, before.files), incoming)| >= 50
            else OvertakenFile(env, before, incoming, f)
  {
    var u, v := CatalogOf(env, before.files), CatalogOf(env, written.files);
    ListingGrows(env, before, written, incoming);
    CatalogFacts(env, written.files);
    hide CatalogOf, Adds, KeepsFiles, Later, WellNamed, Overtaken, Newer;
    var id :| id in Surplus(v, Protected(env, written)) && f == FileOf(v[id]);
    SurplusIsOvertaken(u, v, incoming, Protected(env, written), id);
  }

  /** Pruning after a scan was written keeps all but overtaken files. */
  lemma PruningKeepsAll(env: Env, before: Disk, written: Disk, d: Disk, incoming: Snapshot, published: bool)
    requires KeepsFiles(before, written) && Adds(before, written, incoming) && WellNamed(env, before.files)
    requires incoming.scan.scanId !in CatalogOf(env, before.files) && Shrunk(env, written, d)
    requires FileOf(incoming) in before.files ==> before.files[FileOf(incoming)] == Garbled
    ensures KeepsAll(env, before, d, incoming)
    ensures FileOf(incoming) in written.files && written.files[FileOf(incoming)]
                                                 == Encoded(incoming.(published := published)) ==>
              Stores(env, before, d, incoming, published)
  {
    hide CatalogOf, Adds, Later, WellNamed, IsSurplusFile, OvertakenFile, FileOf;
    forall f | f in written.files && f !in d.files && written.files[f] != Garbled
      ensures if f == FileOf(incoming) then |Later(CatalogOf(env, before.files), incoming)| >= 50
              else OvertakenFile(env, before, incoming, f)
    {
      RemovedIsOvertaken(env, before, written, incoming, f);
    }
  }
}
