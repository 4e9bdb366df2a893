/** What the repository's files mean after a load, a write or a removal. */
module StoreRepoTheorems {
  import opened Wrappers
  import opened Text
  import opened StoreModel
  import opened StoreReconcile
  import opened StoreTheorems
  import opened StorePipeline
  import opened StoreRepoModel

  // ---------------------------------------------------------------- the order is total

  lemma AfterTotal(a: Name, b: Name)
    ensures !After(a, a) && !(After(a, b) && After(b, a)) && (a != b ==> After(a, b) || After(b, a))
  {
    LexTotal(a.scanId, a.scanId);
    LexTotal(a.scanId, b.scanId);
    LexTotal(b.scanId, a.scanId);
  }

  lemma AfterTransitive(a: Name, b: Name, c: Name)
    requires After(a, b) && After(b, c)
    ensures After(a, c)
  {
    if a.startedAt == b.startedAt == c.startedAt { LexTransitive(c.scanId, b.scanId, a.scanId); }
  }

  /** A catalog's entries are filed under their own scan IDs. */
  predicate Keyed(u: Catalog) { forall id | id in u :: u[id].scan.scanId == id }

  lemma LatestIsUnique(u: Catalog, a: string, b: string)
    requires LatestPublished(u, a) && LatestPublished(u, b)
    ensures a == b
  {
    AfterTotal(NameOf(u[a].scan), NameOf(u[b].scan));
  }

  lemma RecoveredIs(u: Catalog, id: string)
    requires LatestPublished(u, id)
    ensures Recovered(u) == Found(u[id].(recovered := true))
  {
    forall other | LatestPublished(u, other) ensures other == id { LatestIsUnique(u, other, id); }
  }

  /** Some entry is published, so one of them is the latest. */
  lemma PublishedHasLatest(u: Catalog, id: string)
    requires Keyed(u) && id in u && u[id].published
    ensures exists latest :: LatestPublished(u, latest)
  {
    var candidates := set other | other in u && u[other].published;
    var latest := Greatest(u, candidates, id);
    assert LatestPublished(u, latest);
  }

  lemma Greatest(u: Catalog, ids: set<string>, id: string) returns (greatest: string)
    requires Keyed(u) && ids <= u.Keys && id in ids
    ensures greatest in ids && forall k | k in ids && k != greatest :: SortsAfter(u[greatest], u[k])
    decreases ids
  {
    if rest :| rest in ids && rest != id {
      var k := Greatest(u, ids - {id}, rest);
      AfterTotal(NameOf(u[k].scan), NameOf(u[id].scan));
      greatest := if SortsAfter(u[k], u[id]) then k else id;
      forall j | j in ids && j != greatest ensures SortsAfter(u[greatest], u[j]) {
        if greatest == id && j != k { AfterTransitive(NameOf(u[id].scan), NameOf(u[k].scan), NameOf(u[j].scan)); }
      }
    } else {
      greatest := id;
    }
  }

  // ---------------------------------------------------------------- the catalog

  lemma CatalogFacts(env: Env, files: map<File, Content>)
    ensures var u := CatalogOf(env, files);
      && Keyed(u)
      && (forall f | Usable(env, files, f) :: IdOf(env, files, f) in u && u[IdOf(env, files, f)] == Snap(env, files, f))
      && (forall id | id in u :: exists f :: IsSource(env, files, f, id))
  {
    var u := CatalogOf(env, files);
    UsableFilesDiffer(env, files);
    forall f | Usable(env, files, f)
      ensures IdOf(env, files, f) in u && u[IdOf(env, files, f)] == Snap(env, files, f)
    {
      assert f in files && IdOf(env, files, f) in UsableIds(env, files);
      assert IsSource(env, files, SourceOf(env, files, IdOf(env, files, f)), IdOf(env, files, f));
    }
    forall id | id in u ensures u[id].scan.scanId == id && exists f :: IsSource(env, files, f, id) {
      assert IsSource(env, files, SourceOf(env, files, id), id);
    }
  }

  lemma SourceIs(env: Env, files: map<File, Content>, id: string) returns (f: File)
    requires id in CatalogOf(env, files)
    ensures Usable(env, files, f) && IdOf(env, files, f) == id && CatalogOf(env, files)[id] == Snap(env, files, f)
  {
    CatalogFacts(env, files);
    f :| IsSource(env, files, f, id);
  }

  lemma EarlierOrder(a: File, b: File, c: File)
    ensures !Earlier(a, a) && !(Earlier(a, b) && Earlier(b, a))
    ensures Earlier(a, b) && Earlier(b, c) ==> Earlier(a, c)
  {
  }

  /** Files of one scan stand in an order. */
  lemma TwinsOrdered(env: Env, files: map<File, Content>, f: File, g: File)
    requires WellNamed(env, files) && Twin(env, files, f, g)
    ensures Earlier(f, g) || Earlier(g, f)
  {
    if f.Gen? && g.Gen? {
      assert NameOf(Snap(env, files, f).scan) == f.name && NameOf(Snap(env, files, g).scan) == g.name;
    }
  }

  /** If a scan ID occurs in a readable file, then in a usable one. */
  lemma FirstIsUsable(env: Env, files: map<File, Content>, f: File, same: set<File>) returns (first: File)
    requires WellNamed(env, files) && Accepted(env, files, f)
    requires same == set g | g in files && Twin(env, files, f, g) && Earlier(g, f)
    ensures Usable(env, files, first) && IdOf(env, files, first) == IdOf(env, files, f)
    ensures first == f || Earlier(first, f)
    decreases |same|
  {
    first := f;
    if g :| g in same {
      var below := set h | h in files && Twin(env, files, g, h) && Earlier(h, g);
      forall h | h in below ensures h in same && h != g { EarlierOrder(h, g, f); }
      SmallerSet(below, same, g);
      first := FirstIsUsable(env, files, g, below);
      EarlierOrder(first, g, f);
    } else {
      forall g | Twin(env, files, f, g) ensures Earlier(f, g) {
        TwinsOrdered(env, files, f, g);
        assert g !in same;
      }
    }
  }

  lemma SmallerSet(a: set<File>, b: set<File>, x: File)
    requires a <= b - {x} && x in b
    ensures |a| < |b|
  {
    SubsetSize(a, b - {x});
  }

  // ---------------------------------------------------------------- storing and reading back

  lemma StoredRowIsClean(p: Published)
    ensures CleanRow(StoredRow(p)) == StoredRow(p)
    ensures CleanRow(p).exact ==> TargetValid(CleanRow(p)) && TargetValid(StoredRow(p))
  {
    if p.a.target.Some? {
      TrimIdem(p.productId);
      TrimIdem(p.updateId);
      TrimIdem(p.a.target.value.productId);
      TrimIdem(p.a.target.value.updateId);
    }
  }

  /** What is written is what is read: a stored snapshot decodes to itself. */
  lemma StoredDecodes(env: Env, s: Snapshot)
    requires SnapshotValid(Clean(s)) && s.scan.userSid == env.user
    ensures Clean(StoredForm(s)) == StoredForm(s) && SnapshotValid(StoredForm(s))
    ensures Decode(env, Encoded(StoredForm(s))) == Good(StoredForm(s))
  {
    var stored := StoredForm(s);
    forall i | 0 <= i < |s.rows| ensures CleanRow(stored.rows[i]) == stored.rows[i] {
      StoredRowIsClean(s.rows[i]);
    }
    assert Clean(stored).rows == stored.rows;
    forall p | p in stored.rows
      ensures p.a.scanId == s.scan.scanId && p.a.identity.userSid == s.scan.userSid && p.a.identity.Resolved()
      ensures p.exact ==> TargetValid(p)
    {
      var i :| 0 <= i < |s.rows| && stored.rows[i] == p;
      assert CleanRows(s.rows)[i] in Clean(s).rows;
      StoredRowIsClean(s.rows[i]);
    }
  }

  // ---------------------------------------------------------------- quarantine

  /** Files that did not decode as JSON may have been renamed away. */
  ghost predicate QuarantinedFrom(before: Disk, d: Disk) {
    && d.pointer == before.pointer && before.quarantined <= d.quarantined
    && d.files.Keys <= before.files.Keys
    && (forall f | f in d.files :: d.files[f] == before.files[f])
    && (forall f | f in before.files && f !in d.files :: before.files[f] == Garbled && f in d.quarantined)
  }

  lemma QuarantineComposes(a: Disk, b: Disk, c: Disk)
    requires QuarantinedFrom(a, b) && QuarantinedFrom(b, c)
    ensures QuarantinedFrom(a, c)
  {
  }

  ghost predicate SameSnapshots(env: Env, a: map<File, Content>, b: map<File, Content>) {
    && (forall f :: Accepted(env, a, f) <==> Accepted(env, b, f))
    && (forall f | Accepted(env, a, f) :: Snap(env, a, f) == Snap(env, b, f))
  }

  lemma SameCatalog(env: Env, a: map<File, Content>, b: map<File, Content>)
    requires SameSnapshots(env, a, b)
    ensures CatalogOf(env, a) == CatalogOf(env, b)
  {
    forall f, g ensures Twin(env, a, f, g) <==> Twin(env, b, f, g) {}
    forall f ensures Usable(env, a, f) <==> Usable(env, b, f) {}
    CatalogFacts(env, a);
    CatalogFacts(env, b);
    var u, v := CatalogOf(env, a), CatalogOf(env, b);
    forall id ensures id in u <==> id in v {
      if id in u {
        var f := SourceIs(env, a, id);
        assert Usable(env, b, f);
      }
      if id in v {
        var f := SourceIs(env, b, id);
        assert Usable(env, a, f);
      }
    }
    forall id | id in u ensures u[id] == v[id] {
      var f := SourceIs(env, a, id);
      assert Usable(env, b, f);
    }
  }

  lemma QuarantineKeepsSnapshots(env: Env, before: Disk, d: Disk)
    requires QuarantinedFrom(before, d)
    ensures SameSnapshots(env, before.files, d.files)
    ensures WellNamed(env, before.files) ==> WellNamed(env, d.files)
  {
  }

  lemma QuarantineKeepsPointed(env: Env, before: Disk, d: Disk, p: Pointer)
    requires QuarantinedFrom(before, d)
    ensures ReadPointed(env, before.files, p) == ReadPointed(env, d.files, p)
            || (ReadPointed(env, before.files, p).Bad? && ReadPointed(env, d.files, p).Bad?
                && !Stops(ReadPointed(env, before.files, p).fault) && !Stops(ReadPointed(env, d.files, p).fault))
  {
  }

  /** Quarantining files that do not decode changes neither what the pointer commits
      to nor what a load returns. */
  lemma QuarantineChangesNothing(env: Env, before: Disk, d: Disk)
    requires QuarantinedFrom(before, d)
    ensures Committed(env, d) == Committed(env, before) && Load(env, d) == Load(env, before)
    ensures CatalogOf(env, d.files) == CatalogOf(env, before.files) && Protected(env, d) == Protected(env, before)
    ensures SameSnapshots(env, before.files, d.files)
    ensures WellNamed(env, before.files) ==> WellNamed(env, d.files)
  {
    QuarantineKeepsSnapshots(env, before, d);
    SameCatalog(env, before.files, d.files);
    SameLoad(env, before, d);
    hide *;
  }

  lemma SameLoad(env: Env, before: Disk, d: Disk)
    requires QuarantinedFrom(before, d) && CatalogOf(env, before.files) == CatalogOf(env, d.files)
    ensures Committed(env, d) == Committed(env, before) && Load(env, d) == Load(env, before)
    ensures Protected(env, d) == Protected(env, before)
  {
    hide ReadPointed, CatalogOf, LatestPublished, Recovered;
    if d.pointer.At? {
      QuarantineKeepsPointed(env, before, d, d.pointer.pointer);
      hide QuarantinedFrom;
    }
    SameProtected(env, before, d);
  }

  lemma SameProtected(env: Env, before: Disk, d: Disk)
    requires CatalogOf(env, before.files) == CatalogOf(env, d.files) && Load(env, d) == Load(env, before)
    ensures Protected(env, d) == Protected(env, before)
  {
    hide Load, CatalogOf;
    var u := CatalogOf(env, d.files);
    if id :| LatestPublished(u, id) {
      forall other | LatestPublished(u, other) ensures other == id { LatestIsUnique(u, other, id); }
    }
  }

  /** Of two files of one scan a temporary one counts before a generation, and otherwise
      the one whose name comes first. */
  lemma FirstTwinCounts(env: Env, files: map<File, Content>, f: File, g: File)
    requires Twin(env, files, f, g)
    ensures f.Temp? && (g.Gen? || f.k < g.k) ==> !Usable(env, files, g)
    ensures f.Gen? && g.Gen? && f.name.startedAt < g.name.startedAt ==> !Usable(env, files, g)
  {
    assert Twin(env, files, g, f);
    hide ReadSnapshot;
  }

  // ---------------------------------------------------------------- when a load fails

  /** The file a current-pointer file names, if it is there. */
  function PointedContent(d: Disk): Option<Content> {
    if d.pointer.At? && d.pointer.pointer.target.Some? && d.pointer.pointer.target.value in d.files then
      Some(d.files[d.pointer.pointer.target.value])
    else None
  }

  /** What keeps the repository from being read at all: a locked pointer or pointed file,
      or one with the recorded digest that a newer program or another user wrote. */
  ghost predicate BlockedBy(env: Env, d: Disk, f: Fault) {
    var c := PointedContent(d);
    match f
    case AccessDenied => d.pointer == LockedPointer || c == Some(Locked)
    case FutureSchema => c == Some(NewerSchema) && EqualFold(env.sha(NewerSchema), d.pointer.pointer.sha)
    case ForeignUser =>
      c.Some? && c.value.Encoded? && c.value.s.scan.userSid != env.user
          && EqualFold(env.sha(c.value), d.pointer.pointer.sha)
    case _ => false
  }

  /** A load fails exactly over that, and with that fault; otherwise it follows the
      pointer, or finds a snapshot flagged as recovered, or nothing. */
  lemma LoadFailsExactlyWhen(env: Env, d: Disk)
    ensures forall f :: Load(env, d) == Failed(f) <==> BlockedBy(env, d, f)
    ensures !Load(env, d).Failed? && Committed(env, d).None? ==>
              Load(env, d) == Nothing || (Load(env, d).Found? && Load(env, d).s.recovered && Load(env, d).s.published)
  {
    hide CatalogOf;
    if id :| LatestPublished(CatalogOf(env, d.files), id) { RecoveredIs(CatalogOf(env, d.files), id); }
  }

  /** Which files a listing can use: those of at most sixteen mebibytes that decode to a
      valid snapshot of this user. */
  lemma AcceptedExactlyWhen(env: Env, files: map<File, Content>, f: File)
    ensures Accepted(env, files, f) <==>
              && f in files && files[f].Encoded? && env.size(files[f]) <= 16 * 1024 * 1024
              && files[f].s.scan.userSid == env.user && SnapshotValid(Clean(files[f].s))
    ensures Accepted(env, files, f) ==> Snap(env, files, f) == Clean(files[f].s)
  {
    hide SnapshotValid, CleanRows;
  }

  /** What the pointer is worth: the snapshot it names, in full, exactly if the file is
      there and decodes for this user, and digest, scan and start are the recorded ones. */
  lemma CommittedExactlyWhen(env: Env, d: Disk)
    ensures var c := PointedContent(d);
      Committed(env, d).Some? <==>
        && c.Some? && c.value.Encoded? && EqualFold(env.sha(c.value), d.pointer.pointer.sha)
        && c.value.s.scan.userSid == env.user && SnapshotValid(Clean(c.value.s))
        && c.value.s.scan.scanId == d.pointer.pointer.scanId
        && c.value.s.scan.startedAt == Some(d.pointer.pointer.startedAt)
    ensures Committed(env, d).Some? ==>
      Committed(env, d) == Some(Clean(PointedContent(d).value.s).(published := true))
  {
    hide SnapshotValid, CleanRows;
  }

  /** The later start, then the scan ID that sorts later. */
  predicate StartedLater(a: Snapshot, b: Snapshot) {
    || Begin(b.scan) < Begin(a.scan)
    || (Begin(a.scan) == Begin(b.scan) && LexLess(b.scan.scanId, a.scan.scanId))
  }

  function Begin(scan: Scan): nat { if scan.startedAt.Some? then scan.startedAt.value else 0 }

  lemma SortsAfterMeans(a: Snapshot, b: Snapshot)
    ensures SortsAfter(a, b) <==> StartedLater(a, b)
  {
  }

  /** A published generation of the listing. */
  ghost predicate Offers(env: Env, files: map<File, Content>, f: File) {
    Usable(env, files, f) && Snap(env, files, f).published
  }

  /** A load that neither fails nor follows the pointer finds the newest published
      generation of the directory, flagged as recovered, or nothing if there is none. */
  lemma FallbackIsTheNewest(env: Env, d: Disk)
    requires Committed(env, d).None? && !Load(env, d).Failed?
    ensures Load(env, d) == Nothing <==> forall f :: !Offers(env, d.files, f)
    ensures Load(env, d).Found? ==> exists f ::
              && Offers(env, d.files, f) && Load(env, d).s == Snap(env, d.files, f).(recovered := true)
              && forall g | Offers(env, d.files, g) && g != f ::
                   StartedLater(Snap(env, d.files, f), Snap(env, d.files, g))
  {
    var u := CatalogOf(env, d.files);
    assert Load(env, d) == Recovered(u) by { hide CatalogOf, Recovered; }
    CatalogFacts(env, d.files);
    hide CatalogOf, Usable, Load, Committed, StartedLater, SortsAfter;
    if f :| Offers(env, d.files, f) {
      OffersAreUsable(env, d.files, f);
      PublishedHasLatest(u, IdOf(env, d.files, f));
    }
    if id :| LatestPublished(u, id) {
      RecoveredIs(u, id);
      var f := SourceIs(env, d.files, id);
      NewestOffer(env, d.files, u, id, f);
    }
  }

  lemma OffersAreUsable(env: Env, files: map<File, Content>, f: File)
    requires Offers(env, files, f)
    ensures Usable(env, files, f) && Accepted(env, files, f) && Snap(env, files, f).published
  {
  }

  lemma NewestOffer(env: Env, files: map<File, Content>, u: Catalog, id: string, f: File)
    requires u == CatalogOf(env, files) && LatestPublished(u, id)
    requires Usable(env, files, f) && IdOf(env, files, f) == id && u[id] == Snap(env, files, f)
    ensures Offers(env, files, f)
    ensures forall g | Offers(env, files, g) && g != f :: StartedLater(Snap(env, files, f), Snap(env, files, g))
  {
    CatalogFacts(env, files);
    UsableFilesDiffer(env, files);
    hide CatalogOf, StartedLater, SortsAfter, ReadSnapshot;
    forall g | Offers(env, files, g) && g != f ensures StartedLater(Snap(env, files, f), Snap(env, files, g)) {
      SortsAfterMeans(Snap(env, files, f), Snap(env, files, g));
    }
  }

  /** Everything in a snapshot is about one user and one scan. */
  predicate SpeaksFor(s: Snapshot, user: string) {
    && s.scan.userSid == user && user != "" && s.scan.scanId != "" && s.scan.startedAt.Some?
    && (forall f | f in s.families :: f.identity.userSid == user && f.identity.pfn != "")
    && (forall r | r in s.runs ::
          && (forall o | o in r.observations ::
                o.identity.userSid == user && o.identity.pfn != "" && o.scanId == s.scan.scanId)
          && (forall m | m in r.mappings ::
                m.scanId == s.scan.scanId && m.verifiedAt.Some? && LooksLikeProductId(m.productId)))
    && (forall p | p in s.rows ::
          && p.a.identity.userSid == user && p.a.identity.pfn != "" && p.a.scanId == s.scan.scanId
          && (p.exact ==> p.a.target.Some? && p.a.target.value.ExactFor(p.a.identity)
                          && (Trim(p.productId) == "" || Trim(p.productId) == Trim(p.a.target.value.productId))
                          && (Trim(p.updateId) == "" || Trim(p.updateId) == Trim(p.a.target.value.updateId))))
  }

  lemma ValidSpeaksFor(s: Snapshot)
    requires SnapshotValid(s)
    ensures SpeaksFor(s, s.scan.userSid)
  {
    hide LooksLikeProductId, Trim;
  }

  /** Whatever a load finds, committed or recovered, is about the user it was asked for and
      about one scan, down to the last row. */
  lemma LoadedSpeaksForTheUser(env: Env, d: Disk)
    requires Load(env, d).Found?
    ensures SpeaksFor(Load(env, d).s, env.user)
  {
    var s := Load(env, d).s;
    assert SnapshotValid(s) && s.scan.userSid == env.user by {
      hide SnapshotValid, CatalogOf;
      if Committed(env, d).Some? {
        UnflaggedComesThroughThePointer(env, d);
      } else {
        FallbackIsTheNewest(env, d);
        var f :| Offers(env, d.files, f) && s == Snap(env, d.files, f).(recovered := true);
        SnapIsValid(env, d.files, f);
        SameButFlagged(Snap(env, d.files, f), s);
      }
    }
    hide *;
    ValidSpeaksFor(s);
  }

  lemma SnapIsValid(env: Env, files: map<File, Content>, f: File)
    requires Accepted(env, files, f)
    ensures SnapshotValid(Snap(env, files, f)) && Snap(env, files, f).scan.userSid == env.user
  {
    hide SnapshotValid;
  }

  lemma SameButFlagged(s: Snapshot, t: Snapshot)
    requires SnapshotValid(s) && t == s.(recovered := true)
    ensures SnapshotValid(t)
  {
    hide RunValid, TargetValid;
  }

  // ---------------------------------------------------------------- where a result comes from

  /** A load that is not flagged as recovered came through a pointer whose digest,
      scan ID, start time and user match the generation read; and whatever the
      pointer commits to is what a load returns. */
  lemma UnflaggedComesThroughThePointer(env: Env, d: Disk)
    ensures Committed(env, d).Some? ==> Load(env, d) == Found(Committed(env, d).value)
    ensures Load(env, d).Found? && !Load(env, d).s.recovered ==> Committed(env, d) == Some(Load(env, d).s)
    ensures Committed(env, d).Some? ==>
              var s, p := Committed(env, d).value, d.pointer.pointer;
              && p.target.Some? && p.target.value in d.files && EqualFold(env.sha(d.files[p.target.value]), p.sha)
              && s.published && s.scan.scanId == p.scanId && s.scan.startedAt == Some(p.startedAt)
              && s.scan.userSid == env.user && SnapshotValid(s)
  {
  }

  // ---------------------------------------------------------------- retention

  ghost predicate IsSurplusFile(env: Env, before: Disk, f: File) {
    exists id :: id in Surplus(CatalogOf(env, before.files), Protected(env, before))
                 && f == FileOf(CatalogOf(env, before.files)[id])
  }

  /** Garbled files and files beyond retention may be gone; nothing else changed. */
  ghost predicate Shrunk(env: Env, before: Disk, d: Disk) {
    && d.pointer == before.pointer
    && d.files.Keys <= before.files.Keys
    && (forall f | f in d.files :: d.files[f] == before.files[f])
    && (forall f | f in before.files && f !in d.files :: before.files[f] == Garbled || IsSurplusFile(env, before, f))
  }

  /** Pruning never removes what the pointer commits to. */
  lemma PruneKeepsCommitted(env: Env, before: Disk, d: Disk)
    requires WellNamed(env, before.files) && Shrunk(env, before, d)
    ensures Committed(env, d) == Committed(env, before)
  {
    if before.pointer.At? {
      var p := before.pointer.pointer;
      if Committed(env, before).Some? {
        PointedStays(env, before, p);
      } else if p.target.Some? && p.target.value in d.files {
        assert d.files[p.target.value] == before.files[p.target.value];
      }
    }
  }

  lemma PointedStays(env: Env, before: Disk, p: Pointer)
    requires WellNamed(env, before.files) && before.pointer == At(p) && ReadPointed(env, before.files, p).Good?
    ensures before.files[p.target.value] != Garbled && !IsSurplusFile(env, before, p.target.value)
  {
    var f, u := p.target.value, CatalogOf(env, before.files);
    assert Protected(env, before) == Some(p.scanId);
    CatalogFacts(env, before.files);
    if f.Gen? { assert NameOf(Decode(env, before.files[f]).s.scan) == f.name; }
  }

  lemma ShrunkKeepsNames(env: Env, before: Disk, d: Disk)
    requires WellNamed(env, before.files) && Shrunk(env, before, d)
    ensures WellNamed(env, d.files)
  {
  }

  /** No two readable files carry the same scan ID. */
  ghost predicate UniqueIds(env: Env, files: map<File, Content>) { forall f, g :: !Twin(env, files, f, g) }

  /** As long as k is there, m, the next file with its scan ID, does not count. */
  ghost predicate Hides(env: Env, files: map<File, Content>, k: File, m: File) {
    && Usable(env, files, k) && Twin(env, files, k, m)
    && forall j | Twin(env, files, m, j) && j != k :: Earlier(m, j)
  }

  /** What k hides is published, and newer than all a recovery can choose from. */
  ghost predicate HidesNewest(env: Env, files: map<File, Content>, k: File) {
    exists m :: Hides(env, files, k, m) && Snap(env, files, m).published
                && forall id | LatestPublished(CatalogOf(env, files), id) ::
                     SortsAfter(Snap(env, files, m), CatalogOf(env, files)[id])
  }

  /** The load of one disk does not depend on a recovery, and on the other neither: it
      follows the pointer, or fails over a file that is still there. */
  ghost predicate Settled(env: Env, before: Disk, d: Disk) {
    || Committed(env, before).Some?
    || (Load(env, before).Failed? && (before.pointer.At? ==> before.pointer.pointer.target.value in d.files))
  }

  /** What is left of the files reads as before; what is gone was usable or did not count
      beside a temporary file, and its scan was surplus. */
  lemma ShrunkFiles(env: Env, before: Disk, d: Disk, f: File)
    requires WellNamed(env, before.files) && Shrunk(env, before, d)
    ensures Accepted(env, d.files, f) <==> Accepted(env, before.files, f) && f in d.files
    ensures Accepted(env, d.files, f) ==> Snap(env, d.files, f) == Snap(env, before.files, f)
    ensures Accepted(env, before.files, f) && f !in d.files ==>
              f.Gen? && IdOf(env, before.files, f) in Surplus(CatalogOf(env, before.files), Protected(env, before))
              && f == FileOf(CatalogOf(env, before.files)[IdOf(env, before.files, f)])
  {
    if Accepted(env, before.files, f) && f !in d.files {
      var id :| id in Surplus(CatalogOf(env, before.files), Protected(env, before))
                && f == FileOf(CatalogOf(env, before.files)[id]);
      CatalogFacts(env, before.files);
      assert NameOf(Snap(env, before.files, f).scan) == f.name;
    }
  }

  /** Of the files of one scan at most one is removed: the usable one, unless that is a
      temporary file. */
  lemma RemovedOnce(env: Env, before: Disk, d: Disk, f: File, g: File)
    requires WellNamed(env, before.files) && Shrunk(env, before, d) && Twin(env, before.files, f, g)
    ensures f in d.files || g in d.files
  {
    ShrunkFiles(env, before, d, f);
    ShrunkFiles(env, before, d, g);
  }

  /** Where the usable file survives, the catalog's entry does. */
  lemma SurvivorCounts(env: Env, before: Disk, d: Disk, f: File)
    requires WellNamed(env, before.files) && Shrunk(env, before, d) && Usable(env, before.files, f) && f in d.files
    ensures Usable(env, d.files, f)
    ensures var id := IdOf(env, before.files, f);
      && id in CatalogOf(env, before.files) && id in CatalogOf(env, d.files)
      && CatalogOf(env, d.files)[id] == CatalogOf(env, before.files)[id] == Snap(env, before.files, f)
  {
    ShrunkFiles(env, before, d, f);
    forall g | Twin(env, d.files, f, g) ensures Earlier(f, g) {
      ShrunkFiles(env, before, d, g);
      assert Twin(env, before.files, f, g);
    }
    CatalogFacts(env, before.files);
    CatalogFacts(env, d.files);
  }

  /** A file that pruning made usable was hidden by a removed one. */
  lemma NewlyUsable(env: Env, before: Disk, d: Disk, m: File) returns (k: File)
    requires WellNamed(env, before.files) && Shrunk(env, before, d)
    requires Usable(env, d.files, m) && !Usable(env, before.files, m)
    ensures k in before.files && k !in d.files && Hides(env, before.files, k, m)
  {
    ShrunkFiles(env, before, d, m);
    k := FirstIsUsable(env, before.files, m,
                       set g | g in before.files && Twin(env, before.files, m, g) && Earlier(g, m));
    if k in d.files {
      ShrunkFiles(env, before, d, k);
      assert Twin(env, d.files, m, k) && Twin(env, before.files, k, m);
      EarlierOrder(k, m, k);
      assert false;
    }
    forall j | Twin(env, before.files, m, j) && j != k ensures Earlier(m, j) {
      if j !in d.files { RemovedOnce(env, before, d, k, j); }
      ShrunkFiles(env, before, d, j);
      assert Twin(env, d.files, m, j);
    }
  }

  /** What a removed file hid counts afterwards. */
  lemma HiddenCounts(env: Env, before: Disk, d: Disk, k: File, m: File)
    requires WellNamed(env, before.files) && Shrunk(env, before, d) && k !in d.files && Hides(env, before.files, k, m)
    ensures Usable(env, d.files, m) && Snap(env, d.files, m) == Snap(env, before.files, m)
    ensures IdOf(env, d.files, m) in CatalogOf(env, d.files)
      && CatalogOf(env, d.files)[IdOf(env, d.files, m)] == Snap(env, d.files, m)
  {
    RemovedOnce(env, before, d, k, m);
    ShrunkFiles(env, before, d, m);
    forall j | Twin(env, d.files, m, j) ensures Earlier(m, j) {
      ShrunkFiles(env, before, d, j);
      assert Twin(env, before.files, m, j);
    }
    CatalogFacts(env, d.files);
  }

  lemma LatestStays(env: Env, before: Disk, d: Disk, id: string)
    requires WellNamed(env, before.files) && Shrunk(env, before, d) && LatestPublished(CatalogOf(env, before.files), id)
    requires Load(env, before) == Recovered(CatalogOf(env, before.files))
    ensures id in CatalogOf(env, d.files) && CatalogOf(env, d.files)[id] == CatalogOf(env, before.files)[id]
  {
    var u := CatalogOf(env, before.files);
    RecoveredIs(u, id);
    CatalogFacts(env, before.files);
    assert Protected(env, before) == Some(id);
    var f := SourceIs(env, before.files, id);
    ShrunkFiles(env, before, d, f);
    SurvivorCounts(env, before, d, f);
  }

  lemma HiddenIsRecovered(env: Env, before: Disk, d: Disk, k: File)
    requires WellNamed(env, before.files) && Shrunk(env, before, d)
    requires k !in d.files && HidesNewest(env, before.files, k)
    ensures Recovered(CatalogOf(env, d.files)) != Recovered(CatalogOf(env, before.files))
  {
    var u := CatalogOf(env, before.files);
    var m :| Hides(env, before.files, k, m) && Snap(env, before.files, m).published
             && forall id | LatestPublished(u, id) :: SortsAfter(Snap(env, before.files, m), u[id]);
    HiddenCounts(env, before, d, k, m);
    CatalogFacts(env, d.files);
    NewerIsRecovered(u, CatalogOf(env, d.files), IdOf(env, d.files, m));
  }

  lemma NewerIsRecovered(u: Catalog, v: Catalog, id: string)
    requires Keyed(v) && id in v && v[id].published && forall other | LatestPublished(u, other) ::
      SortsAfter(v[id], u[other])
    ensures Recovered(v) != Recovered(u)
  {
    PublishedHasLatest(v, id);
    var latest :| LatestPublished(v, latest);
    RecoveredIs(v, latest);
    if other :| LatestPublished(u, other) {
      RecoveredIs(u, other);
      NotBefore(v[latest], v[id], u[other]);
    }
  }

  lemma NotBefore(latest: Snapshot, s: Snapshot, found: Snapshot)
    requires latest == s || SortsAfter(latest, s)
    requires SortsAfter(s, found)
    ensures latest.(recovered := true) != found.(recovered := true)
  {
    AfterTotal(NameOf(s.scan), NameOf(found.scan));
    if latest != s { AfterTransitive(NameOf(latest.scan), NameOf(s.scan), NameOf(found.scan)); }
    AfterTotal(NameOf(latest.scan), NameOf(found.scan));
    assert NameOf(latest.(recovered := true).scan) == NameOf(latest.scan);
  }

  lemma NothingHidden(env: Env, before: Disk, d: Disk)
    requires WellNamed(env, before.files) && Shrunk(env, before, d)
    requires Load(env, before) == Recovered(CatalogOf(env, before.files))
    requires forall k | k in before.files && k !in d.files :: !HidesNewest(env, before.files, k)
    ensures Recovered(CatalogOf(env, d.files)) == Recovered(CatalogOf(env, before.files))
  {
    var u, v := CatalogOf(env, before.files), CatalogOf(env, d.files);
    CatalogFacts(env, before.files);
    CatalogFacts(env, d.files);
    if id :| LatestPublished(u, id) {
      LatestStays(env, before, d, id);
      forall x | LatestPublished(u, x) ensures x == id { LatestIsUnique(u, x, id); }
      forall other | other in v && v[other].published && other != id ensures SortsAfter(v[id], v[other]) {
        NotNewer(env, before, d, id, other);
      }
      assert LatestPublished(v, id);
      RecoveredIs(u, id);
      RecoveredIs(v, id);
    } else if latest :| LatestPublished(v, latest) {
      NobodyNew(env, before, d, latest);
    }
  }

  lemma NotNewer(env: Env, before: Disk, d: Disk, id: string, other: string)
    requires WellNamed(env, before.files) && Shrunk(env, before, d)
    requires var u, v := CatalogOf(env, before.files), CatalogOf(env, d.files);
      LatestPublished(u, id) && (forall x | LatestPublished(u, x) :: x == id) && other in v && v[other].published
          && other != id
    requires forall k | k in before.files && k !in d.files :: !HidesNewest(env, before.files, k)
    ensures SortsAfter(CatalogOf(env, before.files)[id], CatalogOf(env, d.files)[other])
  {
    var u := CatalogOf(env, before.files);
    CatalogFacts(env, before.files);
    var m := SourceIs(env, d.files, other);
    ShrunkFiles(env, before, d, m);
    if Usable(env, before.files, m) {
      SurvivorCounts(env, before, d, m);
    } else {
      var k := NewlyUsable(env, before, d, m);
      AfterTotal(NameOf(Snap(env, before.files, m).scan), NameOf(u[id].scan));
    }
  }

  lemma NobodyNew(env: Env, before: Disk, d: Disk, latest: string)
    requires WellNamed(env, before.files) && Shrunk(env, before, d)
    requires forall id :: !LatestPublished(CatalogOf(env, before.files), id)
    requires forall k | k in before.files && k !in d.files :: !HidesNewest(env, before.files, k)
    ensures !LatestPublished(CatalogOf(env, d.files), latest)
  {
    if LatestPublished(CatalogOf(env, d.files), latest) {
      var m := SourceIs(env, d.files, latest);
      ShrunkFiles(env, before, d, m);
      if Usable(env, before.files, m) {
        SurvivorCounts(env, before, d, m);
        CatalogFacts(env, before.files);
        PublishedHasLatest(CatalogOf(env, before.files), latest);
      } else {
        var k := NewlyUsable(env, before, d, m);
        assert HidesNewest(env, before.files, k);
      }
    }
  }

  /** Pruning leaves the next load as it was, recovery included, exactly if the load
      follows the pointer, or fails over a file that pruning left, or rests on a recovery
      and no removed generation hid a newer one of the same scan ID. */
  lemma PruneLeavesLoadsUnchanged(env: Env, before: Disk, d: Disk)
    requires WellNamed(env, before.files) && Shrunk(env, before, d)
    ensures Load(env, d) == Load(env, before) <==>
              || Settled(env, before, d)
              || (!Load(env, before).Failed?
                  && forall k | k in before.files && k !in d.files :: !HidesNewest(env, before.files, k))
    ensures UniqueIds(env, before.files) && !Load(env, before).Failed? ==> Load(env, d) == Load(env, before)
  {
    if Committed(env, before).Some? || Load(env, before).Failed? {
      FollowsOrFails(env, before, d);
    } else {
      RestsOnRecovery(env, before, d);
      if k :| k in before.files && k !in d.files && HidesNewest(env, before.files, k) {
        HiddenIsRecovered(env, before, d, k);
      } else {
        NothingHidden(env, before, d);
      }
    }
    if UniqueIds(env, before.files) {
      forall k ensures !HidesNewest(env, before.files, k) { NothingHiddenIfUnique(env, before.files, k); }
    }
    hide HidesNewest, Committed, Load, WellNamed, Shrunk, UniqueIds;
  }

  lemma NothingHiddenIfUnique(env: Env, files: map<File, Content>, k: File)
    requires UniqueIds(env, files)
    ensures !HidesNewest(env, files, k) && forall m :: !Hides(env, files, k, m)
  {
  }

  lemma FollowsOrFails(env: Env, before: Disk, d: Disk)
    requires WellNamed(env, before.files) && Shrunk(env, before, d)
    requires Committed(env, before).Some? || Load(env, before).Failed?
    ensures Load(env, d) == Load(env, before) <==> Settled(env, before, d)
  {
    hide IsSurplusFile, CatalogOf, LatestPublished, WellNamed, ReadTarget;
    PruneKeepsCommitted(env, before, d);
    ShrunkPointer(env, before, d);
    if before.pointer.At? {
      PrunedPointer(env, before, d, before.pointer.pointer);
      hide Shrunk;
    }
  }

  lemma ShrunkPointer(env: Env, before: Disk, d: Disk)
    requires Shrunk(env, before, d)
    ensures d.pointer == before.pointer
  {
  }

  lemma RestsOnRecovery(env: Env, before: Disk, d: Disk)
    requires WellNamed(env, before.files) && Shrunk(env, before, d) && Committed(env, before).None?
      && !Load(env, before).Failed?
    ensures Load(env, before) == Recovered(CatalogOf(env, before.files))
      && Load(env, d) == Recovered(CatalogOf(env, d.files))
  {
    if before.pointer.At? { PrunedPointer(env, before, d, before.pointer.pointer); }
    hide IsSurplusFile, CatalogOf, LatestPublished, WellNamed, ReadTarget;
  }

  lemma PrunedPointer(env: Env, before: Disk, d: Disk, p: Pointer)
    requires Shrunk(env, before, d) && before.pointer == At(p)
    ensures ReadPointed(env, d.files, p)
            == if p.target.Some? && p.target.value in before.files && p.target.value !in d.files then
                Bad(MissingGeneration)
               else ReadPointed(env, before.files, p)
  {
    hide ReadTarget, IsSurplusFile;
  }

  // ---------------------------------------------------------------- committing

  /** What a crash may have left behind, as far as the pointer is concerned: what was
      committed before, or the new snapshot; and the new one replaces an older one only. */
  ghost predicate OldOrNew(env: Env, before: Disk, d: Disk, incoming: Snapshot) {
    || Committed(env, d) == Committed(env, before)
    || (Committed(env, d) == Some(incoming.(published := true))
        && (Committed(env, before).Some? ==> SortsAfter(incoming, Committed(env, before).value)))
  }

  ghost predicate Holds(c: Content, s: Snapshot) { c == Garbled || exists b :: c == Encoded(s.(published := b)) }

  /** Every file was there before, or is torn, or holds the new snapshot. */
  ghost predicate Adds(before: Disk, d: Disk, incoming: Snapshot) {
    && (d.pointer == before.pointer || d.pointer.At?)
    && forall f | f in d.files :: (f in before.files && d.files[f] == before.files[f]) || Holds(d.files[f], incoming)
  }

  /** A disk that persisting a scan, wherever it stopped, can leave behind. */
  ghost predicate Successor(env: Env, before: Disk, d: Disk, incoming: Snapshot) {
    && OldOrNew(env, before, d, incoming) && Adds(before, d, incoming) && WellNamed(env, d.files)
    && (UniqueIds(env, before.files) ==> UniqueIds(env, d.files))
  }

  /** Publication is atomic: on a disk that persisting may leave behind, a load finds
      what was committed before or the new snapshot; if nothing was committed before,
      the new snapshot, one flagged as recovered, or none. */
  lemma PublicationIsAtomic(env: Env, before: Disk, d: Disk, incoming: Snapshot)
    requires OldOrNew(env, before, d, incoming)
    ensures Committed(env, before).Some? ==>
              || Load(env, d) == Load(env, before) == Found(Committed(env, before).value)
              || (Load(env, d) == Found(incoming.(published := true))
                  && SortsAfter(incoming, Committed(env, before).value))
    ensures Committed(env, before).None? ==>
              || Load(env, d) == Found(incoming.(published := true))
              || Load(env, d) == Recovered(CatalogOf(env, d.files))
              || Load(env, d).Failed?
    ensures Load(env, d).Found? && !Load(env, d).s.recovered ==>
              Load(env, d).s == incoming.(published := true) || Load(env, d) == Load(env, before)
  {
    UnflaggedComesThroughThePointer(env, before);
    UnflaggedComesThroughThePointer(env, d);
  }

  /** Writing a file under a new name commits nothing by itself, except through a
      dangling pointer that already names exactly this file. */
  lemma NewFileCommitsNothingElse(env: Env, before: Disk, d: Disk, f: File, c: Content, s: Snapshot)
    requires f !in before.files && d == before.(files := before.files[f := c])
    requires c == Garbled
      || (exists b :: c == Encoded(s.(published := b)) && Decode(env, c) == Good(s.(published := b)))
    ensures OldOrNew(env, before, d, s)
    ensures Committed(env, before).Some? ==> Committed(env, d) == Committed(env, before)
  {
  }

  /** A file for a scan ID that no readable file carries. */
  lemma NewFileIsUnique(env: Env, before: map<File, Content>, after: map<File, Content>, f: File, id: string)
    requires after.Keys <= before.Keys + {f} && forall g | g in after && g != f :: after[g] == before[g]
    requires forall g | Accepted(env, before, g) :: IdOf(env, before, g) != id
    requires Accepted(env, after, f) ==> IdOf(env, after, f) == id
    ensures UniqueIds(env, before) ==> UniqueIds(env, after)
  {
    if UniqueIds(env, before) {
      forall x
        ensures Accepted(env, after, x) && x != f ==>
          Accepted(env, before, x) && IdOf(env, after, x) == IdOf(env, before, x) {}
      forall g, h ensures !Twin(env, after, g, h) {
        assert !Twin(env, before, g, h);
        if Accepted(env, after, g) && Accepted(env, after, h) && g != h && f == g {
          assert IdOf(env, after, h) != id;
        } else if Accepted(env, after, g) && Accepted(env, after, h) && g != h && f == h {
          assert IdOf(env, after, g) != id;
        }
      }
    }
  }

  lemma FewerFilesAreUnique(env: Env, before: map<File, Content>, after: map<File, Content>)
    requires after.Keys <= before.Keys && forall f | f in after :: after[f] == before[f]
    ensures UniqueIds(env, before) ==> UniqueIds(env, after)
  {
    if UniqueIds(env, before) {
      forall g, h ensures !Twin(env, after, g, h) { assert !Twin(env, before, g, h); }
    }
  }

  lemma PointerCommits(env: Env, d: Disk, name: Name, s: Snapshot, at: nat)
    requires Gen(name) in d.files && d.files[Gen(name)] == Encoded(s) && Decode(env, Encoded(s)) == Good(s)
    requires s.scan.startedAt == Some(at) && s.scan.userSid == env.user
    requires d.pointer == At(Pointer(Some(Gen(name)), s.scan.scanId, at, s.scan.completedAt, env.sha(Encoded(s))))
    ensures Committed(env, d) == Some(s.(published := true))
  {
  }
}
