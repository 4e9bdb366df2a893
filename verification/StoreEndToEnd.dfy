/** From provider evidence to an update button: any number of migrations, loads, scans
    and crashes, then one projection. */
module StoreEndToEnd {
  import opened Wrappers
  import opened Text
  import opened StoreModel
  import opened StoreReconcile
  import opened StoreTheorems
  import opened StorePipeline
  import opened StoreHysteresis
  import opened StoreRows
  import opened StoreProjection
  import opened StoreAuthorisation
  import opened StoreRepoModel
  import opened StoreRepoTheorems
  import opened StoreRetention
  import opened StoreRepository
  import opened StoreMigration

  /** One scan as the pipeline ran it, with the rows it could fall back on. */
  datatype ScanRecord =
    ScanRecord(scan: Scan, families: seq<Family>, runs: seq<ProviderRun>, previous: map<Identity, Published>)

  function SnapshotOf(r: ScanRecord): Snapshot {
    Snapshot(ShouldPublish(r.scan, r.families), false, r.scan, r.families, r.runs,
             Rows(r.scan, r.families, r.runs, r.previous))
  }

  function StoredRecord(r: ScanRecord): Snapshot { StoredForm(SnapshotOf(r)) }

  const EMPTY_DISK := Disk(map[], {}, NoPointer)

  /** What a process does with the repository; a load or a scan that finds no pointer
      migrates first, which is a step of its own. */
  datatype Event = Migrate | Look | Persist(record: ScanRecord)

  ghost predicate Step(env: Env, oldFiles: OldFiles, d: Disk, d': Disk, e: Event) {
    match e
    case Migrate => Interrupted(env, oldFiles, d, d')
    case Look => QuarantinedFrom(d, d')
    case Persist(r) => r.scan.userSid == env.user && Successor(env, d, d', StoredRecord(r))
  }

  /** The disk after each of a series of events, completed or cut short by a crash,
      starting from no generations and some old files. */
  ghost predicate Run(env: Env, oldFiles: OldFiles, disks: seq<Disk>, events: seq<Event>) {
    && |disks| == |events| + 1 && disks[0] == EMPTY_DISK
    && forall i | 0 <= i < |events| :: Step(env, oldFiles, disks[i], disks[i + 1], events[i])
  }

  // ---------------------------------------------------------------- processes

  /** Carrying out events one after the other is such a run. The process may die during
      any of them and start again on what the files hold then. */
  method CarryOut(env: Env, oldFiles: OldFiles, events: seq<Event>) returns (disks: seq<Disk>)
    requires forall e | e in events && e.Persist? :: e.record.scan.userSid == env.user
    ensures Run(env, oldFiles, disks, events)
  {
    disks := [EMPTY_DISK];
    for n := 0 to |events|
      invariant Run(env, oldFiles, disks, events[..n]) && WellNamed(env, disks[n].files)
    {
      assert events[n] in events;
      var d := CarryOutOne(env, oldFiles, disks[n], events[n]);
      StepKeepsNames(env, oldFiles, disks[n], d, events[n]);
      RunGrows(env, oldFiles, disks, events, n, d);
      disks := disks + [d];
    }
    assert events[..|events|] == events;
  }

  /** One process: it carries out one event, or dies after any of its file operations. */
  method CarryOutOne(env: Env, oldFiles: OldFiles, start: Disk, e: Event) returns (d: Disk)
    requires WellNamed(env, start.files) && (e.Persist? ==> e.record.scan.userSid == env.user)
    ensures Step(env, oldFiles, start, d, e)
  {
    var reliable: bool := *;
    match e {
      case Migrate =>
        var migration := new Migration(env, oldFiles, start, reliable);
        var _ := migration.MigrateOldLayout();
        d := migration.disk;
        if * {
          if state :| state in migration.hazards { d := state; }
        }
      case Look =>
        var repository := new Repository(env, start, reliable);
        var _ := repository.LoadLatest();
        d := repository.disk;
        if * {
          if state :| state in repository.hazards { d := state; }
        }
      case Persist(r) =>
        var repository := new Repository(env, start, reliable);
        var _, _ := repository.Persist(SnapshotOf(r));
        NothingDone(env, start, StoredRecord(r));
        d := repository.disk;
        if * {
          if state :| state in repository.hazards { d := state; }
        }
    }
  }

  lemma RunGrows(env: Env, oldFiles: OldFiles, disks: seq<Disk>, events: seq<Event>, n: nat, d: Disk)
    requires n < |events| && Run(env, oldFiles, disks, events[..n]) && Step(env, oldFiles, disks[n], d, events[n])
    ensures Run(env, oldFiles, disks + [d], events[..n + 1])
  {
    hide Step;
  }

  lemma StepKeepsNames(env: Env, oldFiles: OldFiles, d: Disk, d': Disk, e: Event)
    requires WellNamed(env, d.files) && Step(env, oldFiles, d, d', e)
    ensures WellNamed(env, d'.files)
  {
    match e
    case Migrate => MigratingKeepsNames(env, oldFiles, d, d');
    case Look => QuarantineChangesNothing(env, d, d');
    case Persist(_) =>
  }

  // ---------------------------------------------------------------- where files come from

  /** A file's content is torn, or an old file's, or one of the scans'. */
  ghost predicate Known(env: Env, oldFiles: OldFiles, events: seq<Event>, c: Content) {
    c == Garbled || (c in oldFiles && Readable(env, c)) || exists e | e in events && e.Persist? ::
        Holds(c, StoredRecord(e.record))
  }

  lemma {:induction false} CopiedContents(env: Env, oldFiles: OldFiles, files: map<File, Content>, f: File)
    ensures var copied := Copied(env, oldFiles, files);
      f in copied ==> (f in files && copied[f] == files[f]) || (copied[f] in oldFiles && Readable(env, copied[f]))
  {
    if oldFiles != [] {
      CopiedContents(env, oldFiles[..|oldFiles| - 1], files, f);
      assert oldFiles == oldFiles[..|oldFiles| - 1] + [oldFiles[|oldFiles| - 1]];
    }
  }

  lemma MigratedContents(env: Env, oldFiles: OldFiles, d: Disk, d': Disk, f: File)
    requires Interrupted(env, oldFiles, d, d') && f in d'.files
    ensures || (f in d.files && d'.files[f] == d.files[f]) || d'.files[f] == Garbled
            || (d'.files[f] in oldFiles && Readable(env, d'.files[f]))
    ensures d'.pointer == d.pointer || d'.pointer.At?
  {
    CopiedContents(env, oldFiles, d.files, f);
    if d' != d && d' != Migrated(env, oldFiles, d) {
      var n: nat :| Partly(env, oldFiles, d, d', n);
      CopiedContents(env, oldFiles[..n], d.files, f);
    }
  }

  lemma StepIsKnown(env: Env, oldFiles: OldFiles, events: seq<Event>, d: Disk, d': Disk, e: Event, f: File)
    requires Step(env, oldFiles, d, d', e) && e in events && f in d'.files
    requires f in d.files ==> Known(env, oldFiles, events, d.files[f])
    ensures Known(env, oldFiles, events, d'.files[f])
  {
    match e
    case Migrate => MigratedContents(env, oldFiles, d, d', f);
    case Look =>
    case Persist(_) =>
  }

  /** In every reachable state files hold old files, scans, or nothing that decodes, and
      generations are named after their scans. */
  lemma {:induction false} FilesAreKnown(env: Env, oldFiles: OldFiles, disks: seq<Disk>, events: seq<Event>, i: nat)
    requires Run(env, oldFiles, disks, events) && i <= |events|
    ensures WellNamed(env, disks[i].files) && (disks[i].pointer == NoPointer || disks[i].pointer.At?)
    ensures forall f | f in disks[i].files :: Known(env, oldFiles, events[..i], disks[i].files[f])
  {
    if i > 0 {
      FilesAreKnown(env, oldFiles, disks, events, i - 1);
      var d, d', e := disks[i - 1], disks[i], events[i - 1];
      StepKeepsNames(env, oldFiles, d, d', e);
      assert events[..i] == events[..i - 1] + [e];
      forall c | Known(env, oldFiles, events[..i - 1], c) ensures Known(env, oldFiles, events[..i], c) {
        KnownLonger(env, oldFiles, events[..i - 1], events[..i], c);
      }
      forall f | f in d'.files ensures Known(env, oldFiles, events[..i], d'.files[f]) {
        StepIsKnown(env, oldFiles, events[..i], d, d', e, f);
      }
      PointersFollow(env, oldFiles, d, d', e);
    }
  }

  lemma PointersFollow(env: Env, oldFiles: OldFiles, d: Disk, d': Disk, e: Event)
    requires Step(env, oldFiles, d, d', e)
    ensures d'.pointer == d.pointer || d'.pointer.At?
  {
    if e.Migrate? && d' != d && d' != Migrated(env, oldFiles, d) { var n: nat :| Partly(env, oldFiles, d, d', n); }
  }

  lemma KnownLonger(env: Env, oldFiles: OldFiles, events: seq<Event>, more: seq<Event>, c: Content)
    requires Known(env, oldFiles, events, c) && forall e | e in events :: e in more
    ensures Known(env, oldFiles, more, c)
  {
  }

  /** The snapshot of a scan, or of an old file, up to the flags. */
  ghost predicate FromScan(events: seq<Event>, j: nat, s: Snapshot) {
    j < |events| && events[j].Persist?
    && s == StoredRecord(events[j].record).(published := s.published, recovered := s.recovered)
  }

  ghost predicate FromOldFile(env: Env, oldFiles: OldFiles, c: Content, s: Snapshot) {
    c in oldFiles && Readable(env, c) && s == SnapOf(env, c).(published := s.published, recovered := s.recovered)
  }

  ghost predicate FromSomewhere(env: Env, oldFiles: OldFiles, events: seq<Event>, s: Snapshot) {
    (exists j :: FromScan(events, j, s)) || exists c :: FromOldFile(env, oldFiles, c, s)
  }

  lemma StoredIsClean(s: Snapshot)
    ensures Clean(StoredForm(s)) == StoredForm(s)
  {
    forall i | 0 <= i < |s.rows| ensures CleanRow(StoredForm(s).rows[i]) == StoredForm(s).rows[i] {
      StoredRowIsClean(s.rows[i]);
    }
    assert Clean(StoredForm(s)).rows == StoredForm(s).rows;
  }

  lemma KnownIsFrom(env: Env, oldFiles: OldFiles, events: seq<Event>, c: Content, s: Snapshot)
    requires Known(env, oldFiles, events, c) && Decode(env, c) == Good(s)
    ensures FromSomewhere(env, oldFiles, events, s)
  {
    if c in oldFiles {
      assert FromOldFile(env, oldFiles, c, s);
    } else {
      var e :| e in events && e.Persist? && Holds(c, StoredRecord(e.record));
      var j: nat :| j < |events| && events[j] == e;
      var b :| c == Encoded(StoredRecord(e.record).(published := b));
      StoredIsClean(SnapshotOf(e.record).(published := b));
      assert StoredForm(SnapshotOf(e.record).(published := b)) == StoredRecord(e.record).(published := b);
      assert FromScan(events, j, s);
    }
  }

  lemma FlagsDoNotMatter(env: Env, oldFiles: OldFiles, events: seq<Event>, s: Snapshot, t: Snapshot)
    requires FromSomewhere(env, oldFiles, events, s) && t == s.(published := t.published, recovered := t.recovered)
    ensures FromSomewhere(env, oldFiles, events, t)
  {
    if j: nat :| FromScan(events, j, s) {
      assert FromScan(events, j, t);
    } else {
      var c :| FromOldFile(env, oldFiles, c, s);
      assert FromOldFile(env, oldFiles, c, t);
    }
  }

  /** Whatever a load finds, committed or recovered, is the snapshot of an earlier scan,
      or of an old file. */
  lemma LoadedWasPersisted(env: Env, oldFiles: OldFiles, disks: seq<Disk>, events: seq<Event>, i: nat, s: Snapshot)
    requires Run(env, oldFiles, disks, events) && i <= |events| && Load(env, disks[i]) == Found(s)
    ensures FromSomewhere(env, oldFiles, events[..i], s)
  {
    FilesAreKnown(env, oldFiles, disks, events, i);
    var d := disks[i];
    if Committed(env, d).Some? {
      var c := d.files[d.pointer.pointer.target.value];
      KnownIsFrom(env, oldFiles, events[..i], c, Decode(env, c).s);
      FlagsDoNotMatter(env, oldFiles, events[..i], Decode(env, c).s, s);
    } else {
      var id := RecoveredFrom(CatalogOf(env, d.files), s);
      var f := SourceIs(env, d.files, id);
      KnownIsFrom(env, oldFiles, events[..i], d.files[f], Snap(env, d.files, f));
      FlagsDoNotMatter(env, oldFiles, events[..i], Snap(env, d.files, f), s);
    }
  }

  lemma RecoveredFrom(u: Catalog, s: Snapshot) returns (id: string)
    requires Recovered(u) == Found(s)
    ensures id in u && s == u[id].(recovered := true)
  {
    id :| LatestPublished(u, id);
    RecoveredIs(u, id);
  }

  /** Whatever is committed was persisted by one of the scans, or is an old file. */
  lemma CommittedWasPersisted(env: Env, oldFiles: OldFiles, disks: seq<Disk>, events: seq<Event>)
    requires Run(env, oldFiles, disks, events) && Committed(env, disks[|events|]).Some?
    ensures var s := Committed(env, disks[|events|]).value;
      || (exists e | e in events :: e.Persist? && s == StoredRecord(e.record).(published := true))
      || (exists c | c in oldFiles :: Readable(env, c) && s == SnapOf(env, c).(published := true))
  {
    FilesAreKnown(env, oldFiles, disks, events, |events|);
    assert events[..|events|] == events;
    var d := disks[|events|];
    var c := d.files[d.pointer.pointer.target.value];
    KnownIsFrom(env, oldFiles, events, c, Decode(env, c).s);
    if c !in oldFiles { CommittedScan(env, oldFiles, events, c, Decode(env, c).s); }
  }

  lemma CommittedScan(env: Env, oldFiles: OldFiles, events: seq<Event>, c: Content, s: Snapshot)
    requires Known(env, oldFiles, events, c) && Decode(env, c) == Good(s) && c !in oldFiles
    ensures exists e | e in events :: e.Persist? && s.(published := true) == StoredRecord(e.record).(published := true)
  {
    var e :| e in events && e.Persist? && Holds(c, StoredRecord(e.record));
    var b :| c == Encoded(StoredRecord(e.record).(published := b));
    StoredIsClean(SnapshotOf(e.record).(published := b));
    assert StoredForm(SnapshotOf(e.record).(published := b)) == StoredRecord(e.record).(published := b);
  }

  // ---------------------------------------------------------------- order, retention, atomicity

  lemma StepMovesForward(env: Env, oldFiles: OldFiles, d: Disk, d': Disk, e: Event)
    requires Step(env, oldFiles, d, d', e) && Committed(env, d).Some?
    ensures var was, now := Committed(env, d), Committed(env, d');
      now == was || (now.Some? && SortsAfter(now.value, was.value))
  {
    match e
    case Migrate =>
    case Look => QuarantineChangesNothing(env, d, d');
    case Persist(_) =>
  }

  /** The committed scan never goes back: across any events and crashes, once something
      is committed the load always finds a committed scan that is the same or newer. */
  lemma {:induction false} CommittedOnlyMovesForward(env: Env, oldFiles: OldFiles, disks: seq<Disk>, events: seq<Event>,
                                                     from: nat, upTo: nat)
    requires Run(env, oldFiles, disks, events) && from <= upTo <= |events| && Committed(env, disks[from]).Some?
    ensures var first, last := Committed(env, disks[from]), Committed(env, disks[upTo]);
      last.Some? && (last == first || SortsAfter(last.value, first.value))
    decreases upTo
  {
    if from < upTo {
      CommittedOnlyMovesForward(env, oldFiles, disks, events, from, upTo - 1);
      StepMovesForward(env, oldFiles, disks[upTo - 1], disks[upTo], events[upTo - 1]);
      MovedOn(Committed(env, disks[from]), Committed(env, disks[upTo - 1]), Committed(env, disks[upTo]));
    }
  }

  lemma MovedOn(first: Option<Snapshot>, earlier: Option<Snapshot>, last: Option<Snapshot>)
    requires first.Some? && earlier.Some? && last.Some?
    requires (earlier == first || SortsAfter(earlier.value, first.value))
      && (last == earlier || SortsAfter(last.value, earlier.value))
    ensures last == first || SortsAfter(last.value, first.value)
  {
    if last != earlier && earlier != first {
      AfterTransitive(NameOf(last.value.scan), NameOf(earlier.value.scan), NameOf(first.value.scan));
    }
  }

  /** Nothing of the earlier layout can be read. */
  ghost predicate NoOldFiles(env: Env, oldFiles: OldFiles) { forall c | c in oldFiles :: !Readable(env, c) }

  lemma {:induction false} NothingCopied(env: Env, oldFiles: OldFiles, files: map<File, Content>)
    requires NoOldFiles(env, oldFiles)
    ensures Copied(env, oldFiles, files) == files && Newest(env, oldFiles).None?
  {
    if oldFiles != [] { NothingCopied(env, oldFiles[..|oldFiles| - 1], files); }
  }

  lemma StepKeepsUnique(env: Env, oldFiles: OldFiles, d: Disk, d': Disk, e: Event)
    requires NoOldFiles(env, oldFiles) && Step(env, oldFiles, d, d', e) && UniqueIds(env, d.files)
    ensures UniqueIds(env, d'.files)
  {
    match e
    case Migrate =>
      NothingCopied(env, oldFiles, d.files);
      if d' != d && d' != Migrated(env, oldFiles, d) {
        var n: nat :| Partly(env, oldFiles, d, d', n);
        NothingCopied(env, oldFiles[..n], d.files);
        BesideIsUnique(env, oldFiles, d.files, d'.files);
      }
    case Look => FewerFilesAreUnique(env, d.files, d'.files);
    case Persist(_) =>
  }

  lemma BesideIsUnique(env: Env, oldFiles: OldFiles, files: map<File, Content>, now: map<File, Content>)
    requires NoOldFiles(env, oldFiles) && Beside(env, oldFiles, files, now) && UniqueIds(env, files)
    ensures UniqueIds(env, now)
  {
    if now != files {
      var k: nat, c :| LeftBeside(env, oldFiles, files, now, k, c);
      assert c == Garbled;
      forall f ensures Accepted(env, now, f) ==> Accepted(env, files, f) && Snap(env, now, f) == Snap(env, files, f) {}
      forall f, g ensures !Twin(env, now, f, g) { assert !Twin(env, files, f, g); }
    }
  }

  /** Without old files no scan ID ever occurs twice. */
  lemma {:induction false} ReachableIdsAreUnique(env: Env, oldFiles: OldFiles, disks: seq<Disk>, events: seq<Event>,
                                                 i: nat)
    requires Run(env, oldFiles, disks, events) && i <= |events| && NoOldFiles(env, oldFiles)
    ensures UniqueIds(env, disks[i].files)
  {
    if i > 0 {
      ReachableIdsAreUnique(env, oldFiles, disks, events, i - 1);
      StepKeepsUnique(env, oldFiles, disks[i - 1], disks[i], events[i - 1]);
    }
  }

  /** No load of a reachable repository fails. */
  lemma LoadsDoNotFail(env: Env, oldFiles: OldFiles, disks: seq<Disk>, events: seq<Event>, i: nat)
    requires Run(env, oldFiles, disks, events) && i <= |events|
    ensures !Load(env, disks[i]).Failed?
  {
    FilesAreKnown(env, oldFiles, disks, events, i);
    var d := disks[i];
    if d.pointer.At? && d.pointer.pointer.target.Some? && d.pointer.pointer.target.value in d.files {
      KnownDoesNotStop(env, oldFiles, disks, events, i, d.files[d.pointer.pointer.target.value]);
    }
    hide Known, CatalogOf, Run;
  }

  lemma KnownDoesNotStop(env: Env, oldFiles: OldFiles, disks: seq<Disk>, events: seq<Event>, i: nat, c: Content)
    requires Run(env, oldFiles, disks, events) && i <= |events|
      && Known(env, oldFiles, events[..i], c)
    ensures !c.Locked? && (Decode(env, c).Good? || !Stops(Decode(env, c).fault))
  {
    if c != Garbled && !(c in oldFiles && Readable(env, c)) {
      var e :| e in events[..i] && e.Persist? && Holds(c, StoredRecord(e.record));
      var j :| 0 <= j < i && events[j] == e;
      assert Step(env, oldFiles, disks[j], disks[j + 1], events[j]);
    }
  }

  /** Over any run without old files pruning is invisible to the next load, and a
      completed one leaves the newest scans, the one to keep, and beyond them exactly the
      scans of temporary files that crashes left. */
  lemma PruningIsInvisible(env: Env, oldFiles: OldFiles, disks: seq<Disk>, events: seq<Event>, i: nat, d: Disk)
    requires Run(env, oldFiles, disks, events) && i <= |events| && Shrunk(env, disks[i], d) && NoOldFiles(env, oldFiles)
    ensures Load(env, d) == Load(env, disks[i])
    ensures Pruned(env, disks[i], d) ==>
              |CatalogOf(env, d.files)| == KeptCount(CatalogOf(env, disks[i].files), Protected(env, disks[i]))
                                           + |SurplusLeftovers(env, disks[i])|
    ensures KeptCount(CatalogOf(env, disks[i].files), Protected(env, disks[i])) <= RETENTION + 1
  {
    FilesAreKnown(env, oldFiles, disks, events, i);
    ReachableIdsAreUnique(env, oldFiles, disks, events, i);
    LoadsDoNotFail(env, oldFiles, disks, events, i);
    hide Run, NoOldFiles, Known;
    PruneLeavesLoadsUnchanged(env, disks[i], d);
    KeptAtMost(CatalogOf(env, disks[i].files), Protected(env, disks[i]));
    if Pruned(env, disks[i], d) { RetainedScans(env, disks[i], d); }
    hide *;
  }

  lemma KeptAtMost(u: Catalog, keep: Option<string>)
    ensures KeptCount(u, keep) <= RETENTION + 1
  {
  }

  lemma RetainedScans(env: Env, before: Disk, after: Disk)
    requires WellNamed(env, before.files) && Pruned(env, before, after) && UniqueIds(env, before.files)
    ensures |CatalogOf(env, after.files)|
            == KeptCount(CatalogOf(env, before.files), Protected(env, before)) + |SurplusLeftovers(env, before)|
  {
    RetentionIsExact(env, before, after);
    hide CatalogOf, Survivors, SurplusLeftovers, KeptCount;
    assert |CatalogOf(env, after.files)| == |CatalogOf(env, after.files).Keys|;
  }

  /** From event to event a load finds what it found before or the new snapshot, unless
      it falls back on a recovery or fails; neither happens once a scan is committed. */
  lemma LoadsMoveAtomically(env: Env, oldFiles: OldFiles, disks: seq<Disk>, events: seq<Event>, i: nat)
    requires Run(env, oldFiles, disks, events) && i < |events| && events[i].Persist?
    ensures var incoming := StoredRecord(events[i].record).(published := true);
      var was, next := Load(env, disks[i]), Load(env, disks[i + 1]);
      && (next.Found? && !next.s.recovered ==> next == Found(incoming) || next == was)
      && (was.Found? && !was.s.recovered ==> next == was || (next == Found(incoming) && SortsAfter(incoming, was.s)))
  {
    assert Step(env, oldFiles, disks[i], disks[i + 1], events[i]);
    PublicationIsAtomic(env, disks[i], disks[i + 1], StoredRecord(events[i].record));
    UnflaggedComesThroughThePointer(env, disks[i]);
  }

  // ---------------------------------------------------------------- authorisation

  /** The scan's own evidence offers the update for this very installation. */
  ghost predicate Backed(env: Env, r: ScanRecord, id: Identity, p: Package, now: nat) {
    && id.userSid == env.user && Lower(Trim(id.pfn)) == Lower(InstalledPfn(p))
    && AvailableWhen(Members(AllObservations(r.runs)), id, r.scan)
    && !ProductConflict(VerifiedIds(AllMappings(r.runs), r.scan, id))
    && Recent(r.scan.completedAt, now)
    && OfferedFor(Members(AllObservations(r.runs)), id, r.scan, p.version)
    && !p.pinned && !p.unknownVersion
  }

  /** The package shows, and would execute, what the offers said: a product ID and a version
      nothing else was offered beside, and the family's own update ID or the only other
      one; blank only if no offer has any. */
  ghost predicate ShowsTheOffer(q: Package, offers: set<Observation>, pfn: string)
    requires forall o | o in offers :: o.target.Some?
  {
    && q.updateAvailable && q.exact && !q.stale && q.availableVersion == q.offeredVersion
    && DrawnFrom(q.productId, ProductIds(offers)) && Unrivalled(q.productId, ProductIds(offers))
    && DrawnFrom(q.updateId, UpdateIds(offers)) && PrefersFamily(q.updateId, UpdateIds(offers), pfn)
    && DrawnFrom(q.offeredVersion, OfferedVersions(offers)) && Unrivalled(q.offeredVersion, OfferedVersions(offers))
  }

  lemma AuthorisedRowSays(r: ScanRecord, row: Published)
    requires row in StoredRows(SnapshotOf(r).rows) && row.a.state == Available && !row.stale && row.exact
    ensures SaysWhatWasOffered(row.a, OffersOf(r.scan, r.runs, row.a.identity), row.a.identity.pfn)
    ensures row.productId == row.a.target.value.productId && row.updateId == row.a.target.value.updateId
  {
    var rows := Rows(r.scan, r.families, r.runs, r.previous);
    var n :| 0 <= n < |rows| && StoredRows(rows)[n] == row;
    StoredRowFacts(row, rows[n]);
    assert rows[n] in rows;
    StoredKeepsTargetExactlyWhen(r.scan, r.families, r.runs, r.previous, rows[n], row);
  }

  lemma ShownOffer(q: Package, row: Published, version: string, offers: set<Observation>)
    requires forall o | o in offers :: o.target.Some?
    requires SaysWhatWasOffered(row.a, offers, row.a.identity.pfn) && row.exact && row.a.state == Available
    requires row.productId == row.a.target.value.productId && row.updateId == row.a.target.value.updateId
    requires Shown(q, row, true, version)
    ensures ShowsTheOffer(q, offers, row.a.identity.pfn)
  {
    hide DrawnFrom, Unrivalled, PrefersFamily, ProductIds, UpdateIds, OfferedVersions, Fronts;
  }

  ghost predicate OfferedFor(e: set<Observation>, id: Identity, scan: Scan, version: string) {
    exists o | o in OffersIn(e, id, scan) :: EqualFold(Trim(version), Trim(o.installedVersion))
  }

  lemma OfferVersion(i: Input, a: Assessment)
    requires a == Reconcile(i) && a.state == Available
    ensures exists o | o in OffersIn(Members(i.observations), i.identity, i.scan) ::
      o.installedVersion == a.installedVersion
  {
    AvailableIsAgreed(i, a);
    var exact := OfClass(i.observations, i, ExactOffer);
    OfClassMembers(i.observations, i, ExactOffer);
    AgreedVersion(i, exact, a);
    var o :| o in exact && o.installedVersion == a.installedVersion;
    assert o in OffersIn(Members(i.observations), i.identity, i.scan);
  }

  lemma AgreedVersion(i: Input, exact: seq<Observation>, a: Assessment)
    requires exact != [] && Targeted(exact) && a == Agreed(i, exact)
    ensures exists o | o in exact :: o.installedVersion == a.installedVersion
  {
    var sorted := SortOffers(exact);
    assert exact[0] in sorted;
    assert sorted[0] in sorted;
  }

  lemma StoredKeepsVersion(p: Published, q: Published)
    requires p == StoredRow(q)
    ensures p.a.installedVersion == q.a.installedVersion
  {
  }

  lemma FreshKeepsVersion(scan: Scan, a: Assessment, runs: seq<ProviderRun>, previous: map<Identity, Published>,
                          row: Published)
    requires row == Row(scan, a, runs, previous) && !row.stale
    ensures row.a.installedVersion == a.installedVersion
  {
  }

  /** A stored row that still says Available, fresh, is what its scan's evidence says. */
  lemma StoredRowIsBacked(r: ScanRecord, row: Published)
    requires row in StoredRows(SnapshotOf(r).rows) && row.a.state == Available && !row.stale
    ensures var id, e := row.a.identity, Members(AllObservations(r.runs));
      && AvailableWhen(e, id, r.scan) && !ProductConflict(VerifiedIds(AllMappings(r.runs), r.scan, id))
      && exists o | o in OffersIn(e, id, r.scan) :: o.installedVersion == row.a.installedVersion
  {
    var rows := Rows(r.scan, r.families, r.runs, r.previous);
    var n :| 0 <= n < |rows| && StoredRows(rows)[n] == row;
    var q := rows[n];
    StoredRowFacts(row, q);
    StoredKeepsVersion(row, q);
    assert q in rows;
    FreshRowIsSound(r.scan, r.families, r.runs, r.previous, q);
    RowsMembers(r.scan, r.families, r.runs, r.previous);
    var a := AssessmentOf(r.scan, q.a.identity, r.runs);
    FreshKeepsVersion(r.scan, a, r.runs, r.previous, q);
    AssessmentFacts(r.scan, q.a.identity, r.runs);
    OfferVersion(Input(q.a.identity, r.scan, Required(r.runs), AllObservations(r.runs)), a);
  }

  lemma AuthorisedIsBacked(env: Env, r: ScanRecord, s: Snapshot, row: Published, p: Package, now: nat)
    requires s == StoredForm(SnapshotOf(r)).(published := true) && SnapshotValid(s) && s.scan.userSid == env.user
    requires row in s.rows && RowKey(row) == Lower(InstalledPfn(p)) && Authorises(s, row, p, now)
    ensures Backed(env, r, row.a.identity, p, now)
  {
    StoredRowIsBacked(r, row);
    var e, id := Members(AllObservations(r.runs)), row.a.identity;
    var o :| o in OffersIn(e, id, r.scan) && o.installedVersion == row.a.installedVersion;
    assert EqualFold(Trim(p.version), Trim(o.installedVersion));
  }

  /** The scan's evidence offers an update that keeps its executable target in storage. */
  ghost predicate Executable(r: ScanRecord, id: Identity) {
    && AvailableWhen(Members(AllObservations(r.runs)), id, r.scan)
    && !ProductConflict(VerifiedIds(AllMappings(r.runs), r.scan, id))
    && (SomeNamesProduct(OffersOf(r.scan, r.runs, id)) || !HasVerified(AllMappings(r.runs), r.scan, id))
  }

  /** A stored row of a published scan that the scan assessed afresh authorises an
      installed package exactly when the scan's evidence offers an executable update, the
      scan completed within the window, and the version is known, the assessed one, and
      not pinned. Rows carried over never do. */
  lemma RowAuthorisesExactlyWhen(r: ScanRecord, s: Snapshot, row: Published, p: Package, now: nat)
    requires s == StoredRecord(r).(published := true) && row in s.rows
    ensures Authorises(s, row, p, now) <==>
      && !row.stale && Executable(r, row.a.identity) && Recent(r.scan.completedAt, now)
      && VersionKnown(p.version) && EqualFold(Trim(p.version), Trim(row.a.installedVersion))
      && !p.unknownVersion && !p.pinned
  {
    var rows := Rows(r.scan, r.families, r.runs, r.previous);
    var n :| 0 <= n < |rows| && StoredRows(rows)[n] == row;
    assert rows[n] in rows;
    StoredRowIsExecutableWhen(r, row, rows[n]);
    hide StoredRow, StoredRows, Rows, Executable, KindOf, EqualFold, Trim, VersionKnown;
    FreshWhen(s, row, p.version, now);
  }

  lemma FreshWhen(s: Snapshot, row: Published, version: string, now: nat)
    requires s.published && !s.recovered
    ensures !row.stale && Dated(row.observedAt, s.scan) ==>
      (StoreProjection.Fresh(s, row, version, now) <==>
         Recent(s.scan.completedAt, now) && VersionKnown(version)
         && EqualFold(Trim(version), Trim(row.a.installedVersion)))
    ensures row.stale ==> !StoreProjection.Fresh(s, row, version, now)
  {
    KnownFolds(version, row.a.installedVersion);
    hide VersionKnown, EqualFold, Trim;
  }

  lemma StoredRowIsExecutableWhen(r: ScanRecord, row: Published, q: Published)
    requires q in Rows(r.scan, r.families, r.runs, r.previous) && row == StoredRow(q)
    ensures !row.stale ==> Dated(row.observedAt, r.scan)
    ensures row.a.state == Available && row.exact && KindOf(row.productId, row.updateId) != NoTarget && !row.stale <==>
              !row.stale && Executable(r, row.a.identity)
  {
    StoredRowFacts(row, q);
    if !row.stale {
      FreshRowIsSound(r.scan, r.families, r.runs, r.previous, q);
      FreshRowsRepeat(r.scan, r.families, r.runs, r.previous, q);
      hide StoredRow, Rows, AvailableWhen, CurrentWhen, ProductConflict, SomeNamesProduct, HasVerified,
           RepeatsAssessment, Applies, SaysWhatWasOffered, VerifiedIds, Retains, KindOf, Trim;
      if row.a.state == Available {
        StoredKeepsTargetExactlyWhen(r.scan, r.families, r.runs, r.previous, q, row);
        if row.exact { StoredTargetIsSomething(row, q); }
      }
    }
  }

  lemma KnownFolds(a: string, b: string)
    ensures EqualFold(Trim(a), Trim(b)) && VersionKnown(a) ==> VersionKnown(b)
  {
    LowerEmpty(Trim(a));
    LowerEmpty(Trim(b));
  }

  lemma StoredTargetIsSomething(row: Published, q: Published)
    requires row == StoredRow(q) && row.exact && row.a.target.Some?
    requires row.productId == row.a.target.value.productId && row.updateId == row.a.target.value.updateId
    ensures KindOf(row.productId, row.updateId) != NoTarget
  {
    hide Trim, LooksLikeProductId;
  }

  lemma ScanBacks(env: Env, r: ScanRecord, s: Snapshot, row: Published, p: Package, q: Package, now: nat)
    requires s == StoredRecord(r).(published := true) && SnapshotValid(s) && s.scan.userSid == env.user
    requires row in s.rows && RowKey(row) == Lower(InstalledPfn(p)) && Authorises(s, row, p, now)
    requires Shown(q, row, StoreProjection.Fresh(s, row, p.version, now), p.version)
    ensures Backed(env, r, row.a.identity, p, now)
    ensures ShowsTheOffer(q, OffersOf(r.scan, r.runs, row.a.identity), row.a.identity.pfn)
  {
    AuthorisedIsBacked(env, r, s, row, p, now);
    AuthorisedRowSays(r, row);
    hide Shown, Backed, SnapshotValid, Rows;
    ShownOffer(q, row, p.version, OffersOf(r.scan, r.runs, row.a.identity));
  }

  /** End to end: whatever was migrated and persisted and wherever it crashed, if the
      loaded snapshot makes a Store package of the inventory updatable, one of the scans,
      completed within the window, offered the update for exactly this user, family and
      installed version, uncontradicted by its own evidence, and the package shows the IDs
      and the version that were offered; or the snapshot is an old file's. */
  lemma UpdatesAreBackedByEvidence(env: Env, oldFiles: OldFiles, disks: seq<Disk>, events: seq<Event>, s: Snapshot,
                                   base: seq<Package>, families: map<string, Family>, now: nat, k: nat)
    requires Run(env, oldFiles, disks, events) && Load(env, disks[|events|]) == Found(s)
    requires k < |base| && base[k].store && !base[k].canUpdateNow
    requires k < |Project(base, s, families, now)| && Project(base, s, families, now)[k].canUpdateNow
    ensures || (exists e, id | e in events && e.Persist? ::
                  && Backed(env, e.record, id, base[k], now)
                  && ShowsTheOffer(Project(base, s, families, now)[k], OffersOf(e.record.scan, e.record.runs, id),
                                   id.pfn))
            || (exists c | c in oldFiles :: Readable(env, c) && s == SnapOf(env, c).(published := true))
  {
    UpdatableExactlyWhenAuthorised(base, s, families, now, k);
    var row :| LastSays(base, s.rows, k, row) && Authorises(s, row, base[k], now);
    var key :| key in Index(base) && Index(base)[key] == k && LastRow(s.rows, key) == Some(row);
    RowsFound(s.rows, key);
    UnflaggedComesThroughThePointer(env, disks[|events|]);
    CommittedWasPersisted(env, oldFiles, disks, events);
    IndexedPackagesAreStore(base);
    PackagesShowTheLastRow(base, s, families, now, k);
    if e :| e in events && e.Persist? && s == StoredRecord(e.record).(published := true) {
      hide Run, Load, Project, Shown, Backed, ShowsTheOffer, StoredForm, SnapshotOf;
      ScanBacks(env, e.record, s, row, base[k], Project(base, s, families, now)[k], now);
      assert Backed(env, e.record, row.a.identity, base[k], now);
    }
  }
}
