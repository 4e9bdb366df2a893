/** The repository's operations, one file operation at a time. */
module StoreRepository {
  import opened Wrappers
  import opened Text
  import opened StoreModel
  import opened StoreReconcile
  import opened StorePipeline
  import opened StoreRepoModel
  import opened StoreRepoTheorems
  import opened StoreRetention

  /** Files of one user. Every file operation may fail, and the process may die after
      any of them: `hazards` collects the states a crash can leave behind. */
  class Repository {
    const env: Env
    var disk: Disk
    var hazards: set<Disk>
    const reliable: bool // whether no file operation will fail

    constructor (env: Env, disk: Disk, reliable: bool)
      ensures this.env == env && this.disk == disk && hazards == {disk} && this.reliable == reliable
    {
      this.env, this.disk, hazards, this.reliable := env, disk, {disk}, reliable;
    }

    /** Whether the next file operation fails. */
    method Fails() returns (failed: bool)
      ensures reliable ==> !failed
    {
      failed := *;
      if reliable { failed := false; }
    }

    method Write(d: Disk)
      modifies this
      ensures disk == d && hazards == old(hazards) + {d}
    {
      disk, hazards := d, hazards + {d};
    }

    /** Moves a file that does not decode out of the way; the rename may fail. */
    method Quarantine(f: File)
      requires f in disk.files && disk.files[f] == Garbled
      modifies this
      ensures QuarantinedFrom(old(disk), disk) && old(disk.files).Keys - {f} <= disk.files.Keys
      ensures hazards <= old(hazards) + {disk}
      ensures reliable ==> f !in disk.files
      ensures disk.files.Keys <= old(disk.files).Keys
    {
      var failed := Fails();
      if failed { return; }
      Write(disk.(files := disk.files - {f}, quarantined := disk.quarantined + {f}));
    }

    /** Reads one file; one that is not JSON is quarantined. */
    method Inspect(f: File, ghost before: Disk) returns (read: Read)
      requires f in disk.files && QuarantinedFrom(before, disk)
      modifies this
      ensures read == ReadSnapshot(env, before.files[f])
      ensures QuarantinedFrom(before, disk) && old(disk.files).Keys - {f} <= disk.files.Keys
      ensures OnlyQuarantined(hazards, old(hazards), before)
      ensures reliable && f in disk.files ==> !Discarded(env, disk.files[f])
      ensures disk.files.Keys <= old(disk.files).Keys
    {
      read := ReadSnapshot(env, disk.files[f]);
      if read.Bad? && read.fault == MalformedJson {
        ghost var current := disk;
        Quarantine(f);
        QuarantineComposes(before, current, disk);
      }
    }

    /** Reads every file in directory order, quarantining what is not JSON; a scan ID
        that was seen before is passed over. */
    method LoadUsable() returns (usable: Catalog)
      requires WellNamed(env, disk.files)
      modifies this
      ensures QuarantinedFrom(old(disk), disk)
      ensures usable == CatalogOf(env, old(disk.files))
      ensures OnlyQuarantined(hazards, old(hazards), old(disk))
      ensures reliable ==> Sifted(env, disk.files, {})
    {
      hide Discarded, Sifted;
      usable := map[];
      ghost var before, files := disk, disk.files;
      NothingSifted(env, files);
      var todo := disk.files.Keys;
      while todo != {}
        invariant todo <= disk.files.Keys && QuarantinedFrom(before, disk)
        invariant Behind(files, todo) && Listed(env, files, todo, usable)
        invariant OnlyQuarantined(hazards, old(hazards), before)
        invariant reliable ==> Sifted(env, disk.files, todo)
        decreases todo
      {
        EarliestExists(todo);
        var f :| f in todo && forall g | g in todo :: !Earlier(g, f);
        ghost var unread := disk.files;
        var read := Inspect(f, before);
        if reliable { OneMoreSifted(env, unread, disk.files, todo, f); }
        if read.Bad? || read.s.scan.scanId in usable {
          Passed(env, files, todo, usable, f);
        } else {
          Taken(env, files, todo, usable, f);
          usable := usable[read.s.scan.scanId := read.s];
        }
        StillBehind(files, todo, f);
        todo := todo - {f};
      }
      AllListed(env, files, usable);
    }

    /** The newest published one of the snapshots read. */
    method LatestOf(usable: Catalog) returns (latest: Option<string>)
      requires Keyed(usable)
      ensures latest.Some? ==> LatestPublished(usable, latest.value)
      ensures latest.None? ==> forall id :: !LatestPublished(usable, id)
    {
      var todo := usable.Keys;
      latest := None;
      while todo != {}
        invariant todo <= usable.Keys
        invariant latest.None? ==> forall id | id in usable && id !in todo :: !usable[id].published
        invariant latest.Some? ==> Leads(usable, todo, latest.value)
        decreases todo
      {
        var id :| id in todo;
        ghost var rest := todo;
        todo := todo - {id};
        if !usable[id].published { continue; }
        if latest.None? {
          latest := Some(id);
          continue;
        }
        AfterTotal(NameOf(usable[id].scan), NameOf(usable[latest.value].scan));
        if SortsAfter(usable[id], usable[latest.value]) {
          LeadPasses(usable, rest, latest.value, id);
          latest := Some(id);
        }
      }
    }

    /** The newest published snapshot that can be read. */
    method Recover() returns (loaded: Loaded)
      requires WellNamed(env, disk.files)
      modifies this
      ensures QuarantinedFrom(old(disk), disk) && loaded == Recovered(CatalogOf(env, old(disk.files)))
      ensures OnlyQuarantined(hazards, old(hazards), old(disk))
    {
      CatalogFacts(env, disk.files);
      var usable := LoadUsable();
      var latest := LatestOf(usable);
      if latest.Some? {
        RecoveredIs(usable, latest.value);
        return Found(usable[latest.value].(recovered := true));
      }
      return Nothing;
    }

    method LoadLatest() returns (loaded: Loaded)
      requires WellNamed(env, disk.files)
      modifies this
      ensures QuarantinedFrom(old(disk), disk) && loaded == Load(env, old(disk))
      ensures OnlyQuarantined(hazards, old(hazards), old(disk))
    {
      match disk.pointer {
        case At(p) =>
          var read := ReadPointed(env, disk.files, p);
          if read.Good? { return Found(read.s); }
          if read.fault == FutureSchema || read.fault == AccessDenied || read.fault == ForeignUser {
            return Failed(read.fault);
          }
          loaded := Recover();
        case LockedPointer => loaded := Failed(AccessDenied);
        case _ => loaded := Recover();
      }
    }

    /** Newest first. */
    method SortNewestFirst(usable: Catalog) returns (sorted: seq<string>)
      requires Keyed(usable)
      ensures Lists(usable, sorted) && |sorted| == |usable|
    {
      sorted := [];
      var todo := usable.Keys;
      while todo != {}
        invariant todo <= usable.Keys
        invariant forall id :: id in sorted <==> id in usable && id !in todo
        invariant Sorted(usable, sorted)
        invariant forall i, id | 0 <= i < |sorted| && id in todo :: SortsAfter(usable[sorted[i]], usable[id])
        decreases todo
      {
        ghost var any :| any in todo;
        ghost var greatest := Greatest(usable, todo, any);
        var id :| id in todo && forall k | k in todo && k != id :: SortsAfter(usable[id], usable[k]);
        todo, sorted := todo - {id}, sorted + [id];
      }
      ListHasAll(usable, sorted);
    }

    /** The scan IDs of the newest generations, as many as retention keeps. */
    method Newest(sorted: seq<string>) returns (keep: set<string>)
      ensures keep == Firsts(sorted, if |sorted| < RETENTION then |sorted| else RETENTION)
    {
      keep := {};
      for i := 0 to |sorted|
        invariant keep == Firsts(sorted, if i < RETENTION then i else RETENTION)
      {
        if i < RETENTION { keep := keep + {sorted[i]}; }
      }
    }

    /** The scan ID that is kept whatever its age. */
    method Current(usable: Catalog, ghost before: Disk) returns (id: Option<string>)
      requires WellNamed(env, before.files) && QuarantinedFrom(before, disk) && usable == CatalogOf(env, before.files)
      modifies this
      ensures QuarantinedFrom(before, disk) && OnlyQuarantined(hazards, old(hazards), before)
      ensures id == Protected(env, before)
    {
      ghost var listed := disk;
      QuarantineChangesNothing(env, before, listed);
      var loaded := LoadLatest();
      QuarantineTransitive(before, listed);
      if loaded.Found? { return Some(loaded.s.scan.scanId); }
      CatalogFacts(env, before.files);
      id := LatestOf(usable);
      if id.Some? { OneProtected(env, before, id.value); }
    }

    /** Removes generations beyond the newest ones, but not the current one. */
    method Prune() returns (ok: bool)
      requires WellNamed(env, disk.files)
      modifies this
      ensures Shrunk(env, old(disk), disk)
      ensures ok ==> Pruned(env, old(disk), disk)
      ensures reliable ==> ok
      ensures OnlyShrunk(env, hazards, old(hazards), old(disk))
    {
      hide Discarded, Sifted, Pruned, Shrunk, Surplus, CatalogOf, Removed, Firsts, Protected;
      ghost var before := disk;
      CatalogFacts(env, before.files);
      var usable := LoadUsable();
      QuarantineShrinks(env, before);
      if |usable| <= RETENTION {
        FewArePruned(env, before, disk);
        return true;
      }
      var sorted := SortNewestFirst(usable);
      var keep := Newest(sorted);
      var current := Current(usable, before);
      if current.Some? { keep := keep + {current.value}; }
      KeptOrSurplus(usable, sorted, current, keep);
      ghost var cleaned := disk;
      RemovalShrinks(env, before, cleaned, usable, sorted, keep);
      ok := RemoveExcept(usable, sorted, keep);
    }

    /** Removes the files of the scans of a list unless they are kept; a file that is
        not there is passed over, one that cannot be removed ends it. */
    method RemoveExcept(usable: Catalog, ids: seq<string>, keep: set<string>) returns (ok: bool)
      requires forall id | id in ids :: id in usable
      modifies this
      ensures Removed(old(disk), disk, usable, ids, keep)
      ensures ok ==> forall id | id in ids && id !in keep :: FileOf(usable[id]) !in disk.files
      ensures forall d | d in hazards :: d in old(hazards) || Removed(old(disk), d, usable, ids, keep)
      ensures reliable ==> ok
    {
      for i := 0 to |ids|
        invariant Removed(old(disk), disk, usable, ids, keep)
        invariant forall k | 0 <= k < i && ids[k] !in keep :: FileOf(usable[ids[k]]) !in disk.files
        invariant forall d | d in hazards :: d in old(hazards) || Removed(old(disk), d, usable, ids, keep)
      {
        if ids[i] in keep { continue; }
        var f := FileOf(usable[ids[i]]);
        if f !in disk.files { continue; }
        var failed := Fails();
        if failed { return false; }
        OneMoreRemoved(old(disk), disk, usable, ids, keep, i);
        Write(disk.(files := disk.files - {f}));
      }
      return true;
    }

    /** Whether a scan may become the published one. */
    method MayPublish(s: Snapshot) returns (published: bool, fault: Option<Fault>)
      requires WellNamed(env, disk.files)
      modifies this
      ensures QuarantinedFrom(old(disk), disk)
      ensures OnlyQuarantined(hazards, old(hazards), old(disk))
      ensures published ==>
                fault.None? && s.published && (Load(env, old(disk)).Found? ==> SortsAfter(s, Load(env, old(disk)).s))
      ensures fault.None? && !published && s.published ==>
                Load(env, old(disk)).Found? && !SortsAfter(s, Load(env, old(disk)).s)
      ensures fault.Some? ==> s.published && Load(env, old(disk)) == Failed(fault.value)
      ensures s.published && Load(env, old(disk)).Failed? && Stops(Load(env, old(disk)).fault) ==>
                fault == Some(Load(env, old(disk)).fault)
    {
      if !s.published { return false, None; }
      var loaded := LoadLatest();
      if loaded.Failed? && loaded.fault != MissingGeneration && loaded.fault != MalformedJson
         && loaded.fault != ChecksumMismatch {
        return false, Some(loaded.fault);
      }
      return !loaded.Found? || SortsAfter(s, loaded.s), None;
    }

    /** Turns down a scan ID already present, and decides whether to publish. */
    method Admit(s: Snapshot) returns (published: bool, fault: Option<Fault>)
      requires WellNamed(env, disk.files)
      modifies this
      ensures QuarantinedFrom(old(disk), disk)
      ensures OnlyQuarantined(hazards, old(hazards), old(disk))
      ensures s.scan.scanId in CatalogOf(env, old(disk.files)) ==> fault == Some(DuplicateScanId)
      ensures fault.None? ==> Unused(env, disk.files, s.scan.scanId)
      ensures published ==>
                fault.None? && s.published && (Load(env, old(disk)).Found? ==> SortsAfter(s, Load(env, old(disk)).s))
      ensures fault.None? && !published && s.published ==>
                Load(env, old(disk)).Found? && !SortsAfter(s, Load(env, old(disk)).s)
      ensures fault.Some? ==>
                || (fault == Some(DuplicateScanId) && s.scan.scanId in CatalogOf(env, old(disk.files)))
                || (s.published && Load(env, old(disk)) == Failed(fault.value))
      ensures s.published && s.scan.scanId !in CatalogOf(env, old(disk.files)) && Load(env, old(disk)).Failed? ==>
                fault == Some(Load(env, old(disk)).fault)
    {
      ghost var start := disk;
      LoadFaultsStop(env, start);
      var usable := LoadUsable();
      ghost var listed := disk;
      QuarantineChangesNothing(env, start, listed);
      QuarantineTransitive(start, listed);
      if s.scan.scanId in usable { return false, Some(DuplicateScanId); }
      IdIsUnused(env, start, s.scan.scanId);
      published, fault := MayPublish(s);
    }

    /** Writes a completed scan: the generation file, then the pointer, then retention.
        Returns whether the scan became the published one. */
    method Persist(snapshot: Snapshot) returns (published: bool, fault: Option<Fault>)
      requires WellNamed(env, disk.files) && snapshot.scan.userSid == env.user
      modifies this
      ensures Successor(env, old(disk), disk, StoredForm(snapshot))
      ensures OnlySuccessors(env, hazards, old(hazards), old(disk), StoredForm(snapshot))
      ensures published ==> fault.None? && snapshot.published
      ensures published ==> Committed(env, disk) == Some(StoredForm(snapshot).(published := true))
      ensures published && Load(env, old(disk)).Found? ==> SortsAfter(snapshot, Load(env, old(disk)).s)
      ensures !published && Committed(env, old(disk)).Some? ==> Committed(env, disk) == Committed(env, old(disk))
      ensures fault.None? && !published && snapshot.published ==>
                Load(env, old(disk)).Found? && !SortsAfter(snapshot, Load(env, old(disk)).s)
      ensures !SnapshotValid(Clean(snapshot)) ==> fault == Some(InvalidContents) && disk == old(disk)
      ensures SnapshotValid(Clean(snapshot)) && snapshot.scan.scanId in CatalogOf(env, old(disk.files)) ==>
                fault == Some(DuplicateScanId) && QuarantinedFrom(old(disk), disk)
      ensures fault.Some? ==> Explained(env, old(disk), snapshot, fault.value)
      ensures forall f | BlockedBy(env, old(disk), f) && snapshot.published && SnapshotValid(Clean(snapshot)) ::
                && QuarantinedFrom(old(disk), disk)
                && fault == Some(if snapshot.scan.scanId in CatalogOf(env, old(disk.files)) then DuplicateScanId else f)
      ensures KeepsAll(env, old(disk), disk, StoredForm(snapshot))
      ensures OnlyKeepAll(env, hazards, old(hazards), old(disk), StoredForm(snapshot))
      ensures fault.None? ==> Stores(env, old(disk), disk, StoredForm(snapshot), published)
      ensures reliable ==> fault != Some(WriteFailed)
      ensures reliable && fault.None? ==> StoresAndPrunes(env, old(disk), disk, StoredForm(snapshot), published)
      ensures fault.None? ==> env.size(Encoded(StoredForm(snapshot).(published := published))) <= 16 * 1024 * 1024
    {
      ghost var start := disk;
      LoadFailsExactlyWhen(env, start);
      if !SnapshotValid(Clean(snapshot)) {
        NothingDone(env, start, StoredForm(snapshot));
        return false, Some(InvalidContents);
      }
      var s := StoredForm(snapshot);
      LoadFaultsStop(env, start);
      published, fault := Admit(s);
      AllQuarantineHarmless(env, start, s);
      ghost var clean := disk;
      AllQuarantineKeeps(env, start, s);
      if fault.Some? { return; }
      s := s.(published := published);
      if env.size(Encoded(s)) > MAX_BYTES { return false, Some(TooLarge); }
      var name := NameOf(s.scan);
      if Gen(name) in disk.files { return false, Some(DuplicateScanId); }
      UnflaggedComesThroughThePointer(env, start);
      published, fault := Commit(snapshot, s, name);
      SameStart(env, start, clean, StoredForm(snapshot));
      AllKeepersKeep(env, start, clean, StoredForm(snapshot));
      if fault.Some? { return; }
      ghost var written := disk;
      AllPrunedKeep(env, start, clean, written, StoredForm(snapshot), published);
      var pruned := Prune();
      AllShrunkHarmless(env, start, written, StoredForm(snapshot));
    }

    /** Writes the generation file and, for a scan to publish, the pointer to it. */
    method Commit(ghost snapshot: Snapshot, s: Snapshot, name: Name) returns (published: bool, fault: Option<Fault>)
      requires WellNamed(env, disk.files) && Gen(name) !in disk.files && name == NameOf(s.scan)
      requires Unused(env, disk.files, name.scanId)
      requires SnapshotValid(Clean(snapshot)) && snapshot.scan.userSid == env.user
      requires s == StoredForm(snapshot).(published := s.published)
      requires s.published && Committed(env, disk).Some? ==> SortsAfter(s, Committed(env, disk).value)
      modifies this
      ensures Successor(env, old(disk), disk, StoredForm(snapshot))
      ensures OnlySuccessors(env, hazards, old(hazards), old(disk), StoredForm(snapshot))
      ensures published ==>
                s.published && fault.None? && Committed(env, disk) == Some(StoredForm(snapshot).(published := true))
      ensures !published && Committed(env, old(disk)).Some? ==> Committed(env, disk) == Committed(env, old(disk))
      ensures fault.None? ==> published == s.published
      ensures fault.Some? ==> fault == Some(WriteFailed)
      ensures KeepsFiles(old(disk), disk) && OnlyKeepers(hazards, old(hazards), old(disk))
      ensures fault.None? ==> Gen(name) in disk.files && disk.files[Gen(name)] == Encoded(s)
      ensures reliable ==> fault.None?
    {
      ghost var clean, plain := disk, StoredForm(snapshot);
      StoredFormDecodes(env, snapshot, s.published);
      var ok := WriteAtomically(Gen(name), Encoded(s), plain);
      if !ok { return false, Some(WriteFailed); }
      if !s.published { return false, None; }
      var failed := Fails();
      if failed {
        Downgrade(clean, name, snapshot, s);
        return false, Some(WriteFailed);
      }
      var pointer := Pointer(Some(Gen(name)), s.scan.scanId, name.startedAt, s.scan.completedAt, env.sha(Encoded(s)));
      Write(disk.(pointer := At(pointer)));
      PointerCommits(env, disk, name, s, name.startedAt);
      PointedSucceeds(env, clean, disk, name, s, plain);
      return true, None;
    }

    /** Writes a temporary file, in the same directory, and renames it. Whatever fails,
        and whether or not cleaning up succeeds, at most the temporary file is left. */
    method WriteAtomically(f: File, c: Content, ghost plain: Snapshot) returns (ok: bool)
      requires WellNamed(env, disk.files) && f == FileOf(plain) && f !in disk.files
      requires Unused(env, disk.files, plain.scan.scanId) && Whole(env, c, plain)
      modifies this
      ensures if ok then disk == old(disk).(files := old(disk.files)[f := c]) else Left(old(disk), disk, plain)
      ensures Successor(env, old(disk), disk, plain)
      ensures Committed(env, old(disk)).Some? ==> Committed(env, disk) == Committed(env, old(disk))
      ensures OnlySuccessors(env, hazards, old(hazards), old(disk), plain)
      ensures KeepsFiles(old(disk), disk) && OnlyKeepers(hazards, old(hazards), old(disk))
      ensures reliable ==> ok
    {
      hide Successor, Committed, Unused, WellNamed, Whole, Left, FileOf;
      ghost var start := disk;
      NothingDone(env, start, plain);
      NothingLeft(start, plain);
      var failed := Fails();
      if failed { return false; }
      FreshTemp(disk.files.Keys);
      var k: nat :| Temp(k) !in disk.files;
      AtomicStates(env, start, k, f, c, plain);
      Write(disk.(files := disk.files[Temp(k) := Garbled]));
      failed := Fails();
      if failed {
        CleanUp(Temp(k), start);
        return false;
      }
      Write(disk.(files := disk.files[Temp(k) := c]));
      assert disk.files == start.files[Temp(k) := c];
      failed := Fails();
      if failed {
        CleanUp(Temp(k), start);
        return false;
      }
      Write(disk.(files := (disk.files - {Temp(k)})[f := c]));
      assert disk.files == start.files[f := c];
      return true;
    }

    /** Tries to remove a temporary file. */
    method CleanUp(temp: File, ghost start: Disk)
      requires temp !in start.files && temp in disk.files
      requires disk == start.(files := start.files[temp := disk.files[temp]])
      modifies this
      ensures disk == old(disk) || disk == start
      ensures hazards <= old(hazards) + {disk}
    {
      var failed := Fails();
      if failed { return; }
      Write(disk.(files := disk.files - {temp}));
      assert disk.files == start.files;
    }

    /** Marks a generation as not published after its pointer could not be written. The
        file is overwritten in place: it may stay as it is, or be torn. */
    method Downgrade(ghost clean: Disk, name: Name, ghost snapshot: Snapshot, s: Snapshot)
      requires Gen(name) !in clean.files && disk == clean.(files := clean.files[Gen(name) := Encoded(s)])
      requires WellNamed(env, clean.files) && name == NameOf(s.scan) && Unused(env, clean.files, name.scanId)
      requires SnapshotValid(Clean(snapshot)) && snapshot.scan.userSid == env.user
      requires s == StoredForm(snapshot).(published := true)
      modifies this
      ensures Successor(env, clean, disk, StoredForm(snapshot))
      ensures Committed(env, clean).Some? ==> Committed(env, disk) == Committed(env, clean)
      ensures OnlySuccessors(env, hazards, old(hazards), clean, StoredForm(snapshot))
      ensures KeepsFiles(clean, disk) && OnlyKeepers(hazards, old(hazards), clean)
    {
      hide Successor, WellNamed, Unused, Committed, StoredForm, Clean, SnapshotValid, Decode;
      var plain, withdrawn, f := StoredForm(snapshot), s.(published := false), Gen(name);
      StoredFormDecodes(env, snapshot, true);
      StoredFormDecodes(env, snapshot, false);
      NewFileSucceeds(env, clean, disk, f, Encoded(s), plain);
      var failed := Fails();
      if failed { return; }
      Write(disk.(files := disk.files[f := Garbled]));
      assert disk.files == clean.files[f := Garbled];
      NewFileSucceeds(env, clean, disk, f, Garbled, plain);
      failed := Fails();
      if failed { return; }
      Write(disk.(files := disk.files[f := Encoded(withdrawn)]));
      assert disk.files == clean.files[f := Encoded(withdrawn)];
      NewFileSucceeds(env, clean, disk, f, Encoded(withdrawn), plain);
    }
  }

  // ---------------------------------------------------------------- helpers

  /** Why a scan was not persisted. */
  ghost predicate Explained(env: Env, d: Disk, snapshot: Snapshot, fault: Fault) {
    match fault
    case InvalidContents => !SnapshotValid(Clean(snapshot))
    case DuplicateScanId => Gen(NameOf(snapshot.scan)) in d.files || snapshot.scan.scanId in CatalogOf(env, d.files)
    case TooLarge => exists published :: env.size(Encoded(StoredForm(snapshot).(published := published))) > MAX_BYTES
    case WriteFailed => true
    case _ => snapshot.published && Load(env, d) == Failed(fault)
  }

  lemma LoadFaultsStop(env: Env, d: Disk)
    ensures Load(env, d).Failed? ==> Stops(Load(env, d).fault)
  {
  }

  /** Nothing changed, or a temporary file was left. */
  ghost predicate Left(before: Disk, d: Disk, plain: Snapshot) {
    || d == before
    || exists k: nat, c ::
          Temp(k) !in before.files && Holds(c, plain) && d == before.(files := before.files[Temp(k) := c])
  }

  lemma NothingLeft(d: Disk, plain: Snapshot)
    ensures Left(d, d, plain)
  {
  }

  /** The states of an atomic write. */
  lemma AtomicStates(env: Env, start: Disk, k: nat, f: File, c: Content, plain: Snapshot)
    requires WellNamed(env, start.files) && f == FileOf(plain) && f !in start.files && Temp(k) !in start.files
    requires Unused(env, start.files, plain.scan.scanId) && Whole(env, c, plain)
    ensures var torn, whole, done := start.(files := start.files[Temp(k) := Garbled]),
      start.(files := start.files[Temp(k) := c]),
                                     start.(files := start.files[f := c]);
      && Successor(env, start, torn, plain) && Successor(env, start, whole, plain) && Successor(env, start, done, plain)
      && Left(start, torn, plain) && Left(start, whole, plain) && f.Gen?
      && (Committed(env, start).Some? ==>
          Committed(env, torn) == Committed(env, whole) == Committed(env, done) == Committed(env, start))
  {
    NewFileSucceeds(env, start, start.(files := start.files[Temp(k) := Garbled]), Temp(k), Garbled, plain);
    NewFileSucceeds(env, start, start.(files := start.files[Temp(k) := c]), Temp(k), c, plain);
    NewFileSucceeds(env, start, start.(files := start.files[f := c]), f, c, plain);
    hide Successor, Committed, Unused, WellNamed;
    assert Holds(c, plain) && Holds(Garbled, plain);
  }

  /** A whole file of a scan, published or not. */
  ghost predicate Whole(env: Env, c: Content, plain: Snapshot) {
    exists b :: c == Encoded(plain.(published := b)) && Decode(env, c) == Good(plain.(published := b))
  }

  lemma FreshTemp(files: set<File>)
    ensures exists k: nat :: Temp(k) !in files
  {
    if forall k: nat :: Temp(k) in files {
      TooMany(files, |files| + 1);
    }
  }

  lemma TooMany(files: set<File>, n: nat)
    requires forall k: nat | k < n :: Temp(k) in files
    ensures n <= |files|
  {
    if n > 0 {
      TooMany(files - {Temp(n - 1)}, n - 1);
    }
  }

  lemma EarliestExists(files: set<File>)
    requires files != {}
    ensures exists f :: f in files && forall g | g in files :: !Earlier(g, f)
  {
    var f :| f in files;
    if files != {f} {
      EarliestExists(files - {f});
      var g :| g in files - {f} && forall h | h in files - {f} :: !Earlier(h, g);
      var least := if Earlier(f, g) then f else g;
      forall h | h in files ensures !Earlier(h, least) {
        EarlierOrder(h, f, g);
        EarlierOrder(f, g, h);
      }
    }
  }

  ghost predicate OnlyQuarantined(now: set<Disk>, earlier: set<Disk>, before: Disk) {
    forall d | d in now :: d in earlier || QuarantinedFrom(before, d)
  }

  ghost predicate Unused(env: Env, files: map<File, Content>, id: string) {
    forall f | Accepted(env, files, f) :: IdOf(env, files, f) != id
  }

  lemma IdIsUnused(env: Env, before: Disk, id: string)
    requires WellNamed(env, before.files) && id !in CatalogOf(env, before.files)
    ensures forall d | QuarantinedFrom(before, d) :: Unused(env, d.files, id)
  {
    CatalogFacts(env, before.files);
    forall d, f | QuarantinedFrom(before, d) && Accepted(env, d.files, f) ensures IdOf(env, d.files, f) != id {
      assert Accepted(env, before.files, f) && IdOf(env, before.files, f) == IdOf(env, d.files, f);
      var first := FirstIsUsable(env, before.files, f,
                                 set g | g in before.files && Twin(env, before.files, f, g) && Earlier(g, f));
    }
  }

  ghost predicate OnlySuccessors(env: Env, now: set<Disk>, earlier: set<Disk>, before: Disk, incoming: Snapshot) {
    forall d | d in now :: d in earlier || Successor(env, before, d, incoming)
  }

  /** A file that a listing moves out of the way. */
  predicate Discarded(env: Env, c: Content) { c == Garbled && env.size(c) <= MAX_BYTES }

  /** None of the files seen so far has to be moved. */
  ghost predicate Sifted(env: Env, files: map<File, Content>, todo: set<File>) {
    forall f | f in files && f !in todo :: !Discarded(env, files[f])
  }

  lemma NothingSifted(env: Env, files: map<File, Content>)
    ensures Sifted(env, files, files.Keys)
  {
  }

  lemma OneMoreSifted(env: Env, unread: map<File, Content>, files: map<File, Content>, todo: set<File>, f: File)
    requires Sifted(env, unread, todo) && files.Keys <= unread.Keys && forall g | g in files :: files[g] == unread[g]
    requires f in files ==> !Discarded(env, files[f])
    ensures Sifted(env, files, todo - {f})
  {
    hide Discarded;
  }

  /** The scan was stored beside everything there was, and then retention applied. */
  ghost predicate StoresAndPrunes(env: Env, before: Disk, d: Disk, incoming: Snapshot, published: bool) {
    exists written: Disk ::
      && KeepsFiles(before, written) && Adds(before, written, incoming)
      && FileOf(incoming) in written.files
      && written.files[FileOf(incoming)] == Encoded(incoming.(published := published))
      && Pruned(env, written, d)
  }

  ghost predicate OnlyKeepers(now: set<Disk>, earlier: set<Disk>, before: Disk) {
    forall d | d in now :: d in earlier || KeepsFiles(before, d)
  }

  ghost predicate OnlyKeepAll(env: Env, now: set<Disk>, earlier: set<Disk>, before: Disk, incoming: Snapshot) {
    forall d | d in now :: d in earlier || KeepsAll(env, before, d, incoming)
  }

  lemma AllQuarantineKeeps(env: Env, before: Disk, incoming: Snapshot)
    ensures forall d | QuarantinedFrom(before, d) :: KeepsFiles(before, d) && KeepsAll(env, before, d, incoming)
  {
    forall d | QuarantinedFrom(before, d) ensures KeepsFiles(before, d) && KeepsAll(env, before, d, incoming) {
      KeepingIsKeepingAll(env, before, d, incoming);
    }
  }

  lemma AllKeepersKeep(env: Env, before: Disk, clean: Disk, incoming: Snapshot)
    requires QuarantinedFrom(before, clean)
    ensures forall d | KeepsFiles(clean, d) :: KeepsFiles(before, d) && KeepsAll(env, before, d, incoming)
  {
    forall d | KeepsFiles(clean, d) ensures KeepsFiles(before, d) && KeepsAll(env, before, d, incoming) {
      assert KeepsFiles(before, d);
      hide KeepsAll;
      KeepingIsKeepingAll(env, before, d, incoming);
    }
  }

  lemma AllPrunedKeep(env: Env, before: Disk, clean: Disk, written: Disk, incoming: Snapshot, published: bool)
    requires QuarantinedFrom(before, clean) && KeepsFiles(clean, written) && Successor(env, before, written, incoming)
    requires WellNamed(env, before.files) && incoming.scan.scanId !in CatalogOf(env, before.files)
    requires var f := FileOf(incoming);
      f !in clean.files && f in written.files && written.files[f] == Encoded(incoming.(published := published))
    ensures forall d | Shrunk(env, written, d) ::
              KeepsAll(env, before, d, incoming) && Stores(env, before, d, incoming, published)
    ensures forall d | Pruned(env, written, d) :: StoresAndPrunes(env, before, d, incoming, published)
  {
    assert KeepsFiles(before, written);
    forall d | Shrunk(env, written, d)
      ensures KeepsAll(env, before, d, incoming) && Stores(env, before, d, incoming, published)
    {
      hide KeepsAll, Stores, CatalogOf, Shrunk, KeepsFiles, WellNamed;
      PruningKeepsAll(env, before, written, d, incoming, published);
    }
  }

  lemma NothingDone(env: Env, d: Disk, plain: Snapshot)
    requires WellNamed(env, d.files)
    ensures Successor(env, d, d, plain)
  {
  }

  lemma AllQuarantineHarmless(env: Env, before: Disk, incoming: Snapshot)
    requires WellNamed(env, before.files)
    ensures forall d | QuarantinedFrom(before, d) ::
              && Committed(env, d) == Committed(env, before) && Load(env, d) == Load(env, before)
              && Successor(env, before, d, incoming)
  {
    forall d | QuarantinedFrom(before, d)
      ensures Committed(env, d) == Committed(env, before) && Load(env, d) == Load(env, before)
      ensures Successor(env, before, d, incoming)
    {
      QuarantineChangesNothing(env, before, d);
      FewerFilesAreUnique(env, before.files, d.files);
      hide UniqueIds, WellNamed, Committed, Load;
    }
  }

  lemma SameStart(env: Env, start: Disk, clean: Disk, incoming: Snapshot)
    requires Successor(env, start, clean, incoming) && Committed(env, clean) == Committed(env, start)
    ensures forall d | Successor(env, clean, d, incoming) :: Successor(env, start, d, incoming)
  {
    hide WellNamed, UniqueIds, Committed, Holds;
  }

  lemma AllShrunkHarmless(env: Env, start: Disk, before: Disk, incoming: Snapshot)
    requires Successor(env, start, before, incoming)
    ensures forall d | Shrunk(env, before, d) ::
              Committed(env, d) == Committed(env, before) && Successor(env, start, d, incoming)
  {
    forall d | Shrunk(env, before, d)
      ensures Committed(env, d) == Committed(env, before) && Successor(env, start, d, incoming)
    {
      PruneKeepsCommitted(env, before, d);
      ShrunkKeepsNames(env, before, d);
      FewerFilesAreUnique(env, before.files, d.files);
      hide UniqueIds, WellNamed, Committed, Holds, IsSurplusFile;
    }
  }

  // ---------------------------------------------------------------- listing

  /** The files behind the pass do not come after those before it. */
  ghost predicate Behind(files: map<File, Content>, todo: set<File>) {
    todo <= files.Keys && forall f, g | f in files && f !in todo && g in todo :: !Earlier(g, f)
  }

  lemma StillBehind(files: map<File, Content>, todo: set<File>, f: File)
    requires Behind(files, todo) && f in todo && forall g | g in todo :: !Earlier(g, f)
    ensures Behind(files, todo - {f})
  {
  }

  /** What has been listed so far: the usable files behind the pass; and every scan ID
      read so far. */
  ghost predicate Listed(env: Env, files: map<File, Content>, todo: set<File>, usable: Catalog) {
    && (forall f | Usable(env, files, f) && f !in todo ::
        IdOf(env, files, f) in usable && usable[IdOf(env, files, f)] == Snap(env, files, f))
    && (forall id | id in usable :: ListedFrom(env, files, todo, id))
    && (forall f | Accepted(env, files, f) && f !in todo :: IdOf(env, files, f) in usable)
  }

  ghost predicate ListedFrom(env: Env, files: map<File, Content>, todo: set<File>, id: string) {
    exists f :: IsSource(env, files, f, id) && f !in todo
  }

  lemma StillListed(env: Env, files: map<File, Content>, todo: set<File>, usable: Catalog, f: File)
    requires forall id | id in usable :: ListedFrom(env, files, todo, id)
    ensures forall id | id in usable :: ListedFrom(env, files, todo - {f}, id)
  {
    forall id | id in usable ensures ListedFrom(env, files, todo - {f}, id) {
      var g :| IsSource(env, files, g, id) && g !in todo;
      assert g !in todo - {f};
    }
  }

  lemma Passed(env: Env, files: map<File, Content>, todo: set<File>, usable: Catalog, f: File)
    requires Listed(env, files, todo, usable) && f in todo
    requires Accepted(env, files, f) ==> IdOf(env, files, f) in usable
    ensures Listed(env, files, todo - {f}, usable)
  {
    StillListed(env, files, todo, usable, f);
    if Usable(env, files, f) {
      var g :| IsSource(env, files, g, IdOf(env, files, f)) && g !in todo;
      UsableFilesDiffer(env, files);
    }
  }

  lemma Taken(env: Env, files: map<File, Content>, todo: set<File>, usable: Catalog, f: File)
    requires WellNamed(env, files) && Listed(env, files, todo, usable) && Behind(files, todo)
    requires f in todo && forall g | g in todo :: !Earlier(g, f)
    requires Accepted(env, files, f) && IdOf(env, files, f) !in usable
    ensures Listed(env, files, todo - {f}, usable[IdOf(env, files, f) := Snap(env, files, f)])
  {
    forall g | Twin(env, files, f, g) ensures Earlier(f, g) {
      assert g in todo;
      TwinsOrdered(env, files, f, g);
    }
    StillListed(env, files, todo, usable, f);
    assert IsSource(env, files, f, IdOf(env, files, f));
    UsableFilesDiffer(env, files);
  }

  lemma AllListed(env: Env, files: map<File, Content>, usable: Catalog)
    requires Listed(env, files, {}, usable)
    ensures usable == CatalogOf(env, files)
  {
    CatalogFacts(env, files);
    var u := CatalogOf(env, files);
    forall id ensures id in usable <==> id in u {
      if id in usable { var f :| IsSource(env, files, f, id) && f !in {}; }
      if id in u { var f := SourceIs(env, files, id); }
    }
    forall id | id in u ensures usable[id] == u[id] { var f := SourceIs(env, files, id); }
  }

  ghost predicate Leads(usable: Catalog, todo: set<string>, b: string) {
    && b in usable && b !in todo && usable[b].published
    && forall id | id in usable && id !in todo && usable[id].published && id != b :: SortsAfter(usable[b], usable[id])
  }

  lemma LeadPasses(usable: Catalog, todo: set<string>, b: string, next: string)
    requires Leads(usable, todo, b) && next in todo && next in usable && usable[next].published
    requires SortsAfter(usable[next], usable[b])
    ensures Leads(usable, todo - {next}, next)
  {
    forall id | id in usable && id !in todo - {next} && usable[id].published && id != next
      ensures SortsAfter(usable[next], usable[id])
    {
      if id != b { AfterTransitive(NameOf(usable[next].scan), NameOf(usable[b].scan), NameOf(usable[id].scan)); }
    }
  }

  lemma OneProtected(env: Env, d: Disk, id: string)
    requires LatestPublished(CatalogOf(env, d.files), id) && !Load(env, d).Found?
    ensures Protected(env, d) == Some(id)
  {
    var u := CatalogOf(env, d.files);
    forall other | LatestPublished(u, other) ensures other == id { LatestIsUnique(u, other, id); }
  }

  // ---------------------------------------------------------------- removing

  ghost predicate Removed(before: Disk, d: Disk, usable: Catalog, ids: seq<string>, keep: set<string>)
    requires forall id | id in ids :: id in usable
  {
    && d.pointer == before.pointer && d.files.Keys <= before.files.Keys
    && (forall f | f in d.files :: d.files[f] == before.files[f])
    && (forall f | f in before.files && f !in d.files :: IsRemoved(usable, ids, keep, f))
  }

  ghost predicate IsRemoved(usable: Catalog, ids: seq<string>, keep: set<string>, f: File)
    requires forall id | id in ids :: id in usable
  {
    exists id | id in ids :: id !in keep && f == FileOf(usable[id])
  }

  lemma OneMoreRemoved(before: Disk, d: Disk, usable: Catalog, ids: seq<string>, keep: set<string>, i: nat)
    requires forall id | id in ids :: id in usable
    requires Removed(before, d, usable, ids, keep) && i < |ids| && ids[i] !in keep
    ensures Removed(before, d.(files := d.files - {FileOf(usable[ids[i]])}), usable, ids, keep)
  {
    assert ids[i] in ids && IsRemoved(usable, ids, keep, FileOf(usable[ids[i]]));
  }

  lemma RemovalShrinks(env: Env, before: Disk, cleaned: Disk, usable: Catalog, ids: seq<string>, keep: set<string>)
    requires QuarantinedFrom(before, cleaned) && usable == CatalogOf(env, before.files)
    requires forall id :: id in ids <==> id in usable
    requires forall id | id in usable :: id !in keep <==> id in Surplus(usable, Protected(env, before))
    ensures forall d | Removed(cleaned, d, usable, ids, keep) :: Shrunk(env, before, d)
    ensures forall d | Removed(cleaned, d, usable, ids, keep)
                       && (forall id | id in ids && id !in keep :: FileOf(usable[id]) !in d.files) ::
                             Pruned(env, before, d)
  {
    forall d | Removed(cleaned, d, usable, ids, keep) ensures Shrunk(env, before, d) {
      forall f | f in before.files && f !in d.files
        ensures before.files[f] == Garbled || IsSurplusFile(env, before, f)
      {
        if f in cleaned.files { assert IsRemoved(usable, ids, keep, f); }
      }
    }
  }

  ghost predicate OnlyShrunk(env: Env, now: set<Disk>, earlier: set<Disk>, before: Disk) {
    forall d | d in now :: d in earlier || Shrunk(env, before, d)
  }

  lemma QuarantineShrinks(env: Env, before: Disk)
    ensures forall d | QuarantinedFrom(before, d) :: Shrunk(env, before, d)
  {
  }

  lemma FewArePruned(env: Env, before: Disk, d: Disk)
    requires QuarantinedFrom(before, d) && |CatalogOf(env, before.files)| <= RETENTION
    ensures Pruned(env, before, d)
  {
    QuarantineShrinks(env, before);
    FewAreNeverSurplus(CatalogOf(env, before.files), Protected(env, before));
    hide CatalogOf, Surplus, Protected, Shrunk, QuarantinedFrom;
  }

  lemma QuarantineTransitive(before: Disk, listed: Disk)
    requires QuarantinedFrom(before, listed)
    ensures forall d | QuarantinedFrom(listed, d) :: QuarantinedFrom(before, d)
  {
    forall d | QuarantinedFrom(listed, d) ensures QuarantinedFrom(before, d) { QuarantineComposes(before, listed, d); }
  }

  /** What retention does not keep is surplus, and the other way round. */
  lemma KeptOrSurplus(u: Catalog, sorted: seq<string>, keepId: Option<string>, keep: set<string>)
    requires Lists(u, sorted) && |u| > RETENTION
    requires |sorted| == |u| && keep == Firsts(sorted, RETENTION) + if keepId.Some? then {keepId.value} else {}
    ensures forall id | id in u :: id !in keep <==> id in Surplus(u, keepId)
  {
    forall id | id in u ensures id !in keep <==> id in Surplus(u, keepId) {
      var i :| 0 <= i < |sorted| && sorted[i] == id;
      FirstsAreTop(u, sorted, RETENTION, i);
    }
  }

  // ---------------------------------------------------------------- writing

  lemma StoredFormDecodes(env: Env, snapshot: Snapshot, published: bool)
    requires SnapshotValid(Clean(snapshot)) && snapshot.scan.userSid == env.user
    ensures var s := StoredForm(snapshot).(published := published);
      Decode(env, Encoded(s)) == Good(s) && Whole(env, Encoded(s), StoredForm(snapshot))
    ensures StoredForm(snapshot).scan.startedAt.Some?
  {
    StoredDecodes(env, snapshot.(published := published));
    assert StoredForm(snapshot.(published := published)) == StoredForm(snapshot).(published := published);
    assert Clean(snapshot.(published := published)) == Clean(snapshot).(published := published);
  }

  /** One new file alone: torn or whole, published or withdrawn, temporary or not. */
  lemma NewFileSucceeds(env: Env, before: Disk, d: Disk, f: File, c: Content, plain: Snapshot)
    requires WellNamed(env, before.files) && f !in before.files && d == before.(files := before.files[f := c])
    requires Unused(env, before.files, plain.scan.scanId) && (f.Gen? ==> f == FileOf(plain))
    requires c == Garbled || Whole(env, c, plain)
    ensures Successor(env, before, d, plain)
    ensures Committed(env, before).Some? ==> Committed(env, d) == Committed(env, before)
  {
    NewFileCommitsNothingElse(env, before, d, f, c, plain);
    NewFileIsNamed(env, before, d, f, c, plain);
    NewFileIsUnique(env, before.files, d.files, f, plain.scan.scanId);
    assert Holds(c, plain);
    hide Committed, WellNamed, UniqueIds, OldOrNew, Holds;
  }

  lemma NewFileIsNamed(env: Env, before: Disk, d: Disk, f: File, c: Content, plain: Snapshot)
    requires WellNamed(env, before.files) && d == before.(files := before.files[f := c])
    requires (f.Gen? ==> f == FileOf(plain)) && (c == Garbled || Whole(env, c, plain))
    ensures WellNamed(env, d.files)
    ensures Accepted(env, d.files, f) ==> IdOf(env, d.files, f) == plain.scan.scanId
  {
  }

  /** The pointer to a new generation. */
  lemma PointedSucceeds(env: Env, before: Disk, d: Disk, name: Name, s: Snapshot, plain: Snapshot)
    requires WellNamed(env, before.files) && Gen(name) !in before.files
      && d.files == before.files[Gen(name) := Encoded(s)]
    requires Unused(env, before.files, plain.scan.scanId) && Gen(name) == FileOf(plain) && d.pointer.At?
    requires Whole(env, Encoded(s), plain) && Committed(env, d) == Some(plain.(published := true))
    requires Committed(env, before).Some? ==> SortsAfter(plain, Committed(env, before).value)
    ensures Successor(env, before, d, plain)
  {
    var unpointed := before.(files := d.files);
    NewFileSucceeds(env, before, unpointed, Gen(name), Encoded(s), plain);
    hide Committed, WellNamed, UniqueIds, Holds;
  }
}
