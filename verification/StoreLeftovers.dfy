/** Crashes between a temporary file and its renaming pile up generations that retention
    never removes. */
module StoreLeftovers {
  import opened Wrappers
  import opened StoreModel
  import opened StorePipeline
  import opened StoreRepoModel
  import opened StoreRepoTheorems
  import opened StoreRetention
  import opened StoreRepository
  import opened StoreMigration
  import opened StoreEndToEnd

  /** A scan that can be written. */
  ghost predicate Writable(env: Env, r: ScanRecord) {
    && SnapshotValid(Clean(SnapshotOf(r))) && r.scan.userSid == env.user
    && env.size(Encoded(StoredRecord(r))) <= MAX_BYTES
  }

  ghost predicate AllWritable(env: Env, log: seq<ScanRecord>) {
    && (forall r | r in log :: Writable(env, r))
    && forall i, j | 0 <= i < j < |log| :: log[i].scan.scanId != log[j].scan.scanId
  }

  /** The temporary files of scans that all crashed before the renaming. */
  function Leftovers(log: seq<ScanRecord>): map<File, Content> {
    if log == [] then map[]
    else Leftovers(log[..|log| - 1])[Temp(|log| - 1) := Encoded(StoredRecord(log[|log| - 1]))]
  }

  function Crashed(log: seq<ScanRecord>): Disk { Disk(Leftovers(log), {}, NoPointer) }

  lemma {:induction false} LeftoverFiles(log: seq<ScanRecord>, f: File)
    ensures f in Leftovers(log) <==> f.Temp? && f.k < |log|
    ensures f in Leftovers(log) ==> Leftovers(log)[f] == Encoded(StoredRecord(log[f.k]))
  {
    if log != [] { LeftoverFiles(log[..|log| - 1], f); }
  }

  lemma WritableIsRead(env: Env, r: ScanRecord)
    requires Writable(env, r)
    ensures ReadSnapshot(env, Encoded(StoredRecord(r))) == Good(StoredRecord(r))
      == Decode(env, Encoded(StoredRecord(r)))
    ensures StoredRecord(r).scan.scanId == r.scan.scanId
    ensures Whole(env, Encoded(StoredRecord(r)), StoredRecord(r))
  {
    StoredDecodes(env, SnapshotOf(r));
    assert StoredRecord(r).(published := StoredRecord(r).published) == StoredRecord(r);
  }

  lemma LeftoverIsRead(env: Env, log: seq<ScanRecord>, f: File)
    requires AllWritable(env, log)
    ensures Accepted(env, Leftovers(log), f) <==> f in Leftovers(log)
    ensures f in Leftovers(log) ==> f.Temp? && f.k < |log| && IdOf(env, Leftovers(log), f) == log[f.k].scan.scanId
  {
    LeftoverFiles(log, f);
    if f in Leftovers(log) { WritableIsRead(env, log[f.k]); }
  }

  /** Every scan crashes after its temporary file is complete. */
  lemma CrashIsAStep(env: Env, log: seq<ScanRecord>, n: nat)
    requires AllWritable(env, log) && n < |log|
    ensures Step(env, [], Crashed(log[..n]), Crashed(log[..n + 1]), Persist(log[n]))
  {
    var before, files := Crashed(log[..n]), Leftovers(log[..n]);
    assert log[..n + 1][..n] == log[..n];
    WritableIsRead(env, log[n]);
    forall f ensures f in files <==> f.Temp? && f.k < n { LeftoverFiles(log[..n], f); }
    forall f | Accepted(env, files, f) ensures IdOf(env, files, f) != log[n].scan.scanId {
      LeftoverIsRead(env, log[..n], f);
    }
    NewFileSucceeds(env, before, Crashed(log[..n + 1]), Temp(n), Encoded(StoredRecord(log[n])), StoredRecord(log[n]));
  }

  lemma {:induction false} DifferentIds(log: seq<ScanRecord>) returns (ids: set<string>)
    requires forall i, j | 0 <= i < j < |log| :: log[i].scan.scanId != log[j].scan.scanId
    ensures |ids| == |log| && forall id :: id in ids <==> exists i :: 0 <= i < |log| && log[i].scan.scanId == id
  {
    if log == [] { return {}; }
    var n := |log| - 1;
    var earlier := DifferentIds(log[..n]);
    ids := earlier + {log[n].scan.scanId};
  }

  lemma EveryCrashCounts(env: Env, log: seq<ScanRecord>)
    requires AllWritable(env, log)
    ensures |CatalogOf(env, Leftovers(log))| == |log|
  {
    var u := CatalogOf(env, Leftovers(log));
    var ids := DifferentIds(log);
    forall id ensures id in u <==> id in ids { ListedIsLogged(env, log, id); }
    assert u.Keys == ids && |u| == |u.Keys|;
  }

  lemma ListedIsLogged(env: Env, log: seq<ScanRecord>, id: string)
    requires AllWritable(env, log)
    ensures id in CatalogOf(env, Leftovers(log)) <==> exists i :: 0 <= i < |log| && log[i].scan.scanId == id
  {
    hide AllWritable, CatalogOf, Leftovers;
    CatalogFacts(env, Leftovers(log));
    if id in CatalogOf(env, Leftovers(log)) {
      var f := SourceIs(env, Leftovers(log), id);
      LeftoverIsRead(env, log, f);
    }
    if i :| 0 <= i < |log| && log[i].scan.scanId == id { LeftoverIsUsable(env, log, i); }
  }

  lemma LeftoverIsUsable(env: Env, log: seq<ScanRecord>, i: nat)
    requires AllWritable(env, log) && i < |log|
    ensures Usable(env, Leftovers(log), Temp(i)) && IdOf(env, Leftovers(log), Temp(i)) == log[i].scan.scanId
  {
    LeftoverFiles(log, Temp(i));
    LeftoverIsRead(env, log, Temp(i));
    forall g ensures !Twin(env, Leftovers(log), Temp(i), g) { LeftoverIsRead(env, log, g); }
  }

  function Scans(log: seq<ScanRecord>): seq<Event> { seq(|log|, i requires 0 <= i < |log| => Persist(log[i])) }

  function Disks(log: seq<ScanRecord>): seq<Disk> {
    seq(|log| + 1, i requires 0 <= i <= |log| => Crashed(log[..i]))
  }

  /** Any number of scans that all crash before the renaming leave as many usable
      generations, and no pruning removes any of them. */
  lemma CrashesPileUp(env: Env, log: seq<ScanRecord>)
    requires AllWritable(env, log)
    ensures Run(env, [], Disks(log), Scans(log)) && Disks(log)[|log|] == Crashed(log)
    ensures forall after | Shrunk(env, Crashed(log), after) :: after.files == Leftovers(log)
    ensures |CatalogOf(env, Leftovers(log))| == |log|
  {
    CrashesAreARun(env, log);
    EveryCrashCounts(env, log);
    forall after | Shrunk(env, Crashed(log), after)
      ensures after.files == Leftovers(log)
    {
      NoneIsRemoved(env, log, after);
    }
    hide Run, CatalogOf, AllWritable, Leftovers, Shrunk;
  }

  lemma CrashesAreARun(env: Env, log: seq<ScanRecord>)
    requires AllWritable(env, log)
    ensures Run(env, [], Disks(log), Scans(log)) && Disks(log)[|log|] == Crashed(log)
  {
    hide Step, AllWritable;
    assert log[..0] == [] && log[..|log|] == log;
    forall n | 0 <= n < |log| ensures Step(env, [], Disks(log)[n], Disks(log)[n + 1], Scans(log)[n]) {
      CrashIsAStep(env, log, n);
    }
  }

  lemma NoneIsRemoved(env: Env, log: seq<ScanRecord>, after: Disk)
    requires Shrunk(env, Crashed(log), after)
    ensures after.files == Leftovers(log)
  {
    hide Leftovers, CatalogOf, Surplus, Protected;
    forall f ensures f in after.files <==> f in Leftovers(log) { LeftoverFiles(log, f); }
  }

  /** Scans without packages. */
  function BareScans(n: nat): seq<ScanRecord> {
    seq(n, i requires 0 <= i < n => ScanRecord(Bare(Other(i)).scan, [], [], map[]))
  }

  /** There are such scans in any number, so that no bound holds. */
  lemma CrashesHaveNoBound(n: nat)
    ensures AllWritable(ANYONE, BareScans(n)) && |CatalogOf(ANYONE, Leftovers(BareScans(n)))| == n
  {
    var log := BareScans(n);
    forall r | r in log ensures Writable(ANYONE, r) {
      var i :| 0 <= i < n && log[i] == r;
      assert Rows(r.scan, [], [], map[]) == [] && CleanRows([]) == [];
    }
    forall i, j | 0 <= i < j < n ensures log[i].scan.scanId != log[j].scan.scanId { OtherIds(i, j); }
    CrashesPileUp(ANYONE, log);
  }
}
