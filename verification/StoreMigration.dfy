/** Bringing snapshots of the earlier layout, which lie beside the pointer, into the
    generations directory. */
module StoreMigration {
  import opened Wrappers
  import opened Text
  import opened StoreModel
  import opened StoreReconcile
  import opened StorePipeline
  import opened StoreRepoModel
  import opened StoreRepoTheorems
  import opened StoreRepository

  // ---------------------------------------------------------------- what migration amounts to

  /** The old files, in directory order. */
  type OldFiles = seq<Content>

  predicate Readable(env: Env, c: Content) { Decode(env, c).Good? }

  function SnapOf(env: Env, c: Content): Snapshot
    requires Readable(env, c)
  {
    Decode(env, c).s
  }

  function NameIn(env: Env, c: Content): Name
    requires Readable(env, c)
  {
    NameOf(SnapOf(env, c).scan)
  }

  /** Every readable file is copied unless a generation of its name exists. */
  function Copied(env: Env, oldFiles: OldFiles, files: map<File, Content>): map<File, Content> {
    if oldFiles == [] then files
    else
      var c, so := oldFiles[|oldFiles| - 1], Copied(env, oldFiles[..|oldFiles| - 1], files);
      if Readable(env, c) && Gen(NameIn(env, c)) !in so then so[Gen(NameIn(env, c)) := c] else so
  }

  /** The last file of each scan ID. */
  function ByScanId(env: Env, oldFiles: OldFiles): map<string, Content> {
    if oldFiles == [] then map[]
    else
      var c, so := oldFiles[|oldFiles| - 1], ByScanId(env, oldFiles[..|oldFiles| - 1]);
      if Readable(env, c) then so[SnapOf(env, c).scan.scanId := c] else so
  }

  predicate Candidate(env: Env, c: Content) { Readable(env, c) && SnapOf(env, c).published }

  /** The newest published file; the first of several with one start and scan ID. */
  function Newest(env: Env, oldFiles: OldFiles): (newest: Option<Content>)
    ensures newest.Some? ==> Candidate(env, newest.value)
  {
    if oldFiles == [] then None
    else
      var c, so := oldFiles[|oldFiles| - 1], Newest(env, oldFiles[..|oldFiles| - 1]);
      if Candidate(env, c) && (so.None? || SortsAfter(SnapOf(env, c), SnapOf(env, so.value))) then Some(c) else so
  }

  lemma {:induction false} NewestIsFiled(env: Env, oldFiles: OldFiles)
    ensures Newest(env, oldFiles).Some? ==> Newest(env, oldFiles).value in oldFiles
    ensures forall c | c in oldFiles && Readable(env, c) :: SnapOf(env, c).scan.scanId in ByScanId(env, oldFiles)
  {
    if oldFiles != [] {
      NewestIsFiled(env, oldFiles[..|oldFiles| - 1]);
      assert oldFiles == oldFiles[..|oldFiles| - 1] + [oldFiles[|oldFiles| - 1]];
    }
  }

  function PointerTo(env: Env, s: Snapshot, c: Content): PointerFile {
    var n := NameOf(s.scan);
    At(Pointer(Some(Gen(n)), n.scanId, n.startedAt, s.scan.completedAt, env.sha(c)))
  }

  /** A current-pointer file for the newest published old snapshot, unless that one had
      itself been recovered; its digest is that of the last file with this scan ID. */
  function PointerAfter(env: Env, oldFiles: OldFiles): PointerFile {
    var newest := Newest(env, oldFiles);
    if newest.None? || SnapOf(env, newest.value).recovered then NoPointer
    else
      var s := SnapOf(env, newest.value);
      NewestIsFiled(env, oldFiles);
      PointerTo(env, s, ByScanId(env, oldFiles)[s.scan.scanId])
  }

  /** A finished migration. A repository with a pointer is left alone. */
  function Migrated(env: Env, oldFiles: OldFiles, start: Disk): Disk {
    if start.pointer != NoPointer then start
    else start.(files := Copied(env, oldFiles, start.files), pointer := PointerAfter(env, oldFiles))
  }

  /** What the first load finds. */
  ghost function FirstLoad(env: Env, oldFiles: OldFiles, start: Disk): Loaded {
    var d := Migrated(env, oldFiles, start);
    if start.pointer == NoPointer && d.pointer.At? then
      match ReadPointed(env, d.files, d.pointer.pointer)
      case Good(s) => Found(s)
      case Bad(f) => Failed(f)
    else Load(env, d)
  }

  /** The temporary file of an unfinished copy, torn or whole, may have been left. */
  ghost predicate Beside(env: Env, oldFiles: OldFiles, files: map<File, Content>, now: map<File, Content>) {
    now == files || exists k: nat, c :: LeftBeside(env, oldFiles, files, now, k, c)
  }

  predicate LeftBeside(env: Env, oldFiles: OldFiles, files: map<File, Content>, now: map<File, Content>, k: nat,
                       c: Content) {
    Temp(k) !in files && (c == Garbled || (c in oldFiles && Readable(env, c))) && now == files[Temp(k) := c]
  }

  ghost predicate Partly(env: Env, oldFiles: OldFiles, start: Disk, d: Disk, n: nat) {
    && n <= |oldFiles| && d.pointer == start.pointer && d.quarantined == start.quarantined
    && Beside(env, oldFiles, Copied(env, oldFiles[..n], start.files), d.files)
  }

  /** A migration that was interrupted anywhere. */
  ghost predicate Interrupted(env: Env, oldFiles: OldFiles, start: Disk, d: Disk) {
    d == start || d == Migrated(env, oldFiles, start)
        || (start.pointer == NoPointer && exists n: nat :: Partly(env, oldFiles, start, d, n))
  }

  /** A repository with a pointer of any kind is left alone; one without gets, at the end
      and not before, a pointer that records the newest published old scan, if any. */
  lemma PointersAreWrittenLast(env: Env, oldFiles: OldFiles, start: Disk, d: Disk)
    requires Interrupted(env, oldFiles, start, d)
    ensures start.pointer != NoPointer ==> d == start
    ensures d.pointer != start.pointer ==>
              && d == Migrated(env, oldFiles, start) && d.pointer.At?
              && var c := Newest(env, oldFiles);
                 && c.Some? && !SnapOf(env, c.value).recovered
                 && d.pointer.pointer.target == Some(FileOf(SnapOf(env, c.value)))
                 && d.pointer.pointer.scanId == SnapOf(env, c.value).scan.scanId
                 && Some(d.pointer.pointer.startedAt) == SnapOf(env, c.value).scan.startedAt
                 && d.pointer.pointer.completedAt == SnapOf(env, c.value).scan.completedAt
  {
    hide Copied, ByScanId, Newest, CleanRows;
    if d != start && d != Migrated(env, oldFiles, start) { var n: nat :| Partly(env, oldFiles, start, d, n); }
  }

  // ---------------------------------------------------------------- the migration itself

  class Migration {
    const env: Env
    const oldFiles: OldFiles
    var disk: Disk
    var hazards: set<Disk>
    const reliable: bool // whether no file operation will fail

    constructor (env: Env, oldFiles: OldFiles, disk: Disk, reliable: bool)
      ensures this.env == env && this.oldFiles == oldFiles && this.disk == disk && hazards == {disk}
      ensures this.reliable == reliable
    {
      this.env, this.oldFiles, this.disk, hazards, this.reliable := env, oldFiles, disk, {disk}, reliable;
    }

    /** Whether the next file operation fails. */
    method Fails() returns (failed: bool)
      ensures reliable ==> !failed
    {
      failed := *;
      if reliable { failed := false; }
    }

    method Write(d: Disk)
      modifies this
      ensures disk == d && hazards == old(hazards) + {d}
    {
      disk, hazards := d, hazards + {d};
    }

    /** Copies the files that decode, then writes the pointer. A copy or the pointer may
        fail; files that do not decode are passed over. */
    method MigrateOldLayout() returns (ok: bool)
      modifies this
      ensures ok ==> disk == Migrated(env, oldFiles, old(disk))
      ensures Interrupted(env, oldFiles, old(disk), disk)
      ensures OnlyInterrupted(env, oldFiles, hazards, old(hazards), old(disk))
      ensures reliable ==> ok
    {
      if disk.pointer != NoPointer { return true; }
      ghost var start := disk;
      var newest: Option<Content> := None;
      var byScanId: map<string, Content> := map[];
      assert oldFiles[..0] == [];
      for i := 0 to |oldFiles|
        invariant disk == start.(files := Copied(env, oldFiles[..i], start.files))
        invariant newest == Newest(env, oldFiles[..i]) && byScanId == ByScanId(env, oldFiles[..i])
        invariant OnlyInterrupted(env, oldFiles, hazards, old(hazards), start)
      {
        assert oldFiles[..i + 1][..i] == oldFiles[..i];
        var c := oldFiles[i];
        var read := Decode(env, c);
        PartlyIs(env, oldFiles, start, i);
        if read.Bad? { continue; }
        var name := NameOf(read.s.scan);
        if Gen(name) !in disk.files {
          var ok := CopyFile(Gen(name), c, start, i);
          if !ok { return false; }
        }
        byScanId := byScanId[read.s.scan.scanId := c];
        if read.s.published && (newest.None? || SortsAfter(read.s, Decode(env, newest.value).s)) { newest := Some(c); }
      }
      assert oldFiles[..|oldFiles|] == oldFiles;
      PartlyIs(env, oldFiles, start, |oldFiles|);
      if newest.None? { return true; }
      var s := Decode(env, newest.value).s;
      if s.recovered { return true; }
      var failed := Fails();
      if failed { return false; }
      NewestIsFiled(env, oldFiles);
      Write(disk.(pointer := PointerTo(env, s, byScanId[s.scan.scanId])));
      return true;
    }

    /** Writes a copy to a temporary file and renames it; whatever fails, at most the
        temporary file is left. */
    method CopyFile(f: File, c: Content, ghost start: Disk, ghost n: nat) returns (ok: bool)
      requires start.pointer == NoPointer && n < |oldFiles| && oldFiles[n] == c
      requires disk == start.(files := Copied(env, oldFiles[..n], start.files))
      requires Readable(env, c) && f == Gen(NameIn(env, c)) && f !in disk.files
      modifies this
      ensures if ok then disk == start.(files := Copied(env, oldFiles[..n + 1], start.files))
              else Interrupted(env, oldFiles, start, disk)
      ensures OnlyInterrupted(env, oldFiles, hazards, old(hazards), start)
      ensures reliable ==> ok
    {
      hide Interrupted, Copied, Readable;
      CopyStates(env, oldFiles, start, n, disk.files);
      var failed := Fails();
      if failed { return false; }
      FreshTemp(disk.files.Keys);
      var k: nat :| Temp(k) !in disk.files;
      ghost var files := disk.files;
      Write(disk.(files := disk.files[Temp(k) := Garbled]));
      failed := Fails();
      if failed {
        CleanUp(Temp(k), files);
        return false;
      }
      Write(disk.(files := disk.files[Temp(k) := c]));
      assert disk.files == files[Temp(k) := c];
      failed := Fails();
      if failed {
        CleanUp(Temp(k), files);
        return false;
      }
      Write(disk.(files := (disk.files - {Temp(k)})[f := c]));
      assert disk.files == files[f := c];
      return true;
    }

    method CleanUp(temp: File, ghost files: map<File, Content>)
      requires temp !in files && temp in disk.files && disk.files == files[temp := disk.files[temp]]
      modifies this
      ensures disk == old(disk) || disk == old(disk).(files := files)
      ensures hazards <= old(hazards) + {disk}
    {
      var failed := Fails();
      if failed { return; }
      Write(disk.(files := disk.files - {temp}));
      assert disk.files == files;
    }

    /** A load of a repository without a pointer migrates first. A pointer written just
        now is followed or the load fails; recovery is for later loads. */
    method LoadLatest() returns (loaded: Loaded)
      requires WellNamed(env, disk.files)
      modifies this
      ensures loaded == FirstLoad(env, oldFiles, old(disk))
              || (old(disk).pointer == NoPointer && loaded == Failed(WriteFailed) && !reliable)
    {
      ghost var start := disk;
      if disk.pointer == NoPointer {
        var ok := MigrateOldLayout();
        if !ok { return Failed(WriteFailed); }
        CopiesAreNamed(env, oldFiles, start.files);
        if disk.pointer.At? {
          var read := ReadPointed(env, disk.files, disk.pointer.pointer);
          return if read.Good? then Found(read.s) else Failed(read.fault);
        }
      }
      var repository := new Repository(env, disk, reliable);
      loaded := repository.LoadLatest();
    }
  }

  ghost predicate OnlyInterrupted(env: Env, oldFiles: OldFiles, now: set<Disk>, earlier: set<Disk>, start: Disk) {
    forall d | d in now :: d in earlier || Interrupted(env, oldFiles, start, d)
  }

  lemma PartlyIs(env: Env, oldFiles: OldFiles, start: Disk, n: nat)
    requires start.pointer == NoPointer && n <= |oldFiles|
    ensures Interrupted(env, oldFiles, start, start.(files := Copied(env, oldFiles[..n], start.files)))
  {
    assert Partly(env, oldFiles, start, start.(files := Copied(env, oldFiles[..n], start.files)), n);
  }

  /** The states of copying one file. */
  lemma CopyStates(env: Env, oldFiles: OldFiles, start: Disk, n: nat, files: map<File, Content>)
    requires start.pointer == NoPointer && n < |oldFiles| && Readable(env, oldFiles[n])
    requires files == Copied(env, oldFiles[..n], start.files) && Gen(NameIn(env, oldFiles[n])) !in files
    ensures Interrupted(env, oldFiles, start, start.(files := files))
    ensures forall k: nat | Temp(k) !in files ::
              && Interrupted(env, oldFiles, start, start.(files := files[Temp(k) := Garbled]))
              && Interrupted(env, oldFiles, start, start.(files := files[Temp(k) := oldFiles[n]]))
    ensures Copied(env, oldFiles[..n + 1], start.files) == files[Gen(NameIn(env, oldFiles[n])) := oldFiles[n]]
    ensures Interrupted(env, oldFiles, start, start.(files := Copied(env, oldFiles[..n + 1], start.files)))
  {
    assert oldFiles[..n + 1][..n] == oldFiles[..n];
    PartlyIs(env, oldFiles, start, n);
    PartlyIs(env, oldFiles, start, n + 1);
    forall k: nat | Temp(k) !in files
      ensures Interrupted(env, oldFiles, start, start.(files := files[Temp(k) := Garbled]))
      ensures Interrupted(env, oldFiles, start, start.(files := files[Temp(k) := oldFiles[n]]))
    {
      PartlyLeft(env, oldFiles, start, n, k, Garbled);
      PartlyLeft(env, oldFiles, start, n, k, oldFiles[n]);
    }
  }

  lemma PartlyLeft(env: Env, oldFiles: OldFiles, start: Disk, n: nat, k: nat, c: Content)
    requires start.pointer == NoPointer && n <= |oldFiles| && (c == Garbled || (c in oldFiles && Readable(env, c)))
    requires Temp(k) !in Copied(env, oldFiles[..n], start.files)
    ensures Interrupted(env, oldFiles, start, start.(files := Copied(env, oldFiles[..n], start.files)[Temp(k) := c]))
  {
    var files := Copied(env, oldFiles[..n], start.files);
    assert LeftBeside(env, oldFiles, files, files[Temp(k) := c], k, c);
    assert Partly(env, oldFiles, start, start.(files := files[Temp(k) := c]), n);
  }

  // ---------------------------------------------------------------- what the copies are

  /** The first readable file of a name. */
  function FirstNamed(env: Env, oldFiles: OldFiles, n: Name): Option<Content> {
    if oldFiles == [] then None
    else
      var c, so := oldFiles[|oldFiles| - 1], FirstNamed(env, oldFiles[..|oldFiles| - 1], n);
      if so.None? && Readable(env, c) && NameIn(env, c) == n then Some(c) else so
  }

  /** Files that were there stay; the others are the first files of their names. */
  lemma {:induction false} CopiedFiles(env: Env, oldFiles: OldFiles, files: map<File, Content>, n: Name)
    ensures var copied, first := Copied(env, oldFiles, files), FirstNamed(env, oldFiles, n);
      && (Gen(n) in copied <==> Gen(n) in files || first.Some?)
      && (Gen(n) in copied ==> copied[Gen(n)] == if Gen(n) in files then files[Gen(n)] else first.value)
    ensures FirstNamed(env, oldFiles, n).Some? ==> FirstNamed(env, oldFiles, n).value in oldFiles
    ensures FirstNamed(env, oldFiles, n).None? ==>
              forall c | c in oldFiles && Readable(env, c) :: NameIn(env, c) != n
  {
    if oldFiles != [] {
      CopiedFiles(env, oldFiles[..|oldFiles| - 1], files, n);
      assert oldFiles == oldFiles[..|oldFiles| - 1] + [oldFiles[|oldFiles| - 1]];
    }
  }

  /** Temporary files play no part in copying. */
  lemma {:induction false} CopiedTemps(env: Env, oldFiles: OldFiles, files: map<File, Content>, k: nat, c: Content)
    ensures Temp(k) in Copied(env, oldFiles, files) <==> Temp(k) in files
    ensures Copied(env, oldFiles, files[Temp(k) := c]) == Copied(env, oldFiles, files)[Temp(k) := c]
  {
    if oldFiles != [] { CopiedTemps(env, oldFiles[..|oldFiles| - 1], files, k, c); }
  }

  /** The files of one scan ID in order; the last one. */
  function LastOf(env: Env, oldFiles: OldFiles, id: string): Option<Content> {
    if oldFiles == [] then None
    else
      var c := oldFiles[|oldFiles| - 1];
      if Readable(env, c) && SnapOf(env, c).scan.scanId == id then Some(c)
          else LastOf(env, oldFiles[..|oldFiles| - 1], id)
  }

  lemma {:induction false} ByScanIdIsLast(env: Env, oldFiles: OldFiles, id: string)
    ensures id in ByScanId(env, oldFiles) <==> LastOf(env, oldFiles, id).Some?
    ensures id in ByScanId(env, oldFiles) ==> ByScanId(env, oldFiles)[id] == LastOf(env, oldFiles, id).value
    ensures LastOf(env, oldFiles, id).Some? ==>
              Readable(env, LastOf(env, oldFiles, id).value)
                  && SnapOf(env, LastOf(env, oldFiles, id).value).scan.scanId == id
  {
    if oldFiles != [] { ByScanIdIsLast(env, oldFiles[..|oldFiles| - 1], id); }
  }

  /** No published old snapshot is newer than the one migration points at. */
  lemma {:induction false} NewestIsNewest(env: Env, oldFiles: OldFiles)
    ensures Newest(env, oldFiles).None? ==> forall c | c in oldFiles :: !Candidate(env, c)
    ensures Newest(env, oldFiles).Some? ==>
              Newest(env, oldFiles).value in oldFiles
              && forall c | c in oldFiles && Candidate(env, c) ::
                    !After(NameIn(env, c), NameIn(env, Newest(env, oldFiles).value))
  {
    if oldFiles != [] {
      var c, earlier := oldFiles[|oldFiles| - 1], oldFiles[..|oldFiles| - 1];
      NewestIsNewest(env, earlier);
      assert oldFiles == earlier + [c];
      if Newest(env, oldFiles) != Newest(env, earlier) {
        forall x | x in earlier && Candidate(env, x) ensures !After(NameIn(env, x), NameIn(env, c)) {
          NotPassed(NameIn(env, x), NameIn(env, Newest(env, earlier).value), NameIn(env, c));
        }
      }
      if Candidate(env, c) { AfterTotal(NameIn(env, c), NameIn(env, c)); }
    }
  }

  lemma NotPassed(x: Name, newest: Name, c: Name)
    requires !After(x, newest) && After(c, newest)
    ensures !After(x, c)
  {
    if After(x, c) { AfterTransitive(x, c, newest); }
  }

  // ---------------------------------------------------------------- interruption

  lemma {:induction false} CopyingAgainStarts(env: Env, oldFiles: OldFiles, files: map<File, Content>, k: nat, n: nat)
    requires k <= n <= |oldFiles|
    ensures Copied(env, oldFiles[..k], Copied(env, oldFiles[..n], files)) == Copied(env, oldFiles[..n], files)
  {
    if k > 0 {
      CopyingAgainStarts(env, oldFiles, files, k - 1, n);
      assert oldFiles[..k][..k - 1] == oldFiles[..k - 1];
      var c := oldFiles[k - 1];
      if Readable(env, c) {
        CopiedFiles(env, oldFiles[..n], files, NameIn(env, c));
        assert oldFiles[..n][k - 1] == c && c in oldFiles[..n];
      }
    }
  }

  /** Copying can be resumed after any number of files. */
  lemma {:induction false} CopyingResumes(env: Env, oldFiles: OldFiles, files: map<File, Content>, k: nat, n: nat)
    requires n <= k <= |oldFiles|
    ensures Copied(env, oldFiles[..k], Copied(env, oldFiles[..n], files)) == Copied(env, oldFiles[..k], files)
  {
    if k == n {
      CopyingAgainStarts(env, oldFiles, files, k, n);
    } else {
      CopyingResumes(env, oldFiles, files, k - 1, n);
      assert oldFiles[..k][..k - 1] == oldFiles[..k - 1];
    }
  }

  lemma ResumedFrom(env: Env, oldFiles: OldFiles, start: Disk, d: Disk, n: nat)
    requires start.pointer == NoPointer && Partly(env, oldFiles, start, d, n)
    ensures Beside(env, oldFiles, Migrated(env, oldFiles, start).files, Migrated(env, oldFiles, d).files)
  {
    var files, all := Copied(env, oldFiles[..n], start.files), Copied(env, oldFiles, start.files);
    assert oldFiles[..|oldFiles|] == oldFiles;
    CopyingResumes(env, oldFiles, start.files, |oldFiles|, n);
    if d.files != files {
      var k: nat, c :| LeftBeside(env, oldFiles, files, d.files, k, c);
      CopiedTemps(env, oldFiles, files, k, c);
      assert LeftBeside(env, oldFiles, all, Copied(env, oldFiles, d.files), k, c);
    }
  }

  /** Migration resumes: interrupted anywhere and run again, it ends where an
      uninterrupted one would, except that the temporary file of the copy it was
      interrupted in stays beside; the two commit the same. */
  lemma InterruptionLeavesAtMostALeftover(env: Env, oldFiles: OldFiles, start: Disk, d: Disk)
    requires Interrupted(env, oldFiles, start, d)
    ensures var straight, resumed := Migrated(env, oldFiles, start), Migrated(env, oldFiles, d);
      && resumed.pointer == straight.pointer && resumed.quarantined == straight.quarantined
      && Beside(env, oldFiles, straight.files, resumed.files) && Committed(env, resumed) == Committed(env, straight)
  {
    var straight, resumed := Migrated(env, oldFiles, start), Migrated(env, oldFiles, d);
    assert oldFiles[..|oldFiles|] == oldFiles;
    CopyingResumes(env, oldFiles, start.files, |oldFiles|, |oldFiles|);
    if start.pointer == NoPointer && d != start && d != straight {
      var n: nat :| Partly(env, oldFiles, start, d, n);
      ResumedFrom(env, oldFiles, start, d, n);
    }
    BesideCommitsTheSame(env, oldFiles, straight, resumed);
  }

  lemma BesideCommitsTheSame(env: Env, oldFiles: OldFiles, straight: Disk, resumed: Disk)
    requires Beside(env, oldFiles, straight.files, resumed.files) && resumed.pointer == straight.pointer
    requires straight.pointer.At? && straight.pointer.pointer.target.Some? && straight.files != resumed.files ==>
               straight.pointer.pointer.target.value.Gen?
    ensures Committed(env, resumed) == Committed(env, straight)
  {
  }

  // ---------------------------------------------------------------- the result

  /** What will stand in a generation file. */
  function Standing(env: Env, oldFiles: OldFiles, files: map<File, Content>, n: Name): Option<Content> {
    if Gen(n) in files then Some(files[Gen(n)]) else FirstNamed(env, oldFiles, n)
  }

  /** The last file with the newest one's scan ID is of the same start, and is what
      stands in the generation file of that name. */
  ghost predicate LastStands(env: Env, oldFiles: OldFiles, files: map<File, Content>, newest: Content)
    requires Readable(env, newest)
  {
    var n := NameIn(env, newest);
    var last := LastOf(env, oldFiles, n.scanId);
    last.Some? && Readable(env, last.value) && NameIn(env, last.value) == n && Standing(env, oldFiles, files, n) == last
  }

  /** Afterwards something is committed exactly when the last old file with the newest
      one's scan ID is what stands in the generation file; and that is committed. With
      two files of one scan ID this can fail, whatever their starts. */
  lemma NewestOldIsCommitted(env: Env, oldFiles: OldFiles, start: Disk, newest: Content)
    requires start.pointer == NoPointer && Newest(env, oldFiles) == Some(newest) && !SnapOf(env, newest).recovered
    requires forall c, x | c in oldFiles && EqualFold(env.sha(x), env.sha(c)) :: x == c
    ensures var d := Migrated(env, oldFiles, start);
      && (Committed(env, d).Some? <==> LastStands(env, oldFiles, start.files, newest))
      && (Committed(env, d).Some? ==>
          Committed(env, d) == Some(SnapOf(env,
                                           LastOf(env, oldFiles,
                                                  NameIn(env, newest).scanId).value).(published := true)))
  {
    var n := NameIn(env, newest);
    CopiedFiles(env, oldFiles, start.files, n);
    NewestIsFiled(env, oldFiles);
    ByScanIdIsLast(env, oldFiles, n.scanId);
    LastIsFiled(env, oldFiles, n.scanId);
  }

  lemma {:induction false} LastIsFiled(env: Env, oldFiles: OldFiles, id: string)
    ensures LastOf(env, oldFiles, id).Some? ==> LastOf(env, oldFiles, id).value in oldFiles
  {
    if oldFiles != [] {
      LastIsFiled(env, oldFiles[..|oldFiles| - 1], id);
      assert oldFiles == oldFiles[..|oldFiles| - 1] + [oldFiles[|oldFiles| - 1]];
    }
  }

  /** A newest old file that migration points at. */
  predicate PointsAt(env: Env, oldFiles: OldFiles, newest: Content) {
    Newest(env, oldFiles) == Some(newest) && !SnapOf(env, newest).recovered
  }

  /** The load that migrates finds what every later one will, exactly if there is nothing
      to point at, or what stands in the newest one's file is the last old file of its
      scan, or is locked: otherwise it fails, and later ones recover. */
  lemma FirstLoadAgreesExactlyWhen(env: Env, oldFiles: OldFiles, start: Disk)
    requires forall c, x | c in oldFiles && EqualFold(env.sha(x), env.sha(c)) :: x == c
    ensures FirstLoad(env, oldFiles, start) == Load(env, Migrated(env, oldFiles, start)) <==>
              (start.pointer == NoPointer ==> forall newest | PointsAt(env, oldFiles, newest) ::
                 || LastStands(env, oldFiles, start.files, newest)
                 || Standing(env, oldFiles, start.files, NameIn(env, newest)) == Some(Locked))
  {
    if start.pointer == NoPointer {
      var newest := Newest(env, oldFiles);
      if newest.Some? && PointsAt(env, oldFiles, newest.value) {
        FirstLoadFollows(env, oldFiles, start, newest.value);
      }
    }
    hide LastStands, Standing, Load;
  }

  lemma FirstLoadFollows(env: Env, oldFiles: OldFiles, start: Disk, newest: Content)
    requires start.pointer == NoPointer && PointsAt(env, oldFiles, newest)
    requires forall c, x | c in oldFiles && EqualFold(env.sha(x), env.sha(c)) :: x == c
    ensures FirstLoad(env, oldFiles, start) == Load(env, Migrated(env, oldFiles, start)) <==>
              || LastStands(env, oldFiles, start.files, newest)
              || Standing(env, oldFiles, start.files, NameIn(env, newest)) == Some(Locked)
  {
    var d := Migrated(env, oldFiles, start);
    NewestOldIsCommitted(env, oldFiles, start, newest);
    FaultThatStops(env, oldFiles, start, newest);
    FollowedOrFailed(env, oldFiles, start, d);
    hide ReadPointed, LatestPublished, CatalogOf, LastStands, Standing, Committed, FirstLoad, Load;
  }

  lemma FollowedOrFailed(env: Env, oldFiles: OldFiles, start: Disk, d: Disk)
    requires start.pointer == NoPointer && d == Migrated(env, oldFiles, start) && d.pointer.At?
    ensures Committed(env, d).Some? <==> ReadPointed(env, d.files, d.pointer.pointer).Good?
    ensures FirstLoad(env, oldFiles, start) == Load(env, d) <==>
              Committed(env, d).Some? || Stops(ReadPointed(env, d.files, d.pointer.pointer).fault)
  {
    hide ReadPointed, Migrated, LatestPublished, CatalogOf;
  }

  /** Of the faults behind the pointer just written only a locked file stops. */
  lemma FaultThatStops(env: Env, oldFiles: OldFiles, start: Disk, newest: Content)
    requires start.pointer == NoPointer && PointsAt(env, oldFiles, newest)
    requires forall c, x | c in oldFiles && EqualFold(env.sha(x), env.sha(c)) :: x == c
    ensures var d := Migrated(env, oldFiles, start);
      && d.pointer.At?
      && (ReadPointed(env, d.files, d.pointer.pointer).Bad? ==>
            (Stops(ReadPointed(env, d.files, d.pointer.pointer).fault) <==>
             Standing(env, oldFiles, start.files, NameIn(env, newest)) == Some(Locked)))
  {
    var n := NameIn(env, newest);
    CopiedFiles(env, oldFiles, start.files, n);
    NewestIsFiled(env, oldFiles);
    ByScanIdIsLast(env, oldFiles, n.scanId);
    LastIsFiled(env, oldFiles, n.scanId);
  }

  /** Copies are named after their scans, so that migrating keeps the files in order. */
  lemma {:induction false} CopiesAreNamed(env: Env, oldFiles: OldFiles, files: map<File, Content>)
    requires WellNamed(env, files)
    ensures WellNamed(env, Copied(env, oldFiles, files))
  {
    if oldFiles != [] { CopiesAreNamed(env, oldFiles[..|oldFiles| - 1], files); }
  }

  lemma MigratingKeepsNames(env: Env, oldFiles: OldFiles, start: Disk, d: Disk)
    requires WellNamed(env, start.files) && Interrupted(env, oldFiles, start, d)
    ensures WellNamed(env, d.files)
  {
    if d == Migrated(env, oldFiles, start) {
      CopiesAreNamed(env, oldFiles, start.files);
    } else if d != start {
      var n: nat :| Partly(env, oldFiles, start, d, n);
      CopiesAreNamed(env, oldFiles[..n], start.files);
    }
  }

  /** No two readable old files carry one scan ID. */
  ghost predicate OnePerScan(env: Env, oldFiles: OldFiles) {
    forall i, j | 0 <= i < |oldFiles| && 0 <= j < |oldFiles| && Readable(env, oldFiles[i]) && Readable(env, oldFiles[j])
      && SnapOf(env, oldFiles[i]).scan.scanId == SnapOf(env, oldFiles[j]).scan.scanId :: i == j
  }

  /** With one file per scan ID the newest one itself is committed exactly unless
      another content stood in its place. */
  lemma OneFilePerScanIsCommitted(env: Env, oldFiles: OldFiles, start: Disk, newest: Content)
    requires OnePerScan(env, oldFiles)
    requires start.pointer == NoPointer && Newest(env, oldFiles) == Some(newest) && !SnapOf(env, newest).recovered
    requires forall c, x | c in oldFiles && EqualFold(env.sha(x), env.sha(c)) :: x == c
    ensures var n, c := NameIn(env, newest), Committed(env, Migrated(env, oldFiles, start));
      && (c == Some(SnapOf(env, newest)) <==> Gen(n) !in start.files || start.files[Gen(n)] == newest)
      && (c.None? <==> Gen(n) in start.files && start.files[Gen(n)] != newest)
  {
    var n := NameIn(env, newest);
    NewestOldIsCommitted(env, oldFiles, start, newest);
    NewestIsFiled(env, oldFiles);
    ByScanIdIsLast(env, oldFiles, n.scanId);
    LastIsFiled(env, oldFiles, n.scanId);
    CopiedFiles(env, oldFiles, start.files, n);
    FirstIsNamed(env, oldFiles, n);
  }

  lemma {:induction false} FirstIsNamed(env: Env, oldFiles: OldFiles, n: Name)
    ensures var first := FirstNamed(env, oldFiles, n); first.Some? ==>
      Readable(env, first.value) && NameIn(env, first.value) == n
  {
    if oldFiles != [] { FirstIsNamed(env, oldFiles[..|oldFiles| - 1], n); }
  }

  ghost predicate Twins(env: Env, newer: Content, older: Content) {
    && Candidate(env, newer) && Readable(env, older)
    && NameIn(env, newer).scanId == NameIn(env, older).scanId
          && NameIn(env, newer).startedAt > NameIn(env, older).startedAt
  }

  lemma TwinsCopied(env: Env, newer: Content, older: Content)
    requires Twins(env, newer, older)
    ensures Copied(env, [newer, older], map[])
      == map[Gen(NameIn(env, newer)) := newer, Gen(NameIn(env, older)) := older]
  {
    hide Readable, NameIn;
    assert [newer, older][..1] == [newer] && [newer][..0] == [];
    assert Copied(env, [newer], map[]) == map[Gen(NameIn(env, newer)) := newer];
  }

  lemma TwinsPointer(env: Env, newer: Content, older: Content)
    requires Twins(env, newer, older)
    ensures Newest(env, [newer, older]) == Some(newer)
    ensures NameIn(env, newer).scanId in ByScanId(env, [newer, older])
    ensures ByScanId(env, [newer, older])[NameIn(env, newer).scanId] == older
  {
    hide Readable;
    assert [newer, older][..1] == [newer] && [newer][..0] == [];
    assert Newest(env, []).None?;
    assert Newest(env, [newer]) == Some(newer);
  }

  /** Two old files of one scan, the newer one first: the pointer carries the older
      one's digest, so the newer snapshot is not committed; the load that migrates fails,
      and the next finds at most the older one, flagged as recovered. */
  lemma OlderTwinBreaksThePointer(env: Env, newer: Content, older: Content)
    requires Twins(env, newer, older) && !SnapOf(env, newer).recovered
    requires !EqualFold(env.sha(newer), env.sha(older)) && env.size(older) <= MAX_BYTES
    ensures var start := Disk(map[], {}, NoPointer); var d := Migrated(env, [newer, older], start);
      && Committed(env, d).None?
      && FirstLoad(env, [newer, older], start) == Failed(ChecksumMismatch)
      && Load(env, d) == if SnapOf(env, older).published then Found(SnapOf(env, older).(recovered := true)) else Nothing
  {
    var start := Disk(map[], {}, NoPointer);
    var d := Migrated(env, [newer, older], start);
    var n, m := Gen(NameIn(env, newer)), Gen(NameIn(env, older));
    TwinsCopied(env, newer, older);
    TwinsPointer(env, newer, older);
    assert d.files == map[n := newer, m := older] && d.pointer == PointerTo(env, SnapOf(env, newer), older);
    OlderTwinIsRecovered(env, newer, older);
    hide Migrated, Recovered, SnapOf, NameIn, Decode, CatalogOf;
    assert ReadPointed(env, d.files, d.pointer.pointer) == Bad(ChecksumMismatch);
  }

  lemma OlderTwinIsRecovered(env: Env, newer: Content, older: Content)
    requires Twins(env, newer, older) && env.size(older) <= MAX_BYTES
    ensures Recovered(CatalogOf(env, map[Gen(NameIn(env, newer)) := newer, Gen(NameIn(env, older)) := older]))
            == if SnapOf(env, older).published then Found(SnapOf(env, older).(recovered := true)) else Nothing
  {
    var n, m := Gen(NameIn(env, newer)), Gen(NameIn(env, older));
    var files := map[n := newer, m := older];
    assert Accepted(env, files, m) && Snap(env, files, m) == SnapOf(env, older);
    OnlyOlderCounts(env, files, n, m);
    hide NameIn, Decode;
    CatalogFacts(env, files);
    OnlyEntry(CatalogOf(env, files), IdOf(env, files, m));
  }

  lemma OnlyOlderCounts(env: Env, files: map<File, Content>, n: File, m: File)
    requires files.Keys == {n, m} && n.Gen? && m.Gen? && n.name.startedAt > m.name.startedAt && Accepted(env, files, m)
    requires Accepted(env, files, n) ==> IdOf(env, files, n) == IdOf(env, files, m)
    ensures Usable(env, files, m) && CatalogOf(env, files).Keys == {IdOf(env, files, m)}
  {
    assert Usable(env, files, m);
    CatalogFacts(env, files);
    forall id | id in CatalogOf(env, files) ensures id == IdOf(env, files, m) { var f := SourceIs(env, files, id); }
  }

  lemma OnlyEntry(u: Catalog, id: string)
    requires u.Keys == {id}
    ensures Recovered(u) == if u[id].published then Found(u[id].(recovered := true)) else Nothing
  {
    if u[id].published {
      assert LatestPublished(u, id);
      RecoveredIs(u, id);
    }
  }
}
