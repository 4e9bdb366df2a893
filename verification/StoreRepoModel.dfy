/** The Store scan repository of one user as files: immutable generations beside a
    checksummed current pointer. */
module StoreRepoModel {
  import opened Wrappers
  import opened Text
  import opened StoreModel
  import opened StoreReconcile
  import opened StorePipeline

  const MAX_BYTES: nat := 16_777_216
  const RETENTION: nat := 50

  /** A generation's file name: its start time and (the hash of) its scan ID. */
  datatype Name = Name(startedAt: nat, scanId: string)

  /** A file of the generations directory: a generation, or the temporary file of a
      write that was never finished. Temporary files come first in directory order. */
  datatype File = Temp(k: nat) | Gen(name: Name)

  /** What a file holds: an encoded snapshot, or something that does not decode. */
  datatype Content = Encoded(s: Snapshot) | Garbled | NewerSchema | Locked

  /** A target that is not a local file name is None. */
  datatype Pointer = Pointer(target: Option<File>, scanId: string, startedAt: nat, completedAt: Option<nat>,
                             sha: string)
  datatype PointerFile = NoPointer | BadPointer | LockedPointer | At(pointer: Pointer)

  datatype Disk = Disk(files: map<File, Content>, quarantined: set<File>, pointer: PointerFile)

  /** The user, and the digest and size of a file's bytes. */
  datatype Env = Env(user: string, sha: Content -> string, size: Content -> nat)

  datatype Fault =
    | MalformedJson | ChecksumMismatch | FutureSchema | AccessDenied | ForeignUser | DuplicateScanId
    | MissingGeneration | InvalidContents | PointerMismatch | TooLarge | WriteFailed

  datatype Read = Good(s: Snapshot) | Bad(fault: Fault)
  datatype Loaded = Nothing | Found(s: Snapshot) | Failed(fault: Fault)

  // ---------------------------------------------------------------- reading files

  function Decode(env: Env, c: Content): Read {
    match c
    case Locked => Bad(AccessDenied)
    case Garbled => Bad(MalformedJson)
    case NewerSchema => Bad(FutureSchema)
    case Encoded(s) =>
      if s.scan.userSid != env.user then Bad(ForeignUser)
      else if !SnapshotValid(Clean(s)) then Bad(InvalidContents)
      else Good(Clean(s))
  }

  function ReadSnapshot(env: Env, c: Content): Read {
    if env.size(c) > MAX_BYTES then Bad(InvalidContents) else Decode(env, c)
  }

  function ReadPointed(env: Env, files: map<File, Content>, p: Pointer): Read {
    if p.target.None? then Bad(PointerMismatch)
    else if p.target.value !in files then Bad(MissingGeneration)
    else ReadTarget(env, files[p.target.value], p)
  }

  /** Reads the target of a current-pointer file and compares it with what was recorded of it. */
  function ReadTarget(env: Env, c: Content, p: Pointer): Read {
    if c.Locked? then Bad(AccessDenied)
    else if !EqualFold(env.sha(c), p.sha) then Bad(ChecksumMismatch)
    else
      var read := Decode(env, c);
      if read.Bad? then read
      else if read.s.scan.scanId != p.scanId || read.s.scan.startedAt != Some(p.startedAt)
              || read.s.scan.userSid != env.user then
        Bad(PointerMismatch)
      else Good(read.s.(published := true))
  }

  /** Faults behind a pointer that end the load instead of falling back. */
  predicate Stops(f: Fault) { f == FutureSchema || f == AccessDenied || f == ForeignUser }

  // ---------------------------------------------------------------- the order of generations

  function NameOf(scan: Scan): Name { Name(if scan.startedAt.Some? then scan.startedAt.value else 0, scan.scanId) }

  /** The later start, then the greater scan ID. */
  predicate After(a: Name, b: Name) {
    if a.startedAt != b.startedAt then a.startedAt > b.startedAt else LexLess(b.scanId, a.scanId)
  }

  predicate SortsAfter(a: Snapshot, b: Snapshot) { After(NameOf(a.scan), NameOf(b.scan)) }

  /** Directory order, as far as it matters. */
  predicate Earlier(a: File, b: File) {
    match (a, b)
    case (Temp(i), Temp(j)) => i < j
    case (Temp(_), Gen(_)) => true
    case (Gen(_), Temp(_)) => false
    case (Gen(m), Gen(n)) => m.startedAt < n.startedAt
  }

  // ---------------------------------------------------------------- usable generations

  predicate Accepted(env: Env, files: map<File, Content>, f: File) {
    f in files && ReadSnapshot(env, files[f]).Good?
  }

  function Snap(env: Env, files: map<File, Content>, f: File): Snapshot
    requires Accepted(env, files, f)
  {
    ReadSnapshot(env, files[f]).s
  }

  function IdOf(env: Env, files: map<File, Content>, f: File): string
    requires Accepted(env, files, f)
  {
    Snap(env, files, f).scan.scanId
  }

  ghost predicate Twin(env: Env, files: map<File, Content>, f: File, g: File) {
    Accepted(env, files, f) && Accepted(env, files, g) && f != g && IdOf(env, files, f) == IdOf(env, files, g)
  }

  /** Of several files with one scan ID the first in directory order counts. */
  ghost predicate Usable(env: Env, files: map<File, Content>, f: File) {
    Accepted(env, files, f) && forall g | Twin(env, files, f, g) :: Earlier(f, g)
  }

  /** Every generation file is named after the snapshot in it. */
  ghost predicate WellNamed(env: Env, files: map<File, Content>) {
    forall f: File | f.Gen? && f in files && Decode(env, files[f]).Good? ::
        NameOf(Decode(env, files[f]).s.scan) == f.name
  }

  lemma UsableFilesDiffer(env: Env, files: map<File, Content>)
    ensures forall f, g | Usable(env, files, f) && Usable(env, files, g)
      && IdOf(env, files, f) == IdOf(env, files, g) :: f == g
  {
    forall f, g | Usable(env, files, f) && Usable(env, files, g) && IdOf(env, files, f) == IdOf(env, files, g)
      ensures f == g
    {
      assert f != g ==> Twin(env, files, f, g) && Twin(env, files, g, f);
    }
  }

  /** The file the listing takes a scan from. */
  ghost predicate IsSource(env: Env, files: map<File, Content>, f: File, id: string) {
    Usable(env, files, f) && IdOf(env, files, f) == id
  }

  ghost function UsableIds(env: Env, files: map<File, Content>): set<string> {
    set f | f in files && Usable(env, files, f) :: IdOf(env, files, f)
  }

  lemma HasSource(env: Env, files: map<File, Content>, id: string)
    requires id in UsableIds(env, files)
    ensures exists f :: IsSource(env, files, f, id)
  {
    var f :| f in files && Usable(env, files, f) && IdOf(env, files, f) == id;
    assert IsSource(env, files, f, id);
  }

  ghost function SourceOf(env: Env, files: map<File, Content>, id: string): (f: File)
    requires id in UsableIds(env, files)
    ensures IsSource(env, files, f, id)
  {
    HasSource(env, files, id);
    var f :| IsSource(env, files, f, id);
    f
  }

  /** The snapshots a listing of the directory yields, by scan ID. */
  type Catalog = map<string, Snapshot>

  ghost function CatalogOf(env: Env, files: map<File, Content>): Catalog {
    map id | id in UsableIds(env, files) :: Snap(env, files, SourceOf(env, files, id))
  }

  predicate LatestPublished(u: Catalog, id: string) {
    id in u && u[id].published && forall other | other in u && u[other].published && other != id ::
        SortsAfter(u[id], u[other])
  }

  /** The newest published one, flagged as recovered. */
  ghost function Recovered(u: Catalog): Loaded {
    if id :| LatestPublished(u, id) then Found(u[id].(recovered := true)) else Nothing
  }

  // ---------------------------------------------------------------- loading

  /** What the pointer commits to, if it can be followed. */
  function Committed(env: Env, d: Disk): Option<Snapshot> {
    if d.pointer.At? && ReadPointed(env, d.files, d.pointer.pointer).Good? then
      Some(ReadPointed(env, d.files, d.pointer.pointer).s)
    else None
  }

  ghost function Load(env: Env, d: Disk): Loaded {
    match d.pointer
    case NoPointer => Recovered(CatalogOf(env, d.files))
    case BadPointer => Recovered(CatalogOf(env, d.files))
    case LockedPointer => Failed(AccessDenied)
    case At(p) =>
      match ReadPointed(env, d.files, p)
      case Good(s) => Found(s)
      case Bad(f) => if Stops(f) then Failed(f) else Recovered(CatalogOf(env, d.files))
  }

  // ---------------------------------------------------------------- retention

  function Newer(u: Catalog, id: string): set<string>
    requires id in u
  {
    set other | other in u && SortsAfter(u[other], u[id])
  }

  /** What lies beyond the newest ones and is not the one to keep. */
  function Surplus(u: Catalog, keep: Option<string>): set<string> {
    set id | id in u && |Newer(u, id)| >= RETENTION && keep != Some(id)
  }

  /** The scan ID retention protects beside the newest generations. */
  ghost function Protected(env: Env, d: Disk): Option<string> {
    match Load(env, d)
    case Found(s) => Some(s.scan.scanId)
    case _ => if id :| LatestPublished(CatalogOf(env, d.files), id) then Some(id) else None
  }

  /** The file retention removes for a scan: the one of its proper name, whichever file
      the listing took the scan from. */
  function FileOf(s: Snapshot): File { Gen(NameOf(s.scan)) }
}
