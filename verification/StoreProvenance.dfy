/** Where the rows that loads return come from, over any run of the repository. */
module StoreProvenance {
  import opened Wrappers
  import opened StoreModel
  import opened StoreReconcile
  import opened StoreTheorems
  import opened StorePipeline
  import opened StoreHysteresis
  import opened StoreRepoModel
  import opened StoreMigration
  import opened StoreEndToEnd

  /** The rows a scan can fall back on after a load. */
  function PriorRows(loaded: Loaded): map<Identity, Published> {
    if loaded.Found? then PreviousRows(loaded.s.rows) else map[]
  }

  /** Every scan falls back on the rows that some load before it returned: committed,
      recovered, or none. A load that fails ends the scan. */
  ghost predicate Heeds(env: Env, disks: seq<Disk>, events: seq<Event>)
    requires |disks| == |events| + 1
  {
    forall i | 0 <= i < |events| && events[i].Persist? :: exists j :: FallsBackOn(env, disks, i, j, events[i].record)
  }

  ghost predicate FallsBackOn(env: Env, disks: seq<Disk>, i: nat, j: int, r: ScanRecord)
    requires i < |disks|
  {
    0 <= j <= i && !Load(env, disks[j]).Failed? && r.previous == PriorRows(Load(env, disks[j]))
  }

  /** A scan's own evidence offers an update, and its verified product IDs agree. */
  ghost predicate ScanOffers(r: ScanRecord, id: Identity) { Offers(Round(r.scan, r.families, r.runs, true), id) }

  /** An incomplete scan shows the package as available, on the strength of an earlier row. */
  ghost predicate Carries(e: Event, id: Identity, at: Option<nat>) {
    && e.Persist? && e.record.scan.status != ScanCompleted
    && exists row | row in StoredRecord(e.record).rows ::
         row.a.identity == id && row.stale && row.a.state == Available && row.observedAt == at
  }

  /** A scan assessed the package afresh: available exactly if its own evidence says so. */
  ghost predicate Assesses(e: Event, id: Identity, at: Option<nat>, row: Published) {
    && e.Persist? && row in StoredRecord(e.record).rows
    && row.a.identity == id && !row.stale && row.observedAt == at
    && (row.a.state == Available <==> ScanOffers(e.record, id))
  }

  /** A row of an old file. */
  ghost predicate Inherits(env: Env, oldFiles: OldFiles, id: Identity, at: Option<nat>) {
    exists c, row :: InheritedRow(env, oldFiles, c, row, id, at)
  }

  ghost predicate InheritedRow(env: Env, oldFiles: OldFiles, c: Content, row: Published, id: Identity,
                               at: Option<nat>) {
    c in oldFiles && Readable(env, c) && row in SnapOf(env, c).rows && row.a.identity == id && row.observedAt == at
  }

  /** A chain of ever earlier scans: incomplete ones carry the row on from one that
      assessed the package afresh, or from an old file. */
  ghost predicate Traces(env: Env, oldFiles: OldFiles, events: seq<Event>, path: seq<nat>, id: Identity,
                         at: Option<nat>) {
    && path != [] && (forall k | 0 <= k < |path| :: path[k] < |events|)
    && (forall k | 0 <= k < |path| - 1 :: path[k] > path[k + 1] && Carries(events[path[k]], id, at))
    && var origin := events[path[|path| - 1]];
    ((exists row :: Assesses(origin, id, at, row)) || (Carries(origin, id, at) && Inherits(env, oldFiles, id, at)))
  }

  lemma FreshIsAssessed(e: Event, p: Published)
    requires e.Persist? && p in StoredRecord(e.record).rows && !p.stale
    ensures Assesses(e, p.a.identity, p.observedAt, p)
  {
    var r := e.record;
    var rows := Rows(r.scan, r.families, r.runs, r.previous);
    var n :| 0 <= n < |rows| && StoredRows(rows)[n] == p;
    StoredRowFacts(p, rows[n]);
    assert rows[n] in rows;
    FreshRowIsSound(r.scan, r.families, r.runs, r.previous, rows[n]);
  }

  lemma StaleIsCarried(e: Event, p: Published)
    requires e.Persist? && p in StoredRecord(e.record).rows && p.stale
    ensures Carries(e, p.a.identity, p.observedAt)
    ensures p.a.identity in e.record.previous && e.record.previous[p.a.identity].observedAt == p.observedAt
  {
    var r := e.record;
    var rows := Rows(r.scan, r.families, r.runs, r.previous);
    var n :| 0 <= n < |rows| && StoredRows(rows)[n] == p;
    var q := rows[n];
    StoredRowFacts(p, q);
    assert q in rows;
    RowsMembers(r.scan, r.families, r.runs, r.previous);
    RetainedRow(r.scan, AssessmentOf(r.scan, q.a.identity, r.runs), q.a.identity, r.runs, r.previous, q);
  }

  /** Every row of a scan's snapshot stems from a fresh assessment of an earlier scan, or
      from an old file, through incomplete scans alone, and keeps its age. */
  lemma {:induction false} RowsHaveOrigins(env: Env, oldFiles: OldFiles, disks: seq<Disk>, events: seq<Event>, i: nat,
                                           p: Published)
    returns (path: seq<nat>)
    requires Run(env, oldFiles, disks, events) && Heeds(env, disks, events)
    requires i < |events| && events[i].Persist? && p in StoredRecord(events[i].record).rows
    ensures path != [] && path[0] == i && Traces(env, oldFiles, events, path, p.a.identity, p.observedAt)
    decreases i
  {
    hide *;
    if !p.stale {
      FreshIsAssessed(events[i], p);
      TracesAlone(env, oldFiles, events, i, p.a.identity, p.observedAt);
      return [i];
    }
    StaleIsCarried(events[i], p);
    var k, q := FellBackOn(env, oldFiles, disks, events, i, p);
    if q.Some? {
      var rest := RowsHaveOrigins(env, oldFiles, disks, events, k, q.value);
      path := [i] + rest;
      TracesOn(env, oldFiles, events, i, rest, p.a.identity, p.observedAt);
    } else {
      TracesAlone(env, oldFiles, events, i, p.a.identity, p.observedAt);
      path := [i];
    }
  }

  lemma TracesAlone(env: Env, oldFiles: OldFiles, events: seq<Event>, i: nat, id: Identity, at: Option<nat>)
    requires i < |events|
    requires (exists row :: Assesses(events[i], id, at, row))
      || (Carries(events[i], id, at) && Inherits(env, oldFiles, id, at))
    ensures Traces(env, oldFiles, events, [i], id, at)
  {
    hide Carries, Assesses, Inherits;
  }

  /** The earlier scan whose row a stale row repeats, if it does not repeat an old
      file's. */
  lemma FellBackOn(env: Env, oldFiles: OldFiles, disks: seq<Disk>, events: seq<Event>, i: nat, p: Published)
    returns (k: nat, q: Option<Published>)
    requires Run(env, oldFiles, disks, events) && Heeds(env, disks, events)
    requires i < |events| && events[i].Persist? && p in StoredRecord(events[i].record).rows && p.stale
    ensures if q.None? then Inherits(env, oldFiles, p.a.identity, p.observedAt)
            else && k < i && events[k].Persist? && q.value in StoredRecord(events[k].record).rows
                 && q.value.a.identity == p.a.identity && q.value.observedAt == p.observedAt
  {
    StaleIsCarried(events[i], p);
    var j :| FallsBackOn(env, disks, i, j, events[i].record);
    var s := Load(env, disks[j]).s;
    PreviousRowsMembers(s.rows);
    var row := PreviousRows(s.rows)[p.a.identity];
    LoadedWasPersisted(env, oldFiles, disks, events, j, s);
    hide Run, Heeds, PreviousRows, StoredForm;
    if n: nat :| FromScan(events[..j], n, s) {
      k, q := n, Some(row);
    } else {
      var c :| FromOldFile(env, oldFiles, c, s);
      assert InheritedRow(env, oldFiles, c, row, p.a.identity, p.observedAt);
      k, q := 0, None;
    }
  }

  lemma TracesOn(env: Env, oldFiles: OldFiles, events: seq<Event>, i: nat, rest: seq<nat>, id: Identity,
                 at: Option<nat>)
    requires rest != [] && rest[0] < i < |events|
    requires Traces(env, oldFiles, events, rest, id, at) && Carries(events[i], id, at)
    ensures Traces(env, oldFiles, events, [i] + rest, id, at)
  {
    hide Carries, Assesses, Inherits;
    var path := [i] + rest;
    forall k | 0 <= k < |path| - 1 ensures path[k] > path[k + 1] && Carries(events[path[k]], id, at) {
      if k > 0 { assert path[k] == rest[k - 1] && path[k + 1] == rest[k]; }
    }
    assert path[|path| - 1] == rest[|rest| - 1];
  }

  /** Every row that any load returns, committed or recovered, has such an origin. A row
      shown as available has an offer of the scan that assessed it afresh behind it
      exactly when that scan's own row said available. */
  lemma LoadedRowsHaveOrigins(env: Env, oldFiles: OldFiles, disks: seq<Disk>, events: seq<Event>, i: nat, s: Snapshot,
                              p: Published)
    requires Run(env, oldFiles, disks, events) && Heeds(env, disks, events)
    requires i <= |events| && Load(env, disks[i]) == Found(s) && p in s.rows
    ensures || Inherits(env, oldFiles, p.a.identity, p.observedAt)
            || exists path :: Traces(env, oldFiles, events, path, p.a.identity, p.observedAt) && path[0] < i
  {
    LoadedWasPersisted(env, oldFiles, disks, events, i, s);
    if k: nat :| FromScan(events[..i], k, s) {
      var path := RowsHaveOrigins(env, oldFiles, disks, events, k, p);
    } else {
      var c :| FromOldFile(env, oldFiles, c, s);
      assert InheritedRow(env, oldFiles, c, p, p.a.identity, p.observedAt);
    }
  }
}
