/** Retention over whole histories of scans. */
module StoreHysteresis {
  import opened Wrappers
  import opened Text
  import opened StoreModel
  import opened StoreReconcile
  import opened StoreTheorems
  import opened StorePipeline

  /** One scan: its evidence, and whether its snapshot became the published one. */
  datatype Round = Round(scan: Scan, families: seq<Family>, runs: seq<ProviderRun>, published: bool)

  function Stored(r: Round, previous: seq<Published>): seq<Published> {
    StoredRows(Rows(r.scan, r.families, r.runs, PreviousRows(previous)))
  }

  /** The published rows after a history of scans. */
  function History(rounds: seq<Round>): seq<Published> {
    if rounds == [] then []
    else
      var last, earlier := rounds[|rounds| - 1], History(rounds[..|rounds| - 1]);
      if last.published then Stored(last, earlier) else earlier
  }

  /** A scan of a history, by its position, and the row it assessed afresh. */
  datatype Fresh = Fresh(at: nat, row: Published)

  /** The last published scan that assessed an identity afresh, as long as every
      published scan since has had a row for it. */
  function LastFresh(rounds: seq<Round>, id: Identity): (origin: Option<Fresh>)
    ensures origin.Some? ==> origin.value.at < |rounds|
  {
    if rounds == [] then None
    else
      var last, earlier := rounds[|rounds| - 1], rounds[..|rounds| - 1];
      if !last.published then LastFresh(earlier, id)
      else
        var rows := PreviousRows(Stored(last, History(earlier)));
        if id !in rows then None
        else if !rows[id].stale then Some(Fresh(|earlier|, rows[id]))
        else LastFresh(earlier, id)
  }

  lemma {:induction false} PreviousRowsMembers(rows: seq<Published>)
    ensures forall id | id in PreviousRows(rows) ::
      PreviousRows(rows)[id] in rows && PreviousRows(rows)[id].a.identity == id
    ensures forall p | p in rows :: p.a.identity in PreviousRows(rows)
  {
    if rows != [] {
      PreviousRowsMembers(rows[..|rows| - 1]);
      assert rows == rows[..|rows| - 1] + [rows[|rows| - 1]];
    }
  }

  /** Every row of a scan is the row of one of its product-like families. */
  lemma {:induction false} RowsMembers(scan: Scan, families: seq<Family>, runs: seq<ProviderRun>,
                                       previous: map<Identity, Published>)
    ensures forall p | p in Rows(scan, families, runs, previous) ::
              && p == Row(scan, AssessmentOf(scan, p.a.identity, runs), runs, previous) && p.a.scanId == scan.scanId
              && exists f | f in families :: f.productLike && f.identity == p.a.identity
  {
    if families != [] {
      var n := |families| - 1;
      var f, earlier := families[n], families[..n];
      RowsMembers(scan, earlier, runs, previous);
      assert families == earlier + [f];
      var a := AssessmentOf(scan, f.identity, runs);
      ReconcileKeepsIdentity(Input(f.identity, scan, Required(runs), AllObservations(runs)));
      var last := Row(scan, a, runs, previous);
      RowKeepsIdentity(scan, a, runs, previous);
      forall p | p in Rows(scan, families, runs, previous)
        ensures p in Rows(scan, earlier, runs, previous) || (f.productLike && p == last)
      {
      }
    }
  }

  lemma RowKeepsIdentity(scan: Scan, a: Assessment, runs: seq<ProviderRun>, previous: map<Identity, Published>)
    ensures var row := Row(scan, a, runs, previous); row.a.identity == a.identity && row.a.scanId == a.scanId
  {
  }

  lemma StoredMembers(r: Round, previous: seq<Published>)
    ensures forall p | p in Stored(r, previous) ::
              exists q | q in Rows(r.scan, r.families, r.runs, PreviousRows(previous)) :: p == StoredRow(q)
  {
    var rows := Rows(r.scan, r.families, r.runs, PreviousRows(previous));
    forall p | p in Stored(r, previous) ensures exists q | q in rows :: p == StoredRow(q) {
      var n :| 0 <= n < |rows| && StoredRows(rows)[n] == p;
      assert rows[n] in rows;
    }
  }

  /** Retention and its veto never meet: a healthy retraction needs a completed
      scan, retention an incomplete one. */
  lemma RetractionVetoNeverFires(scan: Scan, a: Assessment, runs: seq<ProviderRun>)
    requires ShouldRetain(scan, a)
    ensures !HealthyRetraction(scan, a.identity, runs)
  {
  }

  lemma FreshRowFacts(scan: Scan, a: Assessment, ids: seq<string>, row: Published)
    requires row == FreshRow(scan, a, ids)
    ensures !row.stale && row.a.identity == a.identity
    ensures row.a.state == Available <==> a.state == Available && !ProductConflict(ids)
    ensures row.a.state == Current <==> a.state == Current
  {
  }

  lemma RetainedFacts(scan: Scan, a: Assessment, runs: seq<ProviderRun>, previous: map<Identity, Published>,
                      row: Published)
    requires row == Row(scan, a, runs, previous) && row.stale
    ensures Retains(scan, a, runs, previous) && row == Retained(a, previous[a.identity])
  {
    if !Retains(scan, a, runs, previous) {
      FreshRowFacts(scan, a, VerifiedIds(AllMappings(runs), scan, a.identity), row);
    }
  }

  lemma StoredRowFacts(p: Published, q: Published)
    requires p == StoredRow(q)
    ensures p.stale == q.stale && p.observedAt == q.observedAt && p.a.state == q.a.state && p.a.identity == q.a.identity
    ensures p.a.scanId == q.a.scanId
  {
  }

  lemma RetainedRow(scan: Scan, a: Assessment, id: Identity, runs: seq<ProviderRun>, previous: map<Identity, Published>,
                    row: Published)
    requires row == Row(scan, a, runs, previous) && row.stale && row.a.identity == id
    ensures scan.status != ScanCompleted && row.a.state == Available
    ensures id in previous && row.observedAt == previous[id].observedAt
  {
    RetainedFacts(scan, a, runs, previous, row);
  }

  /** A stale row of one scan repeats the previous row's evidence. */
  lemma StaleRowIsInherited(r: Round, previous: seq<Published>, p: Published)
    requires p in Stored(r, previous) && p.stale
    ensures r.scan.status != ScanCompleted && p.a.state == Available
    ensures p.a.identity in PreviousRows(previous) && p.observedAt == PreviousRows(previous)[p.a.identity].observedAt
  {
    StoredMembers(r, previous);
    var before := PreviousRows(previous);
    var q :| q in Rows(r.scan, r.families, r.runs, before) && p == StoredRow(q);
    RowsMembers(r.scan, r.families, r.runs, before);
    StoredRowFacts(p, q);
    RetainedRow(r.scan, AssessmentOf(r.scan, q.a.identity, r.runs), q.a.identity, r.runs, before, q);
  }

  /** Nothing completed since. */
  ghost predicate IncompleteSince(rounds: seq<Round>, at: nat) {
    forall k | at < k < |rounds| && rounds[k].published :: rounds[k].scan.status != ScanCompleted
  }

  /** A fresh row is its own origin; a stale one says Available and was observed with its
      origin. No published scan has completed since. */
  ghost predicate StemsFrom(rounds: seq<Round>, row: Published, origin: Option<Fresh>) {
    && origin.Some? && !origin.value.row.stale && IncompleteSince(rounds, origin.value.at)
    && if row.stale then row.a.state == Available && row.observedAt == origin.value.row.observedAt
          else row == origin.value.row
  }

  /** Over any history of complete and incomplete scans, a row that is still stale
      says Available, was observed exactly when its identity was last assessed
      afresh, and every published scan since then was incomplete. */
  lemma {:induction false} StaleRowsKeepTheirAge(rounds: seq<Round>, id: Identity)
    ensures var rows := PreviousRows(History(rounds)); id in rows ==> StemsFrom(rounds, rows[id], LastFresh(rounds, id))
  {
    if rounds != [] {
      var last, earlier := rounds[|rounds| - 1], rounds[..|rounds| - 1];
      StaleRowsKeepTheirAge(earlier, id);
      var before := PreviousRows(History(earlier));
      if last.published {
        var rows := PreviousRows(Stored(last, History(earlier)));
        if id in rows && rows[id].stale {
          PreviousRowsMembers(Stored(last, History(earlier)));
          StaleRowIsInherited(last, History(earlier), rows[id]);
          hide Stored, PreviousRows, StemsFrom;
          StillStems(rounds, before[id], rows[id], LastFresh(earlier, id));
        }
      } else if id in before {
        hide Stored, PreviousRows, StemsFrom;
        StillStems(rounds, before[id], before[id], LastFresh(earlier, id));
      }
    }
  }

  lemma StillStems(rounds: seq<Round>, before: Published, row: Published, origin: Option<Fresh>)
    requires rounds != [] && StemsFrom(rounds[..|rounds| - 1], before, origin)
    requires row == before || (row.stale && row.a.state == Available && row.observedAt == before.observedAt)
    requires var last := rounds[|rounds| - 1]; !last.published || (last.scan.status != ScanCompleted && row.stale)
    ensures StemsFrom(rounds, row, origin)
  {
    StillIncomplete(rounds, origin.value.at);
  }

  /** One more scan that is not published, or not completed. */
  lemma StillIncomplete(rounds: seq<Round>, at: nat)
    requires rounds != [] && IncompleteSince(rounds[..|rounds| - 1], at)
    ensures var last := rounds[|rounds| - 1];
      !last.published || last.scan.status != ScanCompleted ==> IncompleteSince(rounds, at)
  {
    var earlier := rounds[..|rounds| - 1];
    forall k | at < k < |earlier| && rounds[k].published ensures rounds[k].scan.status != ScanCompleted {
      assert earlier[k] == rounds[k];
    }
  }

  // ---------------------------------------------------------------- what a row says about the evidence

  /** A fresh row says Available exactly when the scan's own evidence does and the
      verified product IDs agree; it is then executable. */
  lemma FreshRowIsSound(scan: Scan, families: seq<Family>, runs: seq<ProviderRun>, previous: map<Identity, Published>,
                        p: Published)
    requires p in Rows(scan, families, runs, previous) && !p.stale
    ensures var id, evidence := p.a.identity, Members(AllObservations(runs));
      && (p.a.state == Available <==>
            AvailableWhen(evidence, id, scan) && !ProductConflict(VerifiedIds(AllMappings(runs), scan, id)))
      && (p.a.state == Current <==>
            CurrentWhen(evidence, RequiredKeys(Required(runs)), id, scan)
            && !Retains(scan, AssessmentOf(scan, id, runs), runs, previous))
      && (p.a.state == Available ==> p.exact)
  {
    RowsMembers(scan, families, runs, previous);
    var i := Input(p.a.identity, scan, Required(runs), AllObservations(runs));
    ReconcileKeepsIdentity(i);
    AvailableExactlyWhen(i);
    CurrentExactlyWhen(i);
    if Reconcile(i).state == Available { AvailableTargetIsExact(i); }
  }

  /** A scan's own evidence offers an update, and its verified product IDs agree. */
  ghost predicate Offers(r: Round, id: Identity) {
    && AvailableWhen(Members(AllObservations(r.runs)), id, r.scan)
    && !ProductConflict(VerifiedIds(AllMappings(r.runs), r.scan, id))
  }

  lemma StoredFreshIsSound(r: Round, previous: seq<Published>, p: Published)
    requires p in Stored(r, previous) && !p.stale
    ensures p.a.state == Available <==> Offers(r, p.a.identity)
  {
    StoredMembers(r, previous);
    var q :| q in Rows(r.scan, r.families, r.runs, PreviousRows(previous)) && p == StoredRow(q);
    StoredRowFacts(p, q);
    FreshRowIsSound(r.scan, r.families, r.runs, PreviousRows(previous), q);
  }

  lemma {:induction false} LastFreshIsSound(rounds: seq<Round>, id: Identity)
    requires LastFresh(rounds, id).Some?
    ensures var origin := LastFresh(rounds, id).value;
      && rounds[origin.at].published && !origin.row.stale && origin.row.a.identity == id
      && (origin.row.a.state == Available <==> Offers(rounds[origin.at], id))
  {
    var last, earlier := rounds[|rounds| - 1], rounds[..|rounds| - 1];
    if LastFresh(rounds, id) == LastFresh(earlier, id) {
      LastFreshIsSound(earlier, id);
    } else {
      PreviousRowsMembers(Stored(last, History(earlier)));
      StoredFreshIsSound(last, History(earlier), PreviousRows(Stored(last, History(earlier)))[id]);
    }
  }

  /** Retention does not ask whether what it retains was positive. Over any history of
      scans, a row shown as Available has an offer of the scan that last assessed it
      afresh behind it exactly when that scan's row said Available; otherwise no
      evidence of that scan, nor a completed one since, offers anything. */
  lemma ShownAvailableIsBackedExactlyWhen(rounds: seq<Round>, id: Identity)
    requires var rows := PreviousRows(History(rounds)); id in rows && rows[id].a.state == Available
    ensures LastFresh(rounds, id).Some?
    ensures var origin := LastFresh(rounds, id).value;
      && rounds[origin.at].published
      && (Offers(rounds[origin.at], id) <==> origin.row.a.state == Available)
      && IncompleteSince(rounds, origin.at)
      && (!PreviousRows(History(rounds))[id].stale ==> Offers(rounds[origin.at], id))
  {
    StaleRowsKeepTheirAge(rounds, id);
    LastFreshIsSound(rounds, id);
  }

  lemma AssessmentFacts(scan: Scan, id: Identity, runs: seq<ProviderRun>)
    ensures var a := AssessmentOf(scan, id, runs);
      a.identity == id && (a.state == Available <==> AvailableWhen(Members(AllObservations(runs)), id, scan))
  {
    var i := Input(id, scan, Required(runs), AllObservations(runs));
    ReconcileKeepsIdentity(i);
    AvailableExactlyWhen(i);
  }

  lemma OnlyRow(p: Published)
    ensures PreviousRows([p]) == map[p.a.identity := p]
  {
    assert [p][..0] == [] && PreviousRows([p][..0]) == map[];
  }
}
