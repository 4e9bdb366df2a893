/** What the log ring keeps, over any sequence of appends. */
module LogRingTheorems {
  import opened LogEntries
  import opened LogRingModel

  /** The ring after appending entries, already clamped, in turn. */
  function Played(es: seq<LogEntry>, l: Limits): (r: Ring)
    ensures WellFormed(r, l)
  {
    if es == [] then EMPTY_RING else Push(Played(es[..|es| - 1], l), es[|es| - 1], l)
  }

  // ---------------------------------------------------------------- accounting

  /** What has come in: live and dropped entries together. */
  ghost predicate Accounts(r: Ring, count: nat, bytes: nat) {
    |r.live| + r.dropped == count && Total(r.live) + r.droppedBytes == bytes
  }

  lemma {:induction false} RoomAccounts(r: Ring, e: LogEntry, l: Limits, count: nat, bytes: nat)
    requires WellFormed(r, l) && Accounts(r, count, bytes)
    ensures Accounts(MakeRoom(r, e, l), count, bytes)
    ensures multiset(MakeRoom(r, e, l).live) <= multiset(r.live)
    decreases |r.live|
  {
    if Crowded(r, e, l) {
      DropKeepsWellFormed(r, l);
      assert r.live == [r.live[0]] + r.live[1..];
      RoomAccounts(DropOldest(r), e, l, count, bytes);
    }
  }

  lemma PlaceAccounts(m: Ring, e: LogEntry, l: Limits, count: nat, bytes: nat)
    requires WellFormed(m, l) && Accounts(m, count, bytes)
    ensures Accounts(Place(m, e, l), count + 1, bytes + Size(e))
    ensures multiset(Place(m, e, l).live) <= multiset(m.live) + multiset{e}
  {
    TotalInsert(m.live, Position(m), e);
    assert m.live == m.live[..Position(m)] + m.live[Position(m)..];
    hide Total, Size;
  }

  lemma PushAccounts(r: Ring, e: LogEntry, l: Limits, count: nat, bytes: nat)
    requires WellFormed(r, l) && Accounts(r, count, bytes)
    ensures Accounts(Push(r, e, l), count + 1, bytes + Size(e))
    ensures multiset(Push(r, e, l).live) <= multiset(r.live) + multiset{e}
  {
    RoomIsWellFormed(r, e, l);
    RoomAccounts(r, e, l, count, bytes);
    PlaceAccounts(MakeRoom(r, e, l), e, l, count, bytes);
    hide MakeRoom, Place, Accounts, Size, WellFormed;
  }

  /** Nothing is lost or invented: every appended entry is live or counted as dropped,
      byte for byte; live entries are appended ones, within both budgets. */
  lemma {:induction false} EveryEntryIsAccountedFor(es: seq<LogEntry>, l: Limits)
    ensures var r := Played(es, l);
      && |es| == |r.live| + r.dropped
      && Total(es) == Total(r.live) + r.droppedBytes
      && multiset(r.live) <= multiset(es)
      && |r.live| <= l.MaxEntries() && Total(r.live) <= l.MaxBytes()
  {
    if es != [] {
      var earlier, e := es[..|es| - 1], es[|es| - 1];
      EveryEntryIsAccountedFor(earlier, l);
      assert es == earlier + [e];
      TotalConcat(earlier, [e]);
      assert Sum([e], 1) == Size(e);
      PushAccounts(Played(earlier, l), e, l, |earlier|, Total(earlier));
    }
  }

  // ---------------------------------------------------------------- order

  /** The queue the ring is meant to be. */
  function Trimmed(q: seq<LogEntry>, e: LogEntry, l: Limits): seq<LogEntry> {
    if q != [] && (|q| >= l.MaxEntries() || Total(q) + Size(e) > l.MaxBytes()) then Trimmed(q[1..], e, l) else q
  }

  function Enqueue(q: seq<LogEntry>, e: LogEntry, l: Limits): seq<LogEntry> {
    if Size(e) > l.MaxBytes() then Trimmed(q, e, l) else Trimmed(q, e, l) + [e]
  }

  function Queue(es: seq<LogEntry>, l: Limits): seq<LogEntry> {
    if es == [] then [] else Enqueue(Queue(es[..|es| - 1], l), es[|es| - 1], l)
  }

  /** The ring must grow while its oldest entry sits past the first slot. */
  predicate Misplaces(r: Ring, e: LogEntry, l: Limits)
    requires WellFormed(r, l)
  {
    RoomIsWellFormed(r, e, l);
    var m := MakeRoom(r, e, l);
    Size(e) <= l.MaxBytes() && |m.live| == m.slots && m.oldest != 0
  }

  lemma {:induction false} RoomIsTrimmed(r: Ring, e: LogEntry, l: Limits)
    requires WellFormed(r, l)
    ensures MakeRoom(r, e, l).live == Trimmed(r.live, e, l)
    decreases |r.live|
  {
    if Crowded(r, e, l) {
      DropKeepsWellFormed(r, l);
      RoomIsTrimmed(DropOldest(r), e, l);
    }
  }

  /** An append acts as on a queue exactly unless it has to grow a ring whose oldest
      entry is not in the first slot. */
  lemma AppendEnqueuesExactlyWhen(r: Ring, e: LogEntry, l: Limits)
    requires WellFormed(r, l) && e !in r.live
    ensures Push(r, e, l).live == Enqueue(r.live, e, l) <==> !Misplaces(r, e, l)
  {
    hide MakeRoom, Trimmed, Crowded, Place, Total, Size;
    RoomIsWellFormed(r, e, l);
    RoomIsTrimmed(r, e, l);
    PlaceEnqueuesExactlyWhen(MakeRoom(r, e, l), e, l);
  }

  lemma PlaceEnqueuesExactlyWhen(m: Ring, e: LogEntry, l: Limits)
    requires WellFormed(m, l) && e !in m.live
    ensures Place(m, e, l).live == (if Size(e) > l.MaxBytes() then m.live else m.live + [e]) <==>
            !(Size(e) <= l.MaxBytes() && |m.live| == m.slots && m.oldest != 0)
  {
    InsertIsAppendExactlyAtTheEnd(m.live, Position(m), e);
    hide Total, Size, InsertAt;
  }

  lemma InsertIsAppendExactlyAtTheEnd(es: seq<LogEntry>, at: nat, e: LogEntry)
    requires at <= |es| && e !in es
    ensures InsertAt(es, at, e) == es + [e] <==> at == |es|
  {
    if at == |es| {
      assert es[..at] == es && es[at..] == [];
    } else {
      assert InsertAt(es, at, e)[at] == e && (es + [e])[at] == es[at];
    }
  }

  predicate Numbered(es: seq<LogEntry>) { forall i, j | 0 <= i < j < |es| :: es[i].id < es[j].id }

  ghost predicate AlignedUpTo(es: seq<LogEntry>, l: Limits, n: nat)
    requires n <= |es|
  {
    forall k: nat | k < n :: AlignedAt(es, l, k)
  }

  ghost predicate AlignedAt(es: seq<LogEntry>, l: Limits, k: nat)
    requires k < |es|
  {
    !Misplaces(Played(es[..k], l), es[k], l)
  }

  lemma NextIsNew(es: seq<LogEntry>, l: Limits, n: nat)
    requires Numbered(es) && n < |es|
    ensures es[n] !in Played(es[..n], l).live
  {
    EveryEntryIsAccountedFor(es[..n], l);
    assert multiset(Played(es[..n], l).live) <= multiset(es[..n]);
    assert es[n] !in es[..n];
    assert es[n] !in multiset(es[..n]);
  }

  lemma PlayedAppend(es: seq<LogEntry>, e: LogEntry, l: Limits)
    ensures Played(es + [e], l) == Push(Played(es, l), e, l)
    ensures Queue(es + [e], l) == Enqueue(Queue(es, l), e, l)
  {
    assert (es + [e])[..|es + [e]| - 1] == es;
  }

  ghost predicate QueuedUpTo(es: seq<LogEntry>, l: Limits, n: nat)
    requires n <= |es|
  {
    forall k: nat | k <= n :: QueuedAt(es, l, k)
  }

  ghost predicate QueuedAt(es: seq<LogEntry>, l: Limits, k: nat)
    requires k <= |es|
  {
    Played(es[..k], l).live == Queue(es[..k], l)
  }

  lemma QueuedStep(es: seq<LogEntry>, l: Limits, n: nat)
    requires Numbered(es) && n < |es| && QueuedAt(es, l, n)
    ensures QueuedAt(es, l, n + 1) <==> AlignedAt(es, l, n)
  {
    NextIsNew(es, l, n);
    assert es[..n + 1] == es[..n] + [es[n]];
    PlayedAppend(es[..n], es[n], l);
    AppendEnqueuesExactlyWhen(Played(es[..n], l), es[n], l);
  }

  lemma {:induction false} QueuedWhileAligned(es: seq<LogEntry>, l: Limits, n: nat)
    requires Numbered(es) && n <= |es| && AlignedUpTo(es, l, n)
    ensures QueuedAt(es, l, n)
  {
    if n == 0 {
      assert es[..0] == [];
    } else {
      QueuedWhileAligned(es, l, n - 1);
      assert AlignedAt(es, l, n - 1);
      QueuedStep(es, l, n - 1);
    }
  }

  /** For entries numbered in order, the ring has been a bounded first-in first-out
      queue all along exactly when no append had to grow a misaligned ring. */
  lemma RingIsAQueueExactlyWhenAligned(es: seq<LogEntry>, l: Limits, n: nat)
    requires Numbered(es) && n <= |es|
    ensures QueuedUpTo(es, l, n) <==> AlignedUpTo(es, l, n)
  {
    if AlignedUpTo(es, l, n) {
      forall k: nat | k <= n ensures QueuedAt(es, l, k) { QueuedWhileAligned(es, l, k); }
    }
    if QueuedUpTo(es, l, n) {
      forall k: nat | k < n ensures AlignedAt(es, l, k) {
        assert QueuedAt(es, l, k) && QueuedAt(es, l, k + 1);
        QueuedStep(es, l, k);
      }
    }
  }

  // ---------------------------------------------------------------- queries

  /** A query never misses a newer live entry, in whatever order they are. */
  lemma {:induction false} QueryNeverMisses(live: seq<LogEntry>, since: int)
    ensures forall e | e in live && e.id > since :: e in Newer(live, since)
    ensures exists k :: 0 <= k <= |live| && Newer(live, since) == live[k..]
  {
    if since > 0 && live != [] && live[0].id <= since {
      QueryNeverMisses(live[1..], since);
      assert live == [live[0]] + live[1..];
      var k :| 0 <= k <= |live[1..]| && Newer(live[1..], since) == live[1..][k..];
      assert live[1..][k..] == live[k + 1..];
    } else {
      assert live[0..] == live;
    }
  }

  /** On a queue in order it returns exactly the newer ones. */
  lemma {:induction false} QueryIsExactInOrder(live: seq<LogEntry>, since: int)
    requires Numbered(live) && since > 0
    ensures forall e :: e in Newer(live, since) <==> e in live && e.id > since
  {
    if live != [] {
      assert live == [live[0]] + live[1..];
      if live[0].id <= since { QueryIsExactInOrder(live[1..], since); }
    }
  }

  lemma {:induction false} TrimmedIsSuffix(q: seq<LogEntry>, e: LogEntry, l: Limits)
    ensures var t := Trimmed(q, e, l); |t| <= |q| && t == q[|q| - |t|..]
  {
    if q != [] && (|q| >= l.MaxEntries() || Total(q) + Size(e) > l.MaxBytes()) { TrimmedIsSuffix(q[1..], e, l); }
  }

  predicate Suffix(q: seq<LogEntry>, es: seq<LogEntry>) { |q| <= |es| && q == es[|es| - |q|..] }

  /** A queue holds the last entries logged, in order. */
  lemma {:induction false} QueueIsASuffix(es: seq<LogEntry>, l: Limits)
    ensures Suffix(Queue(es, l), es)
  {
    if es != [] {
      var earlier, e := es[..|es| - 1], es[|es| - 1];
      QueueIsASuffix(earlier, l);
      EnqueuedIsSuffix(Queue(earlier, l), earlier, e, l);
      hide Enqueue, Suffix;
      assert es == earlier + [e];
    }
  }

  lemma EnqueuedIsSuffix(q: seq<LogEntry>, earlier: seq<LogEntry>, e: LogEntry, l: Limits)
    requires Suffix(q, earlier)
    ensures Suffix(Enqueue(q, e, l), earlier + [e])
  {
    hide Total, Size;
    if Size(e) > l.MaxBytes() {
      OversizedEmpties(q, e, l);
    } else {
      TrimmedIsSuffix(q, e, l);
      SuffixGrows(earlier, q, Trimmed(q, e, l), e);
    }
  }

  lemma SuffixGrows(earlier: seq<LogEntry>, q: seq<LogEntry>, t: seq<LogEntry>, e: LogEntry)
    requires Suffix(q, earlier) && Suffix(t, q)
    ensures Suffix(t + [e], earlier + [e])
  {
  }

  lemma {:induction false} OversizedEmpties(q: seq<LogEntry>, e: LogEntry, l: Limits)
    requires Size(e) > l.MaxBytes()
    ensures Trimmed(q, e, l) == []
  {
    if q != [] { OversizedEmpties(q[1..], e, l); }
  }

  /** An entry newer than asked for has been dropped. */
  predicate Missed(logged: seq<LogEntry>, live: seq<LogEntry>, since: int) {
    exists e | e in logged :: e.id > since && e !in live
  }

  /** IDs without holes, as in the ring of all entries; a category's ring has holes. */
  predicate Consecutive(logged: seq<LogEntry>) { forall i | 0 <= i < |logged| :: logged[i].id == i + 1 }

  lemma SuffixGap(live: seq<LogEntry>, logged: seq<LogEntry>, since: int)
    requires |live| <= |logged| && live == logged[|logged| - |live|..] && Numbered(logged) && live != [] && since > 0
    ensures Missed(logged, live, since) <==> |live| < |logged| && logged[|logged| - |live| - 1].id > since
    ensures Missed(logged, live, since) ==> since < live[0].id - 1
    ensures Consecutive(logged) && since < live[0].id - 1 ==> Missed(logged, live, since)
  {
    var from := |logged| - |live|;
    forall i | 0 <= i < |logged| ensures logged[i] in live <==> i >= from {
      if i >= from { assert live[i - from] == logged[i]; }
    }
    if from > 0 && logged[from - 1].id > since { assert logged[from - 1] in logged; }
    if e :| e in logged && e.id > since && e !in live {
      var i :| 0 <= i < |logged| && logged[i] == e;
    }
  }

  lemma SuffixIsNumbered(live: seq<LogEntry>, logged: seq<LogEntry>)
    requires |live| <= |logged| && live == logged[|logged| - |live|..] && Numbered(logged)
    ensures Numbered(live)
  {
  }

  lemma SuffixQueries(r: Ring, logged: seq<LogEntry>, since: int, latestId: int)
    requires |r.live| <= |logged| && r.live == logged[|logged| - |r.live|..] && Numbered(logged) && since > 0
    ensures Numbered(r.live) && QueryTells(r, logged, since, Query(r, since, latestId))
  {
    SuffixIsNumbered(r.live, logged);
    QueryIsExactInOrder(r.live, since);
    if r.live != [] { SuffixGap(r.live, logged, since); }
  }

  /** The answer to a client that has seen everything up to `since`. */
  ghost predicate QueryTells(r: Ring, logged: seq<LogEntry>, since: int, q: QueryResult) {
    && (forall e :: e in q.entries <==> e in r.live && e.id > since)
    && (if Missed(logged, r.live, since) then q.gap <==> r.live != []
        else q.gap <==> r.live != [] && since + 1 < r.live[0].id)
    && (Consecutive(logged) && q.gap ==> Missed(logged, r.live, since))
  }

  lemma AlignedIsSuffix(es: seq<LogEntry>, l: Limits)
    requires Numbered(es) && AlignedUpTo(es, l, |es|)
    ensures var live := Played(es, l).live; |live| <= |es| && live == es[|es| - |live|..]
  {
    QueuedWhileAligned(es, l, |es|);
    assert es[..|es|] == es;
    QueueIsASuffix(es, l);
  }

  /** While aligned, a query returns exactly the live entries newer than asked for. A
      dropped newer entry is reported as a gap exactly unless nothing is live; without
      one, a gap is reported exactly when IDs before the oldest live entry went to other
      categories, which never happens if IDs are consecutive. */
  lemma AlignedQueries(es: seq<LogEntry>, l: Limits, since: int, latestId: int)
    requires Numbered(es) && AlignedUpTo(es, l, |es|) && since > 0
    ensures Numbered(Played(es, l).live) && QueryTells(Played(es, l), es, since, Query(Played(es, l), since, latestId))
  {
    AlignedIsSuffix(es, l);
    SuffixQueries(Played(es, l), es, since, latestId);
  }

  // ---------------------------------------------------------------- the order can break

  const SMALL := Limits(10, 400)

  lemma TotalOfThree(a: LogEntry, b: LogEntry, c: LogEntry)
    ensures Total([a]) == Size(a) && Total([a, b]) == Size(a) + Size(b)
      && Total([a, b, c]) == Size(a) + Size(b) + Size(c)
  {
    assert Sum([a], 1) == Sum([a], 0) + Size(a);
    assert Sum([a, b], 2) == Sum([a, b], 1) + Size(b) && Sum([a, b], 1) == Sum([a, b], 0) + Size(a);
    assert Sum([a, b, c], 3) == Sum([a, b, c], 2) + Size(c);
    assert Sum([a, b, c], 2) == Sum([a, b, c], 1) + Size(b);
  }

  lemma FirstThree(e1: LogEntry, e2: LogEntry, e3: LogEntry)
    requires Size(e1) == 200 && Size(e2) == 100 && Size(e3) == 100
    ensures Played([e1, e2, e3], SMALL) == Ring(3, 0, [e1, e2, e3], 0, 0)
  {
    TotalOfThree(e1, e2, e3);
    PlayedAppend([], e1, SMALL);
    assert [] + [e1] == [e1];
    assert Played([e1], SMALL) == Ring(1, 0, [e1], 0, 0);
    PlayedAppend([e1], e2, SMALL);
    assert [e1] + [e2] == [e1, e2];
    assert Played([e1, e2], SMALL) == Ring(2, 0, [e1, e2], 0, 0);
    PlayedAppend([e1, e2], e3, SMALL);
    assert [e1, e2] + [e3] == [e1, e2, e3];
  }

  lemma LastTwo(e1: LogEntry, e2: LogEntry, e3: LogEntry, e4: LogEntry, e5: LogEntry)
    requires Size(e1) == 200 && Size(e2) == 100 && Size(e3) == 100 && Size(e4) == 80 && Size(e5) == 80
    requires WellFormed(Ring(3, 0, [e1, e2, e3], 0, 0), SMALL) && WellFormed(Ring(3, 1, [e2, e3, e4], 1, 200), SMALL)
    ensures Push(Ring(3, 0, [e1, e2, e3], 0, 0), e4, SMALL) == Ring(3, 1, [e2, e3, e4], 1, 200)
    ensures Push(Ring(3, 1, [e2, e3, e4], 1, 200), e5, SMALL) == Ring(4, 1, [e2, e3, e5, e4], 1, 200)
  {
    TotalOfThree(e1, e2, e3);
    TotalOfThree(e2, e3, e4);
    assert [e1, e2, e3][1..] == [e2, e3];
    assert DropOldest(Ring(3, 0, [e1, e2, e3], 0, 0)) == Ring(3, 1, [e2, e3], 1, 200);
    assert MakeRoom(Ring(3, 0, [e1, e2, e3], 0, 0), e4, SMALL) == MakeRoom(Ring(3, 1, [e2, e3], 1, 200), e4, SMALL);
    assert MakeRoom(Ring(3, 1, [e2, e3], 1, 200), e4, SMALL) == Ring(3, 1, [e2, e3], 1, 200);
    assert InsertAt([e2, e3], 2, e4) == [e2, e3, e4];
    assert InsertAt([e2, e3, e4], 2, e5) == [e2, e3, e5, e4];
  }

  /** An entry logged before another can come after it: after sizes 200, 100, 100, 80
      and 80 in a ring of 400 bytes the fourth entry follows the fifth, and a client
      that has seen the fourth is sent it again. */
  lemma OrderCanBreak(e1: LogEntry, e2: LogEntry, e3: LogEntry, e4: LogEntry, e5: LogEntry)
    requires Size(e1) == 200 && Size(e2) == 100 && Size(e3) == 100 && Size(e4) == 80 && Size(e5) == 80
    requires e1.id == 1 && e2.id == 2 && e3.id == 3 && e4.id == 4 && e5.id == 5
    ensures var r := Played([e1, e2, e3, e4, e5], SMALL);
      r.live == [e2, e3, e5, e4] && e4 in Query(r, 4, 5).entries
  {
    FirstThree(e1, e2, e3);
    TotalOfThree(e2, e3, e4);
    LastTwo(e1, e2, e3, e4, e5);
    PlayedAppend([e1, e2, e3], e4, SMALL);
    assert [e1, e2, e3] + [e4] == [e1, e2, e3, e4];
    PlayedAppend([e1, e2, e3, e4], e5, SMALL);
    assert [e1, e2, e3, e4] + [e5] == [e1, e2, e3, e4, e5];
    QueryAfterBreak(e2, e3, e5, e4);
  }

  lemma QueryAfterBreak(a: LogEntry, b: LogEntry, c: LogEntry, d: LogEntry)
    requires a.id == 2 && b.id == 3 && c.id == 5 && d.id == 4
    ensures d in Newer([a, b, c, d], 4)
  {
    assert [a, b, c, d][1..] == [b, c, d] && [b, c, d][1..] == [c, d];
    assert Newer([b, c, d], 4) == [c, d];
  }

  // ---------------------------------------------------------------- the budgets

  /** Before it is appended an entry is cut to sixteen kibibytes, or to the ring's own
      byte budget if that is smaller; one that fits is left alone. */
  lemma ClampedFits(e: LogEntry, l: Limits)
    requires |e.message| <= MAX_INT64
    ensures var budget := if l.MaxBytes() < 16384 then l.MaxBytes() else 16384;
      && (Size(e) <= budget ==> Clamped(e, l) == e)
      && (FrameBytes(e) + NOTICE_ROOM <= budget ==> Size(Clamped(e, l)) <= budget)
      && (Size(e) > budget && e.message != "" ==> Clamped(e, l) != e || FrameBytes(e) + NOTICE_ROOM > budget)
  {
    var budget := if l.MaxBytes() < 16384 then l.MaxBytes() else 16384;
    ClampMeetsItsLimit(e, budget);
    hide Clamp;
  }

  lemma PrefixTotal(es: seq<LogEntry>)
    requires es != []
    ensures Total(es) == Total(es[..|es| - 1]) + Size(es[|es| - 1])
  {
    var last := |es| - 1;
    assert es == es[..last] + [es[last]];
    TotalConcat(es[..last], [es[last]]);
    assert Sum([es[last]], 1) == Size(es[last]);
  }

  /** As long as everything fits both budgets nothing is dropped, and the entries are live
      in the order they were appended. */
  lemma {:induction false} NothingIsDroppedWithinBudgets(es: seq<LogEntry>, l: Limits)
    requires |es| <= l.MaxEntries() && Total(es) <= l.MaxBytes()
    ensures Played(es, l) == Ring(|es|, 0, es, 0, 0)
  {
    if es != [] {
      var earlier, e := es[..|es| - 1], es[|es| - 1];
      PrefixTotal(es);
      NothingIsDroppedWithinBudgets(earlier, l);
      hide Total, Size;
      var r := Played(earlier, l);
      assert MakeRoom(r, e, l) == r;
      assert InsertAt(earlier, |earlier|, e) == es;
    }
  }

  /** The budgets in figures, zero or less standing for the defaults. */
  function EntryBudget(l: Limits): nat { if l.entries <= 0 then 5000 else l.entries }
  function ByteBudget(l: Limits): nat { if l.bytes <= 0 then 2 * 1024 * 1024 else l.bytes }

  lemma BudgetsAre(l: Limits)
    ensures l.MaxEntries() == EntryBudget(l) && l.MaxBytes() == ByteBudget(l)
  {
  }

  /** Within the budgets everything stays; beyond them what is live is still within. */
  lemma RingsUseTheirBudgets(es: seq<LogEntry>, l: Limits)
    ensures |es| <= EntryBudget(l) && Total(es) <= ByteBudget(l) ==> Played(es, l).live == es
    ensures |Played(es, l).live| <= EntryBudget(l) && Total(Played(es, l).live) <= ByteBudget(l)
  {
    BudgetsAre(l);
    if |es| <= EntryBudget(l) && Total(es) <= ByteBudget(l) { NothingIsDroppedWithinBudgets(es, l); }
  }

  /** A query reports what the ring has lost and which entry came last. */
  lemma QueriesReportLosses(es: seq<LogEntry>, l: Limits, since: int, latestId: int)
    ensures var r, q := Played(es, l), Query(Played(es, l), since, latestId);
      && q.dropped == |es| - |r.live| && q.droppedBytes == Total(es) - Total(r.live) && q.latestId == latestId
      && q.oldestId == (if r.live == [] then 0 else r.live[0].id)
  {
    EveryEntryIsAccountedFor(es, l);
    hide Total, Newer, Played;
  }
}
