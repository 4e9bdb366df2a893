/** The circular log buffer with an entry budget and a byte budget. */
module LogRingModel {
  import opened LogEntries

  const DEFAULT_MAX_ENTRIES := 5000
  const DEFAULT_MAX_BYTES := 2_097_152

  /** The budgets of a ring; zero or less means the default. */
  datatype Limits = Limits(entries: int, bytes: int) {
    function MaxEntries(): (n: nat) ensures n > 0 { if entries <= 0 then DEFAULT_MAX_ENTRIES else entries }
    function MaxBytes(): (n: nat) ensures n > 0 { if bytes <= 0 then DEFAULT_MAX_BYTES else bytes }
  }

  /** A ring seen from outside: its slots, where the oldest entry sits, the live
      entries from the oldest on, and what was dropped. */
  datatype Ring = Ring(slots: nat, oldest: nat, live: seq<LogEntry>, dropped: nat, droppedBytes: nat)

  const EMPTY_RING := Ring(0, 0, [], 0, 0)

  /** The bytes of the first n entries. */
  function Sum(es: seq<LogEntry>, n: nat): nat
    requires n <= |es|
  {
    if n == 0 then 0 else Sum(es, n - 1) + Size(es[n - 1])
  }

  function Total(es: seq<LogEntry>): nat { Sum(es, |es|) }

  predicate WellFormed(r: Ring, l: Limits) {
    && |r.live| <= r.slots <= l.MaxEntries() && Total(r.live) <= l.MaxBytes()
    && (r.live == [] ==> r.oldest == 0) && (r.live != [] ==> r.oldest < r.slots)
  }

  function DropOldest(r: Ring): Ring
    requires r.live != []
  {
    Ring(r.slots, if |r.live| == 1 || r.oldest + 1 == r.slots then 0 else r.oldest + 1, r.live[1..], r.dropped + 1,
         r.droppedBytes + Size(r.live[0]))
  }

  predicate Crowded(r: Ring, e: LogEntry, l: Limits) {
    r.live != [] && (|r.live| >= l.MaxEntries() || Total(r.live) + Size(e) > l.MaxBytes())
  }

  function MakeRoom(r: Ring, e: LogEntry, l: Limits): Ring
    decreases |r.live|
  {
    if Crowded(r, e, l) then MakeRoom(DropOldest(r), e, l) else r
  }

  function InsertAt(es: seq<LogEntry>, at: nat, e: LogEntry): seq<LogEntry>
    requires at <= |es|
  {
    es[..at] + [e] + es[at..]
  }

  /** Where a new entry ends up among the live ones. A full ring below its entry budget
      grows at its physical end, which is the end of the queue only when the oldest
      entry sits in the first slot. */
  function Position(r: Ring): (at: nat)
    requires r.oldest <= r.slots && |r.live| <= r.slots
    ensures at <= |r.live|
  {
    if |r.live| < r.slots then |r.live| else r.slots - r.oldest
  }

  function Place(r: Ring, e: LogEntry, l: Limits): Ring
    requires r.oldest <= r.slots && |r.live| <= r.slots
  {
    if Size(e) > l.MaxBytes() then r.(dropped := r.dropped + 1, droppedBytes := r.droppedBytes + Size(e))
    else r.(slots := if |r.live| < r.slots then r.slots else r.slots + 1, live := InsertAt(r.live, Position(r), e))
  }

  lemma {:induction false} SumConcat(a: seq<LogEntry>, b: seq<LogEntry>, n: nat)
    requires n <= |b|
    ensures Sum(a + b, |a| + n) == Sum(a, |a|) + Sum(b, n)
  {
    if n == 0 { SumPrefix(a, a + b, |a|); } else { SumConcat(a, b, n - 1); }
  }

  lemma {:induction false} SumPrefix(a: seq<LogEntry>, b: seq<LogEntry>, n: nat)
    requires n <= |a| && n <= |b| && forall i | 0 <= i < n :: a[i] == b[i]
    ensures Sum(a, n) == Sum(b, n)
  {
    if n > 0 { SumPrefix(a, b, n - 1); }
  }

  lemma TotalConcat(a: seq<LogEntry>, b: seq<LogEntry>)
    ensures Total(a + b) == Total(a) + Total(b)
  {
    SumConcat(a, b, |b|);
  }

  lemma TotalFront(es: seq<LogEntry>)
    requires es != []
    ensures Total(es) == Size(es[0]) + Total(es[1..])
  {
    TotalConcat(es[..1], es[1..]);
    assert es == es[..1] + es[1..];
    assert Sum(es[..1], 1) == Size(es[0]);
  }

  lemma DropKeepsWellFormed(r: Ring, l: Limits)
    requires WellFormed(r, l) && r.live != []
    ensures WellFormed(DropOldest(r), l)
    ensures Total(r.live) == Total(DropOldest(r).live) + Size(r.live[0])
  {
    TotalFront(r.live);
  }

  lemma {:induction false} RoomIsWellFormed(r: Ring, e: LogEntry, l: Limits)
    requires WellFormed(r, l)
    ensures WellFormed(MakeRoom(r, e, l), l) && !Crowded(MakeRoom(r, e, l), e, l)
    ensures MakeRoom(r, e, l).slots == r.slots && |MakeRoom(r, e, l).live| <= |r.live|
    ensures MakeRoom(r, e, l).live == r.live[|r.live| - |MakeRoom(r, e, l).live|..]
    decreases |r.live|
  {
    hide Total, Size;
    if Crowded(r, e, l) {
      var rest := DropOldest(r);
      DropKeepsWellFormed(r, l);
      RoomIsWellFormed(rest, e, l);
      SuffixOfRest(r.live, |MakeRoom(rest, e, l).live|);
      assert MakeRoom(r, e, l) == MakeRoom(rest, e, l);
      hide WellFormed, Crowded, MakeRoom;
    }
  }

  lemma SuffixOfRest(es: seq<LogEntry>, n: nat)
    requires n < |es|
    ensures es[1..][|es[1..]| - n..] == es[|es| - n..]
  {
  }

  function Push(r: Ring, e: LogEntry, l: Limits): (p: Ring)
    requires WellFormed(r, l)
    ensures WellFormed(p, l)
  {
    RoomIsWellFormed(r, e, l);
    var m := MakeRoom(r, e, l);
    PlaceKeepsWellFormed(m, e, l);
    Place(m, e, l)
  }

  lemma TotalInsert(es: seq<LogEntry>, at: nat, e: LogEntry)
    requires at <= |es|
    ensures Total(InsertAt(es, at, e)) == Total(es) + Size(e)
  {
    TotalConcat(es[..at], [e]);
    TotalConcat(es[..at] + [e], es[at..]);
    TotalConcat(es[..at], es[at..]);
    assert es == es[..at] + es[at..];
    assert Sum([e], 1) == Size(e);
  }

  lemma PlaceKeepsWellFormed(m: Ring, e: LogEntry, l: Limits)
    requires WellFormed(m, l) && !Crowded(m, e, l)
    ensures WellFormed(Place(m, e, l), l)
    ensures Size(e) <= l.MaxBytes() ==> Total(InsertAt(m.live, Position(m), e)) == Total(m.live) + Size(e)
  {
    TotalInsert(m.live, Position(m), e);
  }

  /** Entries are clamped to the ring's own byte budget first. */
  function Clamped(e: LogEntry, l: Limits): LogEntry {
    Clamp(e, if l.MaxBytes() < MAX_ENTRY_BYTES then l.MaxBytes() else MAX_ENTRY_BYTES)
  }

  // ---------------------------------------------------------------- queries

  datatype QueryResult = QueryResult(entries: seq<LogEntry>, oldestId: int, latestId: int, dropped: nat,
                                     droppedBytes: nat, gap: bool)

  /** The entries from the first one newer than `since`; zero asks for everything. */
  function Newer(live: seq<LogEntry>, since: int): seq<LogEntry> {
    if since > 0 && live != [] && live[0].id <= since then Newer(live[1..], since) else live
  }

  function Query(r: Ring, since: int, latestId: int): QueryResult {
    var oldestId := if r.live == [] then 0 else r.live[0].id;
    QueryResult(Newer(r.live, since), oldestId, latestId, r.dropped, r.droppedBytes,
                since > 0 && oldestId > 0 && since < oldestId - 1)
  }
}

module LogRing {
  import opened LogEntries
  import opened LogRingModel

  class EntryRing {
    var entries: seq<LogEntry>
    var oldestIndex: nat
    var entryCount: nat
    var totalBytes: int
    var droppedCount: nat
    var droppedBytes: nat
    const limits: Limits
    ghost var live: seq<LogEntry> // the live entries, oldest first

    constructor (limits: Limits)
      ensures this.limits == limits && Valid() && View() == EMPTY_RING
    {
      this.limits := limits;
      entries, oldestIndex, entryCount, totalBytes, droppedCount, droppedBytes, live := [], 0, 0, 0, 0, 0, [];
    }

    ghost function View(): Ring
      reads this
    {
      Ring(|entries|, oldestIndex, live, droppedCount, droppedBytes)
    }

    ghost predicate Valid()
      reads this
    {
      && entryCount == |live| && Laid(entries, oldestIndex, live)
      && WellFormed(View(), limits) && totalBytes == Total(live)
    }

    method DropOldestEntry()
      requires Valid()
      modifies this
      ensures Valid() && View() == if old(live) == [] then old(View()) else DropOldest(old(View()))
    {
      if entryCount == 0 || |entries| == 0 { return; }
      DropKeepsWellFormed(View(), limits);
      RestLaid(entries, oldestIndex, live);
      var bytes := EntrySize(entries[oldestIndex]);
      Shift(bytes);
    }

    /** Blanks the oldest slot and moves on to the next. */
    method Shift(bytes: nat)
      requires Valid() && live != [] && Total(live) == Total(live[1..]) + bytes
      requires WellFormed(Ring(|entries|, if |live| == 1 || oldestIndex + 1 == |entries| then 0 else oldestIndex + 1,
                               live[1..],
                               droppedCount + 1, droppedBytes + bytes), limits)
      modifies this
      ensures Valid() && View()
        == Ring(old(|entries|),
                if |old(live)| == 1 || old(oldestIndex) + 1 == old(|entries|) then 0 else old(oldestIndex) + 1,
                                        old(live)[1..], old(droppedCount) + 1, old(droppedBytes) + bytes)
    {
      RestLaid(entries, oldestIndex, live);
      entries := entries[oldestIndex := BLANK];
      oldestIndex := WrapAround(oldestIndex, 1, |entries|);
      entryCount, live := entryCount - 1, live[1..];
      totalBytes := if totalBytes - bytes < 0 then 0 else totalBytes - bytes;
      droppedCount, droppedBytes := droppedCount + 1, droppedBytes + bytes;
      if entryCount == 0 { oldestIndex := 0; }
    }

    /** Makes room by dropping the oldest entries, then writes or grows. */
    method Append(logged: LogEntry)
      requires Valid()
      modifies this
      ensures Valid() && View() == Push(old(View()), Clamped(logged, limits), limits)
    {
      var maxBytes := limits.MaxBytes();
      var e := Clamp(logged, if maxBytes < MAX_ENTRY_BYTES then maxBytes else MAX_ENTRY_BYTES);
      var bytes := EntrySize(e);
      DropUntilFits(e, bytes);
      PlaceKeepsWellFormed(View(), e, limits);
      Insert(e, bytes);
    }

    method DropUntilFits(e: LogEntry, bytes: nat)
      requires Valid() && bytes == Size(e)
      modifies this
      ensures Valid() && View() == MakeRoom(old(View()), e, limits) && !Crowded(View(), e, limits)
    {
      var maxEntries, maxBytes := limits.MaxEntries(), limits.MaxBytes();
      ghost var start := View();
      while entryCount > 0 && (entryCount >= maxEntries || totalBytes + bytes > maxBytes)
        invariant Valid() && MakeRoom(View(), e, limits) == MakeRoom(start, e, limits)
        decreases entryCount
      {
        assert Crowded(View(), e, limits);
        DropOldestEntry();
      }
    }

    method Insert(e: LogEntry, bytes: nat)
      requires Valid() && bytes == Size(e) && !Crowded(View(), e, limits)
      requires WellFormed(Place(View(), e, limits), limits)
      requires bytes <= limits.MaxBytes() ==> Total(InsertAt(live, Position(View()), e)) == totalBytes + bytes
      modifies this
      ensures Valid() && View() == Place(old(View()), e, limits)
    {
      if bytes > limits.MaxBytes() {
        droppedCount, droppedBytes := droppedCount + 1, droppedBytes + bytes;
      } else if entryCount < |entries| {
        Overwrite(e, bytes);
      } else if |entries| < limits.MaxEntries() {
        Grow(e, bytes);
      } else {
        assert false;
      }
    }

    /** Writes into the free slot after the newest entry. */
    method Overwrite(e: LogEntry, bytes: nat)
      requires Valid() && entryCount < |entries| && Total(InsertAt(live, |live|, e)) == totalBytes + bytes
      requires WellFormed(Ring(|entries|, oldestIndex, InsertAt(live, |live|, e), droppedCount, droppedBytes), limits)
      modifies this
      ensures Valid() && View() == old(View()).(live := InsertAt(old(live), |old(live)|, e))
    {
      WriteLaid(entries, oldestIndex, live, e);
      var at := WrapAround(oldestIndex, entryCount, |entries|);
      entries := entries[at := e];
      entryCount, totalBytes, live := entryCount + 1, totalBytes + bytes, InsertAt(live, |live|, e);
    }

    /** Adds a slot at the physical end. */
    method Grow(e: LogEntry, bytes: nat)
      requires Valid() && entryCount == |entries|
        && Total(InsertAt(live, |entries| - oldestIndex, e)) == totalBytes + bytes
      requires WellFormed(Ring(|entries| + 1, oldestIndex, InsertAt(live, |entries| - oldestIndex, e), droppedCount,
                               droppedBytes), limits)
      modifies this
      ensures Valid() && View()
        == old(View()).(slots := old(|entries|) + 1, live := InsertAt(old(live), old(|entries| - oldestIndex), e))
    {
      GrowLaid(entries, oldestIndex, live, e);
      live := InsertAt(live, |entries| - oldestIndex, e);
      entries := entries + [e];
      entryCount, totalBytes := entryCount + 1, totalBytes + bytes;
    }

    method EntriesInOrder() returns (ordered: seq<LogEntry>)
      requires Valid()
      ensures ordered == live
    {
      ordered := [];
      if entryCount == 0 || |entries| == 0 { return; }
      for offset := 0 to entryCount
        invariant ordered == live[..offset]
      {
        var at := WrapAround(oldestIndex, offset, |entries|);
        ordered := ordered + [entries[at]];
      }
    }

    method QueryEntries(since: int, latestId: int) returns (result: QueryResult)
      requires Valid()
      ensures result == Query(View(), since, latestId)
    {
      var ordered := EntriesInOrder();
      var oldestId := 0;
      if |ordered| > 0 { oldestId := ordered[0].id; }
      var first := 0;
      if since > 0 {
        while first < |ordered| && ordered[first].id <= since
          invariant first <= |ordered| && Newer(ordered[first..], since) == Newer(ordered, since)
        {
          assert ordered[first..][1..] == ordered[first + 1..];
          first := first + 1;
        }
      }
      return QueryResult(ordered[first..], oldestId, latestId, droppedCount, droppedBytes,
                         since > 0 && oldestId > 0 && since < oldestId - 1);
    }
  }

  // ---------------------------------------------------------------- circular indexing

  /** The slot `i` places after the oldest one. */
  function Slot(oldest: nat, i: nat, n: nat): int { if oldest + i < n then oldest + i else oldest + i - n }

  method WrapAround(oldest: nat, i: nat, n: nat) returns (at: nat)
    requires oldest < n && i <= n
    ensures at == Slot(oldest, i, n) && at < n
  {
    at := (oldest + i) % n;
  }

  /** The entries lie in the slots from the oldest on, wrapping around. */
  ghost predicate Laid(entries: seq<LogEntry>, oldest: nat, live: seq<LogEntry>) {
    && |live| <= |entries| && (live != [] ==> oldest < |entries|)
    && forall i: nat | i < |live| :: live[i] == entries[Slot(oldest, i, |entries|)]
  }

  lemma RestLaid(entries: seq<LogEntry>, oldest: nat, live: seq<LogEntry>)
    requires Laid(entries, oldest, live) && live != []
    ensures Laid(entries[oldest := BLANK], if |live| == 1 then 0 else Slot(oldest, 1, |entries|), live[1..])
    ensures live[0] == entries[oldest]
  {
    var n, next, rest := |entries|, Slot(oldest, 1, |entries|), live[1..];
    assert Slot(oldest, 0, n) == oldest;
    forall i: nat | i < |rest| ensures rest[i] == entries[oldest := BLANK][Slot(next, i, n)] {
      assert live[i + 1] == entries[Slot(oldest, i + 1, n)];
      assert Slot(next, i, n) == Slot(oldest, i + 1, n);
    }
  }

  lemma WriteLaid(entries: seq<LogEntry>, oldest: nat, live: seq<LogEntry>, e: LogEntry)
    requires Laid(entries, oldest, live) && |live| < |entries| && oldest < |entries|
    ensures Laid(entries[Slot(oldest, |live|, |entries|) := e], oldest, InsertAt(live, |live|, e))
  {
  }

  lemma GrowLaid(entries: seq<LogEntry>, oldest: nat, live: seq<LogEntry>, e: LogEntry)
    requires Laid(entries, oldest, live) && |live| == |entries| && (live == [] ==> oldest == 0)
    ensures Laid(entries + [e], oldest, InsertAt(live, |entries| - oldest, e))
  {
    var n, at := |entries|, |entries| - oldest;
    var grown, slots := InsertAt(live, at, e), entries + [e];
    forall i: nat | i < n + 1 ensures grown[i] == slots[Slot(oldest, i, n + 1)] {
      if i < at {
        assert live[i] == entries[Slot(oldest, i, n)];
      } else if i > at {
        assert grown[i] == live[i - 1] && live[i - 1] == entries[Slot(oldest, i - 1, n)];
      }
    }
  }
}
