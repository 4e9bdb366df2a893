/** The log buffer: one numbering, one ring for everything and one per category. */
module LogBufferModel {
  import opened Text
  import opened LogEntries
  import opened LogRingModel
  import opened LogRingTheorems

  const ALL := "all"
  const APPLICATION := "application"
  const CATEGORY_LIMITS := Limits(2500, 1_048_576)

  function Norm(category: string): string { Lower(Trim(category)) }

  function Added(kept: seq<string>, category: string): seq<string> {
    if Norm(category) == "" || Norm(category) in kept then kept else kept + [Norm(category)]
  }

  function AddedAll(kept: seq<string>, categories: seq<string>): seq<string> {
    if categories == [] then kept
    else Added(AddedAll(kept, categories[..|categories| - 1]), categories[|categories| - 1])
  }

  /** "all" first, then the others once each; entries of no category are the
      application's. */
  function Normalize(categories: seq<string>): seq<string> {
    var kept := AddedAll([ALL], categories);
    if |kept| == 1 then kept + [APPLICATION] else kept
  }

  predicate Distinct(s: seq<string>) { forall i, j | 0 <= i < j < |s| :: s[i] != s[j] }

  lemma {:induction false} AddedAllFacts(categories: seq<string>)
    ensures var kept := AddedAll([ALL], categories);
      Distinct(kept) && |kept| > 0 && kept[0] == ALL
      && forall c :: c in kept <==> c == ALL || (c != "" && exists given | given in categories :: Norm(given) == c)
  {
    if categories != [] {
      AddedAllFacts(categories[..|categories| - 1]);
      assert categories == categories[..|categories| - 1] + [categories[|categories| - 1]];
    }
  }

  /** No category is listed twice, every entry is listed under "all" and one more. */
  lemma NormalizedCategories(categories: seq<string>)
    ensures var n := Normalize(categories);
      && Distinct(n) && |n| >= 2 && n[0] == ALL
      && (forall given | given in categories && Norm(given) != "" :: Norm(given) in n)
  {
    AddedAllFacts(categories);
    var kept := AddedAll([ALL], categories);
    if |kept| == 1 { assert kept == [ALL]; }
  }

  predicate IsNamed(c: string, categories: seq<string>) { exists g | g in categories :: Lower(Trim(g)) == c }

  /** An entry's categories are the names it was given, trimmed and in lower case, after
      "all"; given none, it is the application's. */
  lemma CategoriesAre(categories: seq<string>)
    ensures var n := Normalize(categories);
      var named := exists g | g in categories :: Lower(Trim(g)) != "" && Lower(Trim(g)) != "all";
      && n != [] && n[0] == "all"
      && (named ==> forall c :: c in n <==> c == "all" || (c != "" && IsNamed(c, categories)))
      && (!named ==> n == ["all", "application"])
  {
    AddedAllFacts(categories);
    NormalizedCategories(categories);
    var kept := AddedAll([ALL], categories);
    if |kept| == 1 {
      assert kept == [ALL];
      forall g | g in categories ensures Lower(Trim(g)) == "" || Lower(Trim(g)) == "all" {
        if Norm(g) != "" { assert Norm(g) in kept; }
      }
    } else {
      assert kept[1] in kept && kept[1] != ALL;
    }
    hide AddedAll, Lower, Trim, Distinct;
  }

  /** A category's ring keeps its last entries, up to two and a half thousand and one
      mebibyte. */
  lemma CategoryRingsUseTheirBudgets(history: seq<LogEntry>, c: string)
    ensures var es := ClampedAll(OfCategory(history, c), CATEGORY_LIMITS);
      var live := RingOf(OfCategory(history, c), CATEGORY_LIMITS).live;
      && |live| <= 2500 && Total(live) <= 1024 * 1024
      && (|es| <= 2500 && Total(es) <= 1024 * 1024 ==> live == es)
  {
    RingsUseTheirBudgets(ClampedAll(OfCategory(history, c), CATEGORY_LIMITS), CATEGORY_LIMITS);
    hide ClampedAll, OfCategory, Played, Total;
  }

  /** The entries a category's ring is given. */
  function OfCategory(history: seq<LogEntry>, c: string): seq<LogEntry> {
    if history == [] then []
    else
      OfCategory(history[..|history| - 1], c)
      + if c in history[|history| - 1].categories then [history[|history| - 1]] else []
  }

  function ClampedAll(es: seq<LogEntry>, l: Limits): seq<LogEntry> {
    if es == [] then [] else ClampedAll(es[..|es| - 1], l) + [Clamped(es[|es| - 1], l)]
  }

  function RingOf(es: seq<LogEntry>, l: Limits): (r: Ring)
    ensures WellFormed(r, l)
  {
    Played(ClampedAll(es, l), l)
  }

  lemma RingOfMore(es: seq<LogEntry>, e: LogEntry, l: Limits)
    ensures RingOf(es + [e], l) == Push(RingOf(es, l), Clamped(e, l), l)
  {
    assert (es + [e])[..|es|] == es;
    PlayedAppend(ClampedAll(es, l), Clamped(e, l), l);
  }

  /** Every ring is the ring of the entries that belong to it. */
  ghost predicate Routes(history: seq<LogEntry>, global: Ring, rings: map<string, Ring>, l: Limits) {
    global == RingOf(history, l) && AllRingsFor(history, rings)
  }

  ghost predicate AllRingsFor(history: seq<LogEntry>, rings: map<string, Ring>) {
    forall c | c != ALL :: RingFor(history, rings, c)
  }

  ghost predicate RingFor(history: seq<LogEntry>, rings: map<string, Ring>, c: string) {
    && (c in rings <==> OfCategory(history, c) != [])
    && (c in rings ==> rings[c] == RingOf(OfCategory(history, c), CATEGORY_LIMITS))
  }

  lemma {:induction false} FilterKeepsNumbers(history: seq<LogEntry>, c: string)
    requires Numbered(history)
    ensures Numbered(OfCategory(history, c))
    ensures forall e | e in OfCategory(history, c) :: e in history && c in e.categories
  {
    if history != [] {
      var earlier, last := history[..|history| - 1], history[|history| - 1];
      assert history == earlier + [last];
      FilterKeepsNumbers(earlier, c);
      assert forall e | e in OfCategory(earlier, c) :: e.id < last.id;
    }
  }

  lemma {:induction false} ClampKeepsNumbers(es: seq<LogEntry>, l: Limits)
    requires Numbered(es)
    ensures Numbered(ClampedAll(es, l)) && |ClampedAll(es, l)| == |es|
    ensures forall i | 0 <= i < |es| :: ClampedAll(es, l)[i].id == es[i].id
  {
    if es != [] { ClampKeepsNumbers(es[..|es| - 1], l); }
  }

  /** Each category's ring is fed entries in the order of their numbers, so the queue
      theorems apply to it. */
  lemma CategoryStreamsAreNumbered(history: seq<LogEntry>, c: string)
    requires Numbered(history)
    ensures Numbered(ClampedAll(OfCategory(history, c), CATEGORY_LIMITS))
  {
    FilterKeepsNumbers(history, c);
    ClampKeepsNumbers(OfCategory(history, c), CATEGORY_LIMITS);
  }
}

module LogBuffer {
  import opened Text
  import opened LogEntries
  import opened LogRingModel
  import opened LogRingTheorems
  import opened LogBufferModel

  class Buffer {
    var nextId: nat
    var globalRing: Ring
    var categoryRings: map<string, Ring>
    const limits: Limits
    ghost var history: seq<LogEntry> // the entries as appended

    constructor (limits: Limits)
      ensures this.limits == limits && Valid() && history == []
    {
      this.limits := limits;
      nextId, globalRing, categoryRings, history := 0, EMPTY_RING, map[], [];
    }

    ghost predicate Valid()
      reads this
    {
      && nextId == |history| && Consecutive(history)
      && Routes(history, globalRing, categoryRings, limits)
    }

    /** Numbers the entry and hands it to every ring it belongs to. */
    method AppendContext(draft: LogEntry) returns (entry: LogEntry)
      requires Valid()
      modifies this
      ensures Valid() && history == old(history) + [entry]
      ensures entry == Clamp(draft.(id := old(nextId) + 1, categories := Normalize(draft.categories)), MAX_ENTRY_BYTES)
    {
      entry := Numbering(draft, nextId + 1);
      Record(entry);
    }

    /** Hands the next entry to its rings. */
    method Record(entry: LogEntry)
      requires Valid() && entry.id == nextId + 1 && Distinct(entry.categories)
      modifies this
      ensures Valid() && history == old(history) + [entry]
    {
      hide RingOf;
      nextId := nextId + 1;
      AppendGlobal(entry);
      Route(entry);
      RoutesMore(history, entry, globalRing, categoryRings, limits);
      history := history + [entry];
    }

    method AppendGlobal(entry: LogEntry)
      requires globalRing == RingOf(history, limits)
      modifies this`globalRing
      ensures globalRing == RingOf(history + [entry], limits)
    {
      RingOfMore(history, entry, limits);
      globalRing := Push(globalRing, Clamped(entry, limits), limits);
    }

    method Numbering(draft: LogEntry, id: nat) returns (entry: LogEntry)
      ensures entry == Clamp(draft.(id := id, categories := Normalize(draft.categories)), MAX_ENTRY_BYTES)
      ensures entry.id == id && entry.categories == Normalize(draft.categories) && Distinct(entry.categories)
    {
      NormalizedCategories(draft.categories);
      entry := Clamp(draft.(id := id, categories := Normalize(draft.categories)), MAX_ENTRY_BYTES);
    }

    method Route(entry: LogEntry)
      requires Distinct(entry.categories)
      requires AllRingsFor(history, categoryRings)
      modifies this`categoryRings
      ensures AllRingsFor(history + [entry], categoryRings)
    {
      for n := 0 to |entry.categories|
        invariant Routed(history, history + [entry], categoryRings, entry.categories[..n])
      {
        var c := entry.categories[n];
        assert entry.categories[..n + 1] == entry.categories[..n] + [c];
        if c == ALL { continue; }
        assert c !in entry.categories[..n];
        assert RingFor(if c in entry.categories[..n] then history + [entry] else history, categoryRings, c);
        var ring := RoutedRing(entry, c);
        RouteStep(history, entry, categoryRings, entry.categories[..n], c, ring);
        categoryRings := categoryRings[c := ring];
      }
      assert entry.categories[..|entry.categories|] == entry.categories;
      AllRouted(history, entry, categoryRings);
    }

    /** The category's ring with the entry appended. */
    method RoutedRing(entry: LogEntry, c: string) returns (ring: Ring)
      requires c in entry.categories && RingFor(history, categoryRings, c)
      ensures ring == RingOf(OfCategory(history + [entry], c), CATEGORY_LIMITS)
    {
      OneMoreOf(history, entry, c);
      ring := if c in categoryRings then categoryRings[c] else EMPTY_RING;
      ring := Push(ring, Clamped(entry, CATEGORY_LIMITS), CATEGORY_LIMITS);
    }

    method CategoryQuery(category: string, since: int) returns (result: QueryResult)
      requires Valid()
      ensures var c := Norm(category);
        result == if c == "" || c == ALL then Query(RingOf(history, limits), since, |history|)
                  else if OfCategory(history, c) == [] then QueryResult([], 0, |history|, 0, 0, false)
                  else Query(RingOf(OfCategory(history, c), CATEGORY_LIMITS), since, |history|)
    {
      var c := Norm(category);
      if c == "" || c == ALL { return Query(globalRing, since, nextId); }
      assert RingFor(history, categoryRings, c);
      if c !in categoryRings { return QueryResult([], 0, nextId, 0, 0, false); }
      return Query(categoryRings[c], since, nextId);
    }
  }

  /** The categories seen so far have the entry, the others do not yet. */
  ghost predicate Routed(history: seq<LogEntry>, more: seq<LogEntry>, rings: map<string, Ring>, done: seq<string>) {
    forall c | c != ALL :: RingFor(if c in done then more else history, rings, c)
  }

  lemma RoutesMore(history: seq<LogEntry>, entry: LogEntry, global: Ring, rings: map<string, Ring>, l: Limits)
    requires global == RingOf(history + [entry], l)
    requires AllRingsFor(history + [entry], rings)
    ensures Routes(history + [entry], global, rings, l)
  {
  }

  lemma OtherRing(es: seq<LogEntry>, rings: map<string, Ring>, c: string, ring: Ring, d: string)
    requires d != c && RingFor(es, rings, d)
    ensures RingFor(es, rings[c := ring], d)
  {
  }

  lemma RouteStep(history: seq<LogEntry>, entry: LogEntry, rings: map<string, Ring>, done: seq<string>, c: string,
                  ring: Ring)
    requires Routed(history, history + [entry], rings, done) && c !in done && c != ALL && c in entry.categories
    requires ring == RingOf(OfCategory(history + [entry], c), CATEGORY_LIMITS)
    ensures Routed(history, history + [entry], rings[c := ring], done + [c])
  {
    forall d | d != ALL ensures RingFor(if d in done + [c] then history + [entry] else history, rings[c := ring], d) {
      if d == c {
        OneMoreOf(history, entry, c);
      } else {
        OtherRing(if d in done then history + [entry] else history, rings, c, ring, d);
      }
    }
  }

  lemma AllRouted(history: seq<LogEntry>, entry: LogEntry, rings: map<string, Ring>)
    requires Routed(history, history + [entry], rings, entry.categories)
    ensures AllRingsFor(history + [entry], rings)
  {
    forall c | c != ALL ensures RingFor(history + [entry], rings, c) {
      assert RingFor(if c in entry.categories then history + [entry] else history, rings, c);
      if c !in entry.categories { NoneOf(history, entry, c); }
    }
  }

  lemma NoneOf(history: seq<LogEntry>, entry: LogEntry, c: string)
    requires c !in entry.categories
    ensures OfCategory(history + [entry], c) == OfCategory(history, c)
  {
    assert (history + [entry])[..|history|] == history;
  }

  lemma OneMoreOf(history: seq<LogEntry>, entry: LogEntry, c: string)
    requires c in entry.categories
    ensures OfCategory(history + [entry], c) == OfCategory(history, c) + [entry]
    ensures RingOf(OfCategory(history + [entry], c), CATEGORY_LIMITS)
         == Push(RingOf(OfCategory(history, c), CATEGORY_LIMITS), Clamped(entry, CATEGORY_LIMITS), CATEGORY_LIMITS)
    ensures OfCategory(history, c) == [] ==> RingOf(OfCategory(history, c), CATEGORY_LIMITS) == EMPTY_RING
  {
    assert (history + [entry])[..|history|] == history;
    RingOfMore(OfCategory(history, c), entry, CATEGORY_LIMITS);
  }
}
