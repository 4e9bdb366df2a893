/** Reading the Store CLI's aggregate update listing, line by classified line. */
module StoreCliParse {
  import opened Text

  /** What a trimmed output line was recognised as. Values are trimmed and not empty,
      except that an update ID that names no package family carries "". */
  datatype Line =
    | Blank | NoUpdatesFound | Hint(count: nat) | Failure | Noise
    | ProductIdLine(value: string) | PfnLine(value: string) | UpdateIdLine(pfn: string) | VersionLine(value: string)
    | StatusLine(inapplicable: bool) | OtherField | InapplicableLine | Unrecognized

  datatype Offer = Offer(productId: string, pfn: string, version: string, inapplicable: bool)

  /** The record being read: an offer in the making, and how many conflicts it has. */
  datatype Record = Record(offer: Offer, conflicts: nat) {
    predicate HasAny() {
      offer.productId != "" || offer.pfn != "" || offer.version != "" || offer.inapplicable || conflicts > 0
    }
    predicate Complete() { offer.productId != "" && offer.pfn != "" }
    predicate StartsNextProduct(value: string) {
      Complete() && Trim(value) != "" && !EqualFold(offer.productId, Trim(value))
    }
    predicate StartsNextPfn(value: string) { Complete() && Trim(value) != "" && !EqualFold(offer.pfn, Trim(value)) }
  }

  const NEW_RECORD := Record(Offer("", "", "", false), 0)

  datatype State = State(offers: seq<Offer>, current: Record, noUpdates: bool, hint: bool, expected: nat,
                         failures: nat, malformed: nat, unrecognized: nat)

  const START := State([], NEW_RECORD, false, false, 0, 0, 0, 0)

  /** Ends the record: a whole one without conflicts is an offer, anything else that was
      begun is malformed. */
  function Flush(st: State): State {
    var r := st.current;
    if !r.HasAny() then st.(current := NEW_RECORD)
    else if r.Complete() && r.conflicts == 0 then st.(offers := st.offers + [r.offer], current := NEW_RECORD)
    else st.(malformed := st.malformed + r.conflicts + (if r.Complete() then 0 else 1), current := NEW_RECORD)
  }

  /** Sets a field, or counts a conflict with the value it has. */
  function SetField(st: State, present: string, value: string, offer: Offer): State {
    if Trim(value) == "" then st
    else if present != "" && !EqualFold(present, Trim(value)) then
      st.(current := st.current.(conflicts := st.current.conflicts + 1), malformed := st.malformed + 1)
    else st.(current := st.current.(offer := offer))
  }

  function SetProductId(st: State, value: string): State {
    var next := if st.current.StartsNextProduct(value) then Flush(st) else st;
    SetField(next, next.current.offer.productId, value, next.current.offer.(productId := Trim(value)))
  }

  function SetPfn(st: State, value: string): State {
    var next := if st.current.StartsNextPfn(value) then Flush(st) else st;
    SetField(next, next.current.offer.pfn, value, next.current.offer.(pfn := Trim(value)))
  }

  function Inapplicable(st: State): State {
    st.(current := st.current.(offer := st.current.offer.(inapplicable := true)))
  }

  function Step(st: State, line: Line): State {
    match line
    case Blank => Flush(st)
    case NoUpdatesFound => st.(noUpdates := true)
    case Hint(count) =>
      var next := if st.current.HasAny() then Flush(st) else st;
      next.(hint := true, expected := if count > next.expected then count else next.expected)
    case Failure => st.(failures := st.failures + 1)
    case Noise => st
    case ProductIdLine(value) => SetProductId(st, value)
    case PfnLine(value) => SetPfn(st, value)
    case UpdateIdLine(pfn) => if pfn == "" then st else SetPfn(st, pfn)
    case VersionLine(value) => SetField(st, st.current.offer.version, value, st.current.offer.(version := Trim(value)))
    case StatusLine(inapplicable) => if inapplicable then Inapplicable(st) else st
    case OtherField => st
    case InapplicableLine =>
      if st.current.offer.pfn != "" || st.current.offer.productId != "" then Inapplicable(st)
      else st.(unrecognized := st.unrecognized + 1)
    case Unrecognized => st.(unrecognized := st.unrecognized + 1)
  }

  function Steps(lines: seq<Line>): State {
    if lines == [] then START else Step(Steps(lines[..|lines| - 1]), lines[|lines| - 1])
  }

  /** The listing as read: its offers, whether it covers every installed package, and
      whether it was in error. */
  datatype Parsed = Parsed(st: State, complete: bool, failed: bool)

  predicate Contradictory(st: State) { st.noUpdates && (st.offers != [] || st.hint) }

  function Conclude(st: State): Parsed {
    var clean := !Contradictory(st) && st.failures == 0 && !(st.expected > 0 && |st.offers| < st.expected)
                 && st.malformed == 0 && st.unrecognized == 0;
    var complete := clean && (st.noUpdates || st.offers != []);
    Parsed(st, complete, !complete)
  }

  function Parse(lines: seq<Line>): Parsed { Conclude(Flush(Steps(lines))) }

  method ParseUpdates(lines: seq<Line>) returns (parsed: Parsed)
    ensures parsed == Parse(lines)
  {
    var st := START;
    for n := 0 to |lines|
      invariant st == Steps(lines[..n])
    {
      assert lines[..n + 1][..n] == lines[..n];
      st := Step(st, lines[n]);
    }
    assert lines[..|lines|] == lines;
    st := Flush(st);
    var problems := 0;
    if Contradictory(st) { problems := problems + 1; }
    if st.failures > 0 { problems := problems + 1; }
    if st.expected > 0 && |st.offers| < st.expected { problems := problems + 1; }
    if st.malformed > 0 { problems := problems + 1; }
    if st.unrecognized > 0 { problems := problems + 1; }
    if problems == 0 {
      if st.noUpdates { return Parsed(st, true, false); }
      if |st.offers| > 0 { return Parsed(st, true, false); }
    }
    return Parsed(st, false, true);
  }

  // ---------------------------------------------------------------- what complete coverage means

  predicate NamesProduct(o: Offer, v: string) { EqualFold(o.productId, Trim(v)) }
  predicate NamesPfn(o: Offer, v: string) { EqualFold(o.pfn, Trim(v)) }

  ghost predicate ProductKept(st: State, v: string) {
    NamesProduct(st.current.offer, v) || exists o | o in st.offers :: NamesProduct(o, v)
  }

  ghost predicate PfnKept(st: State, v: string) {
    NamesPfn(st.current.offer, v) || exists o | o in st.offers :: NamesPfn(o, v)
  }

  function PfnOf(line: Line): string {
    if line.PfnLine? then line.value else if line.UpdateIdLine? then line.pfn else ""
  }

  /** Until something is malformed, every identifier read is in an offer or in the
      record being read. */
  ghost predicate NothingLost(lines: seq<Line>, st: State) {
    && (st.current.conflicts > 0 ==> st.malformed > 0)
    && (forall o | o in st.offers :: o.pfn != "" && o.productId != "")
    && (st.malformed == 0 ==>
          && (forall l | l in lines && l.ProductIdLine? && Trim(l.value) != "" :: ProductKept(st, l.value))
          && (forall l | l in lines && Trim(PfnOf(l)) != "" :: PfnKept(st, PfnOf(l))))
  }

  ghost predicate Recorded(lines: seq<Line>, st: State) {
    && (st.noUpdates <==> NoUpdatesFound in lines)
    && (st.hint <==> exists l | l in lines :: l.Hint?)
    && (forall l | l in lines && l.Hint? :: l.count <= st.expected)
    && (st.expected > 0 ==> exists l | l in lines :: l.Hint? && l.count == st.expected)
    && (st.failures == 0 <==> Failure !in lines)
    && (Unrecognized in lines ==> st.unrecognized > 0)
  }

  lemma FlushKeeps(lines: seq<Line>, st: State)
    requires NothingLost(lines, st)
    ensures NothingLost(lines, Flush(st))
    ensures Recorded(lines, st) ==> Recorded(lines, Flush(st))
  {
    var next := Flush(st);
    if next.malformed == 0 {
      EmptyNames(st.current.offer, next.current.offer);
      if next.offers != st.offers {
        assert next.offers == st.offers + [st.current.offer] && st.current.offer in next.offers;
      }
      forall l | l in lines && l.ProductIdLine? && Trim(l.value) != "" ensures ProductKept(next, l.value) {
        assert ProductKept(st, l.value);
        if NamesProduct(st.current.offer, l.value) { FoldEmpty(st.current.offer.productId, Trim(l.value)); }
      }
      forall l | l in lines && Trim(PfnOf(l)) != "" ensures PfnKept(next, PfnOf(l)) {
        assert PfnKept(st, PfnOf(l));
        if NamesPfn(st.current.offer, PfnOf(l)) { FoldEmpty(st.current.offer.pfn, Trim(PfnOf(l))); }
      }
    }
  }

  lemma EmptyNames(a: Offer, b: Offer)
    ensures b == NEW_RECORD.offer ==> forall v :: Trim(v) != "" ==> !NamesProduct(b, v) && !NamesPfn(b, v)
  {
    forall v | Trim(v) != ""
      ensures b == NEW_RECORD.offer ==> !NamesProduct(b, v) && !NamesPfn(b, v)
    {
      FoldEmpty("", Trim(v));
    }
  }

  lemma FoldEmpty(a: string, b: string)
    ensures EqualFold(a, b) ==> (a == "" <==> b == "")
  {
    assert |Lower(a)| == |a| && |Lower(b)| == |b|;
  }

  lemma SetProductKeeps(lines: seq<Line>, st: State, value: string)
    requires NothingLost(lines, st)
    ensures var next := SetField(st, st.current.offer.productId, value, st.current.offer.(productId := Trim(value)));
      NothingLost(lines, next) && (next.malformed == 0 && Trim(value) != "" ==> ProductKept(next, value))
  {
    var next := SetField(st, st.current.offer.productId, value, st.current.offer.(productId := Trim(value)));
    if next.malformed == 0 {
      forall l | l in lines && l.ProductIdLine? && Trim(l.value) != "" ensures ProductKept(next, l.value) {
        assert ProductKept(st, l.value);
        if NamesProduct(st.current.offer, l.value) { FoldEmpty(st.current.offer.productId, Trim(l.value)); }
      }
      forall l | l in lines && Trim(PfnOf(l)) != "" ensures PfnKept(next, PfnOf(l)) { assert PfnKept(st, PfnOf(l)); }
    }
  }

  lemma SetPfnKeeps(lines: seq<Line>, st: State, value: string)
    requires NothingLost(lines, st)
    ensures var next := SetField(st, st.current.offer.pfn, value, st.current.offer.(pfn := Trim(value)));
      NothingLost(lines, next) && (next.malformed == 0 && Trim(value) != "" ==> PfnKept(next, value))
  {
    var next := SetField(st, st.current.offer.pfn, value, st.current.offer.(pfn := Trim(value)));
    if next.malformed == 0 {
      forall l | l in lines && l.ProductIdLine? && Trim(l.value) != ""
        ensures ProductKept(next, l.value)
      {
        assert ProductKept(st, l.value);
      }
      forall l | l in lines && Trim(PfnOf(l)) != "" ensures PfnKept(next, PfnOf(l)) {
        assert PfnKept(st, PfnOf(l));
        if NamesPfn(st.current.offer, PfnOf(l)) { FoldEmpty(st.current.offer.pfn, Trim(PfnOf(l))); }
      }
    }
  }

  /** A step that leaves the offers' and the record's identifiers alone. */
  lemma OtherKeeps(lines: seq<Line>, st: State, next: State)
    requires NothingLost(lines, st) && next.offers == st.offers && next.malformed >= st.malformed
    requires next.current.offer.productId == st.current.offer.productId
      && next.current.offer.pfn == st.current.offer.pfn
    requires next.current.conflicts > 0 ==> next.malformed > 0
    ensures NothingLost(lines, next)
  {
    if next.malformed == 0 {
      forall l | l in lines && l.ProductIdLine? && Trim(l.value) != ""
        ensures ProductKept(next, l.value)
      {
        assert ProductKept(st, l.value);
      }
      forall l | l in lines && Trim(PfnOf(l)) != "" ensures PfnKept(next, PfnOf(l)) { assert PfnKept(st, PfnOf(l)); }
    }
  }

  /** The identifier a line names is kept as well. */
  ghost predicate KeepsNext(lines: seq<Line>, line: Line, next: State) {
    && NothingLost(lines, next)
    && (next.malformed == 0 && line.ProductIdLine? && Trim(line.value) != "" ==> ProductKept(next, line.value))
    && (next.malformed == 0 && Trim(PfnOf(line)) != "" ==> PfnKept(next, PfnOf(line)))
  }

  lemma ProductStepKeeps(lines: seq<Line>, st: State, line: Line)
    requires NothingLost(lines, st) && line.ProductIdLine?
    ensures KeepsNext(lines, line, SetProductId(st, line.value))
  {
    FlushKeeps(lines, st);
    SetProductKeeps(lines, if st.current.StartsNextProduct(line.value) then Flush(st) else st, line.value);
    hide NothingLost, Flush, SetField, ProductKept;
  }

  lemma PfnStepKeeps(lines: seq<Line>, st: State, line: Line)
    requires NothingLost(lines, st) && !line.ProductIdLine?
    ensures KeepsNext(lines, line, SetPfn(st, PfnOf(line)))
  {
    FlushKeeps(lines, st);
    SetPfnKeeps(lines, if st.current.StartsNextPfn(PfnOf(line)) then Flush(st) else st, PfnOf(line));
    hide NothingLost, Flush, SetField, PfnKept;
  }

  lemma HintStepKeeps(lines: seq<Line>, st: State, line: Line)
    requires NothingLost(lines, st) && line.Hint?
    ensures KeepsNext(lines, line, Step(st, line))
  {
    hide NothingLost, Flush;
    FlushKeeps(lines, st);
    OtherKeeps(lines, if st.current.HasAny() then Flush(st) else st, Step(st, line));
  }

  /** Lines that neither name an identifier nor end a record. */
  predicate Minor(line: Line) {
    !line.ProductIdLine? && !line.PfnLine? && !line.UpdateIdLine? && !line.Hint? && line != Blank
  }

  lemma MinorStep(st: State, line: Line)
    requires Minor(line) && (st.current.conflicts > 0 ==> st.malformed > 0)
    ensures var next := Step(st, line);
      && next.offers == st.offers && next.malformed >= st.malformed
            && (next.current.conflicts > 0 ==> next.malformed > 0)
      && next.current.offer.productId == st.current.offer.productId && next.current.offer.pfn == st.current.offer.pfn
  {
    hide Flush, Trim;
  }

  lemma MinorStepKeeps(lines: seq<Line>, st: State, line: Line)
    requires NothingLost(lines, st) && Minor(line)
    ensures KeepsNext(lines, line, Step(st, line))
  {
    MinorStep(st, line);
    OtherKeeps(lines, st, Step(st, line));
    assert Trim("") == "";
    hide Step, NothingLost, Trim;
  }

  lemma StepKeeps(lines: seq<Line>, st: State, line: Line)
    requires NothingLost(lines, st)
    ensures KeepsNext(lines, line, Step(st, line))
  {
    hide NothingLost, SetProductId, SetPfn, Flush;
    match line {
      case ProductIdLine(_) => ProductStepKeeps(lines, st, line);
      case PfnLine(_) => PfnStepKeeps(lines, st, line);
      case UpdateIdLine(pfn) => if pfn != "" { PfnStepKeeps(lines, st, line); } else { assert Trim("") == ""; }
      case Hint(_) => HintStepKeeps(lines, st, line);
      case Blank => FlushKeeps(lines, st);
      case _ => MinorStepKeeps(lines, st, line);
    }
  }

  predicate SameFlags(a: State, b: State) {
    a.noUpdates == b.noUpdates && a.hint == b.hint && a.expected == b.expected && a.failures == b.failures
        && a.unrecognized <= b.unrecognized
  }

  /** Reading a field changes no flag. */
  lemma FieldFlags(st: State, value: string)
    ensures SameFlags(st, Flush(st)) && SameFlags(st, SetProductId(st, value)) && SameFlags(st, SetPfn(st, value))
    ensures SameFlags(st, SetField(st, st.current.offer.version, value, st.current.offer.(version := Trim(value))))
  {
    hide Trim;
  }

  /** What a line says by itself. */
  function Flagged(st: State, line: Line): State {
    match line
    case NoUpdatesFound => st.(noUpdates := true)
    case Failure => st.(failures := st.failures + 1)
    case Hint(count) => st.(hint := true, expected := if count > st.expected then count else st.expected)
    case _ => st
  }

  lemma StepFlags(st: State, line: Line)
    ensures SameFlags(Flagged(st, line), Step(st, line)) && (line == Unrecognized ==> Step(st, line).unrecognized > 0)
  {
    FieldFlags(st, if line.ProductIdLine? || line.VersionLine? then line.value else PfnOf(line));
    hide Flush, SetProductId, SetPfn, SetField, Trim;
  }

  lemma StepRecords(lines: seq<Line>, st: State, line: Line)
    requires Recorded(lines, st)
    ensures Recorded(lines + [line], Step(st, line))
  {
    StepFlags(st, line);
    RecordsMore(lines, st, line, Step(st, line));
  }

  lemma RecordsMore(lines: seq<Line>, st: State, line: Line, next: State)
    requires Recorded(lines, st)
    requires SameFlags(Flagged(st, line), next) && (line == Unrecognized ==> next.unrecognized > 0)
    ensures Recorded(lines + [line], next)
  {
    var more := lines + [line];
    assert forall l :: l in more <==> l in lines || l == line;
    if line.Hint? {
      assert line in more;
      if next.expected > 0 && next.expected != line.count {
        var l :| l in lines && l.Hint? && l.count == st.expected;
        assert l in more;
      }
    } else if st.expected > 0 {
      var l :| l in lines && l.Hint? && l.count == st.expected;
      assert l in more;
    }
  }

  lemma {:induction false} StepsFacts(lines: seq<Line>)
    ensures NothingLost(lines, Steps(lines)) && Recorded(lines, Steps(lines))
  {
    if lines != [] {
      var earlier, last := lines[..|lines| - 1], lines[|lines| - 1];
      StepsFacts(earlier);
      StepKeeps(earlier, Steps(earlier), last);
      StepRecords(earlier, Steps(earlier), last);
      assert lines == earlier + [last];
      AddLine(earlier, last, Steps(lines));
    }
  }

  lemma AddLine(lines: seq<Line>, line: Line, st: State)
    requires NothingLost(lines, st)
    requires st.malformed == 0 && line.ProductIdLine? && Trim(line.value) != "" ==> ProductKept(st, line.value)
    requires st.malformed == 0 && Trim(PfnOf(line)) != "" ==> PfnKept(st, PfnOf(line))
    ensures NothingLost(lines + [line], st)
  {
    assert forall l :: l in lines + [line] <==> l in lines || l == line;
  }

  lemma FlushedIsNew(st: State)
    ensures Flush(st).current == NEW_RECORD
  {
  }

  /** A listing counts as complete coverage only if no line failed or went
      unrecognised, nothing contradicts "no updates found", at least the announced
      number of offers was read, every offer names its family and its product, and
      every family and every product named in the output is in an offer. */
  lemma CompleteCoverageIsSound(lines: seq<Line>)
    requires Parse(lines).complete
    ensures var offers := Parse(lines).st.offers;
      && Failure !in lines && Unrecognized !in lines
      && (NoUpdatesFound in lines ==> offers == [] && forall l | l in lines :: !l.Hint?)
      && (NoUpdatesFound in lines || offers != [])
      && (forall l | l in lines && l.Hint? :: l.count <= |offers|)
      && (forall o | o in offers :: o.pfn != "" && o.productId != "")
      && (forall l | l in lines && l.ProductIdLine? && Trim(l.value) != "" :: exists o | o in offers ::
          NamesProduct(o, l.value))
      && (forall l | l in lines && Trim(PfnOf(l)) != "" :: exists o | o in offers :: NamesPfn(o, PfnOf(l)))
  {
    StepsFacts(lines);
    FlushKeeps(lines, Steps(lines));
    FlushedIsNew(Steps(lines));
    var st := Flush(Steps(lines));
    EmptyNames(st.current.offer, st.current.offer);
    forall l | l in lines && l.ProductIdLine? && Trim(l.value) != ""
      ensures exists o | o in st.offers :: NamesProduct(o, l.value)
    {
      assert ProductKept(st, l.value);
    }
    forall l | l in lines && Trim(PfnOf(l)) != "" ensures exists o | o in st.offers :: NamesPfn(o, PfnOf(l)) {
      assert PfnKept(st, PfnOf(l));
    }
  }

  /** And it counts as complete exactly when, beside that, every record was well formed. */
  lemma CompleteExactlyWhen(lines: seq<Line>)
    ensures var st := Parse(lines).st;
      Parse(lines).complete <==>
        && Failure !in lines && st.unrecognized == 0 && st.malformed == 0
        && (NoUpdatesFound in lines ==> st.offers == [] && forall l | l in lines :: !l.Hint?)
        && (NoUpdatesFound in lines || st.offers != [])
        && (forall l | l in lines && l.Hint? :: l.count <= |st.offers|)
  {
    StepsFacts(lines);
    FlushKeeps(lines, Steps(lines));
  }
}

/** What the aggregate provider observes about each installed family. */
module StoreCliObserve {
  import opened Wrappers
  import opened Text
  import opened StoreModel
  import opened StoreReconcile
  import opened StorePipeline
  import opened StoreSanitize
  import opened StoreCliParse

  predicate Usable(o: Offer, byPfn: map<string, Family>) {
    Lower(o.pfn) in byPfn && LooksLikeProductId(Trim(o.productId))
  }

  function OfferObservation(o: Offer, f: Family, scan: Scan, cli: Provider, now: nat): Observation {
    Observation(cli, Healthy, if o.inapplicable then NoApplicableInstaller else PositiveOffer, f.identity, scan.scanId,
                Some(now),
                f.version, o.version,
                if o.inapplicable then None
                else Some(Target(f.identity, cli, Trim(o.productId), f.identity.pfn, true, cli.Key(), Some(now))))
  }

  function OfferMapping(o: Offer, f: Family, scan: Scan, cli: Provider, now: nat): Mapping {
    Mapping(f.identity, Trim(o.productId), cli, scan.scanId, Some(now), Fingerprint("", "", ""), false, "")
  }

  function NegativeObservation(f: Family, scan: Scan, cli: Provider, now: nat): Observation {
    Observation(cli, Healthy, AuthoritativeNegative, f.identity, scan.scanId, Some(now), f.version, "", None)
  }

  function OfferObservations(offers: seq<Offer>, byPfn: map<string, Family>, scan: Scan, cli: Provider,
                             now: nat): seq<Observation> {
    if offers == [] then []
    else
      var o := offers[|offers| - 1];
      OfferObservations(offers[..|offers| - 1], byPfn, scan, cli, now)
      + if Usable(o, byPfn) then [OfferObservation(o, byPfn[Lower(o.pfn)], scan, cli, now)] else []
  }

  function OfferMappings(offers: seq<Offer>, byPfn: map<string, Family>, scan: Scan, cli: Provider,
                         now: nat): seq<Mapping> {
    if offers == [] then []
    else
      var o := offers[|offers| - 1];
      OfferMappings(offers[..|offers| - 1], byPfn, scan, cli, now)
      + if Usable(o, byPfn) then [OfferMapping(o, byPfn[Lower(o.pfn)], scan, cli, now)] else []
  }

  function MatchedPfns(offers: seq<Offer>, byPfn: map<string, Family>): set<string> {
    set o | o in offers && Usable(o, byPfn) :: Lower(byPfn[Lower(o.pfn)].identity.pfn)
  }

  function Negatives(concerned: seq<Family>, matched: set<string>, scan: Scan, cli: Provider,
                     now: nat): seq<Observation> {
    if concerned == [] then []
    else
      var f := concerned[|concerned| - 1];
      Negatives(concerned[..|concerned| - 1], matched, scan, cli, now)
      + if Lower(f.identity.pfn) in matched then [] else [NegativeObservation(f, scan, cli, now)]
  }

  predicate AllUsable(offers: seq<Offer>, byPfn: map<string, Family>) { forall o | o in offers :: Usable(o, byPfn) }

  /** The command's exit and its listing. */
  datatype Listing = Listing(available: bool, ok: bool, cancelled: bool, lines: seq<Line>, version: string)

  predicate Covered(l: Listing) { l.ok && Parse(l.lines).complete && !Parse(l.lines).failed && !l.cancelled }

  function Observe(scan: Scan, families: seq<Family>, l: Listing, cli: Provider, now: nat): ProviderRun {
    var concerned := Concerned(families, scan);
    var byPfn, offers := ByPfn(concerned), Parse(l.lines).st.offers;
    var observations, mappings := OfferObservations(offers, byPfn, scan, cli, now),
        OfferMappings(offers, byPfn, scan, cli, now);
    var hint := Parse(l.lines).st.hint || Parse(l.lines).st.expected > |offers|;
    if !l.available then ProviderRun(cli, Some(now), UnsupportedHealth, [], [], l.version, false)
    else if concerned == [] then ProviderRun(cli, Some(now), Healthy, [], [], l.version, false)
    else if Parse(l.lines).failed && offers == [] then
        ProviderRun(cli, Some(now), IncompleteHealth, [], [], l.version, hint)
    else if Parse(l.lines).st.noUpdates && Covered(l) then
      ProviderRun(cli, Some(now), Healthy, Negatives(concerned, {}, scan, cli, now), [], l.version, hint)
    else if !AllUsable(offers, byPfn) || !Covered(l) then
      ProviderRun(cli, Some(now), IncompleteHealth, observations, mappings, l.version, hint)
    else
      ProviderRun(cli, Some(now), Healthy,
                  observations + Negatives(concerned, MatchedPfns(offers, byPfn), scan, cli, now), mappings, l.version,
                  hint)
  }

  function ObservationsOf(o: Offer, byPfn: map<string, Family>, scan: Scan, cli: Provider, now: nat): seq<Observation> {
    if Usable(o, byPfn) then [OfferObservation(o, byPfn[Lower(o.pfn)], scan, cli, now)] else []
  }

  function MappingsOf(o: Offer, byPfn: map<string, Family>, scan: Scan, cli: Provider, now: nat): seq<Mapping> {
    if Usable(o, byPfn) then [OfferMapping(o, byPfn[Lower(o.pfn)], scan, cli, now)] else []
  }

  function MatchedOf(o: Offer, byPfn: map<string, Family>): set<string> {
    if Usable(o, byPfn) then {Lower(byPfn[Lower(o.pfn)].identity.pfn)} else {}
  }

  lemma OneMoreOffer(offers: seq<Offer>, n: nat, byPfn: map<string, Family>, scan: Scan, cli: Provider, now: nat)
    requires n < |offers|
    ensures OfferObservations(offers[..n + 1], byPfn, scan, cli, now)
         == OfferObservations(offers[..n], byPfn, scan, cli, now) + ObservationsOf(offers[n], byPfn, scan, cli, now)
    ensures OfferMappings(offers[..n + 1], byPfn, scan, cli, now)
         == OfferMappings(offers[..n], byPfn, scan, cli, now) + MappingsOf(offers[n], byPfn, scan, cli, now)
    ensures MatchedPfns(offers[..n + 1], byPfn) == MatchedPfns(offers[..n], byPfn) + MatchedOf(offers[n], byPfn)
    ensures AllUsable(offers[..n + 1], byPfn) <==> AllUsable(offers[..n], byPfn) && Usable(offers[n], byPfn)
  {
    assert offers[..n + 1][..n] == offers[..n];
    assert offers[..n + 1] == offers[..n] + [offers[n]];
  }

  method ReadOffer(o: Offer, byPfn: map<string, Family>, scan: Scan, cli: Provider, now: nat)
    returns (usable: bool, observations: seq<Observation>, mappings: seq<Mapping>, matched: set<string>)
    ensures usable == Usable(o, byPfn)
    ensures observations == ObservationsOf(o, byPfn, scan, cli, now) && mappings == MappingsOf(o, byPfn, scan, cli, now)
    ensures matched == MatchedOf(o, byPfn)
  {
    if Lower(o.pfn) !in byPfn { return false, [], [], {}; }
    if !LooksLikeProductId(Trim(o.productId)) { return false, [], [], {}; }
    var f := byPfn[Lower(o.pfn)];
    return true, [OfferObservation(o, f, scan, cli, now)], [OfferMapping(o, f, scan, cli, now)],
        {Lower(f.identity.pfn)};
  }

  method ReadOffers(offers: seq<Offer>, byPfn: map<string, Family>, scan: Scan, cli: Provider, now: nat)
    returns (observations: seq<Observation>, mappings: seq<Mapping>, matched: set<string>, unusable: bool)
    ensures observations == OfferObservations(offers, byPfn, scan, cli, now)
    ensures mappings == OfferMappings(offers, byPfn, scan, cli, now)
    ensures matched == MatchedPfns(offers, byPfn)
    ensures unusable <==> !AllUsable(offers, byPfn)
  {
    observations, mappings, matched, unusable := [], [], {}, false;
    NoOffers(offers, byPfn, scan, cli, now);
    hide *;
    for n := 0 to |offers|
      invariant observations == OfferObservations(offers[..n], byPfn, scan, cli, now)
      invariant mappings == OfferMappings(offers[..n], byPfn, scan, cli, now)
      invariant matched == MatchedPfns(offers[..n], byPfn)
      invariant unusable <==> !AllUsable(offers[..n], byPfn)
    {
      OneMoreOffer(offers, n, byPfn, scan, cli, now);
      var usable, found, mapped, names := ReadOffer(offers[n], byPfn, scan, cli, now);
      if !usable { unusable := true; }
      observations, mappings, matched := observations + found, mappings + mapped, matched + names;
    }
    assert offers[..|offers|] == offers;
  }

  lemma NoOffers(offers: seq<Offer>, byPfn: map<string, Family>, scan: Scan, cli: Provider, now: nat)
    ensures OfferObservations(offers[..0], byPfn, scan, cli, now) == []
    ensures OfferMappings(offers[..0], byPfn, scan, cli, now) == []
    ensures MatchedPfns(offers[..0], byPfn) == {} && AllUsable(offers[..0], byPfn)
  {
  }

  method ObserveFamilies(scan: Scan, families: seq<Family>, l: Listing, cli: Provider, now: nat)
      returns (run: ProviderRun)
    ensures run == Observe(scan, families, l, cli, now)
  {
    if !l.available { return ProviderRun(cli, Some(now), UnsupportedHealth, [], [], l.version, false); }
    var concerned: seq<Family> := [];
    var byPfn: map<string, Family> := map[];
    for n := 0 to |families|
      invariant concerned == Concerned(families[..n], scan) && byPfn == ByPfn(concerned)
    {
      assert families[..n + 1][..n] == families[..n];
      var f := families[n];
      if f.productLike && f.identity.Resolved() && f.identity.userSid == scan.userSid {
        assert (concerned + [f])[..|concerned|] == concerned;
        concerned, byPfn := concerned + [f], byPfn[Lower(f.identity.pfn) := f];
      }
    }
    assert families[..|families|] == families;
    if |concerned| == 0 { return ProviderRun(cli, Some(now), Healthy, [], [], l.version, false); }
    var parsed := ParseUpdates(l.lines);
    var hint := parsed.st.hint || parsed.st.expected > |parsed.st.offers|;
    if parsed.failed && |parsed.st.offers| == 0 {
      return ProviderRun(cli, Some(now), IncompleteHealth, [], [], l.version, hint);
    }
    var covered := l.ok && parsed.complete && !parsed.failed && !l.cancelled;
    if parsed.st.noUpdates && covered {
      var negatives := Unlisted(concerned, {}, scan, cli, now);
      return ProviderRun(cli, Some(now), Healthy, negatives, [], l.version, hint);
    }
    var observations, mappings, matched, unusable := ReadOffers(parsed.st.offers, byPfn, scan, cli, now);
    if unusable || !covered {
      return ProviderRun(cli, Some(now), IncompleteHealth, observations, mappings, l.version, hint);
    }
    var negatives := Unlisted(concerned, matched, scan, cli, now);
    return ProviderRun(cli, Some(now), Healthy, observations + negatives, mappings, l.version, hint);
  }

  method Unlisted(concerned: seq<Family>, matched: set<string>, scan: Scan, cli: Provider, now: nat)
      returns (negatives: seq<Observation>)
    ensures negatives == Negatives(concerned, matched, scan, cli, now)
  {
    negatives := [];
    for n := 0 to |concerned|
      invariant negatives == Negatives(concerned[..n], matched, scan, cli, now)
    {
      assert concerned[..n + 1][..n] == concerned[..n];
      if Lower(concerned[n].identity.pfn) in matched { continue; }
      negatives := negatives + [NegativeObservation(concerned[n], scan, cli, now)];
    }
    assert concerned[..|concerned|] == concerned;
  }

  // ---------------------------------------------------------------- what a healthy run says

  lemma {:induction false} OfferMembers(offers: seq<Offer>, byPfn: map<string, Family>, scan: Scan, cli: Provider,
                                        now: nat)
    ensures forall x | x in OfferObservations(offers, byPfn, scan, cli, now) ::
              exists o | o in offers ::
                  Usable(o, byPfn) && x == OfferObservation(o, byPfn[Lower(o.pfn)], scan, cli, now)
    ensures forall o | o in offers && Usable(o, byPfn) ::
              OfferObservation(o, byPfn[Lower(o.pfn)], scan, cli, now) in OfferObservations(offers, byPfn, scan, cli,
                                                                                            now)
    ensures forall m | m in OfferMappings(offers, byPfn, scan, cli, now) ::
              exists o | o in offers :: Usable(o, byPfn) && m == OfferMapping(o, byPfn[Lower(o.pfn)], scan, cli, now)
  {
    if offers != [] {
      OfferMembers(offers[..|offers| - 1], byPfn, scan, cli, now);
      assert offers == offers[..|offers| - 1] + [offers[|offers| - 1]];
    }
  }

  lemma {:induction false} NegativeMembers(concerned: seq<Family>, matched: set<string>, scan: Scan, cli: Provider,
                                           now: nat)
    ensures forall x :: x in Negatives(concerned, matched, scan, cli, now) <==>
              exists f | f in concerned ::
                  Lower(f.identity.pfn) !in matched && x == NegativeObservation(f, scan, cli, now)
  {
    if concerned != [] {
      NegativeMembers(concerned[..|concerned| - 1], matched, scan, cli, now);
      assert concerned == concerned[..|concerned| - 1] + [concerned[|concerned| - 1]];
    }
  }

  ghost predicate Listed(l: Listing, f: Family) {
    exists o | o in Parse(l.lines).st.offers :: EqualFold(o.pfn, f.identity.pfn)
  }

  ghost predicate Mentions(obs: seq<Observation>, f: Family, kind: Kind) {
    exists x | x in obs :: x.kind == kind && EqualFold(x.identity.pfn, f.identity.pfn)
  }

  lemma ListedFamilies(concerned: seq<Family>, byPfn: map<string, Family>, offers: seq<Offer>, f: Family, scan: Scan,
                       cli: Provider, now: nat)
    requires byPfn == ByPfn(concerned) && AllUsable(offers, byPfn)
    ensures Lower(f.identity.pfn) in MatchedPfns(offers, byPfn)
      <==> exists o | o in offers :: EqualFold(o.pfn, f.identity.pfn)
    ensures (exists x | x in OfferObservations(offers, byPfn, scan, cli, now) ::
             EqualFold(x.identity.pfn, f.identity.pfn))
            <==> exists o | o in offers :: EqualFold(o.pfn, f.identity.pfn)
  {
    ByPfnMembers(concerned);
    OfferMembers(offers, byPfn, scan, cli, now);
    forall o | o in offers ensures Lower(byPfn[Lower(o.pfn)].identity.pfn) == Lower(o.pfn) { assert Usable(o, byPfn); }
    if o :| o in offers && EqualFold(o.pfn, f.identity.pfn) {
      assert OfferObservation(o, byPfn[Lower(o.pfn)], scan, cli, now) in OfferObservations(offers, byPfn, scan, cli,
                                                                                           now);
    }
  }

  ghost predicate Decided(obs: seq<Observation>, f: Family, listed: bool, scan: Scan, cli: Provider, now: nat) {
    && (NegativeObservation(f, scan, cli, now) in obs <==> !listed)
    && (Mentions(obs, f, PositiveOffer) || Mentions(obs, f, NoApplicableInstaller) <==> listed)
    && forall x | x in obs && x.kind == AuthoritativeNegative && EqualFold(x.identity.pfn, f.identity.pfn) :: !listed
  }

  lemma DecidedByNegatives(concerned: seq<Family>, f: Family, scan: Scan, cli: Provider, now: nat)
    requires f in concerned
    ensures Decided(Negatives(concerned, {}, scan, cli, now), f, false, scan, cli, now)
  {
    NegativeMembers(concerned, {}, scan, cli, now);
  }

  lemma DecidedByOffers(concerned: seq<Family>, byPfn: map<string, Family>, offers: seq<Offer>, f: Family, listed: bool,
                        scan: Scan, cli: Provider, now: nat)
    requires f in concerned && byPfn == ByPfn(concerned) && AllUsable(offers, byPfn)
    requires listed <==> exists o | o in offers :: EqualFold(o.pfn, f.identity.pfn)
    ensures Decided(OfferObservations(offers, byPfn, scan, cli, now)
                    + Negatives(concerned, MatchedPfns(offers, byPfn), scan, cli, now),
                    f, listed, scan, cli, now)
  {
    var matched := MatchedPfns(offers, byPfn);
    var offered, negatives := OfferObservations(offers, byPfn, scan, cli, now),
        Negatives(concerned, matched, scan, cli, now);
    ListedFamilies(concerned, byPfn, offers, f, scan, cli, now);
    OfferMembers(offers, byPfn, scan, cli, now);
    NegativeMembers(concerned, matched, scan, cli, now);
    OfferKinds(offered, offers, byPfn, scan, cli, now);
    hide OfferObservations, Negatives, MatchedPfns, ByPfn, AllUsable;
    BothParts(offered, negatives, f, listed, scan, cli, now);
  }

  lemma BothParts(offered: seq<Observation>, negatives: seq<Observation>, f: Family, listed: bool, scan: Scan,
                  cli: Provider, now: nat)
    requires forall x | x in offered :: x.kind == PositiveOffer || x.kind == NoApplicableInstaller
    requires forall x | x in negatives :: x.kind == AuthoritativeNegative
    requires (exists x | x in offered :: EqualFold(x.identity.pfn, f.identity.pfn)) <==> listed
    requires NegativeObservation(f, scan, cli, now) in negatives <==> !listed
    requires forall x | x in negatives && EqualFold(x.identity.pfn, f.identity.pfn) :: !listed
    ensures Decided(offered + negatives, f, listed, scan, cli, now)
  {
    hide EqualFold;
    assert forall x :: x in offered + negatives <==> x in offered || x in negatives;
    if x :| x in offered && EqualFold(x.identity.pfn, f.identity.pfn) { assert x in offered + negatives; }
  }

  lemma OfferKinds(offered: seq<Observation>, offers: seq<Offer>, byPfn: map<string, Family>, scan: Scan, cli: Provider,
                   now: nat)
    requires offered == OfferObservations(offers, byPfn, scan, cli, now)
    ensures forall x | x in offered :: x.kind == PositiveOffer || x.kind == NoApplicableInstaller
  {
    OfferMembers(offers, byPfn, scan, cli, now);
  }

  /** A healthy run has evidence for every product-like family of the scan's user: a
      negative exactly for the families no offer names, and an offer for the others. */
  lemma HealthyRunDecidesEveryFamily(scan: Scan, families: seq<Family>, l: Listing, cli: Provider, now: nat, f: Family)
    requires l.available && Observe(scan, families, l, cli, now).health == Healthy && f in families
      && OwesEvidence(f, scan)
    ensures Decided(Observe(scan, families, l, cli, now).observations, f, Listed(l, f), scan, cli, now)
  {
    var concerned := Concerned(families, scan);
    var byPfn, offers := ByPfn(concerned), Parse(l.lines).st.offers;
    ConcernedMembers(families, scan);
    hide Decided, Parse, ByPfn, Concerned;
    if Parse(l.lines).st.noUpdates && Covered(l) {
      NoOffersWhenNoUpdates(l.lines);
      DecidedByNegatives(concerned, f, scan, cli, now);
    } else {
      DecidedByOffers(concerned, byPfn, offers, f, Listed(l, f), scan, cli, now);
    }
  }

  lemma NoOffersWhenNoUpdates(lines: seq<Line>)
    requires Parse(lines).complete && Parse(lines).st.noUpdates
    ensures Parse(lines).st.offers == []
  {
  }

  lemma OffersAreSane(offers: seq<Offer>, concerned: seq<Family>, scan: Scan, cli: Provider, now: nat)
    requires cli.Key() != "" && forall f | f in concerned :: OwesEvidence(f, scan)
    ensures forall x | x in OfferObservations(offers, ByPfn(concerned), scan, cli, now) ::
      SaneObservation(x, scan, Some(now)) && !Blocks(x)
    ensures forall m | m in OfferMappings(offers, ByPfn(concerned), scan, cli, now) :: SaneMapping(m, scan)
  {
    var byPfn := ByPfn(concerned);
    ByPfnMembers(concerned);
    OfferMembers(offers, byPfn, scan, cli, now);
    forall o | o in offers && Usable(o, byPfn)
      ensures SaneObservation(OfferObservation(o, byPfn[Lower(o.pfn)], scan, cli, now), scan, Some(now))
      ensures !Blocks(OfferObservation(o, byPfn[Lower(o.pfn)], scan, cli, now))
      ensures SaneMapping(OfferMapping(o, byPfn[Lower(o.pfn)], scan, cli, now), scan)
    {
      OfferIsSane(o, byPfn[Lower(o.pfn)], scan, cli, now);
    }
  }

  lemma NegativesAreSane(concerned: seq<Family>, matched: set<string>, scan: Scan, cli: Provider, now: nat)
    requires cli.Key() != "" && forall f | f in concerned :: OwesEvidence(f, scan)
    ensures forall x | x in Negatives(concerned, matched, scan, cli, now) ::
      SaneObservation(x, scan, Some(now)) && !Blocks(x)
  {
    NegativeMembers(concerned, matched, scan, cli, now);
  }

  /** Whatever it read, the provider's run is sane: sanitising leaves it as it is. */
  lemma ObservedRunsAreSane(scan: Scan, families: seq<Family>, l: Listing, cli: Provider, now: nat)
    requires cli.Key() != ""
    ensures Sane(Observe(scan, families, l, cli, now), scan)
    ensures Sanitize(scan, Observe(scan, families, l, cli, now)) == Observe(scan, families, l, cli, now)
  {
    var concerned := Concerned(families, scan);
    var byPfn, offers := ByPfn(concerned), Parse(l.lines).st.offers;
    var matched := MatchedPfns(offers, byPfn);
    ConcernedMembers(families, scan);
    OffersAreSane(offers, concerned, scan, cli, now);
    NegativesAreSane(concerned, {}, scan, cli, now);
    NegativesAreSane(concerned, matched, scan, cli, now);
    var run := Observe(scan, families, l, cli, now);
    hide OfferObservations, OfferMappings, Negatives, Parse, Concerned, ByPfn, MatchedPfns, SaneObservation,
        SaneMapping, Blocks;
    assert Sane(run, scan);
    hide Observe, Sane;
    SanitizeMakesSane(scan, run);
  }

  lemma OfferIsSane(o: Offer, f: Family, scan: Scan, cli: Provider, now: nat)
    requires OwesEvidence(f, scan) && LooksLikeProductId(Trim(o.productId)) && cli.Key() != ""
    ensures SaneObservation(OfferObservation(o, f, scan, cli, now), scan, Some(now))
      && !Blocks(OfferObservation(o, f, scan, cli, now))
    ensures SaneMapping(OfferMapping(o, f, scan, cli, now), scan)
    ensures !o.inapplicable ==> Classify(OfferObservation(o, f, scan, cli, now), f.identity, scan) == ExactOffer
  {
    TrimIdem(o.productId);
  }
}
