/** What a listing's offers have to do with its lines. */
module StoreCliReadings {
  import opened Text
  import opened StoreCliParse

  // ---------------------------------------------------------------- nothing is made up

  predicate NamesIn(lines: seq<Line>, id: string) { exists l | l in lines && l.ProductIdLine? :: Trim(l.value) == id }
  predicate PfnIn(lines: seq<Line>, pfn: string) {
    exists l | l in lines && (l.PfnLine? || l.UpdateIdLine?) :: Trim(PfnOf(l)) == pfn
  }
  predicate VersionIn(lines: seq<Line>, v: string) { exists l | l in lines && l.VersionLine? :: Trim(l.value) == v }
  predicate SaysInapplicable(lines: seq<Line>) { StatusLine(true) in lines || InapplicableLine in lines }

  /** Every field that is set was read from some line. */
  predicate Sourced(lines: seq<Line>, o: Offer) {
    && (o.productId == "" || NamesIn(lines, o.productId)) && (o.pfn == "" || PfnIn(lines, o.pfn))
    && (o.version == "" || VersionIn(lines, o.version)) && (o.inapplicable ==> SaysInapplicable(lines))
  }

  predicate AllSourced(lines: seq<Line>, st: State) {
    Sourced(lines, st.current.offer) && forall o | o in st.offers :: Sourced(lines, o)
  }

  lemma SourcedLonger(lines: seq<Line>, line: Line, o: Offer)
    requires Sourced(lines, o)
    ensures Sourced(lines + [line], o)
  {
    assert forall l | l in lines :: l in lines + [line];
  }

  lemma FlushSourced(lines: seq<Line>, st: State)
    requires AllSourced(lines, st)
    ensures AllSourced(lines, Flush(st))
  {
    hide NamesIn, PfnIn, VersionIn, SaysInapplicable;
  }

  lemma SetSourced(lines: seq<Line>, st: State, present: string, value: string, offer: Offer)
    requires AllSourced(lines, st) && (Trim(value) != "" ==> Sourced(lines, offer))
    ensures AllSourced(lines, SetField(st, present, value, offer))
  {
    hide Sourced, Trim, EqualFold;
  }

  lemma StepSourced(lines: seq<Line>, st: State, line: Line)
    requires AllSourced(lines, st)
    ensures AllSourced(lines + [line], Step(st, line))
  {
    var more := lines + [line];
    assert line in more && forall l | l in lines :: l in more;
    assert AllSourced(more, st) by {
      forall o | o in st.offers || o == st.current.offer ensures Sourced(more, o) { SourcedLonger(lines, line, o); }
    }
    FlushSourced(more, st);
    match line {
      case ProductIdLine(value) =>
        var next := if st.current.StartsNextProduct(value) then Flush(st) else st;
        assert NamesIn(more, Trim(value));
        SetSourced(more, next, next.current.offer.productId, value, next.current.offer.(productId := Trim(value)));
      case PfnLine(value) => PfnSourced(more, st, line, value);
      case UpdateIdLine(pfn) => if pfn != "" { PfnSourced(more, st, line, pfn); }
      case VersionLine(value) =>
        assert VersionIn(more, Trim(value));
        SetSourced(more, st, st.current.offer.version, value, st.current.offer.(version := Trim(value)));
      case _ => hide Flush, NamesIn, PfnIn, VersionIn;
    }
  }

  lemma PfnSourced(more: seq<Line>, st: State, line: Line, value: string)
    requires AllSourced(more, st) && AllSourced(more, Flush(st)) && line in more && value == PfnOf(line)
    requires line.PfnLine? || line.UpdateIdLine?
    ensures AllSourced(more, SetPfn(st, value))
  {
    var next := if st.current.StartsNextPfn(value) then Flush(st) else st;
    assert PfnIn(more, Trim(value));
    hide Flush, NamesIn, VersionIn, PfnIn, SaysInapplicable, Trim;
    SetSourced(more, next, next.current.offer.pfn, value, next.current.offer.(pfn := Trim(value)));
  }

  lemma {:induction false} StepsSourced(lines: seq<Line>)
    ensures AllSourced(lines, Steps(lines))
  {
    if lines != [] {
      var earlier, last := lines[..|lines| - 1], lines[|lines| - 1];
      StepsSourced(earlier);
      StepSourced(earlier, Steps(earlier), last);
      assert lines == earlier + [last];
    }
  }

  /** No offer is made up: complete or not, what it says was read from the listing. */
  lemma OffersAreRead(lines: seq<Line>, o: Offer)
    requires o in Parse(lines).st.offers
    ensures o.productId != "" && NamesIn(lines, o.productId) && o.pfn != "" && PfnIn(lines, o.pfn)
    ensures (o.version == "" || VersionIn(lines, o.version)) && (o.inapplicable ==> SaysInapplicable(lines))
  {
    StepsSourced(lines);
    FlushSourced(lines, Steps(lines));
    StepsFacts(lines);
    FlushKeeps(lines, Steps(lines));
    hide Flush, Steps, NamesIn, PfnIn, VersionIn, SaysInapplicable, Recorded;
  }

  // ---------------------------------------------------------------- no detail is lost

  ghost predicate VersionKept(st: State, v: string) {
    EqualFold(st.current.offer.version, v) || exists o | o in st.offers :: EqualFold(o.version, v)
  }

  ghost predicate InapplicableKept(st: State) {
    st.current.offer.inapplicable || exists o | o in st.offers :: o.inapplicable
  }

  /** Conflicts are counted as they are met, and counts only grow. */
  predicate Counted(st: State) { st.current.conflicts > 0 ==> st.malformed > 0 }
  predicate Clean(st: State) { st.malformed == 0 && st.unrecognized == 0 }

  /** Until something is malformed or unrecognised, every version and every remark that an
      update does not apply is in an offer or in the record being read. */
  ghost predicate DetailsKept(lines: seq<Line>, st: State) {
    && Counted(st)
    && (Clean(st) ==>
          && (forall l | l in lines && l.VersionLine? && Trim(l.value) != "" :: VersionKept(st, Trim(l.value)))
          && (SaysInapplicable(lines) ==> InapplicableKept(st)))
  }

  /** What one operation must keep. */
  ghost predicate Keeps(st: State, next: State) {
    && Counted(next) && (Clean(next) ==> Clean(st))
    && (Clean(next) ==> (forall v | v != "" && VersionKept(st, v) :: VersionKept(next, v))
                        && (InapplicableKept(st) ==> InapplicableKept(next)))
  }

  lemma FlushKeepsDetails(st: State)
    requires Counted(st)
    ensures Keeps(st, Flush(st))
  {
    var next, o := Flush(st), st.current.offer;
    if Clean(next) && next.offers != st.offers {
      assert o in next.offers && forall x | x in st.offers :: x in next.offers;
    }
    forall v | v != "" && VersionKept(st, v) && Clean(next) ensures VersionKept(next, v) {
      if EqualFold(o.version, v) { FoldEmpty(o.version, v); }
    }
  }

  lemma SetIdKeepsDetails(st: State, present: string, value: string, offer: Offer)
    requires Counted(st) && offer.version == st.current.offer.version
      && offer.inapplicable == st.current.offer.inapplicable
    ensures Keeps(st, SetField(st, present, value, offer))
  {
    hide Trim, EqualFold;
  }

  lemma SetVersionKeepsDetails(st: State, value: string)
    requires Counted(st)
    ensures var next := SetField(st, st.current.offer.version, value, st.current.offer.(version := Trim(value)));
      Keeps(st, next) && (Clean(next) && Trim(value) != "" ==> VersionKept(next, Trim(value)))
  {
    var was := st.current.offer.version;
    forall v | v != "" && EqualFold(was, v) ensures was != "" { FoldEmpty(was, v); }
    hide Trim, EqualFold;
    FoldSame(was, Trim(value));
  }

  lemma FoldSame(a: string, b: string)
    ensures EqualFold(a, b) ==> forall v :: EqualFold(a, v) <==> EqualFold(b, v)
    ensures EqualFold(b, b)
  {
  }

  lemma KeepsTwice(a: State, b: State, c: State)
    requires Keeps(a, b) && Keeps(b, c)
    ensures Keeps(a, c)
  {
    hide VersionKept, InapplicableKept;
  }

  lemma StepKeepsDetails(st: State, line: Line)
    requires Counted(st)
    ensures var next := Step(st, line);
      && Keeps(st, next)
      && (Clean(next) && line.VersionLine? && Trim(line.value) != "" ==> VersionKept(next, Trim(line.value)))
      && (Clean(next) && (line == StatusLine(true) || line == InapplicableLine) ==> InapplicableKept(next))
  {
    FlushKeepsDetails(st);
    match line {
      case ProductIdLine(value) =>
        hide Flush;
        var next := if st.current.StartsNextProduct(value) then Flush(st) else st;
        SetIdKeepsDetails(next, next.current.offer.productId, value, next.current.offer.(productId := Trim(value)));
        hide SetField;
        if next != st { KeepsTwice(st, next, Step(st, line)); }
      case PfnLine(value) => PfnKeepsDetails(st, value);
      case UpdateIdLine(pfn) => PfnKeepsDetails(st, pfn);
      case VersionLine(value) => SetVersionKeepsDetails(st, value); hide SetField;
      case _ => hide Flush, Trim;
    }
  }

  lemma PfnKeepsDetails(st: State, value: string)
    requires Counted(st) && Keeps(st, Flush(st))
    ensures Keeps(st, SetPfn(st, value))
  {
    hide Flush;
    var next := if st.current.StartsNextPfn(value) then Flush(st) else st;
    SetIdKeepsDetails(next, next.current.offer.pfn, value, next.current.offer.(pfn := Trim(value)));
    hide SetField;
    if next != st { KeepsTwice(st, next, SetPfn(st, value)); }
  }

  lemma {:induction false} StepsKeepDetails(lines: seq<Line>)
    ensures DetailsKept(lines, Steps(lines))
  {
    if lines != [] {
      var earlier, last := lines[..|lines| - 1], lines[|lines| - 1];
      StepsKeepDetails(earlier);
      StepKeepsDetails(Steps(earlier), last);
      assert lines == earlier + [last];
      hide Step, VersionKept, InapplicableKept, Trim;
      assert forall l :: l in lines <==> l in earlier || l == last;
    }
  }

  /** A listing that counts as complete lost nothing: every version it names is some
      offer's, and if it says of anything that it does not apply, some offer does not. */
  lemma CompleteCoverageKeepsDetails(lines: seq<Line>)
    requires Parse(lines).complete
    ensures var offers := Parse(lines).st.offers;
      && (forall l | l in lines && l.VersionLine? && Trim(l.value) != "" ::
            exists o | o in offers :: EqualFold(o.version, Trim(l.value)))
      && (SaysInapplicable(lines) ==> exists o | o in offers :: o.inapplicable)
  {
    StepsKeepDetails(lines);
    FlushKeepsDetails(Steps(lines));
    FlushedIsNew(Steps(lines));
    var st := Flush(Steps(lines));
    hide Flush, Steps, SaysInapplicable;
    forall l | l in lines && l.VersionLine? && Trim(l.value) != ""
      ensures exists o | o in st.offers :: EqualFold(o.version, Trim(l.value))
    {
      assert VersionKept(st, Trim(l.value));
      FoldEmpty("", Trim(l.value));
    }
  }

  // ---------------------------------------------------------------- listings read back

  /** Lines that may stand in the record of an offer. */
  predicate Belongs(l: Line, o: Offer) {
    match l
    case ProductIdLine(value) => Trim(value) == "" || Trim(value) == o.productId
    case PfnLine(value) => Trim(value) == "" || Trim(value) == o.pfn
    case UpdateIdLine(pfn) => Trim(pfn) == "" || Trim(pfn) == o.pfn
    case VersionLine(value) => Trim(value) == "" || Trim(value) == o.version
    case StatusLine(inapplicable) => inapplicable ==> o.inapplicable
    case InapplicableLine => o.inapplicable
    case Noise => true
    case OtherField => true
    case _ => false
  }

  /** A record that tells an offer: in any order, with any repetition, and with lines
      between that say nothing; "not applicable" by itself only after an ID. */
  predicate Tells(block: seq<Line>, o: Offer) {
    && o.productId != "" && o.pfn != ""
    && (forall l | l in block :: Belongs(l, o))
    && NamesIn(block, o.productId) && PfnIn(block, o.pfn) && (o.version == "" || VersionIn(block, o.version))
    && (o.inapplicable ==> SaysInapplicable(block))
    && forall n | 0 <= n < |block| && block[n] == InapplicableLine ::
         NamesIn(block[..n], o.productId) || PfnIn(block[..n], o.pfn)
  }

  /** The offer as far as some lines of its record tell it. */
  function Told(lines: seq<Line>, o: Offer): Offer {
    Offer(if NamesIn(lines, o.productId) then o.productId else "", if PfnIn(lines, o.pfn) then o.pfn else "",
          if VersionIn(lines, o.version) then o.version else "", SaysInapplicable(lines))
  }

  function After(st: State, lines: seq<Line>): State {
    if lines == [] then st else Step(After(st, lines[..|lines| - 1]), lines[|lines| - 1])
  }

  lemma {:induction false} StepsAfter(a: seq<Line>, b: seq<Line>)
    ensures Steps(a + b) == After(Steps(a), b)
  {
    if b == [] {
      assert a + b == a;
    } else {
      StepsAfter(a, b[..|b| - 1]);
      assert (a + b)[..|a + b| - 1] == a + b[..|b| - 1];
      hide Step;
    }
  }

  lemma ToldMore(lines: seq<Line>, l: Line, o: Offer)
    requires o.productId != "" && o.pfn != "" && Belongs(l, o)
    ensures var was, next := Told(lines, o), Told(lines + [l], o);
      && next.productId == (if l.ProductIdLine? && Trim(l.value) == o.productId then o.productId else was.productId)
      && next.pfn == (if (l.PfnLine? || l.UpdateIdLine?) && Trim(PfnOf(l)) == o.pfn then o.pfn else was.pfn)
      && next.version == (if l.VersionLine? && Trim(l.value) == o.version then o.version else was.version)
      && next.inapplicable == (l == StatusLine(true) || l == InapplicableLine || was.inapplicable)
  {
    var more := lines + [l];
    assert forall x :: x in more <==> x in lines || x == l;
    hide Trim;
  }

  /** One line of a record. */
  lemma RecordGrows(st: State, lines: seq<Line>, l: Line, o: Offer)
    requires o.productId != "" && o.pfn != "" && Belongs(l, o)
    requires st.current == Record(Told(lines, o), 0)
    requires l == InapplicableLine ==> Told(lines, o).productId != "" || Told(lines, o).pfn != ""
    ensures Step(st, l) == st.(current := Record(Told(lines + [l], o), 0))
  {
    ToldMore(lines, l, o);
    ToldIsItsOwn(lines, o);
    assert Trim("") == "";
    hide Told;
    RecordTakes(st, l, o, Told(lines, o), Told(lines + [l], o));
  }

  /** What one line of a record changes about the offer told so far. */
  lemma RecordTakes(st: State, l: Line, o: Offer, t: Offer, next: Offer)
    requires o.productId != "" && o.pfn != "" && Belongs(l, o) && st.current == Record(t, 0) && Trim("") == ""
    requires (t.productId == "" || t.productId == o.productId) && (t.pfn == "" || t.pfn == o.pfn)
      && (t.version == "" || t.version == o.version)
    requires l == InapplicableLine ==> t.productId != "" || t.pfn != ""
    requires next.productId == (if l.ProductIdLine? && Trim(l.value) == o.productId then o.productId else t.productId)
    requires next.pfn == (if (l.PfnLine? || l.UpdateIdLine?) && Trim(PfnOf(l)) == o.pfn then o.pfn else t.pfn)
    requires next.version == (if l.VersionLine? && Trim(l.value) == o.version then o.version else t.version)
    requires next.inapplicable == (l == StatusLine(true) || l == InapplicableLine || t.inapplicable)
    ensures Step(st, l) == st.(current := Record(next, 0))
  {
    FoldSame(o.productId, o.productId);
    FoldSame(o.pfn, o.pfn);
    FoldSame(o.version, o.version);
    hide Trim, EqualFold, Flush;
  }

  lemma ToldIsItsOwn(lines: seq<Line>, o: Offer)
    ensures var t := Told(lines, o);
      && (t.productId == "" || t.productId == o.productId) && (t.pfn == "" || t.pfn == o.pfn)
      && (t.version == "" || t.version == o.version)
  {
  }

  lemma LineOfRecord(block: seq<Line>, n: nat, o: Offer)
    requires Tells(block, o) && n < |block|
    ensures o.productId != "" && o.pfn != "" && Belongs(block[n], o)
    ensures block[n] == InapplicableLine ==> Told(block[..n], o).productId != "" || Told(block[..n], o).pfn != ""
  {
    hide NamesIn, PfnIn, VersionIn, SaysInapplicable, Belongs;
    assert block[n] in block;
  }

  lemma NothingTold(block: seq<Line>, o: Offer)
    requires Tells(block, o)
    ensures Told([], o) == NEW_RECORD.offer
  {
  }

  lemma {:induction false} RecordRead(st: State, block: seq<Line>, n: nat, o: Offer)
    requires Tells(block, o) && n <= |block| && st.current == NEW_RECORD
    ensures After(st, block[..n]) == st.(current := Record(Told(block[..n], o), 0))
  {
    hide Step, Belongs, Tells, Told;
    if n == 0 {
      NothingTold(block, o);
    } else {
      RecordRead(st, block, n - 1, o);
      LineOfRecord(block, n - 1, o);
      var lines, l := block[..n - 1], block[n - 1];
      assert block[..n] == lines + [l] && (lines + [l])[..n - 1] == lines;
      RecordGrows(After(st, lines), lines, l, o);
    }
  }

  lemma OfferRead(st: State, block: seq<Line>, o: Offer)
    requires Tells(block, o) && st.current == NEW_RECORD
    ensures Flush(After(st, block)) == st.(offers := st.offers + [o])
  {
    RecordRead(st, block, |block|, o);
    assert block[..|block|] == block;
    SaysNothingElse(block, o);
    hide After, Tells, Told;
  }

  lemma SaysNothingElse(block: seq<Line>, o: Offer)
    requires Tells(block, o)
    ensures Told(block, o) == o
  {
    hide Trim;
    if o.version == "" && VersionIn(block, o.version) { }
  }

  /** A line that names another product or family than the offer, and so starts the next
      record. */
  predicate NamesAnother(l: Line, o: Offer) {
    || (l.ProductIdLine? && Trim(l.value) != "" && !EqualFold(o.productId, Trim(l.value)))
    || ((l.PfnLine? || (l.UpdateIdLine? && l.pfn != "")) && Trim(PfnOf(l)) != "" && !EqualFold(o.pfn, Trim(PfnOf(l))))
  }

  lemma NextRecordFlushes(st: State, l: Line, o: Offer)
    requires st.current == Record(o, 0) && o.productId != "" && o.pfn != "" && NamesAnother(l, o)
    ensures Step(st, l) == Step(Flush(st), l)
  {
    FlushedIsNew(st);
    hide Trim, EqualFold;
  }

  lemma {:induction false} SameAfter(a: State, b: State, lines: seq<Line>)
    requires lines != [] && Step(a, lines[0]) == Step(b, lines[0])
    ensures After(a, lines) == After(b, lines)
  {
    hide Step;
    var last := |lines| - 1;
    if last > 0 {
      SameAfter(a, b, lines[..last]);
    } else {
      assert lines[..0] == [];
    }
  }

  function Ending(ends: bool): seq<Line> { if ends then [Blank] else [] }

  /** The records one after the other, some of them ended by a blank line. */
  function Printed(blocks: seq<seq<Line>>, ended: seq<bool>): seq<Line>
    requires |blocks| == |ended|
  {
    if blocks == [] then []
    else
      var last := |blocks| - 1;
      Printed(blocks[..last], ended[..last]) + blocks[last] + Ending(ended[last])
  }

  /** The records tell the offers, and each is ended by a blank line or by the next one's
      naming something else. */
  ghost predicate TellAll(blocks: seq<seq<Line>>, ended: seq<bool>, offers: seq<Offer>) {
    && |blocks| == |offers| == |ended|
    && (forall n | 0 <= n < |blocks| :: Tells(blocks[n], offers[n]))
    && forall n | 0 < n < |blocks| :: ended[n - 1] || (blocks[n] != [] && NamesAnother(blocks[n][0], offers[n - 1]))
  }

  /** What has been read when the last record has, ended or not. */
  predicate HasRead(st: State, offers: seq<Offer>, ended: bool) {
    if offers == [] || ended then st == START.(offers := offers)
    else st == START.(offers := offers[..|offers| - 1], current := Record(offers[|offers| - 1], 0))
  }

  lemma FlushedHasRead(st: State, offers: seq<Offer>, ended: bool)
    requires HasRead(st, offers, ended) && Named(offers)
    ensures Flush(st) == START.(offers := offers)
  {
    if offers != [] { assert offers == offers[..|offers| - 1] + [offers[|offers| - 1]]; }
  }

  lemma RecordRest(st: State, block: seq<Line>, o: Offer)
    requires Tells(block, o) && st.current == NEW_RECORD
    ensures After(st, block) == st.(current := Record(o, 0)) && o.productId != "" && o.pfn != ""
  {
    RecordRead(st, block, |block|, o);
    assert block[..|block|] == block;
    SaysNothingElse(block, o);
    hide After, Told;
  }

  /** One more record. */
  lemma OneMoreRecord(earlier: seq<Line>, offers: seq<Offer>, ended: bool, block: seq<Line>, o: Offer, ends: bool)
    requires HasRead(Steps(earlier), offers, ended) && Tells(block, o) && Named(offers)
    requires offers != [] && !ended ==> block != [] && NamesAnother(block[0], offers[|offers| - 1])
    ensures HasRead(Steps(earlier + block + Ending(ends)), offers + [o], ends)
  {
    var st := Steps(earlier);
    FlushedHasRead(st, offers, ended);
    StepsAfter(earlier, block);
    RecordRest(Flush(st), block, o);
    if offers != [] && !ended {
      NextRecordFlushes(st, block[0], offers[|offers| - 1]);
      SameAfter(st, Flush(st), block);
    } else {
      assert Flush(st) == st;
    }
    hide Tells, After, NamesAnother;
    assert (offers + [o])[..|offers|] == offers;
    var lines := earlier + block;
    if ends {
      assert (lines + [Blank])[..|lines|] == lines;
    } else {
      assert lines + [] == lines;
    }
  }

  /** Whether the last record is ended by a blank line. */
  function Closed(ended: seq<bool>): bool { ended != [] && ended[|ended| - 1] }

  predicate Named(offers: seq<Offer>) {
    offers != [] ==> offers[|offers| - 1].productId != "" && offers[|offers| - 1].pfn != ""
  }

  lemma LastRecord(blocks: seq<seq<Line>>, ended: seq<bool>, offers: seq<Offer>)
    requires TellAll(blocks, ended, offers) && blocks != []
    ensures var last := |blocks| - 1; var earlier, before := offers[..last], ended[..last];
      && TellAll(blocks[..last], before, earlier) && Tells(blocks[last], offers[last])
      && Named(earlier) && Named(offers)
      && (earlier != [] && !Closed(before) ==>
            blocks[last] != [] && NamesAnother(blocks[last][0], earlier[|earlier| - 1]))
  {
    hide NamesAnother, Belongs, NamesIn, PfnIn, VersionIn;
  }

  lemma NothingPrinted(blocks: seq<seq<Line>>, ended: seq<bool>, offers: seq<Offer>)
    requires TellAll(blocks, ended, offers) && blocks == []
    ensures HasRead(Steps(Printed(blocks, ended)), offers, Closed(ended)) && Named(offers)
  {
  }

  lemma PrintedMore(blocks: seq<seq<Line>>, ended: seq<bool>)
    requires |blocks| == |ended| > 0
    ensures var last := |blocks| - 1;
      Printed(blocks, ended)
      == Printed(blocks[..last], ended[..last]) + blocks[last] + Ending(ended[last])
  {
  }

  lemma TellsAsMany(blocks: seq<seq<Line>>, ended: seq<bool>, offers: seq<Offer>)
    requires TellAll(blocks, ended, offers)
    ensures |blocks| == |ended| == |offers|
  {
  }

  /** The last record, read after the others. */
  lemma LastRecordRead(blocks: seq<seq<Line>>, ended: seq<bool>, offers: seq<Offer>, last: nat, printed: seq<Line>)
    requires |blocks| == |ended| == |offers| == last + 1 && TellAll(blocks, ended, offers)
    requires printed == Printed(blocks[..last], ended[..last])
    requires HasRead(Steps(printed), offers[..last], Closed(ended[..last]))
    ensures HasRead(Steps(Printed(blocks, ended)), offers, Closed(ended)) && Named(offers)
  {
    hide *;
    LastRecord(blocks, ended, offers);
    OneMoreRecord(printed, offers[..last], Closed(ended[..last]), blocks[last], offers[last], ended[last]);
    PrintedMore(blocks, ended);
    ClosedIs(ended);
    AllButTheLast(offers);
  }

  lemma AllButTheLast<T>(s: seq<T>)
    requires s != []
    ensures s[..|s| - 1] + [s[|s| - 1]] == s
  {
  }

  lemma {:induction false} RecordsRead(blocks: seq<seq<Line>>, ended: seq<bool>, offers: seq<Offer>)
    requires TellAll(blocks, ended, offers)
    ensures |blocks| == |ended| && HasRead(Steps(Printed(blocks, ended)), offers, Closed(ended)) && Named(offers)
    decreases |blocks|
  {
    hide *;
    TellsAsMany(blocks, ended, offers);
    if blocks == [] {
      NothingPrinted(blocks, ended, offers);
    } else {
      var last := |blocks| - 1;
      LastRecord(blocks, ended, offers);
      RecordsRead(blocks[..last], ended[..last], offers[..last]);
      LastRecordRead(blocks, ended, offers, last, Printed(blocks[..last], ended[..last]));
    }
  }

  lemma ClosedIs(ended: seq<bool>)
    requires ended != []
    ensures Closed(ended) == ended[|ended| - 1]
  {
  }

  /** Whatever offers a listing tells, record by record, are read back, in order and in
      full, and the listing counts as complete if there are any. */
  lemma ListingsReadBack(blocks: seq<seq<Line>>, ended: seq<bool>, offers: seq<Offer>)
    requires TellAll(blocks, ended, offers)
    ensures Parse(Printed(blocks, ended)).st.offers == offers
    ensures Parse(Printed(blocks, ended)).complete <==> offers != []
  {
    RecordsRead(blocks, ended, offers);
    FlushedHasRead(Steps(Printed(blocks, ended)), offers, Closed(ended));
    hide Steps, HasRead, Flush;
  }

  // ---------------------------------------------------------------- records that contradict themselves

  /** A record of an offer that gives two versions. */
  ghost predicate Confused(block: seq<Line>, o: Offer) {
    && o.productId != "" && o.pfn != "" && (forall l | l in block :: Belongs(l, o) || l.VersionLine?)
    && exists v, w :: VersionIn(block, v) && VersionIn(block, w) && v != "" && w != "" && !EqualFold(v, w)
  }

  /** What has been read of such a record: no offer, and a conflict as soon as two
      versions have been. */
  ghost predicate Doubts(st: State, next: State, lines: seq<Line>, o: Offer) {
    && next.offers == st.offers && next.malformed >= st.malformed
    && (next.current.offer.productId == "" || next.current.offer.productId == o.productId)
    && (next.current.offer.pfn == "" || next.current.offer.pfn == o.pfn)
    && (next.current.conflicts > 0 ==> next.malformed > st.malformed)
    && (next.current.conflicts == 0 ==>
          forall l | l in lines && l.VersionLine? && Trim(l.value) != "" ::
            EqualFold(next.current.offer.version, Trim(l.value)))
  }

  /** A version beside those read. */
  lemma VersionDoubts(st: State, next: State, lines: seq<Line>, l: Line, o: Offer)
    requires l.VersionLine? && Doubts(st, next, lines, o)
    ensures Doubts(st, Step(next, l), lines + [l], o)
  {
    assert forall x :: x in lines + [l] <==> x in lines || x == l;
    var was := next.current.offer.version;
    FoldSame(was, Trim(l.value));
    forall x | x in lines && x.VersionLine? && Trim(x.value) != "" && next.current.conflicts == 0 ensures was != "" {
      FoldEmpty(was, Trim(x.value));
    }
    hide Trim, EqualFold;
  }

  /** Any other line leaves the versions alone. */
  lemma OtherDoubts(st: State, next: State, lines: seq<Line>, l: Line, o: Offer)
    requires o.productId != "" && o.pfn != "" && Belongs(l, o) && !l.VersionLine? && Doubts(st, next, lines, o)
    ensures Doubts(st, Step(next, l), lines + [l], o)
  {
    assert forall x :: x in lines + [l] <==> x in lines || x == l;
    assert Trim("") == "";
    FoldSame(o.productId, o.productId);
    FoldSame(o.pfn, o.pfn);
    hide Trim, EqualFold, Flush;
  }

  lemma DoubtsGrow(st: State, next: State, lines: seq<Line>, l: Line, o: Offer)
    requires o.productId != "" && o.pfn != "" && (Belongs(l, o) || l.VersionLine?) && Doubts(st, next, lines, o)
    ensures Doubts(st, Step(next, l), lines + [l], o)
  {
    hide Doubts, Step;
    if l.VersionLine? { VersionDoubts(st, next, lines, l, o); } else { OtherDoubts(st, next, lines, l, o); }
  }

  lemma {:induction false} ConfusedRead(st: State, block: seq<Line>, n: nat, o: Offer)
    requires st.current == NEW_RECORD && n <= |block|
    requires o.productId != "" && o.pfn != "" && forall l | l in block :: Belongs(l, o) || l.VersionLine?
    ensures Doubts(st, After(st, block[..n]), block[..n], o)
  {
    if n > 0 {
      ConfusedRead(st, block, n - 1, o);
      assert block[n - 1] in block;
      hide Doubts, Step, Belongs;
      assert block[..n] == block[..n - 1] + [block[n - 1]] && block[..n][..n - 1] == block[..n - 1];
      DoubtsGrow(st, After(st, block[..n - 1]), block[..n - 1], block[n - 1], o);
    }
  }

  /** A record that gives two versions is no offer, and is counted as malformed. */
  lemma ConfusedRecordsAreDropped(st: State, block: seq<Line>, o: Offer)
    requires st.current == NEW_RECORD && Confused(block, o)
    ensures var next := Flush(After(st, block)); next.offers == st.offers && next.malformed > st.malformed
  {
    ConfusedRead(st, block, |block|, o);
    assert block[..|block|] == block;
    var next := After(st, block);
    var v, w :| VersionIn(block, v) && VersionIn(block, w) && v != "" && w != "" && !EqualFold(v, w);
    hide After, Belongs, Trim;
    if next.current.conflicts == 0 {
      FoldSame(next.current.offer.version, v);
      FoldSame(next.current.offer.version, w);
      assert false;
    }
  }
}
