/** What actions and plans do next, given the answers so far. */
module RetrySteps {
  import opened RetryModel

  datatype Next = Nothing | Do(c: Command)

  /** Attempts together: the last one's verdict, and everything any of them said. */
  function Together(answers: seq<Result>): Result
    requires answers != []
  {
    var last := answers[|answers| - 1];
    Result(last.ok, last.code, set a, word | a in answers && word in a.says :: word)
  }

  function Answers(w: World, h: seq<Command>, t: seq<Command>): seq<Result> {
    seq(|t|, i requires 0 <= i < |t| => w.respond(h + t[..i + 1]))
  }

  /** How often the command has run since the sources were last touched. */
  function Tries(t: seq<Command>, c: Command): nat {
    if t == [] || t[|t| - 1] != c then 0 else 1 + Tries(t[..|t| - 1], c)
  }

  /** What a result asks for, in terms of the phrases heard. */
  predicate BlamesSources(r: Result) { !r.ok && SourceFailure in r.says }
  predicate MayPass(r: Result) { !r.ok && (TransientWord !in r.says ==> r.code == TransientCode) }
  predicate AsksForUnknown(r: Result) {
    !r.ok && r.code !in {Cancelled, TimedOut} && (UnknownHint in r.says || {UnknownWord, VersionWord} <= r.says)
  }
  predicate AsksForPinned(r: Result) { !r.ok && r.code !in {Cancelled, TimedOut} && PinnedWord in r.says }
  predicate AsksForRepair(r: Result) { !r.ok && (TechnologyMismatch !in r.says ==> NoApplicableUpgrade in r.says) }

  lemma Asking(r: Result)
    ensures BlamesSources(r) <==> SourceFailed(r)
    ensures MayPass(r) <==> Transient(r)
    ensures AsksForUnknown(r) <==> WantsUnknown(r)
    ensures AsksForPinned(r) <==> WantsPinned(r)
    ensures AsksForRepair(r) <==> NeedsRepair(r)
  {
  }

  // ---------------------------------------------------------------- one action

  /** The command an action runs after those in `t`, or nothing: the sources are updated
      after a first failure that blames them, and reset if updating them fails likewise;
      once they are in order the command runs again; a transient failure is retried
      until the third attempt since then. */
  function Due(w: World, h: seq<Command>, t: seq<Command>, c: Command): Next {
    if t == [] then Do(c)
    else
      var last, own := t[|t| - 1], w.respond(h + t);
      if last == SourceUpdate then
        if w.cancelled(h + t, 1) then Nothing
        else if own.ok then Do(c)
        else if BlamesSources(own) then Do(SourceReset) else Nothing
      else if last == SourceReset then
        if !w.cancelled(h + t, 2) && own.ok then Do(c) else Nothing
      else if own.ok || (|t| == 1 && w.cancelled(h + t, 0)) then Nothing
      else if |t| == 1 && BlamesSources(own) then Do(SourceUpdate)
      else if MayPass(Together(Answers(w, h, t))) && Tries(t, c) < 3 && !w.cancelled(h + t, 3) && w.waits(h + t)
      then Do(c) else Nothing
  }

  /** Every command was due when it ran, and none is due any more. */
  ghost predicate AsDue(w: World, h: seq<Command>, t: seq<Command>, c: Command) {
    (forall n | 0 <= n < |t| :: Due(w, h, t[..n], c) == Do(t[n])) && Due(w, h, t, c) == Nothing
  }

  ghost predicate DueFrom(w: World, h: seq<Command>, t: seq<Command>, c: Command, from: nat) {
    forall n | from <= n < |t| :: Due(w, h, t[..n], c) == Do(t[n])
  }

  lemma TogetherGrows(answers: seq<Result>, a: Result)
    requires answers != []
    ensures Together(answers + [a]) == Merge(Together(answers), a)
  {
    var more := answers + [a];
    forall x ensures x in more <==> x in answers || x == a {}
    assert Together(more).says == Together(answers).says + a.says;
  }

  lemma AnswersGrow(w: World, h: seq<Command>, t: seq<Command>, x: Command)
    ensures Answers(w, h, t + [x]) == Answers(w, h, t) + [w.respond(h + t + [x])]
  {
    assert h + (t + [x]) == h + t + [x];
    var more := t + [x];
    forall i: nat | i < |t| ensures Answers(w, h, more)[i] == Answers(w, h, t)[i] {
      assert more[..i + 1] == t[..i + 1];
    }
    assert more[..|t| + 1] == more;
  }

  /** The state of an action after the commands in `t`. */
  predicate Stands(w: World, h: seq<Command>, t: seq<Command>, so: Run) {
    t != [] && so.h == h + t && so.r == Together(Answers(w, h, t))
  }

  lemma StandsAfter(w: World, h: seq<Command>, t: seq<Command>, so: Run, x: Command)
    requires Stands(w, h, t, so)
    ensures Stands(w, h, t + [x], More(w, so, x))
    ensures w.respond(so.h + [x]) == w.respond(h + (t + [x]))
  {
    AnswersGrow(w, h, t, x);
    TogetherGrows(Answers(w, h, t), w.respond(h + t + [x]));
    assert h + (t + [x]) == h + t + [x];
  }

  lemma LastAnswer(w: World, h: seq<Command>, t: seq<Command>)
    requires t != []
    ensures Together(Answers(w, h, t)).ok == w.respond(h + t).ok
  {
    assert t[..|t| - 1 + 1] == t;
  }

  lemma DueGrows(w: World, h: seq<Command>, t: seq<Command>, c: Command, from: nat, x: Command)
    requires DueFrom(w, h, t, c, from) && Due(w, h, t, c) == Do(x)
    ensures DueFrom(w, h, t + [x], c, from)
  {
    hide Due;
    forall n | from <= n < |t + [x]| ensures Due(w, h, (t + [x])[..n], c) == Do((t + [x])[n]) {
      assert (t + [x])[..n] == t[..n];
      if n == |t| { assert t[..n] == t; }
    }
  }

  /** After an attempt of the command itself, another is due just while retrying goes on. */
  lemma RetryIsDue(w: World, h: seq<Command>, t: seq<Command>, c: Command, so: Run)
    requires (c.Upgrade? || c == ForcedInstall) && Stands(w, h, t, so) && t[|t| - 1] == c
    requires |t| == 1 && !so.r.ok ==> !w.cancelled(so.h, 0) && !SourceFailed(w.respond(so.h))
    ensures so.r.ok == w.respond(so.h).ok
    ensures Due(w, h, t, c) ==
      if so.r.ok || Tries(t, c) >= 3 || w.cancelled(so.h, 3) || !Transient(so.r) || !w.waits(so.h) then Nothing
      else Do(c)
  {
    LastAnswer(w, h, t);
    hide Answers, Together, Tries;
  }

  /** The retries of a command are those that are due. */
  lemma RetriesAreDue(w: World, h: seq<Command>, t: seq<Command>, c: Command, so: Run, attempt: nat)
    returns (end: seq<Command>)
    requires (c.Upgrade? || c == ForcedInstall) && Stands(w, h, t, so) && DueFrom(w, h, t, c, 0)
    requires t[|t| - 1] == c && Tries(t, c) == attempt - 1 && 2 <= attempt <= MAX_ATTEMPTS + 1
    requires |t| == 1 && !so.r.ok ==> !w.cancelled(so.h, 0) && !SourceFailed(w.respond(so.h))
    ensures AsDue(w, h, end, c) && Stands(w, h, end, RetryTransient(w, so, c, attempt))
    decreases MAX_ATTEMPTS + 1 - attempt
  {
    RetryIsDue(w, h, t, c, so);
    assert (t + [c])[..|t|] == t;
    assert Tries(t + [c], c) == attempt;
    assert t != [];
    hide Due, Stands, Tries, Transient;
    if attempt > MAX_ATTEMPTS || so.r.ok || w.cancelled(so.h, 3) || !Transient(so.r) || !w.waits(so.h) {
      end := t;
    } else {
      StandsAfter(w, h, t, so, c);
      DueGrows(w, h, t, c, 0, c);
      hide DueFrom;
      end := RetriesAreDue(w, h, t + [c], c, More(w, so, c), attempt + 1);
    }
  }

  lemma SourcesAreDue(w: World, h: seq<Command>, c: Command, first: Run) returns (end: seq<Command>)
    requires (c.Upgrade? || c == ForcedInstall) && Stands(w, h, [c], first) && DueFrom(w, h, [c], c, 0)
    requires first.r == w.respond(h + [c]) && SourceFailed(first.r) && !w.cancelled(h + [c], 0)
    ensures AsDue(w, h, end, c) && Stands(w, h, end, Refresh(w, first, c))
  {
    var updated := More(w, first, SourceUpdate);
    StandsAfter(w, h, [c], first, SourceUpdate);
    DueGrows(w, h, [c], c, 0, SourceUpdate);
    assert [c] + [SourceUpdate] == [c, SourceUpdate];
    var u := w.respond(updated.h);
    if w.cancelled(updated.h, 1) || (!u.ok && !SourceFailed(u)) {
      end := [c, SourceUpdate];
    } else if u.ok {
      end := AgainAfter(w, h, c, [c, SourceUpdate], updated);
    } else {
      end := ResetIsDue(w, h, c, updated);
    }
  }

  lemma ResetIsDue(w: World, h: seq<Command>, c: Command, updated: Run) returns (end: seq<Command>)
    requires (c.Upgrade? || c == ForcedInstall) && Stands(w, h, [c, SourceUpdate], updated)
    requires DueFrom(w, h, [c, SourceUpdate], c, 0) && SourceFailed(w.respond(updated.h)) && !w.cancelled(updated.h, 1)
    ensures var reset := More(w, updated, SourceReset);
      AsDue(w, h, end, c)
      && Stands(w, h, end, if w.cancelled(reset.h, 2) || !w.respond(reset.h).ok then reset
                           else RetryTransient(w, More(w, reset, c), c, 2))
  {
    var reset, t := More(w, updated, SourceReset), [c, SourceUpdate, SourceReset];
    StandsAfter(w, h, [c, SourceUpdate], updated, SourceReset);
    DueGrows(w, h, [c, SourceUpdate], c, 0, SourceReset);
    assert [c, SourceUpdate] + [SourceReset] == t;
    if w.cancelled(reset.h, 2) || !w.respond(reset.h).ok { end := t; } else { end := AgainAfter(w, h, c, t, reset); }
  }

  /** The command runs again once the sources are in order. */
  lemma AgainAfter(w: World, h: seq<Command>, c: Command, t: seq<Command>, so: Run) returns (end: seq<Command>)
    requires (c.Upgrade? || c == ForcedInstall) && Stands(w, h, t, so) && DueFrom(w, h, t, c, 0)
    requires t[|t| - 1] != c && Due(w, h, t, c) == Do(c)
    ensures AsDue(w, h, end, c) && Stands(w, h, end, RetryTransient(w, More(w, so, c), c, 2))
  {
    StandsAfter(w, h, t, so, c);
    DueGrows(w, h, t, c, 0, c);
    assert (t + [c])[..|t|] == t;
    hide Due, DueFrom, Stands;
    end := RetriesAreDue(w, h, t + [c], c, More(w, so, c), 2);
  }

  /** An action runs the commands that are due, to the end, and its result is that of all
      of them together. */
  lemma ActionsDoWhatIsDue(w: World, h: seq<Command>, c: Command) returns (t: seq<Command>)
    requires c.Upgrade? || c == ForcedInstall
    ensures AsDue(w, h, t, c) && Stands(w, h, t, Act(w, h, c))
  {
    var first := Run(w.respond(h + [c]), h + [c]);
    assert [c][..0] == [] && [c][..1] == [c];
    assert Stands(w, h, [c], first) by {
      assert first.r.says == Together(Answers(w, h, [c])).says;
    }
    assert Tries([c], c) == 1 by { assert Tries([c][..0], c) == 0; }
    assert DueFrom(w, h, [c], c, 0);
    if first.r.ok || w.cancelled(first.h, 0) {
      t := [c];
    } else if SourceFailed(first.r) {
      t := SourcesAreDue(w, h, c, first);
    } else {
      t := RetriesAreDue(w, h, [c], c, first, 2);
    }
  }

  /** There is only one way to do what is due. */
  lemma DueDecides(w: World, h: seq<Command>, c: Command, s: seq<Command>, t: seq<Command>)
    requires AsDue(w, h, s, c) && AsDue(w, h, t, c)
    ensures s == t
  {
    hide Due;
    SharedStart(w, h, c, s, t, if |s| < |t| then |s| else |t|);
    assert s[..|s|] == s && t[..|t|] == t;
  }

  lemma {:induction false} SharedStart(w: World, h: seq<Command>, c: Command, s: seq<Command>, t: seq<Command>, n: nat)
    requires AsDue(w, h, s, c) && AsDue(w, h, t, c) && n <= |s| && n <= |t|
    ensures s[..n] == t[..n]
  {
    hide Due;
    if n > 0 {
      SharedStart(w, h, c, s, t, n - 1);
      assert s[..n] == s[..n - 1] + [s[n - 1]] && t[..n] == t[..n - 1] + [t[n - 1]];
    }
  }

  // ---------------------------------------------------------------- a plan

  /** The action a plan calls after one that answered `own`, all answers together being
      `r`: first what the output asks for and the user allows, unknown versions before
      pinned ones, then a forced upgrade, then the forced install. */
  function DueCall(plan: Plan, last: Command, own: Result, r: Result): Next {
    if own.ok || !last.Upgrade? then Nothing
    else if Force in last.flags then
      if AsksForRepair(own) && plan.hasForcedInstall then Do(ForcedInstall) else Nothing
    else if last.flags == [] && AsksForUnknown(r) then
      if plan.allowUnknown then Do(Upgrade([IncludeUnknown])) else Nothing
    else if IncludePinned !in last.flags && AsksForPinned(r) then
      if plan.allowPinned then Do(Upgrade(last.flags + [IncludePinned])) else Nothing
    else if AsksForRepair(r) then Do(Upgrade(last.flags + [Force])) else Nothing
  }

  /** Between two actions the plan looks whether it was cancelled: after a retry, before
      the next, before the forced upgrade and before the forced install. */
  predicate GoesOn(w: World, h: seq<Command>, last: Command, first: bool, next: Command)
    requires last.Upgrade?
  {
    && (!first && Force !in last.flags ==> !w.cancelled(h, 5))
    && (next.Upgrade? ==> !w.cancelled(h, if Force in next.flags then 6 else 4))
    && (next == ForcedInstall ==> !w.cancelled(h, 7))
  }

  /** The action at `i` was due after the one before, and the plan had not been cancelled. */
  ghost predicate Follows(w: World, plan: Plan, calls: seq<Command>, results: seq<Result>, at: seq<seq<Command>>,
                          i: nat)
    requires 0 < i < |calls| <= |results| && |calls| < |at|
  {
    && DueCall(plan, calls[i - 1], results[i - 1], Together(results[..i])) == Do(calls[i])
    && calls[i - 1].Upgrade? && GoesOn(w, at[i], calls[i - 1], i == 1, calls[i])
  }

  /** The actions called so far were due, none came after a cancellation, each ran where
      the one before stopped, and the plan's result is that of all of them together. */
  ghost predicate CalledAsDue(w: World, plan: Plan, p: Progress, at: seq<seq<Command>>) {
    && |p.calls| == |p.results| == |at| - 1 && p.calls != [] && p.calls[0] == Upgrade([])
    && at[0] == [] && at[|p.calls|] == p.h && p.r == Together(p.results)
    && (forall i | 0 <= i < |p.calls| :: Act(w, at[i], p.calls[i]) == Run(p.results[i], at[i + 1]))
    && (forall i | 0 < i < |p.calls| :: Follows(w, plan, p.calls, p.results, at, i))
  }

  lemma FollowsStill(w: World, plan: Plan, calls: seq<Command>, results: seq<Result>, at: seq<seq<Command>>, i: nat,
                     c: Command, r: Result, h: seq<Command>)
    requires 0 < i < |calls| == |results| && |at| == |calls| + 1 && Follows(w, plan, calls, results, at, i)
    ensures Follows(w, plan, calls + [c], results + [r], at + [h], i)
  {
    hide DueCall, Together, GoesOn;
    assert (results + [r])[..i] == results[..i];
  }

  lemma NewFollows(w: World, plan: Plan, p: Progress, at: seq<seq<Command>>, c: Command, r: Result, h: seq<Command>)
    requires CalledAsDue(w, plan, p, at) && NextIs(plan, p, Do(c))
    requires var last := p.calls[|p.calls| - 1]; last.Upgrade? && GoesOn(w, p.h, last, |p.calls| == 1, c)
    ensures Follows(w, plan, p.calls + [c], p.results + [r], at + [h], |p.calls|)
  {
    hide Act, DueCall, Together, GoesOn, Follows;
    assert (p.results + [r])[..|p.calls|] == p.results;
    assert (at + [h])[|p.calls|] == p.h;
    FollowsIs(w, plan, p.calls + [c], p.results + [r], at + [h], |p.calls|);
  }

  lemma FollowsIs(w: World, plan: Plan, calls: seq<Command>, results: seq<Result>, at: seq<seq<Command>>, i: nat)
    requires 0 < i < |calls| <= |results| && |calls| < |at|
    requires DueCall(plan, calls[i - 1], results[i - 1], Together(results[..i])) == Do(calls[i])
    requires calls[i - 1].Upgrade? && GoesOn(w, at[i], calls[i - 1], i == 1, calls[i])
    ensures Follows(w, plan, calls, results, at, i)
  {
  }

  predicate NextIs(plan: Plan, p: Progress, next: Next)
    requires p.calls != [] && |p.calls| == |p.results|
  {
    DueCall(plan, p.calls[|p.calls| - 1], p.results[|p.results| - 1], p.r) == next
  }

  lemma CallIsDue(w: World, plan: Plan, p: Progress, at: seq<seq<Command>>, c: Command, q: Progress)
    returns (at': seq<seq<Command>>)
    requires CalledAsDue(w, plan, p, at) && NextIs(plan, p, Do(c)) && q == Called(w, p, c)
    requires var last := p.calls[|p.calls| - 1]; last.Upgrade? && GoesOn(w, p.h, last, |p.calls| == 1, c)
    ensures CalledAsDue(w, plan, q, at') && at' == at + [q.h]
  {
    at' := at + [q.h];
    var r := Act(w, p.h, c).r;
    TogetherGrows(p.results, r);
    NewFollows(w, plan, p, at, c, r, q.h);
    hide Act, Follows, Together, NextIs, GoesOn;
    forall i | 0 < i < |q.calls| ensures Follows(w, plan, q.calls, q.results, at', i) {
      if i < |p.calls| { FollowsStill(w, plan, p.calls, p.results, at, i, c, r, q.h); }
    }
  }

  /** Nothing more is due, or the plan was cancelled. */
  ghost predicate Rests(w: World, plan: Plan, p: Progress)
    requires p.calls != [] && |p.calls| == |p.results|
  {
    NextIs(plan, p, Nothing) || exists site | 4 <= site <= 8 :: w.cancelled(p.h, site)
  }

  lemma CancelledRests(w: World, plan: Plan, p: Progress, site: nat)
    requires p.calls != [] && |p.calls| == |p.results| && w.cancelled(p.h, site) && 4 <= site <= 8
    ensures Rests(w, plan, p)
  {
  }

  lemma SuccessRests(w: World, plan: Plan, p: Progress, at: seq<seq<Command>>)
    requires CalledAsDue(w, plan, p, at) && p.r.ok
    ensures Rests(w, plan, p)
  {
    hide Act;
  }

  /** The flags in force are those of the last upgrade called, and nobody cancelled since. */
  predicate InForce(w: World, p: Progress) {
    && p.calls != [] && p.calls[|p.calls| - 1] == Upgrade(p.flags) && Force !in p.flags
    && (|p.calls| > 1 ==> !w.cancelled(p.h, 5))
  }

  lemma StageOne(w: World, plan: Plan, p: Progress, at: seq<seq<Command>>, q: Progress)
    returns (at': seq<seq<Command>>)
    requires CalledAsDue(w, plan, p, at) && InForce(w, p) && p.flags == [] && !p.over
    requires q == RetryWith(w, p, WantsUnknown(p.r), IncludeUnknown, plan.allowUnknown, UnknownNeedsConsent)
    ensures CalledAsDue(w, plan, q, at') && (q.over ==> Rests(w, plan, q))
    ensures !q.over ==> InForce(w, q) && (q.flags == [] || q.flags == [IncludeUnknown])
    ensures !q.over ==> (q.flags == [] ==> !WantsUnknown(q.r))
  {
    assert p.flags + [IncludeUnknown] == [IncludeUnknown];
    Asking(p.r);
    assert WantsUnknown(p.r) ==> NextIs(plan, p, if plan.allowUnknown then Do(Upgrade([IncludeUnknown])) else Nothing)
    by { hide Act; }
    at' := Stage(w, plan, p, at, WantsUnknown(p.r), IncludeUnknown, plan.allowUnknown, UnknownNeedsConsent, q);
    hide CalledAsDue, RetryWith, Rests, WantsUnknown, NextIs;
  }

  /** A stage retries when that is due, and otherwise changes nothing but the note. */
  lemma Stage(w: World, plan: Plan, p: Progress, at: seq<seq<Command>>, wanted: bool, flag: Flag, allowed: bool,
              refusal: Note, q: Progress)
    returns (at': seq<seq<Command>>)
    requires CalledAsDue(w, plan, p, at) && InForce(w, p) && flag != Force
    requires wanted ==> NextIs(plan, p, if allowed then Do(Upgrade(p.flags + [flag])) else Nothing)
    requires q == RetryWith(w, p, wanted, flag, allowed, refusal)
    ensures CalledAsDue(w, plan, q, at') && (q.over ==> p.over || Rests(w, plan, q))
    ensures !q.over ==> if wanted then InForce(w, q) && q.flags == p.flags + [flag] else q == p
  {
    hide Act, DueCall;
    at' := at;
    if wanted && w.cancelled(p.h, 4) {
      CancelledRests(w, plan, q, 4);
    } else if wanted && allowed {
      var up := Upgrade(p.flags + [flag]);
      var called := Called(w, p, up);
      at' := CallIsDue(w, plan, p, at, up, called);
      assert q == called.(flags := p.flags + [flag], over := q.over);
      SameCalls(w, plan, called, q, at');
      hide Called, Together, NextIs;
      if q.r.ok { SuccessRests(w, plan, q, at'); } else if w.cancelled(q.h, 5) { CancelledRests(w, plan, q, 5); }
    }
  }

  lemma SameCalls(w: World, plan: Plan, p: Progress, q: Progress, at: seq<seq<Command>>)
    requires CalledAsDue(w, plan, p, at)
    requires p.calls == q.calls && p.results == q.results && p.h == q.h && p.r == q.r
    ensures CalledAsDue(w, plan, q, at)
  {
    hide Act, DueCall, Together;
  }

  lemma StageTwo(w: World, plan: Plan, p: Progress, at: seq<seq<Command>>, q: Progress)
    returns (at': seq<seq<Command>>)
    requires CalledAsDue(w, plan, p, at) && InForce(w, p) && IncludePinned !in p.flags && !p.over
    requires p.flags == [] ==> !WantsUnknown(p.r)
    requires q == RetryWith(w, p, WantsPinned(p.r), IncludePinned, plan.allowPinned, PinnedNeedsConsent)
    ensures CalledAsDue(w, plan, q, at') && (q.over ==> Rests(w, plan, q))
    ensures !q.over ==> InForce(w, q) && (IncludePinned in q.flags || !WantsPinned(q.r))
    ensures !q.over ==> (q.flags == [] ==> !WantsUnknown(q.r))
  {
    Asking(p.r);
    assert WantsPinned(p.r) ==>
        NextIs(plan, p, if plan.allowPinned then Do(Upgrade(p.flags + [IncludePinned])) else Nothing)
    by { hide Act; }
    at' := Stage(w, plan, p, at, WantsPinned(p.r), IncludePinned, plan.allowPinned, PinnedNeedsConsent, q);
    hide CalledAsDue, RetryWith, Rests, WantsUnknown, WantsPinned, NextIs;
  }

  lemma StageThree(w: World, plan: Plan, p: Progress, at: seq<seq<Command>>, q: Progress)
    returns (at': seq<seq<Command>>)
    requires CalledAsDue(w, plan, p, at) && InForce(w, p) && (IncludePinned in p.flags || !WantsPinned(p.r))
    requires p.flags == [] ==> !WantsUnknown(p.r)
    requires q == ForceRepair(w, p, plan)
    ensures CalledAsDue(w, plan, q, at') && Rests(w, plan, q)
  {
    hide Act;
    at' := at;
    if !NeedsRepair(p.r) {
    } else if w.cancelled(p.h, 6) {
      CancelledRests(w, plan, p, 6);
    } else {
      var up := Upgrade(p.flags + [Force]);
      var forced := Called(w, p, up);
      assert NextIs(plan, p, Do(up));
      at' := CallIsDue(w, plan, p, at, up, forced);
      hide WantsUnknown, WantsPinned, NeedsRepair;
      assert NeedsRepair(p.r) && !w.cancelled(p.h, 6);
      at' := LastResort(w, plan, p, forced, at', q);
    }
  }

  /** After a forced upgrade only the forced install is left. */
  lemma LastResort(w: World, plan: Plan, p: Progress, forced: Progress, at: seq<seq<Command>>, q: Progress)
    returns (at': seq<seq<Command>>)
    requires NeedsRepair(p.r) && !w.cancelled(p.h, 6) && forced == Called(w, p, Upgrade(p.flags + [Force]))
    requires CalledAsDue(w, plan, forced, at) && q == ForceRepair(w, p, plan)
    ensures CalledAsDue(w, plan, q, at') && Rests(w, plan, q)
  {
    hide Act;
    at' := at;
    var own := forced.results[|forced.results| - 1];
    assert forced.calls[|forced.calls| - 1] == Upgrade(p.flags + [Force]);
    if !own.ok && w.cancelled(forced.h, 7) {
      CancelledRests(w, plan, q, 7);
    } else if !own.ok && NeedsRepair(own) && plan.hasForcedInstall {
      assert NextIs(plan, forced, Do(ForcedInstall));
      var installed := Called(w, forced, ForcedInstall);
      at' := CallIsDue(w, plan, forced, at, ForcedInstall, installed);
      SameCalls(w, plan, installed, q, at');
      assert NextIs(plan, q, Nothing);
    } else {
      SameCalls(w, plan, forced, q, at');
      assert NextIs(plan, q, Nothing);
    }
  }

  /** Whatever the commands answer and wherever it is cancelled: a plan calls the actions
      that are due, each where the one before stopped, and stops before nothing is due any
      more only if it was cancelled. */
  lemma PlansDoWhatIsDue(w: World, plan: Plan) returns (at: seq<seq<Command>>)
    ensures var p := RunPlan(w, plan); CalledAsDue(w, plan, p, at) && Rests(w, plan, p)
  {
    hide Act, RetryWith, ForceRepair;
    var p0 := Start(w);
    at := [[], p0.h];
    assert p0.r.says == Together(p0.results).says;
    var p1 := RetryWith(w, p0, WantsUnknown(p0.r), IncludeUnknown, plan.allowUnknown, UnknownNeedsConsent);
    at := StageOne(w, plan, p0, at, p1);
    if !p1.over {
      var p2 := RetryWith(w, p1, WantsPinned(p1.r), IncludePinned, plan.allowPinned, PinnedNeedsConsent);
      at := StageTwo(w, plan, p1, at, p2);
      if !p2.over { at := StageThree(w, plan, p2, at, ForceRepair(w, p2, plan)); }
    }
  }

  /** Only a plan that failed asks for consent. */
  lemma SuccessAsksForNothing(w: World, plan: Plan)
    ensures RunPlan(w, plan).note != NoNote ==> !RunPlan(w, plan).r.ok
  {
    hide Act;
  }
}
