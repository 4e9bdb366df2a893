/** Package actions and WinGet upgrade plans against command results nobody controls. */
module RetryModel {
  datatype Flag = IncludeUnknown | IncludePinned | Force
  datatype Command = Upgrade(flags: seq<Flag>) | ForcedInstall | SourceUpdate | SourceReset

  /** The phrases a command's output is searched for. */
  datatype Word =
    | SourceFailure | UnknownHint | UnknownWord | VersionWord | PinnedWord
    | TechnologyMismatch | NoApplicableUpgrade | TransientWord

  datatype Code = Plain | TransientCode | Cancelled | TimedOut
  datatype Result = Result(ok: bool, code: Code, says: set<Word>)

  /** What every command answers, and where cancellation is noticed, may depend on all
      commands run before; `site` tells apart the places that ask. */
  datatype World = World(respond: seq<Command> -> Result, cancelled: (seq<Command>, nat) -> bool,
                         waits: seq<Command> -> bool)

  const MAX_ATTEMPTS := 3

  /** The final attempt decides; its output is added to what was said before. */
  function Merge(previous: Result, final: Result): Result { final.(says := previous.says + final.says) }

  predicate SourceFailed(r: Result) { !r.ok && SourceFailure in r.says }
  predicate Transient(r: Result) { !r.ok && (TransientWord in r.says || r.code == TransientCode) }
  predicate Retryable(r: Result) { !r.ok && r.code != Cancelled && r.code != TimedOut }

  predicate WantsUnknown(r: Result) {
    Retryable(r) && (UnknownHint in r.says || (UnknownWord in r.says && VersionWord in r.says))
  }

  predicate WantsPinned(r: Result) { Retryable(r) && PinnedWord in r.says }
  predicate NeedsRepair(r: Result) { !r.ok && (TechnologyMismatch in r.says || NoApplicableUpgrade in r.says) }

  // ---------------------------------------------------------------- one action

  /** The outcome of an action: its merged result and all commands run so far. */
  datatype Run = Run(r: Result, h: seq<Command>)

  function More(w: World, so: Run, c: Command): Run { Run(Merge(so.r, w.respond(so.h + [c])), so.h + [c]) }

  function RetryTransient(w: World, so: Run, c: Command, attempt: nat): Run
    decreases MAX_ATTEMPTS + 1 - attempt
  {
    if attempt > MAX_ATTEMPTS || so.r.ok || w.cancelled(so.h, 3) || !Transient(so.r) || !w.waits(so.h) then so
    else RetryTransient(w, More(w, so, c), c, attempt + 1)
  }

  /** Refreshes the package sources, then tries again. */
  function Refresh(w: World, so: Run, c: Command): Run {
    var updated := More(w, so, SourceUpdate);
    var u := w.respond(updated.h);
    if w.cancelled(updated.h, 1) then updated
    else if u.ok then RetryTransient(w, More(w, updated, c), c, 2)
    else if !SourceFailed(u) then updated
    else
      var reset := More(w, updated, SourceReset);
      if w.cancelled(reset.h, 2) || !w.respond(reset.h).ok then reset
      else RetryTransient(w, More(w, reset, c), c, 2)
  }

  function Act(w: World, h: seq<Command>, c: Command): Run {
    var first := Run(w.respond(h + [c]), h + [c]);
    if first.r.ok || w.cancelled(first.h, 0) then first
    else if SourceFailed(first.r) then Refresh(w, first, c)
    else RetryTransient(w, first, c, 2)
  }

  method RunAction(w: World, h: seq<Command>, c: Command) returns (run: Run)
    ensures run == Act(w, h, c)
  {
    run := Run(w.respond(h + [c]), h + [c]);
    if run.r.ok || w.cancelled(run.h, 0) { return; }
    if SourceFailed(run.r) {
      run := More(w, run, SourceUpdate);
      var update := w.respond(run.h);
      if w.cancelled(run.h, 1) { return; }
      if !update.ok {
        if !SourceFailed(update) { return; }
        run := More(w, run, SourceReset);
        if w.cancelled(run.h, 2) || !w.respond(run.h).ok { return; }
      }
      run := More(w, run, c);
    }
    ghost var start := run;
    for attempt := 2 to MAX_ATTEMPTS + 1
      invariant RetryTransient(w, run, c, attempt) == RetryTransient(w, start, c, 2)
    {
      if run.r.ok || w.cancelled(run.h, 3) || !Transient(run.r) { return; }
      if !w.waits(run.h) { return; }
      run := More(w, run, c);
    }
  }

  // ---------------------------------------------------------------- an upgrade plan

  datatype Plan = Plan(allowUnknown: bool, allowPinned: bool, hasForcedInstall: bool)
  datatype Note = NoNote | UnknownNeedsConsent | PinnedNeedsConsent | RepairNeedsConsent

  /** The plan's merged result, every command run, the actions called with their own
      results, the include flags in force, and whether the plan is over. */
  datatype Progress = Progress(r: Result, h: seq<Command>, calls: seq<Command>, results: seq<Result>, flags: seq<Flag>,
                               note: Note, over: bool)

  function Called(w: World, p: Progress, c: Command): Progress {
    var run := Act(w, p.h, c);
    p.(r := Merge(p.r, run.r), h := run.h, calls := p.calls + [c], results := p.results + [run.r])
  }

  function Start(w: World): Progress {
    var run := Act(w, [], Upgrade([]));
    Progress(run.r, run.h, [Upgrade([])], [run.r], [], NoNote, false)
  }

  function RetryWith(w: World, p: Progress, wanted: bool, flag: Flag, allowed: bool, refusal: Note): Progress {
    if !wanted then p
    else if w.cancelled(p.h, 4) then p.(over := true)
    else if !allowed then p.(note := refusal, over := true)
    else
      var next := Called(w, p.(flags := p.flags + [flag]), Upgrade(p.flags + [flag]));
      next.(over := next.r.ok || w.cancelled(next.h, 5))
  }

  function ForceRepair(w: World, p: Progress, plan: Plan): Progress {
    if !NeedsRepair(p.r) || w.cancelled(p.h, 6) then p
    else
      var forced := Called(w, p, Upgrade(p.flags + [Force]));
      var own := forced.results[|forced.results| - 1];
      if own.ok || w.cancelled(forced.h, 7) then forced
      else if NeedsRepair(own) && plan.hasForcedInstall then
        var installed := Called(w, forced, ForcedInstall);
        if installed.r.ok || w.cancelled(installed.h, 8) then installed else installed.(note := RepairNeedsConsent)
      else forced.(note := RepairNeedsConsent)
  }

  function RunPlan(w: World, plan: Plan): Progress {
    var p0 := Start(w);
    var p1 := RetryWith(w, p0, WantsUnknown(p0.r), IncludeUnknown, plan.allowUnknown, UnknownNeedsConsent);
    if p1.over then p1
    else
      var p2 := RetryWith(w, p1, WantsPinned(p1.r), IncludePinned, plan.allowPinned, PinnedNeedsConsent);
      if p2.over then p2 else ForceRepair(w, p2, plan)
  }

  method Upgrading(w: World, plan: Plan) returns (p: Progress)
    ensures p == RunPlan(w, plan)
  {
    var run := RunAction(w, [], Upgrade([]));
    p := Progress(run.r, run.h, [Upgrade([])], [run.r], [], NoNote, false);
    var retries := [(IncludeUnknown, plan.allowUnknown, UnknownNeedsConsent),
                    (IncludePinned, plan.allowPinned, PinnedNeedsConsent)];
    ghost var p1 := RetryWith(w, Start(w), WantsUnknown(Start(w).r), IncludeUnknown, plan.allowUnknown,
                              UnknownNeedsConsent);
    ghost var p2 := RetryWith(w, p1, WantsPinned(p1.r), IncludePinned, plan.allowPinned, PinnedNeedsConsent);
    for i := 0 to 2
      invariant p == if i == 0 then Start(w) else if i == 1 then p1 else p2
      invariant !p.over && (i == 2 ==> !p1.over)
    {
      var (flag, allowed, refusal) := retries[i];
      p := RetryIfNeeded(w, p, if i == 0 then WantsUnknown(p.r) else WantsPinned(p.r), flag, allowed, refusal);
      if p.over { return; }
    }
    if !NeedsRepair(p.r) { return; }
    if w.cancelled(p.h, 6) { return; }
    run := RunAction(w, p.h, Upgrade(p.flags + [Force]));
    p := p.(r := Merge(p.r, run.r), h := run.h, calls := p.calls + [Upgrade(p.flags + [Force])],
            results := p.results + [run.r]);
    if run.r.ok || w.cancelled(p.h, 7) { return; }
    if NeedsRepair(run.r) && plan.hasForcedInstall {
      run := RunAction(w, p.h, ForcedInstall);
      p := p.(r := Merge(p.r, run.r), h := run.h, calls := p.calls + [ForcedInstall], results := p.results + [run.r]);
      if run.r.ok || w.cancelled(p.h, 8) { return; }
    }
    p := p.(note := RepairNeedsConsent);
  }

  method RetryIfNeeded(w: World, p: Progress, wanted: bool, flag: Flag, allowed: bool, refusal: Note)
      returns (next: Progress)
    ensures next == RetryWith(w, p, wanted, flag, allowed, refusal)
  {
    next := p;
    if !wanted { return; }
    if w.cancelled(p.h, 4) { return p.(over := true); }
    if !allowed { return p.(note := refusal, over := true); }
    var flags := p.flags + [flag];
    var run := RunAction(w, p.h, Upgrade(flags));
    next := p.(flags := flags, r := Merge(p.r, run.r), h := run.h, calls := p.calls + [Upgrade(flags)],
               results := p.results + [run.r]);
    next := next.(over := run.r.ok || w.cancelled(next.h, 5));
  }
}

module RetryTheorems {
  import opened RetryModel

  function Repeat(c: Command, k: nat): seq<Command> { seq(k, i => c) }

  /** The ways an action can go before transient retries. */
  predicate Core(core: seq<Command>, c: Command) {
    || core == [c] || core == [c, SourceUpdate] || core == [c, SourceUpdate, c]
    || core == [c, SourceUpdate, SourceReset] || core == [c, SourceUpdate, SourceReset, c]
  }

  /** An action runs its command, perhaps refreshes the sources once, resets them only
      after a refresh, and retries its command at most twice more. */
  ghost predicate ActionTrace(t: seq<Command>, c: Command) {
    exists core, k: nat :: TraceOf(t, c, core, k)
  }

  predicate TraceOf(t: seq<Command>, c: Command, core: seq<Command>, k: nat) {
    Core(core, c) && k <= MAX_ATTEMPTS - 1 && t == core + Repeat(c, k) && (k > 0 ==> core[|core| - 1] == c)
  }

  lemma {:induction false} TransientFacts(w: World, so: Run, c: Command, attempt: nat)
    requires so.h != [] && so.r.ok == w.respond(so.h).ok && 2 <= attempt <= MAX_ATTEMPTS + 1
    ensures var end := RetryTransient(w, so, c, attempt);
      && end.r.ok == w.respond(end.h).ok
      && exists k: nat :: k <= MAX_ATTEMPTS + 1 - attempt && end.h == so.h + Repeat(c, k)
    ensures forall n | |so.h| <= n < |RetryTransient(w, so, c, attempt).h| ::
      !w.respond(RetryTransient(w, so, c, attempt).h[..n]).ok
    decreases MAX_ATTEMPTS + 1 - attempt
  {
    var end := RetryTransient(w, so, c, attempt);
    if end == so {
      assert so.h + Repeat(c, 0) == so.h;
    } else {
      TransientFacts(w, More(w, so, c), c, attempt + 1);
      var k: nat :| k <= MAX_ATTEMPTS - attempt && end.h == so.h + [c] + Repeat(c, k);
      assert [c] + Repeat(c, k) == Repeat(c, k + 1);
      assert end.h == so.h + Repeat(c, k + 1);
      assert end.h[..|so.h|] == so.h;
    }
  }

  lemma AfterCore(w: World, h: seq<Command>, c: Command, so: Run, core: seq<Command>)
    requires so.h == h + core && Core(core, c) && core[|core| - 1] == c && so.r.ok == w.respond(so.h).ok
    ensures var end := RetryTransient(w, so, c, 2);
      h <= end.h && end.h != [] && ActionTrace(end.h[|h|..], c) && end.r.ok == w.respond(end.h).ok
          && end.h[|end.h| - 1] == c
    ensures forall n | |so.h| <= n < |RetryTransient(w, so, c, 2).h| ::
      !w.respond(RetryTransient(w, so, c, 2).h[..n]).ok
  {
    TransientFacts(w, so, c, 2);
    var end := RetryTransient(w, so, c, 2);
    var k: nat :| k <= MAX_ATTEMPTS - 1 && end.h == so.h + Repeat(c, k);
    assert end.h == h + (core + Repeat(c, k));
    assert TraceOf(end.h[|h|..], c, core, k);
  }

  /** Every action keeps to the shape, and its verdict is its last command's. */
  lemma ActionsKeepTheShape(w: World, h: seq<Command>, c: Command)
    ensures var run := Act(w, h, c);
      h <= run.h && ActionTrace(run.h[|h|..], c) && run.r.ok == w.respond(run.h).ok
  {
    var first := Run(w.respond(h + [c]), h + [c]);
    if first.r.ok || w.cancelled(first.h, 0) {
      assert TraceOf(first.h[|h|..], c, [c], 0);
    } else if SourceFailed(first.r) {
      RefreshKeepsTheShape(w, h, c, first);
    } else {
      AfterCore(w, h, c, first, [c]);
    }
  }

  lemma RefreshKeepsTheShape(w: World, h: seq<Command>, c: Command, first: Run)
    requires first.h == h + [c]
    ensures var run := Refresh(w, first, c);
      h <= run.h && ActionTrace(run.h[|h|..], c) && run.r.ok == w.respond(run.h).ok
  {
    var updated := More(w, first, SourceUpdate);
    assert updated.h == h + [c, SourceUpdate];
    var reset := More(w, updated, SourceReset);
    assert reset.h == h + [c, SourceUpdate, SourceReset];
    assert TraceOf(updated.h[|h|..], c, [c, SourceUpdate], 0);
    assert TraceOf(reset.h[|h|..], c, [c, SourceUpdate, SourceReset], 0);
    if !w.cancelled(updated.h, 1) {
      if w.respond(updated.h).ok {
        assert More(w, updated, c).h == h + [c, SourceUpdate, c];
        AfterCore(w, h, c, More(w, updated, c), [c, SourceUpdate, c]);
      } else if SourceFailed(w.respond(updated.h)) && !w.cancelled(reset.h, 2) && w.respond(reset.h).ok {
        assert More(w, reset, c).h == h + [c, SourceUpdate, SourceReset, c];
        AfterCore(w, h, c, More(w, reset, c), [c, SourceUpdate, SourceReset, c]);
      }
    }
  }

  /** The sources are touched, and the action ends there although they answered well:
      cancelled after the update, or after the reset that a failed update needed. */
  predicate CancelledAtSources(w: World, h: seq<Command>, c: Command) {
    var update, reset := h + [c, SourceUpdate], h + [c, SourceUpdate, SourceReset];
    && SourceFailed(w.respond(h + [c])) && !w.cancelled(h + [c], 0)
    && (|| (w.respond(update).ok && w.cancelled(update, 1))
        || (!w.cancelled(update, 1) && SourceFailed(w.respond(update)) && w.respond(reset).ok && w.cancelled(reset, 2)))
  }

  /** An action reports another command's success as its own exactly when it is
      cancelled right after a source command that succeeded. */
  lemma SuccessIsTheCommandsOwn(w: World, h: seq<Command>, c: Command)
    requires c.Upgrade? || c == ForcedInstall
    ensures var run := Act(w, h, c);
      run.h != [] && (run.r.ok && run.h[|run.h| - 1] != c <==> CancelledAtSources(w, h, c))
  {
    hide RetryTransient, ActionTrace, TraceOf, Transient;
    var first := Run(w.respond(h + [c]), h + [c]);
    if !first.r.ok && !w.cancelled(first.h, 0) {
      if !SourceFailed(first.r) {
        AfterCore(w, h, c, first, [c]);
      } else {
        OwnAfterRefresh(w, h, c, first);
      }
    }
  }

  lemma OwnAfterRefresh(w: World, h: seq<Command>, c: Command, first: Run)
    requires c.Upgrade? || c == ForcedInstall
    requires first == Run(w.respond(h + [c]), h + [c]) && SourceFailed(first.r) && !w.cancelled(first.h, 0)
    ensures var run := Refresh(w, first, c);
      run.h != [] && (run.r.ok && run.h[|run.h| - 1] != c <==> CancelledAtSources(w, h, c))
  {
    hide RetryTransient, ActionTrace, TraceOf, Transient;
    var updated := More(w, first, SourceUpdate);
    assert updated.h == h + [c, SourceUpdate];
    var reset := More(w, updated, SourceReset);
    assert reset.h == h + [c, SourceUpdate, SourceReset];
    if !w.cancelled(updated.h, 1) {
      if w.respond(updated.h).ok {
        assert More(w, updated, c).h == h + [c, SourceUpdate, c];
        AfterCore(w, h, c, More(w, updated, c), [c, SourceUpdate, c]);
      } else if SourceFailed(w.respond(updated.h)) && !w.cancelled(reset.h, 2) && w.respond(reset.h).ok {
        assert More(w, reset, c).h == h + [c, SourceUpdate, SourceReset, c];
        AfterCore(w, h, c, More(w, reset, c), [c, SourceUpdate, SourceReset, c]);
      }
    }
  }

  lemma TraceBounds(t: seq<Command>, c: Command)
    requires ActionTrace(t, c)
    ensures 1 <= |t| <= 6 && t[0] == c
    ensures forall x | x in t :: x == c || x == SourceUpdate || x == SourceReset
  {
    var core, k: nat :| TraceOf(t, c, core, k);
  }

  // ---------------------------------------------------------------- plans

  ghost predicate Consented(c: Command, plan: Plan) {
    c.Upgrade? ==> (IncludeUnknown in c.flags ==> plan.allowUnknown) && (IncludePinned in c.flags ==> plan.allowPinned)
  }

  /** What holds of a plan after every action. */
  ghost predicate Proper(p: Progress, plan: Plan) {
    && |p.calls| == |p.results| >= 1 && p.calls[0] == Upgrade([])
    && |p.h| <= 6 * |p.calls|
    && p.r.ok == p.results[|p.results| - 1].ok
    && (forall c | c in p.h :: Consented(c, plan)) && (forall c | c in p.calls :: Consented(c, plan))
    && (forall i | 0 <= i < |p.calls| - 1 :: !p.results[i].ok)
    && (IncludeUnknown in p.flags ==> plan.allowUnknown) && (IncludePinned in p.flags ==> plan.allowPinned)
  }

  lemma ProperStep(p: Progress, plan: Plan, c: Command, t: seq<Command>, own: Result)
    requires Proper(p, plan) && !p.r.ok && Consented(c, plan) && |t| <= 6
    requires forall x | x in t :: x == c || x == SourceUpdate || x == SourceReset
    ensures Proper(p.(r := Merge(p.r, own), h := p.h + t, calls := p.calls + [c], results := p.results + [own]), plan)
  {
    assert forall x | x in p.h + t :: x in p.h || x in t;
  }

  lemma CalledIsProper(w: World, p: Progress, plan: Plan, c: Command)
    requires Proper(p, plan) && !p.r.ok && Consented(c, plan)
    ensures var q := Called(w, p, c);
      Proper(q, plan) && q.calls == p.calls + [c] && q.results == p.results + [Act(w, p.h, c).r]
          && q.r.ok == Act(w, p.h, c).r.ok
  {
    ActionsKeepTheShape(w, p.h, c);
    var run := Act(w, p.h, c);
    var t := run.h[|p.h|..];
    TraceBounds(t, c);
    hide Act, ActionTrace, Proper;
    assert run.h == p.h + t;
    ProperStep(p, plan, c, t, run.r);
  }

  lemma StartIsProper(w: World, plan: Plan)
    ensures Proper(Start(w), plan) && Start(w).calls == [Upgrade([])]
  {
    ActionsKeepTheShape(w, [], Upgrade([]));
    TraceBounds(Act(w, [], Upgrade([])).h[0..], Upgrade([]));
  }

  lemma RetryIsProper(w: World, p: Progress, plan: Plan, wanted: bool, flag: Flag, allowed: bool, refusal: Note)
    requires Proper(p, plan) && (wanted ==> !p.r.ok)
    requires (flag == IncludeUnknown && allowed == plan.allowUnknown)
      || (flag == IncludePinned && allowed == plan.allowPinned)
    ensures var q := RetryWith(w, p, wanted, flag, allowed, refusal);
      Proper(q, plan) && p.calls <= q.calls && |q.calls| <= |p.calls| + 1
      && (forall c | c in q.calls && c !in p.calls :: c == Upgrade(p.flags + [flag]))
      && (q.flags == p.flags || q.flags == p.flags + [flag])
  {
    if wanted && !w.cancelled(p.h, 4) && allowed {
      CalledIsProper(w, p.(flags := p.flags + [flag]), plan, Upgrade(p.flags + [flag]));
    }
  }

  /** A forced install comes last, right after a failed forced upgrade that itself
      reported a reason to repair. */
  ghost predicate InstallJustified(calls: seq<Command>, results: seq<Result>)
    requires |calls| == |results|
  {
    forall i | 0 <= i < |calls| && calls[i] == ForcedInstall ::
      i == |calls| - 1 && i > 0 && calls[i - 1].Upgrade? && Force in calls[i - 1].flags && NeedsRepair(results[i - 1])
  }

  ghost predicate NoInstall(calls: seq<Command>) { forall c | c in calls :: c != ForcedInstall }

  lemma NoneIsJustified(calls: seq<Command>, results: seq<Result>)
    requires |calls| == |results| && NoInstall(calls)
    ensures InstallJustified(calls, results)
  {
    forall i | 0 <= i < |calls| ensures calls[i] != ForcedInstall { assert calls[i] in calls; }
  }

  lemma LastIsJustified(calls: seq<Command>, results: seq<Result>, up: Command, own: Result, last: Result)
    requires |calls| == |results| && NoInstall(calls) && up.Upgrade? && Force in up.flags && NeedsRepair(own)
    ensures InstallJustified(calls + [up] + [ForcedInstall], results + [own] + [last])
  {
    forall i | 0 <= i < |calls| ensures calls[i] != ForcedInstall { assert calls[i] in calls; }
  }

  lemma RepairIsProper(w: World, p: Progress, plan: Plan, q: Progress)
    requires Proper(p, plan) && NoInstall(p.calls) && q == ForceRepair(w, p, plan)
    ensures Proper(q, plan) && |q.calls| <= |p.calls| + 2 && InstallJustified(q.calls, q.results)
    ensures ForcedInstall in q.calls ==> plan.hasForcedInstall
  {
    NoneIsJustified(p.calls, p.results);
    if NeedsRepair(p.r) && !w.cancelled(p.h, 6) {
      var up := Upgrade(p.flags + [Force]);
      var forced, own := Called(w, p, up), Act(w, p.h, up).r;
      CalledIsProper(w, p, plan, up);
      NoneIsJustified(forced.calls, forced.results);
      if !own.ok && !w.cancelled(forced.h, 7) && NeedsRepair(own) && plan.hasForcedInstall {
        CalledIsProper(w, forced, plan, ForcedInstall);
        LastIsJustified(p.calls, p.results, up, own, Act(w, forced.h, ForcedInstall).r);
      }
      hide Act, Called, Proper;
    }
  }

  /** Whatever the commands answer: a plan calls at most five actions of at most six
      commands, stops at the first success, passes an include flag only with the
      matching consent, and installs by force only after a failed forced upgrade that
      reported a reason to repair. */
  lemma PlansAreBoundedAndConsented(w: World, plan: Plan)
    ensures var p := RunPlan(w, plan);
      && |p.calls| == |p.results| && 1 <= |p.calls| <= 5 && |p.h| <= 6 * |p.calls|
      && (forall c | c in p.h :: Consented(c, plan))
      && (forall i | 0 <= i < |p.calls| - 1 :: !p.results[i].ok)
      && InstallJustified(p.calls, p.results) && (ForcedInstall in p.calls ==> plan.hasForcedInstall)
      && p.r.ok == p.results[|p.results| - 1].ok
  {
    StartIsProper(w, plan);
    hide Act, Called, RetryWith, ForceRepair;
    var p0 := Start(w);
    RetryIsProper(w, p0, plan, WantsUnknown(p0.r), IncludeUnknown, plan.allowUnknown, UnknownNeedsConsent);
    var p1 := RetryWith(w, p0, WantsUnknown(p0.r), IncludeUnknown, plan.allowUnknown, UnknownNeedsConsent);
    NoneIsJustified(p1.calls, p1.results);
    if !p1.over {
      RetryIsProper(w, p1, plan, WantsPinned(p1.r), IncludePinned, plan.allowPinned, PinnedNeedsConsent);
      var p2 := RetryWith(w, p1, WantsPinned(p1.r), IncludePinned, plan.allowPinned, PinnedNeedsConsent);
      NoneIsJustified(p2.calls, p2.results);
      if !p2.over { RepairIsProper(w, p2, plan, ForceRepair(w, p2, plan)); }
    }
  }

  // ---------------------------------------------------------------- giving up

  /** Nobody cancels, and waiting between attempts succeeds. */
  ghost predicate Undisturbed(w: World) { (forall h, site :: !w.cancelled(h, site)) && forall h :: w.waits(h) }

  lemma TransientGivesUp(w: World, so: Run, c: Command, attempt: nat)
    requires Undisturbed(w) && 2 <= attempt <= MAX_ATTEMPTS + 1
    ensures var end := RetryTransient(w, so, c, attempt);
      end.r.ok || !Transient(end.r) || |end.h| == |so.h| + MAX_ATTEMPTS + 1 - attempt
    decreases MAX_ATTEMPTS + 1 - attempt
  {
    if attempt <= MAX_ATTEMPTS && !so.r.ok && Transient(so.r) { TransientGivesUp(w, More(w, so, c), c, attempt + 1); }
  }

  /** The sources cannot be brought in order: the update failed, for another reason or
      with the reset. */
  predicate SourcesFail(w: World, h: seq<Command>, c: Command) {
    var update, reset := h + [c, SourceUpdate], h + [c, SourceUpdate, SourceReset];
    && SourceFailed(w.respond(h + [c])) && !w.respond(update).ok
    && (!SourceFailed(w.respond(update)) || !w.respond(reset).ok)
  }

  /** An undisturbed action fails only for good: its last result is not transient, or it
      has tried MAX_ATTEMPTS times since the sources were last touched, or the sources
      themselves could not be refreshed. */
  lemma ActionsGiveUpOnlyForGood(w: World, h: seq<Command>, c: Command)
    requires Undisturbed(w) && !Act(w, h, c).r.ok
    ensures !Transient(Act(w, h, c).r) || |Act(w, h, c).h| >= |h| + MAX_ATTEMPTS || SourcesFail(w, h, c)
  {
    var first := Run(w.respond(h + [c]), h + [c]);
    if SourceFailed(first.r) {
      var updated := More(w, first, SourceUpdate);
      var reset := More(w, updated, SourceReset);
      assert updated.h == h + [c, SourceUpdate] && reset.h == h + [c, SourceUpdate, SourceReset];
      TransientGivesUp(w, More(w, updated, c), c, 2);
      TransientGivesUp(w, More(w, reset, c), c, 2);
    } else {
      TransientGivesUp(w, first, c, 2);
    }
  }

  lemma RetryGivesUp(w: World, p: Progress, wanted: bool, flag: Flag, allowed: bool, refusal: Note)
    requires Undisturbed(w) && !p.over
    ensures var q := RetryWith(w, p, wanted, flag, allowed, refusal);
      && (q.over ==> q.r.ok || (wanted && !allowed && q == p.(note := refusal, over := true)))
      && (!q.over ==> q.note == p.note)
  {
    hide Act;
  }

  /** Nothing is left to try. */
  predicate Exhausted(p: Progress, plan: Plan) {
    match p.note
    case UnknownNeedsConsent => !plan.allowUnknown && WantsUnknown(p.r)
    case PinnedNeedsConsent => !plan.allowPinned && WantsPinned(p.r)
    case RepairNeedsConsent =>
      && Upgrade(p.flags + [Force]) in p.calls && p.calls != [] && |p.calls| == |p.results|
      && (p.calls[|p.calls| - 1] == ForcedInstall || !plan.hasForcedInstall || !NeedsRepair(p.results[|p.results| - 1]))
    case NoNote => !NeedsRepair(p.r)
  }

  lemma RepairGivesUp(w: World, p: Progress, plan: Plan)
    requires Undisturbed(w) && |p.calls| == |p.results| && p.note == NoNote && !ForceRepair(w, p, plan).r.ok
    ensures Exhausted(ForceRepair(w, p, plan), plan)
  {
    hide Act;
    var up := Upgrade(p.flags + [Force]);
    var forced := Called(w, p, up);
    assert forced.calls[|p.calls|] == up;
    assert Called(w, forced, ForcedInstall).calls[|p.calls|] == up;
  }

  /** An undisturbed plan that fails has nothing left to try: it lacks the consent for
      what the output asks for, or it has forced the upgrade and, if that asked for
      repair too, the install, or its result asks for no repair. */
  lemma PlansGiveUpOnlyForGood(w: World, plan: Plan)
    requires Undisturbed(w) && !RunPlan(w, plan).r.ok
    ensures Exhausted(RunPlan(w, plan), plan)
  {
    var p0 := Start(w);
    RetryGivesUp(w, p0, WantsUnknown(p0.r), IncludeUnknown, plan.allowUnknown, UnknownNeedsConsent);
    StartIsProper(w, plan);
    RetryIsProper(w, p0, plan, WantsUnknown(p0.r), IncludeUnknown, plan.allowUnknown, UnknownNeedsConsent);
    var p1 := RetryWith(w, p0, WantsUnknown(p0.r), IncludeUnknown, plan.allowUnknown, UnknownNeedsConsent);
    if !p1.over {
      hide Act, Called, RetryWith, ForceRepair, WantsUnknown;
      RetryGivesUp(w, p1, WantsPinned(p1.r), IncludePinned, plan.allowPinned, PinnedNeedsConsent);
      RetryIsProper(w, p1, plan, WantsPinned(p1.r), IncludePinned, plan.allowPinned, PinnedNeedsConsent);
      var p2 := RetryWith(w, p1, WantsPinned(p1.r), IncludePinned, plan.allowPinned, PinnedNeedsConsent);
      if !p2.over { RepairGivesUp(w, p2, plan); }
    }
  }

  /** A cancelled action can report success although its command failed: the source
      update's success stands in for it. */
  lemma CancelledUpdateReportsSuccess(w: World, c: Command)
    requires c.Upgrade? && w.respond([c]) == Result(false, Plain, {SourceFailure}) && !w.cancelled([c], 0)
    requires w.respond([c, SourceUpdate]).ok && w.cancelled([c, SourceUpdate], 1)
    ensures Act(w, [], c).r.ok && Act(w, [], c).h == [c, SourceUpdate]
  {
    assert [] + [c] == [c] && [c] + [SourceUpdate] == [c, SourceUpdate];
  }
}
