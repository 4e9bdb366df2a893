/** What holds of every run of the scheduler. */
module JobTheorems {
  import opened Wrappers
  import opened JobModel
  import opened JobSystem

  // ---------------------------------------------------------------- reachable states

  ghost predicate Occurs(q: seq<nat>, id: nat, at: nat) { at < |q| && q[at] == id }

  /** After any interleaving: the queue has no repetitions, a queued job stands in
      it exactly once, at most one job runs and it is the one the only runner
      executes, job numbers lie in range, at most MAX_PENDING jobs wait, no two
      live jobs exclude each other, and until shutdown begins a queued job has a
      runner. */
  lemma ReachableStatesAreSafe(actions: seq<Action>)
    ensures var s := Run(Initial(), actions); var jobs := s.sched.jobs;
      && (forall i, j | 0 <= i < j < |s.sched.queue| :: s.sched.queue[i] != s.sched.queue[j])
      && (forall id | id in jobs && jobs[id].state == Queued ::
            exists at :: Occurs(s.sched.queue, id, at) && forall other | Occurs(s.sched.queue, id, other) ::
                other == at)
      && (forall i, j | i in jobs && j in jobs && jobs[i].running && jobs[j].running :: i == j)
      && (forall id | id in jobs && jobs[id].running :: s.runners == [Executing(id)])
      && (forall id | id in jobs :: 1 <= id <= s.sched.sequence)
      && Pending(s.sched.queue, jobs) <= MAX_PENDING
      && (forall i, j | Incomplete(jobs, i) && Incomplete(jobs, j) && i != j ::
            && (DedupesByType(jobs[i].jobType) ==> jobs[i].jobType != jobs[j].jobType)
            && (DedupesByPackage(jobs[i].jobType) && DedupesByPackage(jobs[j].jobType) ==>
                  !KeysOverlap(jobs[i].packageKeys, jobs[j].packageKeys)))
      && (!s.shuttingDown && !NothingQueued(s.sched) ==> s.sched.active && |s.runners| == 1)
  {
    RunPreservesInv(Initial(), actions);
    var s := Run(Initial(), actions);
    var jobs, q := s.sched.jobs, s.sched.queue;
    forall id | id in jobs && jobs[id].state == Queued
      ensures exists at :: Occurs(q, id, at) && forall other | Occurs(q, id, other) :: other == at
    {
      var at :| 0 <= at < |q| && q[at] == id;
      assert Occurs(q, id, at);
    }
    forall i, j | Incomplete(jobs, i) && Incomplete(jobs, j) && i != j
      ensures !Conflicts(jobs[j], jobs[i].jobType, jobs[i].packageKeys)
    {
      assert !Conflicts(jobs[j], jobs[i].jobType, jobs[i].packageKeys);
    }
  }

  // ---------------------------------------------------------------- revision determines the view

  /** Either nothing a client can see changed, or the revision grew. */
  ghost predicate Advances(s: Sched, s': Sched) {
    || s'.revision > s.revision
    || (s'.revision == s.revision && s'.jobs == s.jobs && s'.sequence == s.sequence
        && Pending(s'.queue, s'.jobs) == Pending(s.queue, s.jobs))
  }

  lemma PruneAdvances(s: Sched)
    ensures Advances(s, Prune(s)) && Prune(s).revision >= s.revision
  {
    if |s.jobs| > HISTORY_LIMIT { FilterContents(s.queue, KeptJobs(s.jobs)); }
  }

  lemma {:induction false} PopAdvances(s: Sched, ctxDone: bool, now: nat)
    ensures Advances(s, Pop(s, ctxDone, now).0)
    decreases |s.queue|
  {
    if s.queue != [] {
      var id, rest := s.queue[0], s.(queue := s.queue[1..]);
      if id !in s.jobs {
        PopAdvances(rest, ctxDone, now);
      } else if s.jobs[id].cancelRequested || ctxDone {
        PopAdvances(Publish(rest, id, Withdraw(s.jobs[id], now)), ctxDone, now);
      }
    }
  }

  lemma CancelAllAdvances(s: Sched, now: nat)
    ensures Advances(s, CancelAll(s, now))
  {
    PruneAdvances(CancelAllJobs(s, now));
    if IncompleteIds(s.jobs) == {} {
      forall id | id in s.jobs ensures Complete(s.jobs[id]) {
        assert id !in IncompleteIds(s.jobs);
      }
      assert CancelAllJobs(s, now).jobs == s.jobs;
    } else {
      var id :| id in IncompleteIds(s.jobs);
      assert |IncompleteIds(s.jobs)| > 0;
    }
  }

  lemma FinishAdvances(s: System, k: nat, now: nat)
    ensures Advances(s.sched, Apply(s, FinishSection(k, now)).sched)
  {
    if k < |s.runners| && s.runners[k].Executing? && s.runners[k].id in s.sched.jobs {
      PruneAdvances(Publish(s.sched, s.runners[k].id, Conclude(s.sched.jobs[s.runners[k].id], now)));
    }
  }

  lemma CancelAdvances(s: System, id: nat, now: nat)
    ensures Advances(s.sched, Apply(s, CancelSection(id, now)).sched)
  {
    if id in s.sched.jobs {
      PruneAdvances(s.sched);
      PruneAdvances(Publish(s.sched, id, CancelStatus(s.sched.jobs[id], now)));
    }
  }

  lemma SweepAdvances(s: System, a: Action)
    requires a.PopSection? || a.CancelAllSection? || a.PollSection?
    ensures Advances(s.sched, Apply(s, a).sched)
  {
    hide Pop, CancelAll, Prune, Pending;
    match a
    case PopSection(k, now) => PopAdvances(s.sched, s.shuttingDown, now);
    case CancelAllSection(now) => CancelAllAdvances(s.sched, now);
    case PollSection => PruneAdvances(s.sched);
  }

  lemma StepAdvances(s: System, a: Action)
    ensures Advances(s.sched, Apply(s, a).sched)
  {
    hide *;
    match a
    case FinishSection(k, now) => FinishAdvances(s, k, now);
    case CancelSection(id, now) => CancelAdvances(s, id, now);
    case PopSection(_, _) => SweepAdvances(s, a);
    case CancelAllSection(_) => SweepAdvances(s, a);
    case PollSection => SweepAdvances(s, a);
    case _ => OtherAdvances(s, a);
  }

  lemma OtherAdvances(s: System, a: Action)
    requires a.CheckLifecycle? || a.StartSection? || a.Launch? || a.LaunchFailureSection? || a.MutateSection?
      || a.BeginShutdown?
    ensures Advances(s.sched, Apply(s, a).sched)
  {
    hide Pop, CancelAll, Prune, Pending, Cancel, Finish;
  }

  lemma {:induction false} RunAdvances(s: System, actions: seq<Action>)
    ensures Advances(s.sched, Run(s, actions).sched)
    decreases |actions|
  {
    if actions != [] {
      StepAdvances(s, actions[0]);
      RunAdvances(Apply(s, actions[0]), actions[1..]);
    }
  }

  /** Two moments of one run with equal revisions show every client the same
      statuses and the same queue depth, from whatever state the run began. */
  lemma EqualRevisionsEqualViews(s: System, actions: seq<Action>)
    ensures Run(s, actions).sched.revision >= s.sched.revision
    ensures Run(s, actions).sched.revision == s.sched.revision ==> ViewOf(Run(s, actions).sched) == ViewOf(s.sched)
  {
    RunAdvances(s, actions);
  }

  /** An event stream: between polls the scheduler takes any number of steps; a
      poll prunes, and sends the view only if the revision differs from the last
      one sent. */
  ghost function Observe(s: System, lastRevision: nat, shown: View, rounds: seq<seq<Action>>): (System, nat, View)
    decreases |rounds|
  {
    if rounds == [] then (s, lastRevision, shown)
    else
      var polled := Apply(Run(s, rounds[0]), PollSection);
      var send := polled.sched.revision != lastRevision;
      Observe(polled, polled.sched.revision, if send then ViewOf(polled.sched) else shown, rounds[1..])
  }

  /** The client that skips unchanged revisions is never out of date after a poll. */
  lemma {:induction false} ObserverIsNeverStale(s: System, lastRevision: nat, shown: View, rounds: seq<seq<Action>>)
    requires lastRevision == s.sched.revision && shown == ViewOf(s.sched)
    ensures var (s', r, v) := Observe(s, lastRevision, shown, rounds); r == s'.sched.revision && v == ViewOf(s'.sched)
    decreases |rounds|
  {
    if rounds != [] {
      var polled := Apply(Run(s, rounds[0]), PollSection);
      RunAdvances(s, rounds[0]);
      StepAdvances(Run(s, rounds[0]), PollSection);
      ObserverIsNeverStale(polled, polled.sched.revision, ViewOf(polled.sched), rounds[1..]);
    }
  }

  // ---------------------------------------------------------------- absorption

  /** The job was created and is complete, or has already left the history. */
  predicate Over(s: System, id: nat) {
    1 <= id <= s.sched.sequence && (id in s.sched.jobs ==> Complete(s.sched.jobs[id]))
  }

  /** The job was created and no longer waits in the queue. */
  predicate Dequeued(s: System, id: nat) { 1 <= id <= s.sched.sequence && id !in s.sched.queue }

  /** How one section may move the jobs that exist already. */
  ghost predicate Progress(s: Sched, s': Sched) {
    && s'.sequence >= s.sequence
    && (forall id | id in s'.jobs && id <= s.sequence ::
          id in s.jobs && (Complete(s.jobs[id]) ==> Complete(s'.jobs[id])))
    && (forall id | id in s'.queue && id <= s.sequence :: id in s.queue)
  }

  /** Besides, a runner takes a job from the queue only. */
  ghost predicate Moves(s: System, s': System) {
    Progress(s.sched, s'.sched) && forall id | Executing(id) in s'.runners ::
        Executing(id) in s.runners || id in s.sched.queue
  }

  lemma PruneProgress(s: Sched, executing: Option<nat>)
    requires SchedOk(s, executing)
    ensures Progress(s, Prune(s)) && Prune(s).sequence == s.sequence
  {
    PruneOk(s, executing);
  }

  lemma PublishThenPrune(s: Sched, executing: Option<nat>, id: nat, st: JobStatus, executing': Option<nat>)
    requires SchedOk(s, executing) && id in s.jobs && (Complete(s.jobs[id]) ==> Complete(st))
    requires SchedOk(Publish(s, id, st), executing')
    ensures Progress(s, Prune(Publish(s, id, st)))
  {
    hide SchedOk, Prune;
    PruneProgress(Publish(s, id, st), executing');
  }

  lemma FinishProgress(s: System, k: nat, now: nat)
    requires Inv(s)
    ensures Moves(s, Apply(s, FinishSection(k, now)))
  {
    if k < |s.runners| && s.runners[k].Executing? {
      var id := s.runners[k].id;
      PublishOk(s.sched, Some(id), id, Conclude(s.sched.jobs[id], now), None);
      PublishThenPrune(s.sched, Some(id), id, Conclude(s.sched.jobs[id], now), None);
    }
  }

  lemma CancelProgress(s: System, id: nat, now: nat)
    requires Inv(s)
    ensures Moves(s, Apply(s, CancelSection(id, now)))
    ensures id in s.sched.jobs && s.sched.jobs[id].state == Queued ==> Over(Apply(s, CancelSection(id, now)), id)
  {
    var executing := ExecutingId(s.runners);
    if id in s.sched.jobs {
      if s.sched.jobs[id].state == Queued || s.sched.jobs[id].running {
        PublishOk(s.sched, executing, id, CancelStatus(s.sched.jobs[id], now), executing);
        PublishThenPrune(s.sched, executing, id, CancelStatus(s.sched.jobs[id], now), executing);
        PruneOk(Publish(s.sched, id, CancelStatus(s.sched.jobs[id], now)), executing);
      } else {
        PruneOk(s.sched, executing);
      }
    }
  }

  lemma CancelAllProgress(s: System, now: nat)
    requires Inv(s)
    ensures Progress(s.sched, CancelAll(s.sched, now))
  {
    CancelAllOk(s.sched, ExecutingId(s.runners), now);
    PruneOk(CancelAllJobs(s.sched, now), ExecutingId(s.runners));
    forall id | id in s.sched.jobs && Complete(s.sched.jobs[id])
      ensures CancelAllJobs(s.sched, now).jobs[id] == s.sched.jobs[id] {}
  }

  lemma PopProgress(s: Sched, ctxDone: bool, now: nat)
    requires SchedOk(s, None)
    ensures var (s', next) := Pop(s, ctxDone, now); Progress(s, s') && (next.Some? ==> next.value in s.queue)
  {
    PopOk(s, ctxDone, now);
  }

  lemma PopMoves(s: System, k: nat, now: nat)
    requires Inv(s)
    ensures Moves(s, Apply(s, PopSection(k, now)))
  {
    if k < |s.runners| && s.runners[k].Looping? { PopProgress(s.sched, s.shuttingDown, now); }
    hide Pop, Progress, SchedOk;
  }

  lemma CancelAllMoves(s: System, now: nat)
    requires Inv(s)
    ensures Moves(s, Apply(s, CancelAllSection(now)))
  {
    hide Inv, CancelAll, Progress;
    CancelAllProgress(s, now);
    UnchangedMoves(s, s);
  }

  lemma UnchangedMoves(s: System, s': System)
    requires s'.sched == s.sched && s'.runners == s.runners
    ensures Moves(s, s')
  {
  }

  lemma PollMoves(s: System)
    requires Inv(s)
    ensures Moves(s, Apply(s, PollSection))
  {
    hide Prune, Progress, SchedOk, RunnersOk;
    PruneProgress(s.sched, ExecutingId(s.runners));
  }

  lemma StartMoves(s: System, c: nat)
    requires Inv(s)
    ensures Moves(s, Apply(s, StartSection(c)))
  {
    if c < |s.starters| { StartProgress(s.sched, s.starters[c], ExecutingId(s.runners)); }
    hide Start, Progress;
  }

  lemma StartProgress(s: Sched, r: Request, executing: Option<nat>)
    requires SchedOk(s, executing)
    ensures Progress(s, Start(s, r))
  {
  }

  lemma LaunchFailureMoves(s: System, k: nat, now: nat)
    requires Inv(s)
    ensures Moves(s, Apply(s, LaunchFailureSection(k, now)))
  {
    hide Prune;
  }

  lemma MutateMoves(s: System, k: nat, st: JobStatus)
    requires Inv(s)
    ensures Moves(s, Apply(s, MutateSection(k, st)))
  {
    hide Prune;
  }

  lemma QuietMoves(s: System, a: Action)
    requires a.CheckLifecycle? || a.Launch? || a.BeginShutdown?
    ensures Moves(s, Apply(s, a))
  {
  }

  lemma StepProgress(s: System, a: Action)
    requires Inv(s)
    ensures Moves(s, Apply(s, a))
  {
    hide *;
    match a
    case PopSection(k, now) => PopMoves(s, k, now);
    case FinishSection(k, now) => FinishProgress(s, k, now);
    case CancelSection(id, now) => CancelProgress(s, id, now);
    case CancelAllSection(now) => CancelAllMoves(s, now);
    case PollSection => PollMoves(s);
    case StartSection(c) => StartMoves(s, c);
    case LaunchFailureSection(k, now) => LaunchFailureMoves(s, k, now);
    case MutateSection(k, st) => MutateMoves(s, k, st);
    case _ => QuietMoves(s, a);
  }

  lemma OverIsNotExecuted(s: System, id: nat)
    requires Inv(s) && Over(s, id)
    ensures Executing(id) !in s.runners
  {
  }

  /** Complete is for ever: once a job is over, no later step of any run makes it
      live again, and no runner ever executes it. A job cancelled while queued is
      over, so it is never executed. */
  lemma {:induction false} OverForever(s: System, actions: seq<Action>, id: nat)
    requires Inv(s) && Over(s, id)
    ensures Over(Run(s, actions), id) && Executing(id) !in Run(s, actions).runners
    decreases |actions|
  {
    if actions == [] {
      OverIsNotExecuted(s, id);
    } else {
      StepProgress(s, actions[0]);
      ApplyPreservesInv(s, actions[0]);
      OverForever(Apply(s, actions[0]), actions[1..], id);
    }
  }

  lemma CancelledWhileQueuedNeverRuns(before: seq<Action>, id: nat, now: nat, after: seq<Action>)
    requires var s := Run(Initial(), before); id in s.sched.jobs && s.sched.jobs[id].state == Queued
    ensures var s := Apply(Run(Initial(), before), CancelSection(id, now));
            Executing(id) !in Run(s, after).runners && Over(Run(s, after), id)
  {
    RunPreservesInv(Initial(), before);
    var s := Run(Initial(), before);
    CancelProgress(s, id, now);
    ApplyPreservesInv(s, CancelSection(id, now));
    OverForever(Apply(s, CancelSection(id, now)), after, id);
  }

  /** No job is executed twice: once a job has left the queue and is not being
      executed, no continuation executes it. */
  lemma {:induction false} ExecutedAtMostOnce(s: System, actions: seq<Action>, id: nat)
    requires Inv(s) && Dequeued(s, id) && Executing(id) !in s.runners
    ensures Executing(id) !in Run(s, actions).runners
    decreases |actions|
  {
    if actions != [] {
      StepProgress(s, actions[0]);
      ApplyPreservesInv(s, actions[0]);
      ExecutedAtMostOnce(Apply(s, actions[0]), actions[1..], id);
    }
  }

  // ---------------------------------------------------------------- after shutdown

  /** The clean-up of a refused launch cancels its own job only: it leaves a job
      queued without a runner exactly when some other job was queued. */
  lemma RefusedLaunchStrands(s: System, now: nat)
    requires Inv(s) && |s.runners| == 1 && s.runners[0].LaunchRefused?
    ensures var s' := Apply(s, LaunchFailureSection(0, now));
      && s'.runners == [] && !s'.sched.active
      && (!NothingQueued(s'.sched) <==>
            exists id | id in s.sched.jobs :: id != s.runners[0].id && s.sched.jobs[id].state == Queued)
  {
    var own := s.runners[0].id;
    var s' := Apply(s, LaunchFailureSection(0, now));
    forall id | id in s.sched.jobs && id != own ensures id in s'.sched.jobs && s'.sched.jobs[id] == s.sched.jobs[id] {}
    assert own in s'.sched.jobs ==> s'.sched.jobs[own].state == Cancelled;
  }

  /** Such a job does occur: a start that passed the lifecycle test before shutdown
      enqueues after the shutdown sweep, and stays queued with no runner. */
  lemma StrandedJobIsReachable(a: Request, b: Request)
    requires a.jobType == Scan && b.jobType == ManagerInstall
    ensures var s := Run(Initial(), [CheckLifecycle(a), CheckLifecycle(b), StartSection(0), BeginShutdown,
                                     CancelAllSection(1), StartSection(0), Launch(0), LaunchFailureSection(0, 2)]);
      s.shuttingDown && s.runners == [] && s.starters == [] && 2 in s.sched.jobs && s.sched.jobs[2].state == Queued
  {
    var acts := [CheckLifecycle(a), CheckLifecycle(b), StartSection(0), BeginShutdown,
                 CancelAllSection(1), StartSection(0), Launch(0), LaunchFailureSection(0, 2)];
    RunSplit(Initial(), acts, 5);
    assert acts[..5] == [CheckLifecycle(a), CheckLifecycle(b), StartSection(0), BeginShutdown, CancelAllSection(1)];
    assert acts[5..] == [StartSection(0), Launch(0), LaunchFailureSection(0, 2)];
    StrandFirst(a, b);
    StrandLast(a, b);
  }

  lemma RunSplit(s: System, acts: seq<Action>, n: nat)
    requires n <= |acts|
    ensures Run(s, acts) == Run(Run(s, acts[..n]), acts[n..])
    decreases n
  {
    if n == 0 {
      assert acts[0..] == acts;
    } else {
      RunSplit(Apply(s, acts[0]), acts[1..], n - 1);
      assert acts[..n][0] == acts[0] && acts[..n][1..] == acts[1..][..n - 1] && acts[1..][n - 1..] == acts[n..];
    }
  }

  function AfterSweep(a: Request, b: Request): System {
    var st := NewStatus(a, 1);
    System(Sched(map[1 := ShutDown(st, 1)], [1], true, 2, 1), [b], [Launching(1)], true)
  }

  function AfterStart(a: Request, b: Request): System {
    System(Sched(map[1 := NewStatus(a, 1)], [1], true, 1, 1), [b], [Launching(1)], false)
  }

  lemma FirstStart(a: Request, b: Request)
    ensures Apply(System(Empty, [a, b], [], false), StartSection(0)) == AfterStart(a, b)
  {
    assert Accepts(Empty, a);
  }

  lemma Sweep(a: Request, b: Request)
    ensures Apply(AfterStart(a, b).(shuttingDown := true), CancelAllSection(1)) == AfterSweep(a, b)
  {
    SweepOne(AfterStart(a, b).sched, a);
  }

  lemma StrandFirst(a: Request, b: Request)
    ensures Run(Initial(), [CheckLifecycle(a), CheckLifecycle(b), StartSection(0), BeginShutdown, CancelAllSection(1)])
         == AfterSweep(a, b)
  {
    FirstStart(a, b);
    Sweep(a, b);
    var acts := [CheckLifecycle(a), CheckLifecycle(b), StartSection(0), BeginShutdown, CancelAllSection(1)];
    RunSplit(Initial(), acts, 2);
    assert acts[..2] == [CheckLifecycle(a), CheckLifecycle(b)]
        && acts[2..] == [StartSection(0), BeginShutdown, CancelAllSection(1)];
    TwoChecks(a, b);
    ThreeMore(a, b);
  }

  lemma TwoChecks(a: Request, b: Request)
    ensures Run(Initial(), [CheckLifecycle(a), CheckLifecycle(b)]) == System(Empty, [a, b], [], false)
  {
    var acts := [CheckLifecycle(a), CheckLifecycle(b)];
    var one := System(Empty, [a], [], false);
    assert [] + [a] == [a] && [a] + [b] == [a, b];
    assert acts[1..] == [CheckLifecycle(b)] && acts[1..][1..] == [];
    assert Run(one, [CheckLifecycle(b)]) == Run(Apply(one, CheckLifecycle(b)), []);
    assert Run(Initial(), acts) == Run(one, acts[1..]);
  }

  lemma ThreeMore(a: Request, b: Request)
    ensures Run(System(Empty, [a, b], [], false), [StartSection(0), BeginShutdown, CancelAllSection(1)])
      == AfterSweep(a, b)
  {
    FirstStart(a, b);
    Sweep(a, b);
    var acts := [StartSection(0), BeginShutdown, CancelAllSection(1)];
    assert acts[1..] == [BeginShutdown, CancelAllSection(1)] && acts[1..][1..] == [CancelAllSection(1)];
    var mid := AfterStart(a, b).(shuttingDown := true);
    assert Run(mid, [CancelAllSection(1)]) == AfterSweep(a, b);
    assert Run(AfterStart(a, b), acts[1..]) == Run(mid, acts[1..][1..]);
  }

  lemma SweepOne(s: Sched, a: Request)
    requires s == Sched(map[1 := NewStatus(a, 1)], [1], true, 1, 1)
    ensures CancelAll(s, 1) == Sched(map[1 := ShutDown(NewStatus(a, 1), 1)], [1], true, 2, 1)
  {
    assert IncompleteIds(s.jobs) == {1};
    assert CancelAllJobs(s, 1).jobs == map[1 := ShutDown(NewStatus(a, 1), 1)];
  }

  lemma StrandLast(a: Request, b: Request)
    requires b.jobType == ManagerInstall
    ensures var s := Run(AfterSweep(a, b), [StartSection(0), Launch(0), LaunchFailureSection(0, 2)]);
      s.shuttingDown && s.runners == [] && s.starters == [] && 2 in s.sched.jobs && s.sched.jobs[2].state == Queued
  {
    var s5 := AfterSweep(a, b);
    assert Pending(s5.sched.queue, s5.sched.jobs) <= 1;
    assert Accepts(s5.sched, b);
    var s6 := Apply(s5, StartSection(0));
    assert s6 == System(Enqueue(s5.sched, b), [], [Launching(1)], true);
    var s7 := Apply(s6, Launch(0));
    assert s7 == s6.(runners := [LaunchRefused(1)]);
    var s8 := Apply(s7, LaunchFailureSection(0, 2));
    assert [Launch(0), LaunchFailureSection(0, 2)][1..] == [LaunchFailureSection(0, 2)];
    assert [StartSection(0), Launch(0), LaunchFailureSection(0, 2)][1..] == [Launch(0), LaunchFailureSection(0, 2)];
    assert Run(s7, [LaunchFailureSection(0, 2)]) == s8;
  }

  // ---------------------------------------------------------------- history

  ghost predicate Before(q: seq<nat>, a: nat, b: nat) { exists i, j :: 0 <= i < j < |q| && q[i] == a && q[j] == b }

  /** The position in the queue of the i-th entry that filtering keeps. */
  function Source(queue: seq<nat>, jobs: map<nat, JobStatus>, i: nat): (x: nat)
    requires i < |FilterQueue(queue, jobs)|
    ensures x < |queue| && queue[x] == FilterQueue(queue, jobs)[i]
  {
    if queue[0] !in jobs then 1 + Source(queue[1..], jobs, i)
    else if i == 0 then 0
    else 1 + Source(queue[1..], jobs, i - 1)
  }

  lemma {:induction false} SourceIncreases(queue: seq<nat>, jobs: map<nat, JobStatus>, i: nat, j: nat)
    requires i < j < |FilterQueue(queue, jobs)|
    ensures Source(queue, jobs, i) < Source(queue, jobs, j)
  {
    if queue[0] !in jobs {
      SourceIncreases(queue[1..], jobs, i, j);
    } else if i > 0 {
      SourceIncreases(queue[1..], jobs, i - 1, j - 1);
    }
  }

  lemma FilterKeepsOrder(queue: seq<nat>, jobs: map<nat, JobStatus>, a: nat, b: nat)
    requires Before(FilterQueue(queue, jobs), a, b)
    ensures Before(queue, a, b)
  {
    var out := FilterQueue(queue, jobs);
    var i, j :| 0 <= i < j < |out| && out[i] == a && out[j] == b;
    SourceIncreases(queue, jobs, i, j);
    assert queue[Source(queue, jobs, i)] == a && queue[Source(queue, jobs, j)] == b;
  }

  lemma CompletedAfterMono(jobs: map<nat, JobStatus>, id: nat)
    requires id in KeptJobs(jobs)
    ensures CompletedAfter(KeptJobs(jobs), id) <= CompletedAfter(jobs, id)
    ensures Kept(KeptJobs(jobs), id)
  {
    var kept := KeptJobs(jobs);
    var rest := CompletedAfter(jobs, id) - CompletedAfter(kept, id);
    assert CompletedAfter(jobs, id) == CompletedAfter(kept, id) + rest;
  }

  /** Past its size guard pruning keeps exactly the incomplete jobs, the newest
      completed job of each type and the HISTORY_LIMIT newest completed ones, with
      their statuses; the queue keeps its order and loses only dropped jobs; the
      revision grows by one exactly when a job was dropped; pruning again changes
      nothing. */
  lemma PruneKeepsExactlyTheHistory(s: Sched)
    requires |s.jobs| > HISTORY_LIMIT && forall id | id in s.queue :: id in s.jobs
    ensures forall id :: id in Prune(s).jobs <==>
              id in s.jobs && (!Complete(s.jobs[id])
                || (forall j | j in s.jobs && j > id && Complete(s.jobs[j]) :: s.jobs[j].jobType != s.jobs[id].jobType)
                || |CompletedAfter(s.jobs, id)| < HISTORY_LIMIT)
    ensures forall id | id in Prune(s).jobs :: Prune(s).jobs[id] == s.jobs[id]
    ensures forall id :: id in Prune(s).queue <==> id in s.queue && id in Prune(s).jobs
    ensures forall a, b | Before(Prune(s).queue, a, b) :: Before(s.queue, a, b)
    ensures Prune(s).revision == s.revision + if Prune(s).jobs == s.jobs then 0 else 1
    ensures Prune(Prune(s)) == Prune(s)
  {
    var jobs := KeptJobs(s.jobs);
    FilterContents(s.queue, jobs);
    forall a, b | Before(Prune(s).queue, a, b) ensures Before(s.queue, a, b) { FilterKeepsOrder(s.queue, jobs, a, b); }
    forall id | id in jobs ensures Kept(jobs, id) { CompletedAfterMono(s.jobs, id); }
    assert KeptJobs(jobs) == jobs;
    FilterContents(Prune(s).queue, jobs);
  }
}
