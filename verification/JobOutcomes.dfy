/** What each locked section does to the jobs it touches, written out. */
module JobOutcomes {
  import opened Wrappers
  import opened Text
  import opened JobModel
  import opened JobSystem

  /** A job that has ended. */
  predicate Ended(st: JobStatus) { !st.running && st.state !in {Queued, Running, Refreshing} }

  /** Everything no section changes once a job exists. */
  predicate SameJob(a: JobStatus, b: JobStatus) {
    && b.jobType == a.jobType && b.mode == a.mode && b.packageKeys == a.packageKeys && b.total == a.total
    && b.queueDepth == a.queueDepth && b.results == a.results && b.result == a.result && b.error == a.error
    && b.detail == a.detail
  }

  // ---------------------------------------------------------------- the end of a job

  predicate Failing(st: JobStatus) { st.error != "" || st.result == Some(false) || exists r | r in st.results :: !r }

  /** How a job ends that was running: as cancelled if that was asked for, else as failed
      if it has an error or a failing result, else as succeeded; in any other state it
      stays. */
  predicate EndsAs(was: JobStatus, ended: JobStatus, now: nat) {
    && SameJob(was, ended) && ended.revision == was.revision + 1 && ended.cancelRequested == was.cancelRequested
    && ended.startedAt == was.startedAt && !ended.running
    && (was.state in {Running, Refreshing} ==>
          && (ended.state == Cancelled <==> was.cancelRequested)
          && (ended.state == Failed <==> !was.cancelRequested && Failing(was))
          && (ended.state == Succeeded <==> !was.cancelRequested && !Failing(was))
          && ended.notice == if was.cancelRequested then "Job cancelled." else was.notice)
    && (was.state !in {Running, Refreshing} ==> ended.state == was.state && ended.notice == was.notice)
    && ended.finishedAt == (if was.finishedAt.Some? then was.finishedAt else Some(now))
    && ended.packages == if Ended(ended) then [] else was.packages
  }

  lemma FailingMeans(st: JobStatus)
    ensures Failing(st) <==> st.error != "" || HasFailures(st)
  {
    if r :| r in st.results && !r { assert false in st.results; }
    if false in st.results { assert !false; }
  }

  lemma ConcludedEnds(st: JobStatus, now: nat)
    ensures EndsAs(st, Conclude(st, now).(revision := st.revision + 1), now)
  {
    FailingMeans(st);
    hide Failing, HasFailures;
  }

  /** Pruning keeps the statuses of the jobs it keeps; it drops a job only if that has
      ended and 25 jobs that were submitted later have ended as well. */
  lemma PruneKeepsStatuses(s: Sched, id: nat)
    ensures id in Prune(s).jobs ==> id in s.jobs && Prune(s).jobs[id] == s.jobs[id]
    ensures id in s.jobs && id !in Prune(s).jobs ==>
              Ended(s.jobs[id]) && |set j | j in s.jobs && j > id && Ended(s.jobs[j])| >= 25
  {
    assert (set j | j in s.jobs && j > id && Ended(s.jobs[j])) == CompletedAfter(s.jobs, id);
  }

  /** The job a section publishes is in the new scheduler, unless pruning has dropped it
      behind 25 later ones; the others are as they were. */
  predicate Touched(s: Sched, s': Sched, id: nat, st: JobStatus) {
    && (id in s'.jobs ==> s'.jobs[id] == st)
    && (id !in s'.jobs ==> Ended(st) && |set j | j in s.jobs && j > id && Ended(s.jobs[j])| >= 25)
    && forall other | other in s'.jobs && other != id :: other in s.jobs && s'.jobs[other] == s.jobs[other]
  }

  lemma PublishThenPruneTouches(s: Sched, id: nat, st: JobStatus)
    requires id in s.jobs
    ensures Touched(s, Prune(Publish(s, id, st)), id, st.(revision := st.revision + 1))
  {
    var p := Publish(s, id, st);
    PruneKeepsStatuses(p, id);
    assert (set j | j in p.jobs && j > id && Ended(p.jobs[j])) == (set j | j in s.jobs && j > id && Ended(s.jobs[j]));
    forall other | other in Prune(p).jobs && other != id
      ensures other in s.jobs && Prune(p).jobs[other] == s.jobs[other]
    {
      PruneKeepsStatuses(p, other);
    }
  }

  /** Finishing a job ends it so; no other job changes. */
  lemma FinishedJobEnds(s: Sched, id: nat, now: nat) returns (ended: JobStatus)
    requires id in s.jobs
    ensures EndsAs(s.jobs[id], ended, now) && Touched(s, Finish(s, id, now), id, ended)
  {
    var st := Conclude(s.jobs[id], now);
    ended := st.(revision := s.jobs[id].revision + 1);
    ConcludedEnds(s.jobs[id], now);
    PublishThenPruneTouches(s, id, st);
  }

  /** In every reachable state the job that a runner executes ends so when the runner is
      done with it, and the runner goes on to the next. */
  lemma ExecutedJobEnds(actions: seq<Action>, k: nat, now: nat) returns (ended: JobStatus)
    requires var s := Run(Initial(), actions); k < |s.runners| && s.runners[k].Executing?
    ensures var s := Run(Initial(), actions); var id, s' := s.runners[k].id, Apply(s, FinishSection(k, now));
      && id in s.sched.jobs && EndsAs(s.sched.jobs[id], ended, now) && Touched(s.sched, s'.sched, id, ended)
      && s'.runners == s.runners[k := Looping]
  {
    RunPreservesInv(Initial(), actions);
    var s := Run(Initial(), actions);
    ExecutingExists(s, k);
    ended := FinishedJobEnds(s.sched, s.runners[k].id, now);
    FinishSectionIs(s, k, now);
    hide *;
  }

  lemma ExecutingExists(s: System, k: nat)
    requires Inv(s) && k < |s.runners| && s.runners[k].Executing?
    ensures s.runners[k].id in s.sched.jobs
  {
  }

  lemma FinishSectionIs(s: System, k: nat, now: nat)
    requires k < |s.runners| && s.runners[k].Executing? && s.runners[k].id in s.sched.jobs
    ensures var s' := Apply(s, FinishSection(k, now));
      s'.sched == Finish(s.sched, s.runners[k].id, now) && s'.runners == s.runners[k := Looping]
  {
    hide Finish;
  }

  // ---------------------------------------------------------------- submission

  /** A new job waits at the end of the queue under the next number. */
  lemma SubmittedJobWaits(s: Sched, r: Request)
    ensures var s' := Start(s, r);
      if (forall id | id in s.jobs :: Ended(s.jobs[id]) || !Conflicts(s.jobs[id], r.jobType, r.keys))
         && Pending(s.queue, s.jobs) < 25 then
        var id := s.sequence + 1;
        && s'.sequence == id && s'.queue == s.queue + [id] && s'.active && s'.revision == s.revision + 1
        && s'.jobs.Keys == s.jobs.Keys + {id}
              && (forall other | other in s.jobs && other != id :: s'.jobs[other] == s.jobs[other])
        && var st := s'.jobs[id];
        && st.state == Queued && !st.running && !st.cancelRequested && st.revision == 1
        && st.jobType == r.jobType && st.mode == r.mode && st.total == r.total
        && st.packageKeys == r.keys && st.packages == r.packages && st.queueDepth == |s.queue| + 1
        && st.results == [] && st.result.None? && st.startedAt.None? && st.finishedAt.None?
        && st.error == "" && st.notice == "" && st.detail == ""
      else s' == s
  {
  }

  /** Which job types exclude each other: scans, inventory refreshes and self-updates by
      type alone; installs, updates and update-alls by a common package. */
  lemma ConflictMeans(st: JobStatus, jobType: JobType, keys: seq<string>)
    ensures Conflicts(st, jobType, keys) <==>
      || (jobType in {Scan, InventoryRefresh, JobType.SelfUpdate} && st.jobType == jobType)
      || (jobType in {Install, Update, UpdateAll} && st.jobType in {Install, Update, UpdateAll}
          && exists k, l | k in keys && l in st.packageKeys :: Trim(k) != "" && Trim(k) == Trim(l))
  {
    if KeysOverlap(keys, st.packageKeys) {
      var i, j :| 0 <= i < |keys| && 0 <= j < |st.packageKeys| && Trim(keys[i]) != ""
          && Trim(keys[i]) == Trim(st.packageKeys[j]);
      assert keys[i] in keys && st.packageKeys[j] in st.packageKeys;
    }
  }

  // ---------------------------------------------------------------- cancellation

  /** A queued job that is cancelled. */
  predicate Withdraws(was: JobStatus, ended: JobStatus, now: nat) {
    && SameJob(was, ended) && ended.revision == was.revision + 1 && ended.startedAt == was.startedAt
    && ended.state == Cancelled && !ended.running && ended.cancelRequested && ended.finishedAt == Some(now)
    && ended.packages == []
  }

  /** A running job that is asked to stop. */
  predicate AskedToStop(was: JobStatus, st: JobStatus) {
    && SameJob(was, st) && st.revision == was.revision + 1 && st.cancelRequested
    && st.state == was.state && st.running == was.running && st.startedAt == was.startedAt
    && st.finishedAt == was.finishedAt && st.packages == was.packages
  }

  /** Cancelling ends a queued job at once, asks a running one to stop, and leaves every
      other one alone. */
  lemma CancelledJobEnds(s: Sched, id: nat, now: nat) returns (st: JobStatus)
    requires id in s.jobs
    ensures Touched(s, Cancel(s, id, now), id, st)
    ensures var was := s.jobs[id];
      if was.state == Queued then Withdraws(was, st, now) && st.notice == "Job cancelled."
      else if was.running then AskedToStop(was, st) && st.notice == "Cancelling job..."
      else st == was
  {
    var was := s.jobs[id];
    if was.state == Queued || was.running {
      st := CancelStatus(was, now).(revision := was.revision + 1);
      PublishThenPruneTouches(s, id, CancelStatus(was, now));
    } else {
      st := was;
      PruneKeepsStatuses(s, id);
      forall other | other in Prune(s).jobs ensures other in s.jobs && Prune(s).jobs[other] == s.jobs[other] {
        PruneKeepsStatuses(s, other);
      }
    }
  }

  /** What shutdown does to one job. */
  predicate ShutDownAs(was: JobStatus, st: JobStatus, now: nat) {
    if Ended(was) then st == was
    else if was.state == Queued then Withdraws(was, st, now) && st.notice == "Job cancelled by shutdown."
    else AskedToStop(was, st) && st.notice == "Job cancelled by shutdown."
  }

  lemma ShutDownOne(was: JobStatus, now: nat)
    ensures ShutDownAs(was, ShutDown(was, now), now)
  {
  }

  /** Shutdown withdraws every queued job and asks every other one that has not ended to
      stop. */
  lemma ShutdownEndsJobs(s: Sched, now: nat, id: nat)
    requires id in CancelAll(s, now).jobs
    ensures id in s.jobs && ShutDownAs(s.jobs[id], CancelAll(s, now).jobs[id], now)
  {
    hide ShutDown, ShutDownAs, Prune;
    PruneKeepsStatuses(CancelAllJobs(s, now), id);
    ShutDownOne(s.jobs[id], now);
  }

  /** And raises the revision once for each of them, and once more if pruning then drops
      something. */
  lemma ShutdownCountsJobs(s: Sched, now: nat)
    ensures var waiting := |set id | id in s.jobs && !Ended(s.jobs[id])|;
      var s' := CancelAll(s, now);
      && s.revision + waiting <= s'.revision <= s.revision + waiting + 1
      && (|s.jobs| <= 25 ==> s'.revision == s.revision + waiting)
  {
    assert (set id | id in s.jobs && !Ended(s.jobs[id])) == IncompleteIds(s.jobs);
    var kept := CancelAllJobs(s, now);
    assert kept.jobs.Keys == s.jobs.Keys;
    assert |kept.jobs| == |kept.jobs.Keys| && |s.jobs| == |s.jobs.Keys|;
    hide ShutDown, ShutDownThese, IncompleteIds, KeptJobs, FilterQueue;
  }

  /** A start whose runner was refused withdraws its own job. */
  lemma RefusedJobEnds(s: Sched, id: nat, now: nat)
    ensures var s' := LaunchFailed(s, id, now);
      && !s'.active && s'.queue == s.queue && s'.sequence == s.sequence && s'.revision == s.revision + 1
      && s'.jobs.Keys == s.jobs.Keys
            && (forall other | other in s.jobs && other != id :: s'.jobs[other] == s.jobs[other])
      && (id in s.jobs ==>
          Withdraws(s.jobs[id], s'.jobs[id], now) && s'.jobs[id].notice == "Job cancelled by shutdown.")
  {
  }

  // ---------------------------------------------------------------- the runner

  /** The job the runner takes up. */
  predicate TakesUp(was: JobStatus, st: JobStatus, now: nat) {
    && SameJob(was, st) && st.revision == was.revision + 1 && !was.cancelRequested && !st.cancelRequested
    && st.state == Running && st.running && st.startedAt == Some(now) && st.finishedAt == was.finishedAt
    && st.packages == was.packages && st.notice == was.notice
  }

  /** A queued job that the runner passes over, cancelled before or by the end of the
      application. */
  predicate GivenUp(was: JobStatus, st: JobStatus, ctxDone: bool, now: nat) {
    && (was.cancelRequested || ctxDone) && Withdraws(was.(cancelRequested := true), st, now)
    && st.notice == if was.cancelRequested then was.notice else "Job cancelled by shutdown."
  }

  /** What taking the first n entries off the queue does. */
  ghost predicate Drains(s: Sched, s': Sched, next: Option<nat>, n: nat, ctxDone: bool, now: nat) {
    && n <= |s.queue| && s'.queue == s.queue[n..] && s'.jobs.Keys == s.jobs.Keys && s'.sequence == s.sequence
    && (next.None? ==> n == |s.queue| && !s'.active)
    && (next.Some? ==>
          && !ctxDone && n > 0 && next.value == s.queue[n - 1] && next.value in s.jobs
          && TakesUp(s.jobs[next.value], s'.jobs[next.value], now) && s'.active == s.active)
    && forall id | id in s.jobs && next != Some(id) ::
         if id in s.queue[..n] then GivenUp(s.jobs[id], s'.jobs[id], ctxDone, now) else s'.jobs[id] == s.jobs[id]
  }

  lemma DrainsOn(s: Sched, rest: Sched, s': Sched, next: Option<nat>, n: nat, ctxDone: bool, now: nat)
    requires s.queue != [] && Distinct(s.queue) && rest.queue == s.queue[1..] && Drains(rest, s', next, n, ctxDone, now)
    requires rest.jobs.Keys == s.jobs.Keys && rest.sequence == s.sequence && rest.active == s.active
    requires forall id | id in s.jobs && id != s.queue[0] :: rest.jobs[id] == s.jobs[id]
    requires s.queue[0] in s.jobs ==>
               GivenUp(s.jobs[s.queue[0]], rest.jobs[s.queue[0]], ctxDone, now)
    ensures Drains(s, s', next, n + 1, ctxDone, now)
  {
    hide GivenUp, TakesUp, Distinct;
    var first := s.queue[0];
    HeadIsNotBehind(s.queue);
    FirstAndRest(s.queue, n);
    assert next.Some? ==> next.value in rest.queue;
    forall id | id in s.jobs && next != Some(id)
      ensures if id in s.queue[..n + 1] then GivenUp(s.jobs[id], s'.jobs[id], ctxDone, now)
              else s'.jobs[id] == s.jobs[id]
    {
      assert id in rest.jobs;
      if id == first {
        assert id !in rest.queue[..n] && next != Some(id);
        assert s'.jobs[id] == rest.jobs[id];
      } else {
        assert rest.jobs[id] == s.jobs[id];
      }
    }
  }

  lemma FirstAndRest(q: seq<nat>, n: nat)
    requires n < |q| && q[0] !in q[1..]
    ensures q[n + 1..] == q[1..][n..] && q[0] !in q[1..][..n]
    ensures forall id :: id in q[..n + 1] <==> id == q[0] || id in q[1..][..n]
  {
    assert q[..n + 1] == [q[0]] + q[1..][..n];
    assert q[1..] == q[1..][..n] + q[1..][n..];
  }

  lemma HeadIsNotBehind(q: seq<nat>)
    requires Distinct(q) && q != []
    ensures q[0] !in q[1..] && Distinct(q[1..])
  {
  }

  /** A runner takes up the first queued job that nobody cancelled, withdraws the
      cancelled ones before it, and, once the application ends, all of them. */
  lemma {:induction false} RunnerDrainsTheQueue(s: Sched, ctxDone: bool, now: nat) returns (n: nat)
    requires Distinct(s.queue)
    ensures Drains(s, Pop(s, ctxDone, now).0, Pop(s, ctxDone, now).1, n, ctxDone, now)
    decreases |s.queue|
  {
    if s.queue == [] { return 0; }
    var id, rest := s.queue[0], s.(queue := s.queue[1..]);
    HeadIsNotBehind(s.queue);
    if id in s.jobs && !s.jobs[id].cancelRequested && !ctxDone {
      RunnerTakesFirst(s, now);
      return 1;
    }
    if id in s.jobs { rest := WithdrawFirst(s, ctxDone, now); }
    n := RunnerDrainsTheQueue(rest, ctxDone, now);
    assert Pop(s, ctxDone, now) == Pop(rest, ctxDone, now);
    hide Drains, Pop;
    DrainsOn(s, rest, Pop(rest, ctxDone, now).0, Pop(rest, ctxDone, now).1, n, ctxDone, now);
    n := n + 1;
  }

  lemma RunnerTakesFirst(s: Sched, now: nat)
    requires Distinct(s.queue) && s.queue != [] && s.queue[0] in s.jobs && !s.jobs[s.queue[0]].cancelRequested
    ensures Drains(s, Pop(s, false, now).0, Pop(s, false, now).1, 1, false, now)
  {
    assert s.queue[..1] == [s.queue[0]];
  }

  lemma WithdrawFirst(s: Sched, ctxDone: bool, now: nat) returns (rest: Sched)
    requires s.queue != [] && s.queue[0] in s.jobs && (s.jobs[s.queue[0]].cancelRequested || ctxDone)
    ensures rest.queue == s.queue[1..] && rest.jobs.Keys == s.jobs.Keys && rest.sequence == s.sequence
      && rest.active == s.active
    ensures forall id | id in s.jobs && id != s.queue[0] :: rest.jobs[id] == s.jobs[id]
    ensures GivenUp(s.jobs[s.queue[0]], rest.jobs[s.queue[0]], ctxDone, now)
    ensures Pop(s, ctxDone, now) == Pop(rest, ctxDone, now)
  {
    var id := s.queue[0];
    var st := if s.jobs[id].cancelRequested then CancelQueued(s.jobs[id], "", now)
              else CancelQueued(s.jobs[id].(cancelRequested := true), "Job cancelled by shutdown.", now);
    rest := Publish(s.(queue := s.queue[1..]), id, st);
  }

  // ---------------------------------------------------------------- what clients are shown

  lemma {:induction false} ListedStatuses(jobs: map<nat, JobStatus>, n: nat)
    ensures forall id, st :: (id, st) in Statuses(jobs, n) <==> 1 <= id <= n && id in jobs && jobs[id] == st
    ensures forall i, j | 0 <= i < j < |Statuses(jobs, n)| :: Statuses(jobs, n)[i].0 < Statuses(jobs, n)[j].0
  {
    if n > 0 {
      ListedStatuses(jobs, n - 1);
      var earlier := Statuses(jobs, n - 1);
      forall i | 0 <= i < |earlier| ensures earlier[i].0 < n { assert (earlier[i].0, earlier[i].1) in earlier; }
    }
  }

  /** The places in the queue whose jobs have not ended. */
  function Waiting(queue: seq<nat>, jobs: map<nat, JobStatus>): set<nat> {
    set k: nat | k < |queue| && queue[k] in jobs && !Ended(jobs[queue[k]])
  }

  lemma OneMoreWaits(queue: seq<nat>, id: nat, jobs: map<nat, JobStatus>)
    ensures Waiting(queue + [id], jobs)
            == Waiting(queue, jobs) + if id in jobs && !Ended(jobs[id]) then {|queue|} else {}
  {
    forall k: nat | k < |queue| ensures (queue + [id])[k] == queue[k] {}
  }

  lemma {:induction false} PendingCounts(queue: seq<nat>, jobs: map<nat, JobStatus>)
    ensures Pending(queue, jobs) == |Waiting(queue, jobs)|
  {
    if queue == [] {
      assert Waiting(queue, jobs) == {};
    } else {
      var earlier, id := queue[..|queue| - 1], queue[|queue| - 1];
      assert queue == earlier + [id];
      PendingCounts(earlier, jobs);
      PendingSnoc(earlier, id, jobs);
      OneMoreWaits(earlier, id, jobs);
      assert |earlier| !in Waiting(earlier, jobs);
      hide Waiting, Pending;
    }
  }

  /** In every reachable state clients are shown every job with its status, in the order of
      submission, and the number of queued jobs that have not ended. */
  lemma ClientsSeeEveryJob(actions: seq<Action>)
    ensures var s := Run(Initial(), actions).sched; var view := ViewOf(s);
      && (forall id, st :: (id, st) in view.statuses <==> id in s.jobs && s.jobs[id] == st)
      && (forall i, j | 0 <= i < j < |view.statuses| :: view.statuses[i].0 < view.statuses[j].0)
      && view.pending == |Waiting(s.queue, s.jobs)|
  {
    RunPreservesInv(Initial(), actions);
    var s := Run(Initial(), actions).sched;
    assert KeysInRange(s);
    hide Run, Inv;
    ListedStatuses(s.jobs, s.sequence);
    PendingCounts(s.queue, s.jobs);
  }
}
