/** Every interleaving of the scheduler's locked sections: callers that start,
    cancel and poll, one or more runner goroutines, and shutdown. */
module JobSystem {
  import opened Wrappers
  import opened Text
  import opened JobModel

  /** Where a goroutine that may become the runner stands between two sections. */
  datatype Runner =
    | Launching(id: nat)       // a start set active and has not launched the runner yet
    | LaunchRefused(id: nat)   // the launch was refused; the clean-up section is still due
    | Looping                  // about to pop
    | Executing(id: nat)       // running a job's closure

  datatype System = System(sched: Sched, starters: seq<Request>, runners: seq<Runner>, shuttingDown: bool)

  datatype Action =
    | CheckLifecycle(r: Request)            // the unlocked isShuttingDown test of a start
    | StartSection(caller: nat)
    | Launch(k: nat)
    | LaunchFailureSection(k: nat, now: nat)
    | PopSection(k: nat, now: nat)
    | MutateSection(k: nat, st: JobStatus)
    | FinishSection(k: nat, now: nat)
    | CancelSection(id: nat, now: nat)
    | BeginShutdown
    | CancelAllSection(now: nat)
    | PollSection

  function Initial(): System { System(Empty, [], [], false) }

  function Without<T>(s: seq<T>, k: nat): seq<T>
    requires k < |s|
  {
    s[..k] + s[k + 1..]
  }

  /** One action; an action that is not enabled changes nothing. */
  ghost function Apply(s: System, a: Action): System {
    match a
    case CheckLifecycle(r) => if s.shuttingDown then s else s.(starters := s.starters + [r])
    case StartSection(c) =>
      if c < |s.starters| then
        var r := s.starters[c];
        var s1 := s.(sched := Start(s.sched, r), starters := Without(s.starters, c));
        if Accepts(s.sched, r) && !s.sched.active
        then s1.(runners := s.runners + [Launching(s.sched.sequence + 1)]) else s1
      else s
    case Launch(k) =>
      if k < |s.runners| && s.runners[k].Launching? then
        s.(runners := s.runners[k := if s.shuttingDown then LaunchRefused(s.runners[k].id) else Looping])
      else s
    case LaunchFailureSection(k, now) =>
      if k < |s.runners| && s.runners[k].LaunchRefused? then
        s.(sched := LaunchFailed(s.sched, s.runners[k].id, now), runners := Without(s.runners, k))
      else s
    case PopSection(k, now) =>
      if k < |s.runners| && s.runners[k].Looping? then
        var (sched, next) := Pop(s.sched, s.shuttingDown, now);
        s.(sched := sched,
           runners := if next.Some? then s.runners[k := Executing(next.value)] else Without(s.runners, k))
      else s
    case MutateSection(k, st) =>
      if k < |s.runners| && s.runners[k].Executing? && s.runners[k].id in s.sched.jobs
         && MutationAllowed(s.sched.jobs[s.runners[k].id], st)
      then s.(sched := Publish(s.sched, s.runners[k].id, st)) else s
    case FinishSection(k, now) =>
      if k < |s.runners| && s.runners[k].Executing? && s.runners[k].id in s.sched.jobs then
        s.(sched := Finish(s.sched, s.runners[k].id, now), runners := s.runners[k := Looping])
      else s
    case CancelSection(id, now) => s.(sched := Cancel(s.sched, id, now))
    case BeginShutdown => s.(shuttingDown := true)
    case CancelAllSection(now) => if s.shuttingDown then s.(sched := CancelAll(s.sched, now)) else s
    case PollSection => s.(sched := Prune(s.sched))
  }

  ghost function Run(s: System, actions: seq<Action>): System
    decreases |actions|
  {
    if actions == [] then s else Run(Apply(s, actions[0]), actions[1..])
  }

  // ---------------------------------------------------------------- invariant

  predicate Waiting(st: JobStatus) { st.state == Queued && !st.cancelRequested && !st.running }
  predicate Withdrawn(st: JobStatus) { st.state == Cancelled && st.cancelRequested && !st.running }

  predicate Distinct(q: seq<nat>) { forall i, j | 0 <= i < j < |q| :: q[i] != q[j] }

  predicate QueueOk(s: Sched) {
    && Distinct(s.queue)
    && forall id | id in s.queue :: id in s.jobs && (Waiting(s.jobs[id]) || Withdrawn(s.jobs[id]))
  }

  /** A job is queued only while its number is in the queue, and running exactly
      while the runner executes it. */
  predicate JobsOk(s: Sched, executing: Option<nat>) {
    && (forall id | id in s.jobs ::
          && (s.jobs[id].state == Queued ==> id in s.queue)
          && (s.jobs[id].running <==> executing == Some(id))
          && (!s.jobs[id].running ==> s.jobs[id].state != Running && s.jobs[id].state != Refreshing))
    && (executing.Some? ==> executing.value in s.jobs && executing.value !in s.queue)
  }

  ghost predicate Exclusive(s: Sched) {
    forall i, j | Incomplete(s.jobs, i) && Incomplete(s.jobs, j) && i != j ::
      !Conflicts(s.jobs[i], s.jobs[j].jobType, s.jobs[j].packageKeys)
  }

  ghost predicate SchedOk(s: Sched, executing: Option<nat>) {
    && KeysInRange(s) && QueueOk(s) && JobsOk(s, executing) && Exclusive(s)
    && Pending(s.queue, s.jobs) <= MAX_PENDING
  }

  function ExecutingId(runners: seq<Runner>): Option<nat> {
    if |runners| == 1 && runners[0].Executing? then Some(runners[0].id) else None
  }

  predicate NothingQueued(s: Sched) { forall id | id in s.jobs :: s.jobs[id].state != Queued }

  predicate RunnersOk(s: System) {
    && |s.runners| <= 1
    && (s.sched.active <==> |s.runners| == 1)
    && (|s.runners| == 1 && (s.runners[0].Launching? || s.runners[0].LaunchRefused?) ==>
          var id := s.runners[0].id;
          1 <= id <= s.sched.sequence && (id in s.sched.jobs ==> id in s.sched.queue))
    && (|s.runners| == 1 && s.runners[0].LaunchRefused? ==> s.shuttingDown)
    && (!s.shuttingDown && !s.sched.active ==> NothingQueued(s.sched))
  }

  ghost predicate Inv(s: System) { SchedOk(s.sched, ExecutingId(s.runners)) && RunnersOk(s) }

  // ---------------------------------------------------------------- lemmas about the sections

  lemma OverlapSymmetric(a: seq<string>, b: seq<string>)
    ensures KeysOverlap(a, b) <==> KeysOverlap(b, a)
  {
    if KeysOverlap(a, b) {
      var i, j :| 0 <= i < |a| && 0 <= j < |b| && Trim(a[i]) != "" && Trim(a[i]) == Trim(b[j]);
      assert Trim(b[j]) == Trim(a[i]);
    }
    if KeysOverlap(b, a) {
      var i, j :| 0 <= i < |b| && 0 <= j < |a| && Trim(b[i]) != "" && Trim(b[i]) == Trim(a[j]);
      assert Trim(a[j]) == Trim(b[i]);
    }
  }

  /** Queue entries can only stop being pending. */
  lemma PendingMono(queue: seq<nat>, before: map<nat, JobStatus>, after: map<nat, JobStatus>)
    requires forall id | id in queue :: Incomplete(after, id) ==> Incomplete(before, id)
    ensures Pending(queue, after) <= Pending(queue, before)
  {
    if queue != [] { PendingMono(queue[1..], before, after); }
  }

  lemma PendingSame(queue: seq<nat>, before: map<nat, JobStatus>, after: map<nat, JobStatus>)
    requires forall id | id in queue :: Incomplete(after, id) <==> Incomplete(before, id)
    ensures Pending(queue, after) == Pending(queue, before)
  {
    PendingMono(queue, before, after);
    PendingMono(queue, after, before);
  }

  lemma PendingFilter(queue: seq<nat>, jobs: map<nat, JobStatus>)
    ensures Pending(FilterQueue(queue, jobs), jobs) == Pending(queue, jobs)
  {
    if queue != [] {
      PendingFilter(queue[1..], jobs);
      var rest := FilterQueue(queue[1..], jobs);
      if queue[0] in jobs { assert ([queue[0]] + rest)[1..] == rest; } else { assert [] + rest == rest; }
    }
  }

  lemma {:induction false} FilterMembers(queue: seq<nat>, jobs: map<nat, JobStatus>)
    ensures forall id :: id in FilterQueue(queue, jobs) <==> id in queue && id in jobs
    ensures Distinct(queue) ==> Distinct(FilterQueue(queue, jobs))
  {
    if queue != [] {
      var head, rest := queue[0], FilterQueue(queue[1..], jobs);
      FilterMembers(queue[1..], jobs);
      assert queue == [head] + queue[1..];
      if head in jobs {
        assert FilterQueue(queue, jobs) == [head] + rest;
        if Distinct(queue) {
          assert Distinct(queue[1..]);
          assert head !in queue[1..];
          assert head !in rest;
        }
      } else {
        assert FilterQueue(queue, jobs) == rest;
      }
    }
  }

  lemma {:induction false} FilterLength(queue: seq<nat>, jobs: map<nat, JobStatus>)
    ensures |FilterQueue(queue, jobs)| <= |queue|
    ensures (|FilterQueue(queue, jobs)| == |queue|) <==> (forall id | id in queue :: id in jobs)
    ensures |FilterQueue(queue, jobs)| == |queue| ==> FilterQueue(queue, jobs) == queue
  {
    if queue != [] {
      FilterLength(queue[1..], jobs);
      assert queue == [queue[0]] + queue[1..];
    }
  }

  lemma FilterContents(queue: seq<nat>, jobs: map<nat, JobStatus>)
    ensures forall id :: id in FilterQueue(queue, jobs) <==> id in queue && id in jobs
    ensures Distinct(queue) ==> Distinct(FilterQueue(queue, jobs))
    ensures |FilterQueue(queue, jobs)| <= |queue|
    ensures (|FilterQueue(queue, jobs)| == |queue|) <==> (forall id | id in queue :: id in jobs)
    ensures |FilterQueue(queue, jobs)| == |queue| ==> FilterQueue(queue, jobs) == queue
  {
    FilterMembers(queue, jobs);
    FilterLength(queue, jobs);
  }

  /** Jobs may only become complete; whoever stays incomplete keeps its type and keys. */
  lemma ExclusiveMono(s: Sched, s': Sched)
    requires Exclusive(s)
    requires forall id | Incomplete(s'.jobs, id) :: Incomplete(s.jobs, id)
               && s'.jobs[id].jobType == s.jobs[id].jobType && s'.jobs[id].packageKeys == s.jobs[id].packageKeys
    ensures Exclusive(s')
  {
  }

  /** What pruning does, whatever the history limit: some completed jobs and
      their queue entries go, everything else stays as it was. */
  ghost predicate Restricts(s: Sched, s': Sched) {
    && s'.active == s.active && s'.sequence == s.sequence
    && (forall id | id in s'.jobs :: id in s.jobs && s'.jobs[id] == s.jobs[id])
    && (forall id | id in s.jobs && !Complete(s.jobs[id]) :: id in s'.jobs)
    && (forall id :: id in s'.queue <==> id in s.queue && (id in s'.jobs || id !in s.jobs))
    && (Distinct(s.queue) ==> Distinct(s'.queue))
    && Pending(s'.queue, s'.jobs) == Pending(s.queue, s.jobs)
  }

  lemma PruneRestricts(s: Sched)
    requires forall id | id in s.queue :: id in s.jobs
    ensures Restricts(s, Prune(s))
  {
    if |s.jobs| > HISTORY_LIMIT {
      var jobs := KeptJobs(s.jobs);
      FilterContents(s.queue, jobs);
      PendingFilter(s.queue, jobs);
      PendingSame(s.queue, s.jobs, jobs);
    }
  }

  lemma RestrictOk(s: Sched, s': Sched, executing: Option<nat>)
    requires SchedOk(s, executing) && Restricts(s, s')
    ensures SchedOk(s', executing)
  {
    ExclusiveMono(s, s');
  }

  lemma PruneOk(s: Sched, executing: Option<nat>)
    requires SchedOk(s, executing)
    ensures SchedOk(Prune(s), executing) && Restricts(s, Prune(s))
  {
    PruneRestricts(s);
    RestrictOk(s, Prune(s), executing);
  }

  /** A status change that keeps a job's identity and its place preserves the
      scheduler part of the invariant. */
  lemma PublishOk(s: Sched, executing: Option<nat>, id: nat, st: JobStatus, executing': Option<nat>)
    requires SchedOk(s, executing) && id in s.jobs
    requires st.jobType == s.jobs[id].jobType && st.packageKeys == s.jobs[id].packageKeys
    requires !Complete(st) ==> !Complete(s.jobs[id])
    requires if id in s.queue then Withdrawn(st) && executing' == executing else st.state != Queued
    requires st.running <==> executing' == Some(id)
    requires !st.running ==> st.state != Running && st.state != Refreshing
    requires executing' == executing || (executing' == None && executing == Some(id))
    ensures SchedOk(Publish(s, id, st), executing')
  {
    PendingMono(s.queue, s.jobs, Publish(s, id, st).jobs);
    ExclusiveMono(s, Publish(s, id, st));
  }

  /** What popping leaves alone. */
  ghost predicate PopFrame(s: Sched, s': Sched) {
    && s'.sequence == s.sequence && s'.jobs.Keys == s.jobs.Keys
    && (forall id | id in s'.queue :: id in s.queue)
    && (forall id | id in s.jobs && id !in s.queue :: s'.jobs[id] == s.jobs[id])
    && (forall id | id in s.jobs && Complete(s.jobs[id]) :: Complete(s'.jobs[id]))
  }

  function Withdraw(st: JobStatus, now: nat): JobStatus {
    if st.cancelRequested then CancelQueued(st, "", now)
    else CancelQueued(st.(cancelRequested := true), "Job cancelled by shutdown.", now)
  }

  lemma HeadWithdrawn(s: Sched, s': Sched, st: JobStatus)
    requires SchedOk(s, None) && s.queue != []
    requires Withdrawn(st) && st.jobType == s.jobs[s.queue[0]].jobType
      && st.packageKeys == s.jobs[s.queue[0]].packageKeys
    requires s' == Publish(s.(queue := s.queue[1..]), s.queue[0], st)
    ensures SchedOk(s', None) && PopFrame(s, s') && s'.active == s.active
  {
    HeadLeaves(s.queue);
    assert QueueOk(s') && JobsOk(s', None);
    PendingMono(s'.queue, s.jobs, s'.jobs);
    ExclusiveMono(s, s');
  }

  lemma HeadStarted(s: Sched, s': Sched, st: JobStatus)
    requires SchedOk(s, None) && s.queue != [] && Waiting(s.jobs[s.queue[0]])
    requires st.running && st.state == Running
    requires st.jobType == s.jobs[s.queue[0]].jobType && st.packageKeys == s.jobs[s.queue[0]].packageKeys
    requires s' == Publish(s.(queue := s.queue[1..]), s.queue[0], st)
    ensures SchedOk(s', Some(s.queue[0])) && PopFrame(s, s') && s'.active == s.active
  {
    var id := s.queue[0];
    HeadLeaves(s.queue);
    assert QueueOk(s');
    assert JobsOk(s', Some(id));
    PendingMono(s'.queue, s.jobs, s'.jobs);
    assert Pending(s.queue, s.jobs) == 1 + Pending(s'.queue, s.jobs);
    ExclusiveMono(s, s');
  }

  lemma HeadLeaves(q: seq<nat>)
    requires Distinct(q) && q != []
    ensures Distinct(q[1..]) && q[0] !in q[1..]
    ensures forall id :: id in q <==> id == q[0] || id in q[1..]
  {
    assert q == [q[0]] + q[1..];
  }

  lemma FrameTransitive(a: Sched, b: Sched, c: Sched)
    requires PopFrame(a, b) && PopFrame(b, c)
    ensures PopFrame(a, c)
  {
  }

  /** Popping keeps the invariant, runs only a job that was still waiting, and
      leaves no job queued when it runs none. */
  lemma {:induction false} PopOk(s: Sched, ctxDone: bool, now: nat)
    requires SchedOk(s, None)
    ensures var (s', next) := Pop(s, ctxDone, now);
      && SchedOk(s', next) && PopFrame(s, s')
      && (next.None? ==> !s'.active && s'.queue == [])
      && (next.Some? ==> s'.active == s.active && next.value in s.queue && Waiting(s.jobs[next.value]) && !ctxDone)
    decreases |s.queue|
  {
    if s.queue == [] {
      SameSched(s, s.(active := false), None);
    } else {
      var id, rest := s.queue[0], s.(queue := s.queue[1..]);
      assert id in s.queue;
      if s.jobs[id].cancelRequested || ctxDone {
        var s1 := Publish(rest, id, Withdraw(s.jobs[id], now));
        HeadWithdrawn(s, s1, Withdraw(s.jobs[id], now));
        PopOk(s1, ctxDone, now);
        FrameTransitive(s, s1, Pop(s1, ctxDone, now).0);
      } else {
        HeadStarted(s, Publish(rest, id, StartRunning(s.jobs[id], now)), StartRunning(s.jobs[id], now));
      }
    }
  }

  lemma EnqueueExclusive(s: Sched, r: Request)
    requires Exclusive(s) && KeysInRange(s) && !HasDuplicate(s.jobs, r.jobType, r.keys)
    ensures Exclusive(Enqueue(s, r))
  {
    var s', id := Enqueue(s, r), s.sequence + 1;
    forall i, j | Incomplete(s'.jobs, i) && Incomplete(s'.jobs, j) && i != j
      ensures !Conflicts(s'.jobs[i], s'.jobs[j].jobType, s'.jobs[j].packageKeys)
    {
      if i == id {
        OverlapSymmetric(r.keys, s'.jobs[j].packageKeys);
        assert !Conflicts(s.jobs[j], r.jobType, r.keys);
      } else if j == id {
        assert !Conflicts(s.jobs[i], r.jobType, r.keys);
      } else {
        assert Incomplete(s.jobs, i) && Incomplete(s.jobs, j);
      }
    }
  }

  lemma EnqueueOk(s: Sched, executing: Option<nat>, r: Request)
    requires SchedOk(s, executing) && Accepts(s, r)
    ensures SchedOk(Enqueue(s, r), executing)
  {
    EnqueueExclusive(s, r);
    EnqueueShape(s, executing, Enqueue(s, r), NewStatus(r, |s.queue| + 1));
  }

  lemma EnqueueShape(s: Sched, executing: Option<nat>, s': Sched, st: JobStatus)
    requires KeysInRange(s) && QueueOk(s) && JobsOk(s, executing) && Pending(s.queue, s.jobs) < MAX_PENDING
    requires Waiting(st) && s'.sequence == s.sequence + 1
    requires s'.jobs == s.jobs[s'.sequence := st] && s'.queue == s.queue + [s'.sequence]
    ensures KeysInRange(s') && QueueOk(s') && JobsOk(s', executing) && Pending(s'.queue, s'.jobs) <= MAX_PENDING
  {
    PendingSame(s.queue, s.jobs, s'.jobs);
    PendingSnoc(s.queue, s'.sequence, s'.jobs);
    assert forall x :: x in s'.queue <==> x in s.queue || x == s'.sequence;
  }

  /** Only jobs, queue and sequence matter. */
  lemma SameSched(s: Sched, s': Sched, executing: Option<nat>)
    requires SchedOk(s, executing) && s'.jobs == s.jobs && s'.queue == s.queue && s'.sequence == s.sequence
    ensures SchedOk(s', executing)
  {
    ExclusiveMono(s, s');
  }

  /** What shutdown does to one job. */
  ghost predicate Quenched(st: JobStatus, st': JobStatus) {
    && st'.jobType == st.jobType && st'.packageKeys == st.packageKeys && st'.running == st.running
    && (Complete(st) ==> st' == st) && st'.state == (if st.state == Queued then Cancelled else st.state)
    && (!Complete(st) ==> st'.cancelRequested)
  }

  lemma QuenchedOk(s: Sched, executing: Option<nat>, s': Sched)
    requires SchedOk(s, executing)
    requires s'.jobs.Keys == s.jobs.Keys && s'.queue == s.queue && s'.sequence == s.sequence
    requires forall id | id in s.jobs :: Quenched(s.jobs[id], s'.jobs[id])
    ensures SchedOk(s', executing) && NothingQueued(s')
  {
    PendingMono(s.queue, s.jobs, s'.jobs);
    ExclusiveMono(s, s');
  }

  lemma CancelAllOk(s: Sched, executing: Option<nat>, now: nat)
    requires SchedOk(s, executing)
    ensures SchedOk(CancelAllJobs(s, now), executing) && NothingQueued(CancelAllJobs(s, now))
  {
    var s' := CancelAllJobs(s, now);
    forall id | id in s.jobs ensures Quenched(s.jobs[id], s'.jobs[id]) {
      assert s'.jobs[id] == ShutDown(s.jobs[id], now);
    }
    QuenchedOk(s, executing, s');
  }

  lemma CancelOk(s: Sched, executing: Option<nat>, id: nat, now: nat)
    requires SchedOk(s, executing)
    ensures SchedOk(Cancel(s, id, now), executing)
    ensures Cancel(s, id, now).active == s.active && Cancel(s, id, now).sequence == s.sequence
    ensures NothingQueued(s) ==> NothingQueued(Cancel(s, id, now))
    ensures forall x | x in s.queue && x in Cancel(s, id, now).jobs :: x in Cancel(s, id, now).queue
    ensures forall x | x in Cancel(s, id, now).jobs :: x in s.jobs
  {
    if id in s.jobs {
      if s.jobs[id].state == Queued || s.jobs[id].running {
        var s1 := Publish(s, id, CancelStatus(s.jobs[id], now));
        PublishOk(s, executing, id, CancelStatus(s.jobs[id], now), executing);
        PruneOk(s1, executing);
      } else {
        PruneOk(s, executing);
      }
    }
  }

  // ---------------------------------------------------------------- safety over all runs

  lemma StartStepOk(s: System, c: nat)
    requires Inv(s)
    ensures Inv(Apply(s, StartSection(c)))
  {
    if c < |s.starters| && Accepts(s.sched, s.starters[c]) {
      EnqueueOk(s.sched, ExecutingId(s.runners), s.starters[c]);
    }
  }

  lemma LaunchFailedOk(s: Sched, id: nat, now: nat)
    requires SchedOk(s, None) && (id in s.jobs ==> id in s.queue)
    ensures SchedOk(LaunchFailed(s, id, now), None) && !LaunchFailed(s, id, now).active
  {
    var idle := s.(active := false);
    SameSched(s, idle, None);
    SameSched(s, idle.(revision := s.revision + 1), None);
    if id in s.jobs {
      PublishOk(idle, None, id, CancelQueued(s.jobs[id].(cancelRequested := true), "Job cancelled by shutdown.", now),
                None);
    }
  }

  lemma LaunchFailureStepOk(s: System, k: nat, now: nat)
    requires Inv(s)
    ensures Inv(Apply(s, LaunchFailureSection(k, now)))
  {
    if k < |s.runners| && s.runners[k].LaunchRefused? { LaunchFailedOk(s.sched, s.runners[k].id, now); }
  }

  lemma PopStepOk(s: System, k: nat, now: nat)
    requires Inv(s)
    ensures Inv(Apply(s, PopSection(k, now)))
  {
    if k < |s.runners| && s.runners[k].Looping? { PopOk(s.sched, s.shuttingDown, now); }
  }

  lemma MutateStepOk(s: System, k: nat, st: JobStatus)
    requires Inv(s)
    ensures Inv(Apply(s, MutateSection(k, st)))
  {
    if k < |s.runners| && s.runners[k].Executing? && MutationAllowed(s.sched.jobs[s.runners[k].id], st) {
      PublishOk(s.sched, ExecutingId(s.runners), s.runners[k].id, st, ExecutingId(s.runners));
    }
  }

  lemma FinishStepOk(s: System, k: nat, now: nat)
    requires Inv(s)
    ensures Inv(Apply(s, FinishSection(k, now)))
  {
    if k < |s.runners| && s.runners[k].Executing? {
      var id := s.runners[k].id;
      PublishOk(s.sched, Some(id), id, Conclude(s.sched.jobs[id], now), None);
      PruneOk(Publish(s.sched, id, Conclude(s.sched.jobs[id], now)), None);
    }
  }

  lemma CancelStepOk(s: System, id: nat, now: nat)
    requires Inv(s)
    ensures Inv(Apply(s, CancelSection(id, now)))
  {
    CancelOk(s.sched, ExecutingId(s.runners), id, now);
  }

  lemma CancelAllStepOk(s: System, now: nat)
    requires Inv(s)
    ensures Inv(Apply(s, CancelAllSection(now)))
  {
    CancelAllOk(s.sched, ExecutingId(s.runners), now);
    PruneOk(CancelAllJobs(s.sched, now), ExecutingId(s.runners));
  }

  lemma PollStepOk(s: System)
    requires Inv(s)
    ensures Inv(Apply(s, PollSection))
  {
    PruneOk(s.sched, ExecutingId(s.runners));
  }

  lemma ApplyPreservesInv(s: System, a: Action)
    requires Inv(s)
    ensures Inv(Apply(s, a))
  {
    match a
    case StartSection(c) => StartStepOk(s, c);
    case LaunchFailureSection(k, now) => LaunchFailureStepOk(s, k, now);
    case PopSection(k, now) => PopStepOk(s, k, now);
    case MutateSection(k, st) => MutateStepOk(s, k, st);
    case FinishSection(k, now) => FinishStepOk(s, k, now);
    case CancelSection(id, now) => CancelStepOk(s, id, now);
    case CancelAllSection(now) => CancelAllStepOk(s, now);
    case PollSection => PollStepOk(s);
    case _ =>
  }

  lemma {:induction false} RunPreservesInv(s: System, actions: seq<Action>)
    requires Inv(s)
    ensures Inv(Run(s, actions))
    decreases |actions|
  {
    if actions != [] {
      ApplyPreservesInv(s, actions[0]);
      RunPreservesInv(Apply(s, actions[0]), actions[1..]);
    }
  }
}
