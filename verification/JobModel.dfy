/** Values of the operation job scheduler and, for each of its locked sections,
    the function from the old scheduler value to the new one. */
module JobModel {
  import opened Wrappers
  import opened Text

  const HISTORY_LIMIT: nat := 25
  const MAX_PENDING: nat := 25

  datatype JobType = Install | Update | UpdateAll | Scan | ManagerInstall | InventoryRefresh | SelfUpdate

  datatype JobState =
    Queued | Starting | Running | Accepted | Verifying | Refreshing
    | Succeeded | AcceptedNotVerified | Failed | Cancelled

  datatype JobStatus = JobStatus(
    revision: nat, jobType: JobType, mode: string, state: JobState, running: bool, queueDepth: nat,
    cancelRequested: bool, packageKeys: seq<string>, packages: seq<string>, total: int,
    results: seq<bool>, result: Option<bool>, startedAt: Option<nat>, finishedAt: Option<nat>,
    notice: string, error: string, detail: string)

  datatype Request = Request(jobType: JobType, mode: string, total: int, keys: seq<string>, packages: seq<string>)

  /** Jobs are keyed by the number in their "job-N" identifier. */
  datatype Sched = Sched(jobs: map<nat, JobStatus>, queue: seq<nat>, active: bool, revision: nat, sequence: nat)

  const Empty := Sched(map[], [], false, 0, 0)

  predicate Complete(st: JobStatus) {
    !st.running && st.state != Queued && st.state != Running && st.state != Refreshing
  }

  predicate Incomplete(jobs: map<nat, JobStatus>, id: nat) { id in jobs && !Complete(jobs[id]) }

  predicate KeysInRange(s: Sched) { forall id | id in s.jobs :: 1 <= id <= s.sequence }

  // ---------------------------------------------------------------- duplicates

  predicate DedupesByType(t: JobType) { t == Scan || t == InventoryRefresh || t == SelfUpdate }
  predicate DedupesByPackage(t: JobType) { t == Install || t == Update || t == UpdateAll }

  /** Some non-blank key occurs on both sides once both are trimmed. */
  ghost predicate KeysOverlap(left: seq<string>, right: seq<string>) {
    exists i, j | 0 <= i < |left| && 0 <= j < |right| :: Trim(left[i]) != "" && Trim(left[i]) == Trim(right[j])
  }

  ghost predicate Conflicts(st: JobStatus, jobType: JobType, keys: seq<string>) {
    || (DedupesByType(jobType) && st.jobType == jobType)
    || (DedupesByPackage(jobType) && DedupesByPackage(st.jobType) && KeysOverlap(keys, st.packageKeys))
  }

  ghost predicate HasDuplicate(jobs: map<nat, JobStatus>, jobType: JobType, keys: seq<string>) {
    exists id | id in jobs :: !Complete(jobs[id]) && Conflicts(jobs[id], jobType, keys)
  }

  function Pending(queue: seq<nat>, jobs: map<nat, JobStatus>): nat {
    if queue == [] then 0
    else (if Incomplete(jobs, queue[0]) then 1 else 0) + Pending(queue[1..], jobs)
  }

  lemma PendingSnoc(queue: seq<nat>, id: nat, jobs: map<nat, JobStatus>)
    ensures Pending(queue + [id], jobs) == Pending(queue, jobs) + if Incomplete(jobs, id) then 1 else 0
  {
    if queue != [] {
      PendingSnoc(queue[1..], id, jobs);
      assert (queue + [id])[1..] == queue[1..] + [id];
    }
  }

  // ---------------------------------------------------------------- start

  function NewStatus(r: Request, depth: nat): JobStatus {
    JobStatus(1, r.jobType, r.mode, Queued, false, depth, false, r.keys, r.packages, r.total,
              [], None, None, None, "", "", "")
  }

  function Enqueue(s: Sched, r: Request): Sched {
    var id := s.sequence + 1;
    s.(jobs := s.jobs[id := NewStatus(r, |s.queue| + 1)], queue := s.queue + [id],
       active := true, revision := s.revision + 1, sequence := id)
  }

  ghost predicate Accepts(s: Sched, r: Request) {
    !HasDuplicate(s.jobs, r.jobType, r.keys) && Pending(s.queue, s.jobs) < MAX_PENDING
  }

  ghost function Start(s: Sched, r: Request): Sched { if Accepts(s, r) then Enqueue(s, r) else s }

  function CompactTerminal(st: JobStatus): JobStatus { if Complete(st) then st.(packages := []) else st }

  function CancelQueued(st: JobStatus, notice: string, now: nat): JobStatus {
    CompactTerminal(st.(state := Cancelled, running := false, finishedAt := Some(now),
                        notice := if notice != "" then notice else st.notice))
  }

  /** Replaces a job's status and bumps its revision and the scheduler's. */
  function Publish(s: Sched, id: nat, st: JobStatus): Sched {
    s.(jobs := s.jobs[id := st.(revision := st.revision + 1)], revision := s.revision + 1)
  }

  /** The second locked section of a start whose runner could not be launched.
      A job that pruning has meanwhile dropped is only changed out of sight. */
  function LaunchFailed(s: Sched, id: nat, now: nat): Sched {
    var s1 := s.(active := false);
    if id !in s.jobs then s1.(revision := s.revision + 1)
    else Publish(s1, id, CancelQueued(s.jobs[id].(cancelRequested := true), "Job cancelled by shutdown.", now))
  }

  // ---------------------------------------------------------------- runner

  function StartRunning(st: JobStatus, now: nat): JobStatus {
    st.(state := Running, running := true, startedAt := Some(now))
  }

  /** One locked section at the top of the runner's loop: it consumes the queue
      up to the first job it may run, or all of it. */
  function Pop(s: Sched, ctxDone: bool, now: nat): (Sched, Option<nat>)
    decreases |s.queue|
  {
    if s.queue == [] then (s.(active := false), None)
    else
      var id, rest := s.queue[0], s.(queue := s.queue[1..]);
      if id !in s.jobs then Pop(rest, ctxDone, now)
      else if s.jobs[id].cancelRequested then
        Pop(Publish(rest, id, CancelQueued(s.jobs[id], "", now)), ctxDone, now)
      else if ctxDone then
        Pop(Publish(rest, id, CancelQueued(s.jobs[id].(cancelRequested := true), "Job cancelled by shutdown.", now)),
            ctxDone, now)
      else (Publish(rest, id, StartRunning(s.jobs[id], now)), Some(id))
  }

  function HasFailures(st: JobStatus): bool { st.result == Some(false) || false in st.results }

  function Conclude(st: JobStatus, now: nat): JobStatus {
    var decided :=
      if st.state == Running || st.state == Refreshing then
        if st.cancelRequested then st.(state := Cancelled, notice := "Job cancelled.")
        else if st.error != "" || HasFailures(st) then st.(state := Failed)
        else st.(state := Succeeded)
      else st;
    CompactTerminal(decided.(running := false,
                             finishedAt := if st.finishedAt == None then Some(now) else st.finishedAt))
  }

  function Finish(s: Sched, id: nat, now: nat): Sched
    requires id in s.jobs
  {
    Prune(Publish(s, id, Conclude(s.jobs[id], now)))
  }

  /** What the closures handed to mutateOperationJob do to a status: they never
      touch its identity, never requeue it and never withdraw a cancellation. */
  predicate MutationAllowed(before: JobStatus, after: JobStatus) {
    && after.jobType == before.jobType && after.packageKeys == before.packageKeys && after.revision == before.revision
    && after.running == before.running && after.startedAt == before.startedAt && after.finishedAt == before.finishedAt
    && after.state != Queued && (before.cancelRequested ==> after.cancelRequested)
  }

  // ---------------------------------------------------------------- cancellation

  function CancelStatus(st: JobStatus, now: nat): JobStatus {
    var asked := st.(cancelRequested := true, notice := "Cancelling job...");
    if st.state == Queued then CancelQueued(asked, "Job cancelled.", now) else asked
  }

  function Cancel(s: Sched, id: nat, now: nat): Sched {
    if id !in s.jobs then s
    else if s.jobs[id].state == Queued || s.jobs[id].running then Prune(Publish(s, id, CancelStatus(s.jobs[id], now)))
    else Prune(s)
  }

  function ShutdownStatus(st: JobStatus, now: nat): JobStatus {
    var asked := st.(cancelRequested := true, notice := "Job cancelled by shutdown.");
    if st.state == Queued then CancelQueued(asked, "Job cancelled by shutdown.", now) else asked
  }

  function ShutDown(st: JobStatus, now: nat): JobStatus {
    if Complete(st) then st
    else
      var st1 := ShutdownStatus(st, now);
      st1.(revision := st1.revision + 1)
  }

  function ShutDownThese(jobs: map<nat, JobStatus>, ids: set<nat>, now: nat): map<nat, JobStatus> {
    map id | id in jobs :: if id in ids then ShutDown(jobs[id], now) else jobs[id]
  }

  function IncompleteIds(jobs: map<nat, JobStatus>): set<nat> { set id | id in jobs && !Complete(jobs[id]) }

  function CancelAllJobs(s: Sched, now: nat): Sched {
    s.(jobs := ShutDownThese(s.jobs, s.jobs.Keys, now),
       revision := s.revision + |IncompleteIds(s.jobs)|)
  }

  function CancelAll(s: Sched, now: nat): Sched { Prune(CancelAllJobs(s, now)) }

  // ---------------------------------------------------------------- pruning

  /** The completed jobs that are newer than a given one. */
  function CompletedAfter(jobs: map<nat, JobStatus>, id: nat): set<nat> {
    set j | j in jobs && j > id && Complete(jobs[j])
  }

  predicate LatestOfType(jobs: map<nat, JobStatus>, id: nat)
    requires id in jobs
  {
    forall j | j in CompletedAfter(jobs, id) :: jobs[j].jobType != jobs[id].jobType
  }

  /** Which jobs the history keeps: every incomplete one, the newest completed
      one of each type, and the HISTORY_LIMIT newest completed ones. */
  predicate Kept(jobs: map<nat, JobStatus>, id: nat)
    requires id in jobs
  {
    !Complete(jobs[id]) || LatestOfType(jobs, id) || |CompletedAfter(jobs, id)| < HISTORY_LIMIT
  }

  function KeptJobs(jobs: map<nat, JobStatus>): map<nat, JobStatus> {
    map id | id in jobs && Kept(jobs, id) :: jobs[id]
  }

  function FilterQueue(queue: seq<nat>, jobs: map<nat, JobStatus>): seq<nat> {
    if queue == [] then []
    else (if queue[0] in jobs then [queue[0]] else []) + FilterQueue(queue[1..], jobs)
  }

  function Prune(s: Sched): Sched {
    if |s.jobs| <= HISTORY_LIMIT then s
    else
      var jobs := KeptJobs(s.jobs);
      var queue := FilterQueue(s.queue, jobs);
      s.(jobs := jobs, queue := queue,
         revision := if jobs != s.jobs || |queue| != |s.queue| then s.revision + 1 else s.revision)
  }

  // ---------------------------------------------------------------- what clients see

  /** Statuses in job order, each under its job number. */
  function Statuses(jobs: map<nat, JobStatus>, n: nat): seq<(nat, JobStatus)> {
    if n == 0 then [] else Statuses(jobs, n - 1) + if n in jobs then [(n, jobs[n])] else []
  }

  datatype View = View(statuses: seq<(nat, JobStatus)>, pending: nat)

  function ViewOf(s: Sched): View { View(Statuses(s.jobs, s.sequence), Pending(s.queue, s.jobs)) }
}
