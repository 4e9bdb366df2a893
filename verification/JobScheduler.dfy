/** The scheduler object: each method is one locked section, proved against the
    function of JobModel that says what the section does. */
module JobScheduler {
  import opened Wrappers
  import opened Text
  import opened JobModel

  lemma FilterSnoc(queue: seq<nat>, id: nat, jobs: map<nat, JobStatus>)
    ensures FilterQueue(queue + [id], jobs) == FilterQueue(queue, jobs) + if id in jobs then [id] else []
  {
    if queue != [] {
      FilterSnoc(queue[1..], id, jobs);
      assert (queue + [id])[1..] == queue[1..] + [id];
    }
  }

  method PackageKeysOverlap(left: seq<string>, right: seq<string>) returns (overlap: bool)
    ensures overlap <==> KeysOverlap(left, right)
  {
    if |left| == 0 || |right| == 0 { return false; }
    var seen: set<string> := {};
    for i := 0 to |left|
      invariant seen == set k | 0 <= k < i && Trim(left[k]) != "" :: Trim(left[k])
    {
      var normalized := Trim(left[i]);
      if normalized != "" { seen := seen + {normalized}; }
    }
    for j := 0 to |right|
      invariant forall k | 0 <= k < j :: Trim(right[k]) !in seen
    {
      if Trim(right[j]) in seen { return true; }
    }
    return false;
  }

  class Scheduler {
    var jobs: map<nat, JobStatus>
    var queue: seq<nat>
    var active: bool
    var revision: nat
    var sequence: nat

    function Value(): Sched
      reads this
    {
      Sched(jobs, queue, active, revision, sequence)
    }

    ghost predicate Valid()
      reads this
    {
      KeysInRange(Value())
    }

    constructor ()
      ensures Value() == Empty && Valid()
    {
      jobs, queue, active, revision, sequence := map[], [], false, 0, 0;
    }

    /** The newest incomplete job that conflicts with a request. */
    method FindDuplicate(jobType: JobType, keys: seq<string>) returns (duplicate: Option<nat>)
      requires Valid()
      ensures duplicate.None? <==> !HasDuplicate(jobs, jobType, keys)
      ensures duplicate.Some? ==> Incomplete(jobs, duplicate.value) && Conflicts(jobs[duplicate.value], jobType, keys)
      ensures duplicate.Some? ==> forall id | id in jobs && id > duplicate.value ::
                Complete(jobs[id]) || !Conflicts(jobs[id], jobType, keys)
    {
      var i := sequence;
      while i >= 1
        invariant forall id | id in jobs && id > i :: Complete(jobs[id]) || !Conflicts(jobs[id], jobType, keys)
      {
        if i in jobs && !Complete(jobs[i]) {
          var job := jobs[i];
          if DedupesByType(jobType) && job.jobType == jobType { return Some(i); }
          var overlap := PackageKeysOverlap(keys, job.packageKeys);
          if DedupesByPackage(jobType) && DedupesByPackage(job.jobType) && overlap { return Some(i); }
        }
        i := i - 1;
      }
      return None;
    }

    method PendingCount() returns (count: nat)
      ensures count == Pending(queue, jobs)
    {
      count := 0;
      for i := 0 to |queue|
        invariant count == Pending(queue[..i], jobs)
      {
        PendingSnoc(queue[..i], queue[i], jobs);
        assert queue[..i + 1] == queue[..i] + [queue[i]];
        if queue[i] in jobs && !Complete(jobs[queue[i]]) { count := count + 1; }
      }
      assert queue[..|queue|] == queue;
    }

    /** The locked section of a start: rejected requests change nothing. The
        caller must launch a runner exactly when none was active. */
    method Start(r: Request) returns (accepted: bool, launch: bool)
      requires Valid()
      modifies this
      ensures Valid() && Value() == JobModel.Start(old(Value()), r)
      ensures accepted <==> Accepts(old(Value()), r)
      ensures launch <==> accepted && !old(active)
    {
      var duplicate := FindDuplicate(r.jobType, r.keys);
      if duplicate.Some? { return false, false; }
      var pending := PendingCount();
      if pending >= MAX_PENDING { return false, false; }
      sequence := sequence + 1;
      jobs := jobs[sequence := NewStatus(r, |queue| + 1)];
      queue := queue + [sequence];
      revision := revision + 1;
      launch := !active;
      if launch { active := true; }
      accepted := true;
    }

    method LaunchFailure(id: nat, now: nat)
      requires Valid()
      modifies this
      ensures Valid() && Value() == LaunchFailed(old(Value()), id, now)
    {
      active := false;
      if id in jobs {
        var st := CancelQueued(jobs[id].(cancelRequested := true), "Job cancelled by shutdown.", now);
        jobs := jobs[id := st.(revision := st.revision + 1)];
      }
      revision := revision + 1;
    }

    /** Consumes the queue up to the first job the runner may run. */
    method PopNext(ctxDone: bool, now: nat) returns (next: Option<nat>)
      requires Valid()
      modifies this
      ensures Valid() && (Value(), next) == Pop(old(Value()), ctxDone, now)
    {
      next := None;
      while |queue| > 0
        invariant Valid()
        invariant Pop(Value(), ctxDone, now) == Pop(old(Value()), ctxDone, now)
        decreases |queue|
      {
        var id := queue[0];
        queue := queue[1..];
        if id !in jobs { continue; }
        if jobs[id].cancelRequested {
          SetStatus(id, CancelQueued(jobs[id], "", now));
          continue;
        }
        if ctxDone {
          SetStatus(id, CancelQueued(jobs[id].(cancelRequested := true), "Job cancelled by shutdown.", now));
          continue;
        }
        SetStatus(id, StartRunning(jobs[id], now));
        return Some(id);
      }
      active := false;
    }

    method SetStatus(id: nat, st: JobStatus)
      requires Valid() && id in jobs
      modifies this`jobs, this`revision
      ensures Valid() && Value() == Publish(old(Value()), id, st)
    {
      jobs := jobs[id := st.(revision := st.revision + 1)];
      revision := revision + 1;
    }

    method Finish(id: nat, now: nat)
      requires Valid() && id in jobs
      modifies this
      ensures Valid() && Value() == JobModel.Finish(old(Value()), id, now)
    {
      SetStatus(id, Conclude(jobs[id], now));
      Prune();
    }

    method Cancel(id: nat, now: nat) returns (found: bool)
      requires Valid()
      modifies this
      ensures Valid() && Value() == JobModel.Cancel(old(Value()), id, now)
      ensures found <==> id in old(jobs)
    {
      if id !in jobs { return false; }
      if jobs[id].state == Queued || jobs[id].running {
        SetStatus(id, CancelStatus(jobs[id], now));
      }
      Prune();
      found := true;
    }

    method CancelForShutdown(now: nat)
      requires Valid()
      modifies this
      ensures Valid() && Value() == CancelAll(old(Value()), now)
    {
      ShutDownAll(Value(), now);
      CancelIncomplete(now);
      Prune();
    }

    /** Visits the jobs in arbitrary order, as a map iteration does. */
    method CancelIncomplete(now: nat)
      modifies this`jobs, this`revision
      ensures jobs == ShutDownThese(old(jobs), old(jobs.Keys), now)
      ensures revision == old(revision) + |IncompleteIds(old(jobs))|
    {
      ghost var before, r := jobs, revision;
      var todo := jobs.Keys;
      NothingDone(before, now);
      while todo != {}
        invariant todo <= before.Keys
        invariant jobs == ShutDownThese(before, before.Keys - todo, now)
        invariant revision == r + Visited(before, todo)
        decreases todo
      {
        var id :| id in todo;
        Visit(before, todo, id, now);
        todo := todo - {id};
        if !Complete(jobs[id]) {
          jobs := jobs[id := ShutDown(jobs[id], now)];
          revision := revision + 1;
        }
      }
      EverythingDone(before, now);
    }

    /** Drops completed jobs that fall out of the history. */
    method Prune()
      requires Valid()
      modifies this
      ensures Valid() && Value() == JobModel.Prune(old(Value()))
    {
      PruneInRange(Value());
      if |jobs| <= HISTORY_LIMIT { return; }
      var retained := RetainedIds();
      var prunedAny := DeleteUnretained(retained);
      var previousLength := |queue|;
      var kept := ExistingQueueIds();
      queue := kept;
      if prunedAny || |queue| != previousLength { revision := revision + 1; }
    }

    method DeleteUnretained(retained: set<nat>) returns (prunedAny: bool)
      requires retained == set id | id in jobs && Kept(jobs, id)
      modifies this`jobs
      ensures jobs == KeptJobs(old(jobs)) && (prunedAny <==> jobs != old(jobs))
    {
      ghost var before := jobs;
      prunedAny := false;
      var todo := jobs.Keys;
      while todo != {}
        invariant todo <= before.Keys
        invariant jobs == map id | id in before && (id in todo || id in retained) :: before[id]
        invariant prunedAny <==> jobs != before
        decreases todo
      {
        var id :| id in todo;
        todo := todo - {id};
        if id !in retained && Complete(jobs[id]) {
          jobs := jobs - {id};
          prunedAny := true;
          assert id in before && id !in jobs;
        } else {
          assert !Complete(before[id]) ==> id in retained;
        }
      }
    }

    method ExistingQueueIds() returns (kept: seq<nat>)
      ensures kept == FilterQueue(queue, jobs)
    {
      kept := [];
      for i := 0 to |queue|
        invariant kept == FilterQueue(queue[..i], jobs)
      {
        FilterSnoc(queue[..i], queue[i], jobs);
        assert queue[..i + 1] == queue[..i] + [queue[i]];
        if queue[i] in jobs { kept := kept + [queue[i]]; }
      }
      assert queue[..|queue|] == queue;
    }

    /** Two downward passes over the job numbers collect what the history keeps. */
    method RetainedIds() returns (retained: set<nat>)
      requires Valid()
      ensures retained == set id | id in jobs && Kept(jobs, id)
    {
      var byType := RetainedByType();
      var recent, stop := RecentlyCompleted();
      RecentAreKept(jobs, byType, stop);
      retained := byType + recent;
    }

    method RecentlyCompleted() returns (recent: set<nat>, ghost stop: nat)
      requires Valid()
      ensures recent == CompletedAfter(jobs, stop) && |recent| <= HISTORY_LIMIT
      ensures stop == 0 || |recent| == HISTORY_LIMIT
    {
      recent := {};
      var count, i := 0, sequence;
      while i >= 1 && count < HISTORY_LIMIT
        invariant count == |recent| <= HISTORY_LIMIT
        invariant recent == CompletedAfter(jobs, i)
        decreases i
      {
        CompletedStep(jobs, i);
        if i in jobs && Complete(jobs[i]) {
          recent := recent + {i};
          count := count + 1;
        }
        i := i - 1;
      }
      stop := i;
    }

    method RetainedByType() returns (retained: set<nat>)
      requires Valid()
      ensures retained == set id | id in jobs && (!Complete(jobs[id]) || LatestOfType(jobs, id))
    {
      retained := {};
      var types: set<JobType> := {};
      var i := sequence;
      while i >= 1
        invariant 0 <= i <= sequence
        invariant types == TypesAfter(jobs, i)
        invariant retained == set id | id in jobs && id > i && (!Complete(jobs[id]) || LatestOfType(jobs, id))
        decreases i
      {
        TypesStep(jobs, i);
        if i in jobs {
          if !Complete(jobs[i]) {
            retained := retained + {i};
          } else if jobs[i].jobType !in types {
            types := types + {jobs[i].jobType};
            retained := retained + {i};
          }
        }
        i := i - 1;
      }
    }

    /** What a client polls: prunes, then reads statuses, revision and queue depth together. */
    method Snapshot() returns (statuses: seq<(nat, JobStatus)>, seenRevision: nat, depth: nat)
      requires Valid()
      modifies this
      ensures Valid() && Value() == JobModel.Prune(old(Value()))
      ensures View(statuses, depth) == ViewOf(Value()) && seenRevision == revision
    {
      Prune();
      statuses := [];
      for i := 1 to sequence + 1
        invariant statuses == Statuses(jobs, i - 1)
      {
        if i in jobs { statuses := statuses + [(i, jobs[i])]; }
      }
      seenRevision := revision;
      depth := PendingCount();
    }
  }

  function TypesAfter(jobs: map<nat, JobStatus>, id: nat): set<JobType> {
    set j | j in CompletedAfter(jobs, id) :: jobs[j].jobType
  }

  lemma TypesStep(jobs: map<nat, JobStatus>, i: nat)
    requires i >= 1
    ensures TypesAfter(jobs, i - 1) ==
              TypesAfter(jobs, i) + if i in jobs && Complete(jobs[i]) then {jobs[i].jobType} else {}
    ensures i in jobs ==> (LatestOfType(jobs, i) <==> jobs[i].jobType !in TypesAfter(jobs, i))
  {
    assert CompletedAfter(jobs, i - 1) == CompletedAfter(jobs, i) + if i in jobs && Complete(jobs[i]) then {i} else {};
  }

  lemma CompletedStep(jobs: map<nat, JobStatus>, i: nat)
    requires i >= 1
    ensures var newer, added := CompletedAfter(jobs, i), if i in jobs && Complete(jobs[i]) then {i} else {};
      CompletedAfter(jobs, i - 1) == newer + added && |CompletedAfter(jobs, i - 1)| == |newer| + |added|
  {
    assert CompletedAfter(jobs, i - 1) == CompletedAfter(jobs, i) + if i in jobs && Complete(jobs[i]) then {i} else {};
  }

  lemma RecentAreKept(jobs: map<nat, JobStatus>, first: set<nat>, i: nat)
    requires 0 !in jobs
    requires first == set id | id in jobs && (!Complete(jobs[id]) || LatestOfType(jobs, id))
    requires |CompletedAfter(jobs, i)| <= HISTORY_LIMIT
    requires i == 0 || |CompletedAfter(jobs, i)| == HISTORY_LIMIT
    ensures first + CompletedAfter(jobs, i) == set id | id in jobs && Kept(jobs, id)
  {
    forall id | id in jobs && Complete(jobs[id])
      ensures id in CompletedAfter(jobs, i) <==> |CompletedAfter(jobs, id)| < HISTORY_LIMIT
    {
      RankBelow(jobs, id, i, |CompletedAfter(jobs, i)|);
    }
  }

  function Visited(jobs: map<nat, JobStatus>, todo: set<nat>): nat { |IncompleteIds(jobs) - todo| }

  lemma Visit(jobs: map<nat, JobStatus>, todo: set<nat>, id: nat, now: nat)
    requires todo <= jobs.Keys && id in todo
    ensures var done := ShutDownThese(jobs, jobs.Keys - todo, now);
            && id in done && done[id] == jobs[id]
            && ShutDownThese(jobs, jobs.Keys - (todo - {id}), now)
               == if Complete(jobs[id]) then done else done[id := ShutDown(jobs[id], now)]
    ensures Visited(jobs, todo - {id}) == Visited(jobs, todo) + if Complete(jobs[id]) then 0 else 1
  {
    VisitCount(IncompleteIds(jobs), todo, id);
  }

  lemma VisitCount(all: set<nat>, todo: set<nat>, id: nat)
    requires id in todo
    ensures |all - (todo - {id})| == |all - todo| + if id in all then 1 else 0
  {
    assert all - (todo - {id}) == (all - todo) + if id in all then {id} else {};
  }

  lemma NothingDone(jobs: map<nat, JobStatus>, now: nat)
    ensures ShutDownThese(jobs, jobs.Keys - jobs.Keys, now) == jobs
    ensures Visited(jobs, jobs.Keys) == 0
  {
    assert IncompleteIds(jobs) - jobs.Keys == {};
  }

  lemma EverythingDone(jobs: map<nat, JobStatus>, now: nat)
    ensures ShutDownThese(jobs, jobs.Keys - {}, now) == ShutDownThese(jobs, jobs.Keys, now)
    ensures Visited(jobs, {}) == |IncompleteIds(jobs)|
  {
    assert jobs.Keys - {} == jobs.Keys && IncompleteIds(jobs) - {} == IncompleteIds(jobs);
  }

  lemma ShutDownAll(s: Sched, now: nat)
    requires KeysInRange(s)
    ensures KeysInRange(CancelAllJobs(s, now))
  {
  }

  lemma PruneInRange(s: Sched)
    requires KeysInRange(s)
    ensures KeysInRange(JobModel.Prune(s))
  {
  }

  /** Where the second retention pass stops, it has met exactly the jobs with
      fewer than HISTORY_LIMIT newer completed ones. */
  lemma RankBelow(jobs: map<nat, JobStatus>, id: nat, i: nat, recent: nat)
    requires id in jobs && Complete(jobs[id])
    requires recent == |CompletedAfter(jobs, i)| <= HISTORY_LIMIT
    requires i == 0 || recent == HISTORY_LIMIT
    requires id > 0
    ensures id in CompletedAfter(jobs, i) <==> |CompletedAfter(jobs, id)| < HISTORY_LIMIT
  {
    if id > i {
      Strict(CompletedAfter(jobs, id), CompletedAfter(jobs, i), id);
    } else {
      Subset(CompletedAfter(jobs, i), CompletedAfter(jobs, id));
    }
  }

  lemma Subset(a: set<nat>, b: set<nat>)
    requires a <= b
    ensures |a| <= |b|
  {
    assert b == a + (b - a);
  }

  lemma Strict(a: set<nat>, b: set<nat>, x: nat)
    requires a <= b && x in b && x !in a
    ensures |a| < |b|
  {
    Subset(a, b - {x});
  }
}
