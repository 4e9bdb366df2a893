/** Jobs are executed in the order they were submitted. */
module JobOrder {
  import opened Wrappers
  import opened JobModel
  import opened JobSystem
  import opened JobTheorems

  predicate Increasing(q: seq<nat>) { forall i, j | 0 <= i < j < |q| :: q[i] < q[j] }

  /** The queue lies in order above the jobs executed so far. */
  predicate Above(s: Sched, bound: nat) {
    Increasing(s.queue) && bound <= s.sequence && forall id | id in s.queue :: bound < id <= s.sequence
  }

  lemma Cons(x: nat, q: seq<nat>)
    requires Increasing(q) && forall y | y in q :: x < y
    ensures Increasing([x] + q) && forall y :: y in [x] + q <==> y == x || y in q
  {
    var all := [x] + q;
    forall i, j | 0 <= i < j < |all| ensures all[i] < all[j] {
      assert all[j] == q[j - 1] && q[j - 1] in q;
      if i > 0 { assert all[i] == q[i - 1]; }
    }
  }

  lemma Snoc(q: seq<nat>, x: nat)
    requires Increasing(q) && forall y | y in q :: y < x
    ensures Increasing(q + [x])
  {
    var all := q + [x];
    forall i, j | 0 <= i < j < |all| ensures all[i] < all[j] {
      assert all[i] == q[i] && q[i] in q;
    }
  }

  lemma Tail(q: seq<nat>)
    requires Increasing(q) && q != []
    ensures Increasing(q[1..]) && forall y | y in q[1..] :: q[0] < y && y in q
  {
    forall y | y in q[1..] ensures q[0] < y && y in q {
      var i :| 0 <= i < |q| - 1 && q[1..][i] == y;
      assert q[i + 1] == y;
    }
  }

  lemma {:induction false} FilterAbove(queue: seq<nat>, jobs: map<nat, JobStatus>)
    requires Increasing(queue)
    ensures Increasing(FilterQueue(queue, jobs))
  {
    if queue != [] {
      Tail(queue);
      FilterAbove(queue[1..], jobs);
      FilterMembers(queue[1..], jobs);
      Cons(queue[0], FilterQueue(queue[1..], jobs));
      assert [] + FilterQueue(queue[1..], jobs) == FilterQueue(queue[1..], jobs);
    }
  }

  lemma PruneAbove(s: Sched, bound: nat)
    requires Above(s, bound)
    ensures Above(Prune(s), bound)
  {
    FilterAbove(s.queue, KeptJobs(s.jobs));
    FilterMembers(s.queue, KeptJobs(s.jobs));
  }

  /** A popped job is below all that stay queued. */
  lemma {:induction false} PopAbove(s: Sched, ctxDone: bool, now: nat, bound: nat)
    requires Above(s, bound)
    ensures var (s', next) := Pop(s, ctxDone, now);
      if next.Some? then next.value > bound && Above(s', next.value) else Above(s', bound)
    decreases |s.queue|
  {
    hide Increasing;
    if s.queue != [] {
      var id, rest := s.queue[0], s.(queue := s.queue[1..]);
      Tail(s.queue);
      if id !in s.jobs {
        PopAbove(rest, ctxDone, now, bound);
      } else if s.jobs[id].cancelRequested {
        PopAbove(Publish(rest, id, CancelQueued(s.jobs[id], "", now)), ctxDone, now, bound);
      } else if ctxDone {
        var asked := s.jobs[id].(cancelRequested := true);
        PopAbove(Publish(rest, id, CancelQueued(asked, "Job cancelled by shutdown.", now)), ctxDone, now, bound);
      } else {
        PoppedAbove(s, ctxDone, now, bound);
      }
    }
  }

  lemma PoppedAbove(s: Sched, ctxDone: bool, now: nat, bound: nat)
    requires Above(s, bound) && s.queue != [] && s.queue[0] in s.jobs && !s.jobs[s.queue[0]].cancelRequested && !ctxDone
    ensures var (s', next) := Pop(s, ctxDone, now);
      next == Some(s.queue[0]) && next.value > bound && Above(s', next.value)
  {
    hide Increasing;
    Tail(s.queue);
    assert s.queue[0] in s.queue;
  }

  /** The job a step begins to execute. */
  ghost function Started(s: System, a: Action): seq<nat> {
    if a.PopSection? && a.k < |s.runners| && s.runners[a.k].Looping? then
      var next := Pop(s.sched, s.shuttingDown, a.now).1;
      if next.Some? then [next.value] else []
    else []
  }

  /** The jobs a run executes, in the order it begins them. */
  ghost function Executed(s: System, actions: seq<Action>): seq<nat>
    decreases |actions|
  {
    if actions == [] then [] else Started(s, actions[0]) + Executed(Apply(s, actions[0]), actions[1..])
  }

  lemma StartAbove(s: Sched, r: Request, bound: nat)
    requires Above(s, bound)
    ensures Above(Start(s, r), bound)
  {
    hide Increasing, Accepts;
    Snoc(s.queue, s.sequence + 1);
  }

  lemma SectionAbove(s: System, a: Action, bound: nat)
    requires Above(s.sched, bound) && !a.PopSection?
    ensures Above(Apply(s, a).sched, bound) && Started(s, a) == []
  {
    hide Start, Prune, Above;
    match a
    case StartSection(c) => if c < |s.starters| { StartAbove(s.sched, s.starters[c], bound); }
    case FinishSection(k, now) => FinishAbove(s, k, now, bound);
    case CancelSection(id, now) => CancelAbove(s.sched, id, now, bound);
    case CancelAllSection(now) =>
      SameQueueAbove(s.sched, CancelAllJobs(s.sched, now), bound);
      PruneAbove(CancelAllJobs(s.sched, now), bound);
    case PollSection => PruneAbove(s.sched, bound);
    case _ => SameQueueAbove(s.sched, Apply(s, a).sched, bound);
  }

  lemma SameQueueAbove(s: Sched, s': Sched, bound: nat)
    requires Above(s, bound)
    ensures s'.queue == s.queue && s'.sequence == s.sequence ==> Above(s', bound)
  {
  }

  lemma FinishAbove(s: System, k: nat, now: nat, bound: nat)
    requires Above(s.sched, bound)
    ensures Above(Apply(s, FinishSection(k, now)).sched, bound)
  {
    hide Above, Prune;
    if k < |s.runners| && s.runners[k].Executing? && s.runners[k].id in s.sched.jobs {
      var published := Publish(s.sched, s.runners[k].id, Conclude(s.sched.jobs[s.runners[k].id], now));
      SameQueueAbove(s.sched, published, bound);
      PruneAbove(published, bound);
    }
  }

  lemma CancelAbove(s: Sched, id: nat, now: nat, bound: nat)
    requires Above(s, bound)
    ensures Above(Cancel(s, id, now), bound)
  {
    hide Above, Prune;
    PruneAbove(s, bound);
    if id in s.jobs {
      var published := Publish(s, id, CancelStatus(s.jobs[id], now));
      SameQueueAbove(s, published, bound);
      PruneAbove(published, bound);
    }
  }

  lemma StepAbove(s: System, a: Action, bound: nat)
    requires Above(s.sched, bound)
    ensures var started := Started(s, a);
      if started == [] then Above(Apply(s, a).sched, bound)
      else |started| == 1 && started[0] > bound && Above(Apply(s, a).sched, started[0])
  {
    if a.PopSection? {
      PopAbove(s.sched, s.shuttingDown, a.now, bound);
      hide Pop, Above;
    } else {
      SectionAbove(s, a, bound);
    }
  }

  lemma {:induction false} ExecutedAbove(s: System, actions: seq<Action>, bound: nat)
    requires Above(s.sched, bound)
    ensures Increasing(Executed(s, actions)) && forall id | id in Executed(s, actions) :: id > bound
    ensures Increasing(Run(s, actions).sched.queue)
    decreases |actions|
  {
    if actions != [] {
      var started, next := Started(s, actions[0]), Apply(s, actions[0]);
      StepAbove(s, actions[0], bound);
      ExecutedAbove(next, actions[1..], if started == [] then bound else started[0]);
      var rest := Executed(next, actions[1..]);
      if started == [] {
        assert [] + rest == rest;
      } else {
        Cons(started[0], rest);
        assert started == [started[0]];
      }
      hide Started, Above, Apply, Increasing;
    }
  }

  /** In every run, whatever is cancelled, pruned or shut down, the queue stands in
      submission order, and every executed job was submitted after all jobs executed
      before it. */
  lemma JobsRunInOrder(actions: seq<Action>)
    ensures Increasing(Run(Initial(), actions).sched.queue)
    ensures Increasing(Executed(Initial(), actions))
  {
    ExecutedAbove(Initial(), actions, 0);
  }
}
