/** Every interleaving of refresh requests, synchronous refreshes, background
    refreshers, Store scan loops and shutdown. */
module InventoryTheorems {
  import opened Wrappers
  import opened InventoryModel

  datatype Phase = Waiting | Refused | Launched | Collecting(begun: nat)
  datatype Refresher = Refresher(generation: nat, force: bool, sync: bool, phase: Phase)
  datatype ScanLoop = ScanWaiting | ScanRefused | ScanTop | Scanning(begun: nat)

  /** clock counts the steps taken; lastScan is when the newest finished scan pass began. */
  datatype System = System(v: Service, refreshers: seq<Refresher>, scans: seq<ScanLoop>,
                           clock: nat, lastScan: Option<nat>, shuttingDown: bool)

  datatype Action =
    | Ask(force: bool, now: nat)
    | Sync
    | LaunchRefresher(k: nat)
    | RefusedSection(k: nat)
    | Collect(k: nat)
    | Finish(k: nat, cancelled: bool, now: nat)
    | LaunchScan
    | ScanRefusedSection
    | ScanPass(cancelled: bool)
    | ScanEnd(early: bool, late: bool, published: bool, now: nat)
    | BeginShutdown

  function Without<T>(s: seq<T>, k: nat): seq<T>
    requires k < |s|
  {
    s[..k] + s[k + 1..]
  }

  function WithScan(scans: seq<ScanLoop>, start: bool): seq<ScanLoop> { if start then scans + [ScanWaiting] else scans }

  /** A background refresher's context ends with the application, a synchronous
      caller's when the caller likes. Both are looked at before the lock is taken, so
      after shutdown began they may or may not be found done. */
  predicate ContextDone(s: System, r: Refresher, cancelled: bool) { cancelled && (s.shuttingDown || r.sync) }

  function FinishRefresh(s: System, k: nat, cancelled: bool, now: nat): System
    requires k < |s.refreshers| && s.refreshers[k].phase.Collecting?
  {
    var r := s.refreshers[k];
    var others := Without(s.refreshers, k);
    if ContextDone(s, r, cancelled) then s.(v := Cancelled(s.v, r.generation), refreshers := others)
    else
      var (v, outcome) := Publish(s.v, r.generation, r.phase.begun, r.force || r.sync, now);
      match outcome
      case Stale => s.(v := v, refreshers := others)
      case Done(scan) => s.(v := v, refreshers := others, scans := WithScan(s.scans, scan))
      case Chained(g, scan) =>
        s.(v := v, refreshers := others + [Refresher(g, true, false, Waiting)], scans := WithScan(s.scans, scan))
  }

  function Act(s: System, a: Action): System {
    match a
    case Ask(force, now) =>
      var (v, launch) := Request(s.v, force, now);
      s.(v := v, refreshers := if launch then s.refreshers + [Refresher(v.refreshGeneration, force, false, Waiting)]
         else s.refreshers)
    case Sync =>
      var v := BeginSync(s.v);
      s.(v := v, refreshers := s.refreshers + [Refresher(v.refreshGeneration, true, true, Launched)])
    case LaunchRefresher(k) =>
      if k < |s.refreshers| && s.refreshers[k].phase.Waiting? then
        s.(refreshers := s.refreshers[k := s.refreshers[k].(phase := if s.shuttingDown then Refused else Launched)])
      else s
    case RefusedSection(k) =>
      if k < |s.refreshers| && s.refreshers[k].phase.Refused? then
        s.(v := LaunchRefused(s.v, s.refreshers[k].generation), refreshers := Without(s.refreshers, k))
      else s
    case Collect(k) =>
      if k < |s.refreshers| && s.refreshers[k].phase.Launched? then
        s.(refreshers := s.refreshers[k := s.refreshers[k].(phase := Collecting(s.clock))])
      else s
    case Finish(k, cancelled, now) =>
      if k < |s.refreshers| && s.refreshers[k].phase.Collecting? then FinishRefresh(s, k, cancelled, now) else s
    case LaunchScan =>
      if |s.scans| > 0 && s.scans[0].ScanWaiting? then
        s.(scans := s.scans[0 := if s.shuttingDown then ScanRefused else ScanTop])
      else s
    case ScanRefusedSection =>
      if |s.scans| > 0 && s.scans[0].ScanRefused? then s.(v := ScanDropped(s.v), scans := s.scans[1..]) else s
    case ScanPass(cancelled) =>
      if |s.scans| > 0 && s.scans[0].ScanTop? then
        if s.shuttingDown && cancelled then s.(v := ScanDropped(s.v), scans := s.scans[1..])
        else s.(scans := s.scans[0 := Scanning(s.clock)])
      else s
    case ScanEnd(early, late, published, now) =>
      if |s.scans| > 0 && s.scans[0].Scanning? then
        var ctxDone, ctxDoneNow := s.shuttingDown && early, s.shuttingDown && (early || late);
        var (v, again) := ScanFinished(s.v, ctxDone, ctxDoneNow, published, now);
        s.(v := v, scans := if again then s.scans[0 := ScanTop] else s.scans[1..],
           lastScan := if ctxDone then s.lastScan else Some(s.scans[0].begun))
      else s
    case BeginShutdown => s.(shuttingDown := true)
  }

  function Apply(s: System, a: Action): System {
    var s' := Act(s, a);
    s'.(clock := s.clock + 1)
  }

  function Run(s: System, actions: seq<Action>): System
    decreases |actions|
  {
    if actions == [] then s else Run(Apply(s, actions[0]), actions[1..])
  }

  function Initial(scans: bool): System {
    System(Service(None, false, false, 0, None, "", false, false, None, None, scans), [], [], 0, None, false)
  }

  // ---------------------------------------------------------------- invariant

  ghost predicate Current(s: System, k: nat) {
    k < |s.refreshers| && s.refreshers[k].generation == s.v.refreshGeneration
  }

  ghost predicate RefreshInv(s: System) {
    && (forall i, j | 0 <= i < j < |s.refreshers| :: s.refreshers[i].generation != s.refreshers[j].generation)
    && (forall k | 0 <= k < |s.refreshers| :: RefresherOk(s, s.refreshers[k]))
    && (s.v.loading <==> exists k :: Current(s, k))
    && (s.v.cache.Some? ==> s.v.cache.value.generation <= s.v.refreshGeneration)
    && (s.v.cache.Some? && s.v.loading ==> s.v.cache.value.generation < s.v.refreshGeneration)
    && (s.v.queued && !s.shuttingDown ==> s.v.loading)
    && (s.v.cache.Some? ==> s.v.cache.value.begun < s.clock)
  }

  /** A refresher newer than the cache began to collect after the cached one did. */
  predicate RefresherOk(s: System, r: Refresher) {
    && r.generation <= s.v.refreshGeneration
    && (r.phase.Collecting? && s.v.cache.Some? && r.generation > s.v.cache.value.generation ==>
          r.phase.begun > s.v.cache.value.begun)
    && (r.phase.Collecting? ==> r.phase.begun < s.clock)
    && (r.phase.Refused? ==> s.shuttingDown)
  }

  predicate ScanInv(s: System) {
    && |s.scans| <= 1 && (s.v.storeScanLoading <==> |s.scans| == 1)
    && (|s.scans| == 1 && s.scans[0].ScanRefused? ==> s.shuttingDown)
    && (s.v.storeScanQueued && !s.shuttingDown ==> s.v.storeScanLoading)
  }

  ghost predicate Inv(s: System) { RefreshInv(s) && ScanInv(s) }

  /** Appending a refresher of a fresh generation makes it the only current one. */
  lemma AllocateOk(s: System, s': System, r: Refresher)
    requires Inv(s)
    requires s'.v.refreshGeneration == s.v.refreshGeneration + 1 == r.generation && s'.v.loading
    requires s'.refreshers == s.refreshers + [r] && (r.phase.Waiting? || r.phase.Launched?)
    ensures forall i, j | 0 <= i < j < |s'.refreshers| :: s'.refreshers[i].generation != s'.refreshers[j].generation
    ensures forall k | 0 <= k < |s'.refreshers| :: s'.refreshers[k].generation <= s'.v.refreshGeneration
    ensures exists k :: Current(s', k)
  {
    assert Current(s', |s.refreshers|);
  }

  lemma AskOk(s: System, force: bool, now: nat)
    requires Inv(s)
    ensures Inv(Apply(s, Ask(force, now)))
  {
    var s' := Apply(s, Ask(force, now));
    if s'.refreshers != s.refreshers {
      AllocateOk(s, s', s'.refreshers[|s.refreshers|]);
    } else {
      assert forall k :: Current(s', k) <==> Current(s, k);
    }
  }

  lemma SyncOk(s: System)
    requires Inv(s)
    ensures Inv(Apply(s, Sync))
  {
    var s' := Apply(s, Sync);
    AllocateOk(s, s', s'.refreshers[|s.refreshers|]);
  }

  lemma PhaseOk(s: System, a: Action)
    requires Inv(s) && (a.LaunchRefresher? || a.Collect?)
    ensures Inv(Apply(s, a))
  {
    var s' := Apply(s, a);
    assert s'.v == s.v && s'.scans == s.scans && s'.shuttingDown == s.shuttingDown && s'.clock == s.clock + 1;
    assert PhaseMoved(s, s');
    hide Apply, Act;
    assert forall k :: Current(s', k) <==> Current(s, k);
  }

  /** Refreshers are launched, refused or begin to collect. */
  ghost predicate PhaseMoved(s: System, s': System) {
    |s'.refreshers| == |s.refreshers| && forall k | 0 <= k < |s.refreshers| ::
      && s'.refreshers[k].generation == s.refreshers[k].generation
      && (s'.refreshers[k].phase == s.refreshers[k].phase
          || s'.refreshers[k].phase == (if s.shuttingDown then Refused else Launched)
          || s'.refreshers[k].phase == Collecting(s.clock))
  }

  /** Removing one refresher leaves the others as they were, under shifted indices. */
  lemma WithoutFacts(s: System, k: nat, others: seq<Refresher>)
    requires RefreshInv(s) && k < |s.refreshers| && others == Without(s.refreshers, k)
    ensures forall i, j | 0 <= i < j < |others| :: others[i].generation != others[j].generation
    ensures forall i | 0 <= i < |others| ::
      others[i] in s.refreshers && others[i].generation != s.refreshers[k].generation
    ensures !Current(s, k) ==> forall i | 0 <= i < |s.refreshers| && i != k :: s.refreshers[i] in others
  {
    forall i | 0 <= i < |s.refreshers| && i != k ensures s.refreshers[i] in others {
      assert others[if i < k then i else i - 1] == s.refreshers[i];
    }
  }

  /** After removal the current refresher is gone exactly when it was the one removed. */
  lemma RemovedOk(s: System, k: nat, s': System)
    requires RefreshInv(s) && k < |s.refreshers| && s'.refreshers == Without(s.refreshers, k)
    requires s'.v.refreshGeneration == s.v.refreshGeneration
    ensures (exists i :: Current(s', i)) <==> s.v.loading && !Current(s, k)
    ensures forall i, j | 0 <= i < j < |s'.refreshers| :: s'.refreshers[i].generation != s'.refreshers[j].generation
    ensures forall i | 0 <= i < |s'.refreshers| :: s'.refreshers[i] in s.refreshers
  {
    WithoutFacts(s, k, s'.refreshers);
    if s.v.loading && !Current(s, k) {
      var c: nat :| Current(s, c);
      var i: nat :| i < |s'.refreshers| && s'.refreshers[i] == s.refreshers[c];
      assert Current(s', i);
    }
    if exists i :: Current(s', i) {
      var i: nat :| Current(s', i);
      assert s'.refreshers[i] in s.refreshers;
      var j: nat :| j < |s.refreshers| && s.refreshers[j] == s'.refreshers[i];
      assert Current(s, j);
    }
  }

  /** The refresh part of the invariant reads only these fields. */
  predicate RefreshPart(s: System, s': System) {
    && s'.refreshers == s.refreshers && s'.v.refreshGeneration == s.v.refreshGeneration && s'.v.cache == s.v.cache
    && s'.v.loading == s.v.loading && s'.v.queued == s.v.queued
    && s'.clock >= s.clock && (s.shuttingDown ==> s'.shuttingDown)
  }

  lemma RefreshFrame(s: System, s': System)
    requires RefreshInv(s) && RefreshPart(s, s')
    ensures RefreshInv(s')
  {
    assert forall k :: Current(s', k) <==> Current(s, k);
  }

  lemma RefusedOk(s: System, k: nat)
    requires Inv(s)
    ensures Inv(Apply(s, RefusedSection(k)))
  {
    if k < |s.refreshers| && s.refreshers[k].phase.Refused? {
      RemovedOk(s, k, Apply(s, RefusedSection(k)));
      assert RefresherOk(s, s.refreshers[k]);
    } else {
      RefreshFrame(s, Apply(s, RefusedSection(k)));
    }
  }

  /** What deciding about a Store scan may change. */
  lemma BeginScanFrame(v: Service, force: bool, now: nat)
    ensures var (v', start) := BeginScan(v, force, now);
      && v'.(storeScanLoading := v.storeScanLoading, storeScanQueued := v.storeScanQueued) == v
      && (start ==> !v.storeScanLoading && v'.storeScanLoading && v'.storeScanQueued == v.storeScanQueued)
      && (!start ==> v'.storeScanLoading == v.storeScanLoading)
      && (v'.storeScanQueued && !v.storeScanQueued ==> v.storeScanLoading)
      && (v.storeScanQueued ==> v'.storeScanQueued)
      && (force && v.scanEnabled ==> start || (v.storeScanLoading && v'.storeScanQueued))
  {
  }

  /** What publishing does, before and apart from the decision about a scan. */
  function Settled(v: Service, r: Refresher, now: nat): Service
    requires r.phase.Collecting?
  {
    var v1 := v.(cache := Some(Cached(r.generation, r.phase.begun)), fetchedAt := Some(now), err := "");
    if v.queued then v1.(queued := false, loading := true, refreshGeneration := v.refreshGeneration + 1)
    else v1.(loading := false)
  }

  lemma PublishFacts(s: System, k: nat, cancelled: bool, now: nat)
    requires k < |s.refreshers| && s.refreshers[k].phase.Collecting? && Current(s, k)
    requires !ContextDone(s, s.refreshers[k], cancelled)
    ensures var r := s.refreshers[k]; var settled := Settled(s.v, r, now);
      var (v, scan) := BeginScan(settled, r.force || r.sync, now);
      var s' := FinishRefresh(s, k, cancelled, now);
      && s'.v == v && s'.scans == WithScan(s.scans, scan)
      && s'.refreshers == Without(s.refreshers, k)
           + (if s.v.queued then [Refresher(settled.refreshGeneration, true, false, Waiting)] else [])
      && s'.clock == s.clock && s'.shuttingDown == s.shuttingDown && s'.lastScan == s.lastScan
  {
    assert Without(s.refreshers, k) + [] == Without(s.refreshers, k);
  }

  lemma PublishOk(s: System, k: nat, s': System)
    requires RefreshInv(s) && Current(s, k) && s.refreshers[k].phase.Collecting? && s'.clock >= s.clock
      && s'.shuttingDown == s.shuttingDown
    requires s'.v.cache == Some(Cached(s.refreshers[k].generation, s.refreshers[k].phase.begun))
    requires s'.v.loading == s.v.queued && !s'.v.queued
    requires s'.v.refreshGeneration == s.v.refreshGeneration + if s.v.queued then 1 else 0
    requires s'.refreshers == Without(s.refreshers, k)
               + (if s.v.queued then [Refresher(s'.v.refreshGeneration, true, false, Waiting)] else [])
    ensures RefreshInv(s')
  {
    WithoutFacts(s, k, Without(s.refreshers, k));
    assert RefresherOk(s, s.refreshers[k]);
    forall i | 0 <= i < |Without(s.refreshers, k)|
      ensures RefresherOk(s', Without(s.refreshers, k)[i])
    {
      var r := Without(s.refreshers, k)[i];
      assert r in s.refreshers && RefresherOk(s, r);
    }
    if s.v.queued {
      assert Current(s', |s'.refreshers| - 1);
    } else {
      assert s'.refreshers == Without(s.refreshers, k);
      RemovedOk(s, k, s');
    }
  }

  predicate Publishes(s: System, k: nat, cancelled: bool) {
    && k < |s.refreshers| && s.refreshers[k].phase.Collecting?
    && s.refreshers[k].generation == s.v.refreshGeneration && !ContextDone(s, s.refreshers[k], cancelled)
  }

  lemma FinishPublished(s: System, k: nat, cancelled: bool, now: nat)
    requires Inv(s) && Publishes(s, k, cancelled)
    ensures Inv(Apply(s, Finish(k, cancelled, now)))
  {
    var r := s.refreshers[k];
    var settled := Settled(s.v, r, now);
    PublishFacts(s, k, cancelled, now);
    BeginScanFrame(settled, r.force || r.sync, now);
    var s' := Apply(s, Finish(k, cancelled, now));
    PublishOk(s, k, s');
    ScansAfterPublish(s, s', settled, BeginScan(settled, r.force || r.sync, now).1);
  }

  /** A published refresh leaves at most one scan loop, marked by storeScanLoading. */
  lemma ScansAfterPublish(s: System, s': System, settled: Service, start: bool)
    requires ScanInv(s) && s'.shuttingDown == s.shuttingDown && s'.scans == WithScan(s.scans, start)
    requires settled.storeScanLoading == s.v.storeScanLoading && settled.storeScanQueued == s.v.storeScanQueued
    requires start ==> !settled.storeScanLoading && s'.v.storeScanLoading
    requires !start ==> s'.v.storeScanLoading == settled.storeScanLoading
    requires s'.v.storeScanQueued && !settled.storeScanQueued ==> settled.storeScanLoading
    ensures ScanInv(s')
  {
  }

  lemma FinishDropped(s: System, k: nat, cancelled: bool, now: nat)
    requires Inv(s) && k < |s.refreshers| && s.refreshers[k].phase.Collecting? && !Publishes(s, k, cancelled)
    ensures Inv(Apply(s, Finish(k, cancelled, now)))
  {
    RemovedOk(s, k, Apply(s, Finish(k, cancelled, now)));
  }

  lemma FinishOk(s: System, k: nat, cancelled: bool, now: nat)
    requires Inv(s)
    ensures Inv(Apply(s, Finish(k, cancelled, now)))
  {
    if Publishes(s, k, cancelled) {
      FinishPublished(s, k, cancelled, now);
    } else if k < |s.refreshers| && s.refreshers[k].phase.Collecting? {
      FinishDropped(s, k, cancelled, now);
    } else {
      RefreshFrame(s, Apply(s, Finish(k, cancelled, now)));
    }
  }

  predicate ScanAction(a: Action) {
    a.LaunchScan? || a.ScanRefusedSection? || a.ScanPass? || a.ScanEnd? || a.BeginShutdown?
  }

  lemma ScanPartOk(s: System, a: Action)
    requires ScanInv(s) && ScanAction(a)
    ensures ScanInv(Apply(s, a)) && RefreshPart(s, Apply(s, a))
  {
    hide FinishRefresh, Request, BeginScan;
  }

  lemma ScanStepOk(s: System, a: Action)
    requires Inv(s) && ScanAction(a)
    ensures Inv(Apply(s, a))
  {
    ScanPartOk(s, a);
    hide Apply, Act, RefreshInv, ScanInv;
    RefreshFrame(s, Apply(s, a));
  }

  lemma ApplyPreservesInv(s: System, a: Action)
    requires Inv(s)
    ensures Inv(Apply(s, a))
  {
    match a
    case Ask(force, now) => AskOk(s, force, now);
    case Sync => SyncOk(s);
    case RefusedSection(k) => RefusedOk(s, k);
    case Finish(k, cancelled, now) => FinishOk(s, k, cancelled, now);
    case LaunchRefresher(k) => PhaseOk(s, a);
    case Collect(k) => PhaseOk(s, a);
    case _ => ScanStepOk(s, a);
  }

  lemma {:induction false} RunPreservesInv(s: System, actions: seq<Action>)
    requires Inv(s)
    ensures Inv(Run(s, actions))
    decreases |actions|
  {
    if actions != [] {
      ApplyPreservesInv(s, actions[0]);
      RunPreservesInv(Apply(s, actions[0]), actions[1..]);
    }
  }

  // ---------------------------------------------------------------- who may publish

  /** loading holds exactly while one refresher of the current generation is in
      flight; scan loops: none, or one while storeScanLoading. */
  lemma LoadingMeansOneCurrentRefresher(scans: bool, actions: seq<Action>)
    ensures var s := Run(Initial(scans), actions);
      && (s.v.loading <==> exists k :: Current(s, k) && forall j | Current(s, j) :: j == k)
      && (s.v.storeScanLoading <==> |s.scans| == 1) && |s.scans| <= 1
  {
    RunPreservesInv(Initial(scans), actions);
    var s := Run(Initial(scans), actions);
    if s.v.loading {
      var k: nat :| Current(s, k);
      assert forall j | Current(s, j) :: j == k;
    }
  }

  /** A step publishes only by finishing the current refresher, and then the cached
      generation grows; a refresher that is no longer current changes nothing. */
  lemma OnlyTheCurrentRefresherPublishes(s: System, a: Action)
    requires Inv(s)
    ensures Apply(s, a).v.cache != s.v.cache ==>
              && a.Finish? && Current(s, a.k) && s.refreshers[a.k].phase.Collecting?
              && Apply(s, a).v.cache == Some(Cached(s.v.refreshGeneration, s.refreshers[a.k].phase.begun))
              && (s.v.cache.Some? ==> s.v.cache.value.generation < s.v.refreshGeneration)
    ensures a.Finish? && a.k < |s.refreshers| && !Current(s, a.k) ==>
      Apply(s, a).v == s.v && Apply(s, a).scans == s.scans
  {
    match a
    case Finish(k, cancelled, now) =>
      if k < |s.refreshers| && s.refreshers[k].phase.Collecting? && Current(s, k)
          && !ContextDone(s, s.refreshers[k], cancelled) {
        PublishFacts(s, k, cancelled, now);
        BeginScanFrame(Settled(s.v, s.refreshers[k], now), s.refreshers[k].force || s.refreshers[k].sync, now);
      }
    case _ =>
  }

  ghost predicate Later(a: Option<Cached>, b: Option<Cached>) {
    a == b || (b.Some? && (a.Some? ==> a.value.generation < b.value.generation))
  }

  lemma {:induction false} PublishedGenerationsIncrease(s: System, actions: seq<Action>)
    requires Inv(s)
    ensures Later(s.v.cache, Run(s, actions).v.cache)
    decreases |actions|
  {
    if actions != [] {
      OnlyTheCurrentRefresherPublishes(s, actions[0]);
      ApplyPreservesInv(s, actions[0]);
      PublishedGenerationsIncrease(Apply(s, actions[0]), actions[1..]);
    }
  }

  // ---------------------------------------------------------------- no forced refresh is lost

  /** The refresher has not begun to collect, or began at t or later. */
  predicate Fresh(phase: Phase, t: nat) { phase.Waiting? || phase.Launched? || (phase.Collecting? && phase.begun >= t) }

  ghost predicate FreshInFlight(s: System, t: nat) { exists k: nat :: Current(s, k) && Fresh(s.refreshers[k].phase, t) }
  predicate FreshCache(s: System, t: nat) { s.v.cache.Some? && s.v.cache.value.begun >= t }

  /** A refresh asked for at time t is still owed or already done. */
  ghost predicate Covered(s: System, t: nat) { s.v.queued || FreshInFlight(s, t) || FreshCache(s, t) }

  predicate Undisturbed(a: Action) { !a.BeginShutdown? && !(a.Finish? && a.cancelled) }

  lemma AskIsCovered(s: System, now: nat)
    requires Inv(s)
    ensures Covered(Apply(s, Ask(true, now)), s.clock)
  {
    var s' := Apply(s, Ask(true, now));
    if !s.v.loading { assert Current(s', |s.refreshers|); }
  }

  /** Removing another refresher does not hide the current one. */
  lemma FreshSurvives(s: System, k: nat, s': System, t: nat)
    requires RefreshInv(s) && k < |s.refreshers| && !Current(s, k) && FreshInFlight(s, t)
    requires s'.refreshers == Without(s.refreshers, k) && s'.v.refreshGeneration == s.v.refreshGeneration
    ensures FreshInFlight(s', t)
  {
    var c: nat :| Current(s, c) && Fresh(s.refreshers[c].phase, t);
    assert s'.refreshers[if c < k then c else c - 1] == s.refreshers[c];
    assert Current(s', if c < k then c else c - 1);
  }

  lemma FinishCovers(s: System, k: nat, now: nat, t: nat)
    requires Inv(s) && !s.shuttingDown && Covered(s, t)
    ensures Covered(Apply(s, Finish(k, false, now)), t)
  {
    var s' := Apply(s, Finish(k, false, now));
    if k < |s.refreshers| && s.refreshers[k].phase.Collecting? {
      if Current(s, k) {
        PublishFacts(s, k, false, now);
        BeginScanFrame(Settled(s.v, s.refreshers[k], now), s.refreshers[k].force || s.refreshers[k].sync, now);
        if s.v.queued {
          assert Current(s', |s'.refreshers| - 1);
        } else if FreshInFlight(s, t) {
          var c: nat :| Current(s, c) && Fresh(s.refreshers[c].phase, t);
          assert c == k;
        }
      } else if FreshInFlight(s, t) {
        FreshSurvives(s, k, s', t);
      }
    } else if FreshInFlight(s, t) {
      var c: nat :| Current(s, c) && Fresh(s.refreshers[c].phase, t);
      assert Current(s', c);
    }
  }

  lemma StepCovers(s: System, a: Action, t: nat)
    requires Inv(s) && !s.shuttingDown && Covered(s, t) && t <= s.clock && Undisturbed(a)
    ensures Covered(Apply(s, a), t)
  {
    if a.Finish? {
      FinishCovers(s, a.k, a.now, t);
    } else if s.v.queued && a.Sync? {
      assert Current(Apply(s, a), |s.refreshers|);
    } else if FreshInFlight(s, t) && !s.v.queued {
      var c: nat :| Current(s, c) && Fresh(s.refreshers[c].phase, t);
      if a.Sync? {
        assert Current(Apply(s, a), |s.refreshers|);
      } else if a.RefusedSection? {
        assert forall i | 0 <= i < |s.refreshers| :: RefresherOk(s, s.refreshers[i]);
        assert Current(Apply(s, a), c);
      } else {
        assert s.v.loading;
        assert Current(Apply(s, a), c);
      }
    } else if s.v.queued && a.RefusedSection? {
      assert forall i | 0 <= i < |s.refreshers| :: RefresherOk(s, s.refreshers[i]);
    }
  }

  lemma {:induction false} CoveredForever(s: System, actions: seq<Action>, t: nat)
    requires Inv(s) && !s.shuttingDown && Covered(s, t) && t <= s.clock
    requires forall a | a in actions :: Undisturbed(a)
    ensures Covered(Run(s, actions), t) && !Run(s, actions).shuttingDown
    decreases |actions|
  {
    if actions != [] {
      StepCovers(s, actions[0], t);
      ApplyPreservesInv(s, actions[0]);
      CoveredForever(Apply(s, actions[0]), actions[1..], t);
    }
  }

  /** No forced refresh is lost. After any history, a forced request made before
      shutdown stays owed or done through any steps that neither cancel a refresh
      nor begin shutdown: it is queued, or the current refresher has yet to begin
      collecting or began after the request, or the cache comes from a refresh that
      began after the request. Once no refresher is in flight, it is the last. */
  lemma NoForcedRefreshIsLost(scans: bool, before: seq<Action>, now: nat, after: seq<Action>)
    requires !Run(Initial(scans), before).shuttingDown
    requires forall a | a in after :: Undisturbed(a)
    ensures var asked := Run(Initial(scans), before);
      var s := Run(Apply(asked, Ask(true, now)), after);
      && Covered(s, asked.clock)
      && (s.refreshers == [] ==> FreshCache(s, asked.clock))
  {
    RunPreservesInv(Initial(scans), before);
    var asked := Run(Initial(scans), before);
    AskIsCovered(asked, now);
    ApplyPreservesInv(asked, Ask(true, now));
    CoveredForever(Apply(asked, Ask(true, now)), after, asked.clock);
    RunPreservesInv(Apply(asked, Ask(true, now)), after);
  }

  /** A cancelled refresh drops an owed request exactly when it was the current one
      and the cache does not yet hold a refresh begun since. */
  lemma CancellationDropsExactlyTheCurrent(s: System, k: nat, now: nat, t: nat)
    requires Inv(s) && Covered(s, t) && k < |s.refreshers| && s.refreshers[k].phase.Collecting?
    requires ContextDone(s, s.refreshers[k], true)
    ensures Covered(Apply(s, Finish(k, true, now)), t) <==> !Current(s, k) || FreshCache(s, t)
  {
    var s' := Apply(s, Finish(k, true, now));
    RemovedOk(s, k, s');
    if !Current(s, k) && FreshInFlight(s, t) { FreshSurvives(s, k, s', t); }
  }

  // ---------------------------------------------------------------- Store scans

  /** A Store scan asked for at time t is still owed or already done. */
  predicate ScanCovered(s: System, t: nat) {
    || s.v.storeScanQueued
    || (|s.scans| == 1 && (s.scans[0].ScanWaiting? || s.scans[0].ScanTop?
                           || (s.scans[0].Scanning? && s.scans[0].begun >= t)))
    || (s.lastScan.Some? && s.lastScan.value >= t)
  }

  /** Passes begin in clock order. */
  predicate ScanClock(s: System) {
    && (s.lastScan.Some? ==> s.lastScan.value < s.clock)
    && (|s.scans| == 1 && s.scans[0].Scanning? ==> s.scans[0].begun < s.clock)
    && (|s.scans| == 1 && s.scans[0].Scanning? && s.lastScan.Some? ==> s.scans[0].begun > s.lastScan.value)
  }

  /** Publishing a forced refresh asks for a scan that begins afterwards. */
  lemma ForcedPublishOwesAScan(s: System, k: nat, now: nat)
    requires Inv(s) && s.v.scanEnabled && !s.shuttingDown && k < |s.refreshers| && s.refreshers[k].phase.Collecting?
    requires Current(s, k) && (s.refreshers[k].force || s.refreshers[k].sync)
    ensures ScanCovered(Apply(s, Finish(k, false, now)), s.clock)
  {
    PublishFacts(s, k, false, now);
    BeginScanFrame(Settled(s.v, s.refreshers[k], now), true, now);
  }

  lemma FinishScans(s: System, k: nat, cancelled: bool, now: nat, t: nat)
    requires Inv(s) && ScanClock(s) && ScanCovered(s, t)
    ensures ScanClock(Apply(s, Finish(k, cancelled, now))) && ScanCovered(Apply(s, Finish(k, cancelled, now)), t)
  {
    var s' := Apply(s, Finish(k, cancelled, now));
    if Publishes(s, k, cancelled) {
      var r := s.refreshers[k];
      PublishFacts(s, k, cancelled, now);
      BeginScanFrame(Settled(s.v, r, now), r.force || r.sync, now);
      ScansKept(s, s', BeginScan(Settled(s.v, r, now), r.force || r.sync, now).1, t);
    } else {
      assert s'.scans == s.scans && s'.lastScan == s.lastScan && s'.v.storeScanQueued == s.v.storeScanQueued;
    }
  }

  lemma ScansKept(s: System, s': System, start: bool, t: nat)
    requires ScanInv(s) && ScanClock(s) && ScanCovered(s, t)
    requires s'.scans == WithScan(s.scans, start) && s'.lastScan == s.lastScan && s'.clock >= s.clock
    requires start ==> !s.v.storeScanLoading
    requires s.v.storeScanQueued ==> s'.v.storeScanQueued
    ensures ScanClock(s') && ScanCovered(s', t)
  {
  }

  lemma ScanStepCovers(s: System, a: Action, t: nat)
    requires Inv(s) && ScanClock(s) && !s.shuttingDown && ScanCovered(s, t) && t <= s.clock && !a.BeginShutdown?
    ensures ScanClock(Apply(s, a)) && ScanCovered(Apply(s, a), t) && !Apply(s, a).shuttingDown
  {
    match a
    case Finish(k, cancelled, now) => FinishScans(s, k, cancelled, now, t);
    case _ =>
  }

  /** Until shutdown, no forced Store scan is dropped: a running loop follows up on
      it, and when no loop is left some pass began after the request. Cancelling
      refreshes does not matter. */
  lemma {:induction false} NoForcedScanIsDropped(s: System, actions: seq<Action>, t: nat)
    requires Inv(s) && ScanClock(s) && !s.shuttingDown && ScanCovered(s, t) && t <= s.clock
    requires BeginShutdown !in actions
    ensures var s' := Run(s, actions);
      && ScanCovered(s', t)
      && (s'.scans == [] ==> s'.lastScan.Some? && s'.lastScan.value >= t)
    decreases |actions|
  {
    if actions != [] {
      ScanStepCovers(s, actions[0], t);
      ApplyPreservesInv(s, actions[0]);
      NoForcedScanIsDropped(Apply(s, actions[0]), actions[1..], t);
    }
  }
}
