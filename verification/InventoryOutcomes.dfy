/** When refreshes and Store scans are due, in seconds. */
module InventoryOutcomes {
  import opened Wrappers
  import opened InventoryModel
  import opened InventoryTheorems

  // ---------------------------------------------------------------- refresh requests

  /** Nothing was ever fetched, or more than ninety seconds ago. */
  predicate Expired(fetchedAt: Option<nat>, now: nat) { fetchedAt == None || now > fetchedAt.value + 90 }

  /** A request launches a refresh exactly if none is under way and it is forced or the
      cache has expired. While one is under way, a forced request is queued behind it; any
      other request changes nothing. */
  lemma RequestLaunchesExactlyWhen(v: Service, force: bool, now: nat)
    ensures var (v', launch) := Request(v, force, now);
      && (launch <==> !v.loading && (force || Expired(v.fetchedAt, now)))
      && (launch ==> v' == v.(loading := true, err := "", refreshGeneration := v.refreshGeneration + 1))
      && (!launch ==> v' == v.(queued := v.queued || (v.loading && force)))
      && v'.cache == v.cache && v'.fetchedAt == v.fetchedAt
  {
  }

  /** The refresher of a new generation that a request gets. */
  ghost predicate GetsNewRefresher(s: System, s': System, force: bool) {
    && s'.refreshers == s.refreshers + [Refresher(s.v.refreshGeneration + 1, force, false, Waiting)]
    && s'.v.refreshGeneration == s.v.refreshGeneration + 1 && s'.v.loading
    && forall r | r in s.refreshers :: r.generation < s'.v.refreshGeneration
  }

  /** In every reachable state with no refresh under way, an unforced request gets a
      refresher of a new generation exactly if the cache has expired; otherwise nothing
      happens. */
  lemma ExpiredCacheIsRefreshed(scans: bool, actions: seq<Action>, now: nat)
    ensures var s := Run(Initial(scans), actions); var s' := Apply(s, Ask(false, now));
      && (!s.v.loading && Expired(s.v.fetchedAt, now) ==> GetsNewRefresher(s, s', false))
      && (s.v.loading || !Expired(s.v.fetchedAt, now) ==> s' == s.(clock := s.clock + 1))
  {
    RunPreservesInv(Initial(scans), actions);
    var s := Run(Initial(scans), actions);
    RequestLaunchesExactlyWhen(s.v, false, now);
    forall r | r in s.refreshers ensures r.generation <= s.v.refreshGeneration {
      var k :| 0 <= k < |s.refreshers| && s.refreshers[k] == r;
      assert RefresherOk(s, s.refreshers[k]);
    }
    hide Run;
  }

  /** The moment of the last publication in a run, if there was one. */
  ghost function LastFetch(s: System, actions: seq<Action>): Option<nat>
    decreases |actions|
  {
    if actions == [] then None
    else
      var later := LastFetch(Apply(s, actions[0]), actions[1..]);
      if later.Some? then later
      else if actions[0].Finish? && Publishes(s, actions[0].k, actions[0].cancelled) then Some(actions[0].now)
      else None
  }

  lemma StepFetches(s: System, a: Action)
    ensures Apply(s, a).v.fetchedAt
            == if a.Finish? && Publishes(s, a.k, a.cancelled) then Some(a.now) else s.v.fetchedAt
  {
    if a.Finish? && Publishes(s, a.k, a.cancelled) {
      PublishFacts(s, a.k, a.cancelled, a.now);
      BeginScanFrame(Settled(s.v, s.refreshers[a.k], a.now), s.refreshers[a.k].force || s.refreshers[a.k].sync, a.now);
      hide BeginScan, FinishRefresh;
    } else {
      StepFetchesNothing(s, a);
    }
  }

  lemma StepFetchesNothing(s: System, a: Action)
    requires !(a.Finish? && Publishes(s, a.k, a.cancelled))
    ensures Apply(s, a).v.fetchedAt == s.v.fetchedAt
  {
    hide BeginScan, RefreshInv;
    match a
    case Finish(k, cancelled, now) => DroppedFinishFetchesNothing(s, k, cancelled, now);
    case Ask(force, now) => RequestLaunchesExactlyWhen(s.v, force, now);
    case ScanEnd(early, late, published, now) =>
    case _ => hide FinishRefresh, Request, ScanFinished;
  }

  lemma DroppedFinishFetchesNothing(s: System, k: nat, cancelled: bool, now: nat)
    requires !Publishes(s, k, cancelled)
    ensures Apply(s, Finish(k, cancelled, now)).v.fetchedAt == s.v.fetchedAt
  {
    hide BeginScan, Request, ScanFinished;
  }

  /** The ninety seconds run from the last publication, whoever published. */
  lemma {:induction false} ExpiryRunsFromTheLastFetch(s: System, actions: seq<Action>)
    ensures Run(s, actions).v.fetchedAt == if LastFetch(s, actions).Some? then LastFetch(s, actions) else s.v.fetchedAt
    decreases |actions|
  {
    if actions != [] {
      StepFetches(s, actions[0]);
      ExpiryRunsFromTheLastFetch(Apply(s, actions[0]), actions[1..]);
      hide Apply, Publishes;
    }
  }

  // ---------------------------------------------------------------- what a refresh does

  /** A synchronous refresh takes the next generation and answers queued requests too. */
  lemma SyncTakesOver(v: Service)
    ensures var v' := BeginSync(v);
      && v'.refreshGeneration == v.refreshGeneration + 1 && v'.loading && !v'.queued && v'.err == ""
      && v'.cache == v.cache && v'.fetchedAt == v.fetchedAt
  {
  }

  /** A refused or cancelled refresh ends loading exactly if it was the current one. */
  lemma DroppedRefreshEndsLoading(v: Service, generation: nat)
    ensures var v' := LaunchRefused(v, generation);
      && v'.loading == (v.loading && generation != v.refreshGeneration) && v'.queued == v.queued
      && v'.err == (if generation == v.refreshGeneration then "shutdown in progress" else v.err)
      && v'.cache == v.cache && v'.refreshGeneration == v.refreshGeneration && v'.fetchedAt == v.fetchedAt
    ensures var v' := Cancelled(v, generation);
      && v'.loading == (v.loading && generation != v.refreshGeneration)
      && v'.queued == (v.queued && generation != v.refreshGeneration)
      && v'.err == (if generation == v.refreshGeneration then "inventory refresh cancelled" else v.err)
      && v'.cache == v.cache && v'.refreshGeneration == v.refreshGeneration && v'.fetchedAt == v.fetchedAt
  {
  }

  // ---------------------------------------------------------------- Store scans

  /** A dropped scan is over, and its follow-up with it. */
  lemma DroppedScanOwesNothing(v: Service)
    ensures var v' := ScanDropped(v);
      && !v'.storeScanLoading && !v'.storeScanQueued
      && v'.lastPublishedAt == v.lastPublishedAt && v'.lastFailureAt == v.lastFailureAt && v'.cache == v.cache
      && v'.loading == v.loading && v'.queued == v.queued && v'.refreshGeneration == v.refreshGeneration
  {
  }

  /** An unforced scan is due: none was published within five minutes, and none failed
      within forty-five seconds. */
  predicate ScanDue(v: Service, now: nat) {
    && (v.lastPublishedAt == None || now >= v.lastPublishedAt.value + 300)
    && (v.lastFailureAt == None || now >= v.lastFailureAt.value + 45)
  }

  /** A scan starts exactly if scans are enabled, none runs, and it is forced or due. A
      forced one is queued behind a running one; otherwise nothing changes. */
  lemma ScanStartsExactlyWhen(v: Service, force: bool, now: nat)
    ensures var (v', start) := BeginScan(v, force, now);
      && (start <==> v.scanEnabled && !v.storeScanLoading && (force || ScanDue(v, now)))
      && v' == v.(storeScanLoading := v.storeScanLoading || start,
                  storeScanQueued := v.storeScanQueued || (v.scanEnabled && v.storeScanLoading && force))
  {
  }

  /** A pass that ends with its context alive sets the windows: a published one clears
      failures and starts the five minutes, another starts the forty-five seconds. */
  lemma PassSetsTheWindows(v: Service, ctxDone: bool, ctxDoneNow: bool, published: bool, now: nat)
    requires ctxDone ==> ctxDoneNow
    ensures var (v', again) := ScanFinished(v, ctxDone, ctxDoneNow, published, now);
      && (again <==> !ctxDoneNow && v.storeScanQueued)
      && v'.storeScanLoading == (v.storeScanLoading && again) && v'.storeScanQueued == (v.storeScanQueued && !again)
      && v'.lastPublishedAt == (if !ctxDone && published then Some(now) else v.lastPublishedAt)
      && v'.lastFailureAt == (if ctxDone then v.lastFailureAt else if published then None else Some(now))
  {
  }

  /** Within five minutes of a published pass no unforced refresh starts a scan; after
      that the first one does, if none is running and none has failed just before. */
  lemma PublishedPassHoldsOff(v: Service, at: nat, now: nat)
    requires v.scanEnabled && !v.storeScanQueued && v.storeScanLoading
    ensures var after := ScanFinished(v, false, false, true, at).0; BeginScan(after, false, now).1 <==> now >= at + 300
    ensures var after := ScanFinished(v, false, false, false, at).0;
      v.lastPublishedAt.None? ==> (BeginScan(after, false, now).1 <==> now >= at + 45)
  {
    PassSetsTheWindows(v, false, false, true, at);
    PassSetsTheWindows(v, false, false, false, at);
    ScanStartsExactlyWhen(ScanFinished(v, false, false, true, at).0, false, now);
    ScanStartsExactlyWhen(ScanFinished(v, false, false, false, at).0, false, now);
  }
}
