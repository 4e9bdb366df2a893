/** The inventory refresh service: its locked sections as functions of its state. */
module InventoryModel {
  import opened Wrappers

  // seconds
  const CACHE_TTL: nat := 90
  const SCAN_COOLDOWN: nat := 300
  const SCAN_FAILURE_BACKOFF: nat := 45

  /** Where the cached inventory comes from: the refresh generation that published
      it and the moment that refresh began to collect. */
  datatype Cached = Cached(generation: nat, begun: nat)

  datatype Service = Service(
    cache: Option<Cached>, loading: bool, queued: bool, refreshGeneration: nat, fetchedAt: Option<nat>, err: string,
    storeScanLoading: bool, storeScanQueued: bool, lastPublishedAt: Option<nat>, lastFailureAt: Option<nat>,
    scanEnabled: bool)

  predicate Elapsed(since: Option<nat>, now: nat, limit: nat) { since.None? || now > since.value + limit }
  predicate Within(since: Option<nat>, now: nat, limit: nat) { since.Some? && now < since.value + limit }

  function Allocate(v: Service): Service {
    v.(loading := true, err := "", refreshGeneration := v.refreshGeneration + 1)
  }

  /** A caller asks for a refresh; the result says whether it must launch one. */
  function Request(v: Service, force: bool, now: nat): (Service, bool) {
    if v.loading then (if force then v.(queued := true) else v, false)
    else if !force && !Elapsed(v.fetchedAt, now, CACHE_TTL) then (v, false)
    else (Allocate(v), true)
  }

  function BeginSync(v: Service): Service { Allocate(v).(queued := false) }

  function LaunchRefused(v: Service, generation: nat): Service {
    if generation == v.refreshGeneration then v.(loading := false, err := "shutdown in progress") else v
  }

  function Cancelled(v: Service, generation: nat): Service {
    if generation == v.refreshGeneration
    then v.(loading := false, queued := false, err := "inventory refresh cancelled")
    else v
  }

  /** Whether to start a Store scan now; one already running is followed up on demand. */
  function BeginScan(v: Service, force: bool, now: nat): (Service, bool) {
    if !v.scanEnabled then (v, false)
    else if !force && (Within(v.lastPublishedAt, now, SCAN_COOLDOWN)
                       || Within(v.lastFailureAt, now, SCAN_FAILURE_BACKOFF)) then (v, false)
    else if v.storeScanLoading then (if force then v.(storeScanQueued := true) else v, false)
    else (v.(storeScanLoading := true), true)
  }

  datatype Outcome = Stale | Done(startScan: bool) | Chained(generation: nat, startScan: bool)

  /** A refresher of the given generation has collected an inventory. */
  function Publish(v: Service, generation: nat, begun: nat, forceScan: bool, now: nat): (Service, Outcome) {
    if generation != v.refreshGeneration then (v, Stale)
    else
      var v1 := v.(cache := Some(Cached(generation, begun)), fetchedAt := Some(now), err := "");
      if v1.queued then
        var v2 := v1.(queued := false, loading := true, refreshGeneration := v1.refreshGeneration + 1);
        var (v3, scan) := BeginScan(v2, forceScan, now);
        (v3, Chained(v2.refreshGeneration, scan))
      else
        var (v2, scan) := BeginScan(v1.(loading := false), forceScan, now);
        (v2, Done(scan))
  }

  function ScanDropped(v: Service): Service { v.(storeScanLoading := false, storeScanQueued := false) }

  /** The end of one pass of the scan loop; the result says whether it goes round again.
      The context is read twice, and may end in between. */
  function ScanFinished(v: Service, ctxDone: bool, ctxDoneNow: bool, published: bool, now: nat): (Service, bool) {
    var v1 :=
      if ctxDone then v
      else if published then v.(lastPublishedAt := Some(now), lastFailureAt := None)
      else v.(lastFailureAt := Some(now));
    if !ctxDoneNow && v1.storeScanQueued then (v1.(storeScanQueued := false), true)
    else (v1.(storeScanLoading := false), false)
  }
}

/** The service object. */
module InventoryService {
  import opened Wrappers
  import Model = InventoryModel
  import opened InventoryModel

  class Inventory {
    var cache: Option<Cached>
    var loading: bool
    var queued: bool
    var refreshGeneration: nat
    var fetchedAt: Option<nat>
    var err: string
    var storeScanLoading: bool
    var storeScanQueued: bool
    var lastPublishedAt: Option<nat>
    var lastFailureAt: Option<nat>
    var scanEnabled: bool

    function Value(): Service
      reads this
    {
      Service(cache, loading, queued, refreshGeneration, fetchedAt, err,
              storeScanLoading, storeScanQueued, lastPublishedAt, lastFailureAt, scanEnabled)
    }

    constructor (scans: bool)
      ensures Value() == Service(None, false, false, 0, None, "", false, false, None, None, scans)
    {
      cache, loading, queued, refreshGeneration, fetchedAt, err := None, false, false, 0, None, "";
      storeScanLoading, storeScanQueued, lastPublishedAt, lastFailureAt, scanEnabled := false, false, None, None, scans;
    }

    method Refresh(force: bool, now: nat) returns (launch: Option<nat>)
      modifies this
      ensures (Value(), launch.Some?) == Model.Request(old(Value()), force, now)
      ensures launch.Some? ==> launch.value == refreshGeneration
    {
      var cacheExpired := fetchedAt.None? || now > fetchedAt.value + CACHE_TTL;
      if loading {
        if force { queued := true; }
        return None;
      }
      if !force && !cacheExpired { return None; }
      loading := true;
      err := "";
      refreshGeneration := refreshGeneration + 1;
      return Some(refreshGeneration);
    }

    method BeginSync() returns (generation: nat)
      modifies this
      ensures Value() == Model.BeginSync(old(Value())) && generation == refreshGeneration
    {
      refreshGeneration := refreshGeneration + 1;
      generation := refreshGeneration;
      loading, queued, err := true, false, "";
    }

    method LaunchRefused(generation: nat)
      modifies this
      ensures Value() == Model.LaunchRefused(old(Value()), generation)
    {
      if generation == refreshGeneration { loading, err := false, "shutdown in progress"; }
    }

    method Cancelled(generation: nat)
      modifies this
      ensures Value() == Model.Cancelled(old(Value()), generation)
    {
      if generation == refreshGeneration { loading, queued, err := false, false, "inventory refresh cancelled"; }
    }

    method Publish(generation: nat, begun: nat, forceScan: bool, now: nat) returns (outcome: Outcome)
      modifies this
      ensures (Value(), outcome) == Model.Publish(old(Value()), generation, begun, forceScan, now)
    {
      if generation != refreshGeneration { return Stale; }
      cache, fetchedAt, err := Some(Cached(generation, begun)), Some(now), "";
      if queued {
        var next, scan := PrepareQueued(forceScan, now);
        return Chained(next, scan);
      }
      loading := false;
      var scan := BeginScan(forceScan, now);
      return Done(scan);
    }

    method PrepareQueued(forceScan: bool, now: nat) returns (generation: nat, scan: bool)
      modifies this
      ensures (Value(), scan) == Model.BeginScan(
                old(Value()).(queued := false, loading := true, refreshGeneration := old(refreshGeneration) + 1),
                    forceScan, now)
      ensures generation == old(refreshGeneration) + 1
    {
      queued, loading := false, true;
      refreshGeneration := refreshGeneration + 1;
      generation := refreshGeneration;
      scan := BeginScan(forceScan, now);
    }

    method BeginScan(force: bool, now: nat) returns (start: bool)
      modifies this`storeScanLoading, this`storeScanQueued
      ensures (Value(), start) == Model.BeginScan(old(Value()), force, now)
    {
      if !scanEnabled { return false; }
      if !force {
        if lastPublishedAt.Some? && now < lastPublishedAt.value + SCAN_COOLDOWN { return false; }
        if lastFailureAt.Some? && now < lastFailureAt.value + SCAN_FAILURE_BACKOFF { return false; }
      }
      if storeScanLoading {
        if force { storeScanQueued := true; }
        return false;
      }
      storeScanLoading := true;
      return true;
    }

    /** A scan that was refused, or cancelled before a pass began. */
    method ScanDropped()
      modifies this
      ensures Value() == Model.ScanDropped(old(Value()))
    {
      storeScanLoading, storeScanQueued := false, false;
    }

    method ScanFinished(ctxDone: bool, ctxDoneNow: bool, published: bool, now: nat) returns (again: bool)
      modifies this
      ensures (Value(), again) == Model.ScanFinished(old(Value()), ctxDone, ctxDoneNow, published, now)
    {
      if !ctxDone {
        if published { lastPublishedAt, lastFailureAt := Some(now), None; } else { lastFailureAt := Some(now); }
      }
      if !ctxDoneNow && storeScanQueued {
        storeScanQueued := false;
        return true;
      }
      storeScanLoading := false;
      return false;
    }
  }
}
