/** The self-update transaction: replace the executable, wait for the new one to
    report healthy, then drop the backup or roll back. */
module SelfUpdateModel {
  import opened Wrappers
  import opened Text

  /** The executable's directory: the executable, its ".bak" and ".failed" siblings,
      the temporary file being written, and temporary files left behind. */
  datatype Dir = Dir(target: Option<string>, bak: Option<string>, failed: Option<string>, temp: Option<string>,
                     strays: nat)

  datatype Fault = Fine | SharingViolation | Denied | OtherFault

  datatype Step =
    | Validate | CreateTemp | OpenSource | Copy | Sync | Close | Chmod | Swap | Clean
    | LaunchElevated | CreateHealthRequest | Restart | AwaitHealth | RemoveBackup
    | OpenBackup | CreateRollbackTemp | CopyBackup | CloseBackup | SyncRollback | CloseRollback
    | ChmodRollback | SwapBack
    | CleanRollback | DropBackup | RestartOld

  /** Everything the transaction cannot choose: which step of which attempt fails, what
      the staged file holds at each attempt, how far a failing copy gets. */
  datatype World = World(fault: (Step, nat) -> Fault, source: nat -> string, copied: nat -> nat, sha: string -> string,
                         expected: string, attempts: nat, elevated: bool, restart: bool)

  predicate Verified(w: World, image: string) { EqualFold(w.sha(image), w.expected) }

  datatype Outcome =
    | Updated | Unchanged(fault: Fault) | HandedOver(launched: bool) | Restored(restarted: bool)
    | RollbackFailed | BackupNotRemoved

  // ---------------------------------------------------------------- one replacement

  /** Renames the temporary file over the target, keeping what was there. Without a
      target the rename keeps nothing. */
  function Swapped(d: Dir): Dir
    requires d.temp.Some?
  {
    d.(target := d.temp, temp := None, bak := if d.target.Some? then d.target else d.bak)
  }

  function SwappedBack(d: Dir): Dir
    requires d.temp.Some?
  {
    d.(target := d.temp, temp := None, failed := if d.target.Some? then d.target else d.failed)
  }

  function Then(f: Fault, next: Fault): Fault { if f == Fine then next else f }

  /** Why an attempt fails, if it does. */
  function AttemptFault(w: World, n: nat): Fault {
    Then(w.fault(Validate, n), Then(w.fault(CreateTemp, n), Then(w.fault(OpenSource, n), Then(w.fault(Copy, n),
    Then(if Verified(w, w.source(n)) then Fine else OtherFault,
    Then(w.fault(Sync, n), Then(w.fault(Close, n), Then(w.fault(Chmod, n), w.fault(Swap, n)))))))))
  }

  function Discarded(d: Dir, cleaned: bool): Dir {
    d.(temp := None, strays := if cleaned then d.strays else d.strays + 1)
  }

  function Attempt(w: World, d: Dir, n: nat): Dir {
    if AttemptFault(w, n) == Fine then Swapped(d.(temp := Some(w.source(n))))
    else if w.fault(Validate, n) != Fine || w.fault(CreateTemp, n) != Fine then d
    else Discarded(d, w.fault(Clean, n) == Fine)
  }

  /** Sharing violations are retried until the deadline. */
  function Attempts(w: World, d: Dir, n: nat): (Dir, Fault)
    decreases w.attempts - n
  {
    var next, f := Attempt(w, d, n), AttemptFault(w, n);
    if f == SharingViolation && n + 1 < w.attempts then Attempts(w, next, n + 1) else (next, f)
  }

  // ---------------------------------------------------------------- rolling back

  function RestoreFault(w: World): Fault {
    Then(w.fault(CopyBackup, 0),
         Then(w.fault(CloseBackup, 0), Then(w.fault(SyncRollback, 0), Then(w.fault(CloseRollback, 0),
    Then(w.fault(ChmodRollback, 0), w.fault(SwapBack, 0))))))
  }

  function Restore(w: World, d: Dir): (Dir, bool) {
    if w.fault(OpenBackup, 0) != Fine || d.bak.None? || w.fault(CreateRollbackTemp, 0) != Fine then (d, false)
    else if RestoreFault(w) != Fine then (Discarded(d, w.fault(CleanRollback, 0) == Fine), false)
    else
      var back := SwappedBack(d.(temp := d.bak));
      if w.fault(DropBackup, 0) != Fine then (back, false) else (back.(bak := None), true)
  }

  function Rollback(w: World, d: Dir): (Dir, Outcome) {
    var (back, ok) := Restore(w, d);
    (back, if !ok then RollbackFailed else Restored(w.fault(RestartOld, 0) == Fine))
  }

  function Transaction(w: World, d: Dir): (Dir, Outcome) {
    var (next, f) := Attempts(w, d, 0);
    if f != Fine then (next,
                       if !w.elevated && f == Denied then HandedOver(w.fault(LaunchElevated, 0) == Fine)
                       else Unchanged(f))
    else if !w.restart then (next, Updated)
    else if w.fault(CreateHealthRequest, 0) != Fine || w.fault(Restart, 0) != Fine
        || w.fault(AwaitHealth, 0) != Fine then Rollback(w, next)
    else if next.bak.Some? && w.fault(RemoveBackup, 0) != Fine then (next, BackupNotRemoved)
    else (next.(bak := None), Updated)
  }

  // ---------------------------------------------------------------- what is promised

  /** The executable is the old one or one whose digest was checked, and until the new
      one has proved healthy the backup holds the old one. */
  predicate Safe(w: World, start: Dir, d: Dir, healthy: bool) {
    || d.target == start.target
    || (d.target.Some? && Verified(w, d.target.value) && (!healthy && start.target.Some? ==> d.bak == start.target))
  }

  /** The new executable was started and acknowledged that it is healthy. */
  predicate ProvedHealthy(w: World) {
    && w.restart && w.fault(CreateHealthRequest, 0) == Fine && w.fault(Restart, 0) == Fine
    && w.fault(AwaitHealth, 0) == Fine
  }

  /** What a caller can check beforehand: an executable to fall back on, or at least no
      leftover backup to mistake for one. */
  predicate Recoverable(d: Dir) { d.target.Some? || d.bak.None? }
}

module SelfUpdate {
  import opened Wrappers
  import opened Text
  import opened SelfUpdateModel

  class Updater {
    const w: World
    var dir: Dir
    ghost const start: Dir
    ghost var healthy: bool                // the new executable has acknowledged
    ghost var hazards: set<(Dir, bool)>    // every state a crash could leave behind

    constructor (w: World, dir: Dir)
      requires dir.temp.None?
      ensures this.w == w && this.dir == dir && start == dir && !healthy && hazards == {(dir, false)}
    {
      this.w, this.dir, start, healthy, hazards := w, dir, dir, false, {(dir, false)};
    }

    /** Every state so far was safe, if there was something to fall back on; only an
        acknowledged health check counts as health. */
    ghost predicate AllSafe()
      reads this
    {
      && (healthy ==> ProvedHealthy(w)) && (forall s | s in hazards :: s.1 ==> ProvedHealthy(w))
      && (Recoverable(start) ==> forall s | s in hazards :: Safe(w, start, s.0, s.1))
    }

    ghost predicate SafeNow()
      reads this
    {
      Recoverable(start) ==> Safe(w, start, dir, healthy)
    }

    method Put(d: Dir)
      requires AllSafe() && (Recoverable(start) ==> Safe(w, start, d, healthy))
      modifies this`dir, this`hazards
      ensures dir == d && AllSafe()
    {
      dir, hazards := d, hazards + {(d, healthy)};
    }

    method Discard(cleaned: bool)
      requires AllSafe() && SafeNow() && dir.temp.Some?
      modifies this`dir, this`hazards
      ensures dir == Discarded(old(dir), cleaned) && AllSafe()
    {
      Put(Discarded(dir, cleaned));
    }

    /** Copies the staged file to a temporary one, checking the bytes as they pass, and
        swaps it in. */
    method ReplaceExecutable(n: nat) returns (fault: Fault)
      requires AllSafe() && dir.target == start.target && dir.temp.None?
      modifies this`dir, this`hazards
      ensures AllSafe() && dir == Attempt(w, old(dir), n) && fault == AttemptFault(w, n)
    {
      fault := w.fault(Validate, n);
      if fault != Fine { return; }
      fault := w.fault(CreateTemp, n);
      if fault != Fine { return; }
      Put(dir.(temp := Some("")));
      fault := FillTemp(n);
      if fault == Fine {
        fault := Then(w.fault(Sync, n), Then(w.fault(Close, n), Then(w.fault(Chmod, n), w.fault(Swap, n))));
      }
      if fault != Fine {
        Discard(w.fault(Clean, n) == Fine);
        return;
      }
      Put(Swapped(dir));
    }

    method FillTemp(n: nat) returns (fault: Fault)
      requires AllSafe() && dir.target == start.target && dir.temp.Some?
      modifies this`dir, this`hazards
      ensures AllSafe() && dir == old(dir).(temp := dir.temp) && dir.temp.Some?
      ensures fault == Then(w.fault(OpenSource, n),
                            Then(w.fault(Copy, n), if Verified(w, w.source(n)) then Fine else OtherFault))
      ensures fault == Fine ==> dir.temp == Some(w.source(n))
    {
      fault := w.fault(OpenSource, n);
      if fault != Fine { return; }
      var bytes := w.source(n);
      fault := w.fault(Copy, n);
      if fault != Fine {
        Put(dir.(temp := Some(if w.copied(n) < |bytes| then bytes[..w.copied(n)] else bytes)));
        return;
      }
      Put(dir.(temp := Some(bytes)));
      if !EqualFold(w.sha(bytes), w.expected) { fault := OtherFault; }
    }

    method ReplaceWithRetry() returns (fault: Fault)
      requires AllSafe() && dir == start && dir.temp.None?
      modifies this`dir, this`hazards
      ensures AllSafe() && (dir, fault) == Attempts(w, old(dir), 0) && dir.temp.None?
    {
      var n := 0;
      while true
        invariant AllSafe() && dir.target == start.target && dir.temp.None?
        invariant Attempts(w, dir, n) == Attempts(w, old(dir), 0)
        decreases w.attempts - n
      {
        fault := ReplaceExecutable(n);
        if fault != SharingViolation || n + 1 >= w.attempts { return; }
        n := n + 1;
      }
    }

    method RestoreBackup() returns (ok: bool)
      requires AllSafe() && SafeNow() && !healthy && dir.temp.None?
      requires Recoverable(start) && dir.bak.Some? ==> dir.bak == start.target
      modifies this`dir, this`hazards
      ensures AllSafe() && (dir, ok) == Restore(w, old(dir))
    {
      if w.fault(OpenBackup, 0) != Fine || dir.bak.None? { return false; }
      if w.fault(CreateRollbackTemp, 0) != Fine { return false; }
      Put(dir.(temp := Some("")));
      if w.fault(CopyBackup, 0) != Fine {
        Put(dir.(temp := Some(if w.copied(0) < |dir.bak.value| then dir.bak.value[..w.copied(0)] else dir.bak.value)));
        Discard(w.fault(CleanRollback, 0) == Fine);
        return false;
      }
      Put(dir.(temp := dir.bak));
      if RestoreFault(w) != Fine {
        Discard(w.fault(CleanRollback, 0) == Fine);
        return false;
      }
      Put(SwappedBack(dir));
      if w.fault(DropBackup, 0) != Fine { return false; }
      Put(dir.(bak := None));
      return true;
    }

    method RollBack() returns (outcome: Outcome)
      requires AllSafe() && SafeNow() && !healthy && dir.temp.None?
      requires Recoverable(start) && dir.bak.Some? ==> dir.bak == start.target
      modifies this`dir, this`hazards
      ensures AllSafe() && (dir, outcome) == Rollback(w, old(dir))
    {
      var ok := RestoreBackup();
      if !ok { return RollbackFailed; }
      return Restored(w.fault(RestartOld, 0) == Fine);
    }

    /** The whole transaction. Wherever it stops or crashes, every state it passed
        through is safe, if there was something to fall back on. */
    method Apply() returns (outcome: Outcome)
      requires AllSafe() && dir == start && dir.temp.None? && !healthy
      modifies this
      ensures AllSafe() && (dir, outcome) == Transaction(w, old(dir))
    {
      var fault := ReplaceWithRetry();
      AttemptsKeepOrReplace(w, start, 0);
      if fault != Fine {
        if !w.elevated && fault == Denied { return HandedOver(w.fault(LaunchElevated, 0) == Fine); }
        return Unchanged(fault);
      }
      if !w.restart { return Updated; }
      if w.fault(CreateHealthRequest, 0) != Fine {
        outcome := RollBack();
        return;
      }
      if w.fault(Restart, 0) != Fine {
        outcome := RollBack();
        return;
      }
      if w.fault(AwaitHealth, 0) != Fine {
        outcome := RollBack();
        return;
      }
      healthy := true;
      if dir.bak.Some? && w.fault(RemoveBackup, 0) != Fine { return BackupNotRemoved; }
      Put(dir.(bak := None));
      return Updated;
    }
  }

  /** A failed series of attempts leaves the executable and its backup alone; a
      successful one installs a checked image and backs the old one up. */
  lemma {:induction false} AttemptsKeepOrReplace(w: World, d: Dir, n: nat)
    requires d.temp.None?
    ensures var (next, f) := Attempts(w, d, n);
      && next.temp.None? && next.failed == d.failed
      && (f != Fine ==> next.target == d.target && next.bak == d.bak)
      && (f == Fine ==> next.target.Some? && Verified(w, next.target.value)
                        && next.bak == if d.target.Some? then d.target else d.bak)
    decreases w.attempts - n
  {
    if AttemptFault(w, n) == SharingViolation && n + 1 < w.attempts {
      AttemptsKeepOrReplace(w, Attempt(w, d, n), n + 1);
    }
  }
}

module SelfUpdateTheorems {
  import opened Wrappers
  import opened Text
  import opened SelfUpdateModel
  import opened SelfUpdate

  /** What each outcome says about the executable and its backup. */
  lemma OutcomesTellTheTruth(w: World, d: Dir)
    requires d.temp.None?
    ensures var (after, outcome) := Transaction(w, d);
      && (outcome == Updated ==> after.target.Some? && Verified(w, after.target.value)
                                 && after.bak == if w.restart then None else if d.target.Some? then d.target else d.bak)
      && (outcome.Unchanged? || outcome.HandedOver? ==> after.target == d.target && after.bak == d.bak)
      && (outcome.Restored? ==> after.bak.None? && after.target == if d.target.Some? then d.target else d.bak)
      && (outcome == BackupNotRemoved ==> after.target.Some? && Verified(w, after.target.value)
                                          && after.bak == if d.target.Some? then d.target else d.bak)
      && (outcome == RollbackFailed ==>
            || after.target == (if d.target.Some? then d.target else d.bak)
            || (after.target.Some? && Verified(w, after.target.value) && after.bak == if d.target.Some? then d.target
                else d.bak))
  {
    AttemptsKeepOrReplace(w, d, 0);
  }

  /** What else a transaction leaves in the directory: no temporary file of its own, and
      the image that a rollback took out set aside as the failed one. */
  lemma FailedImageIsSetAside(w: World, d: Dir)
    requires d.temp.None?
    ensures var (after, outcome) := Transaction(w, d); var installed := Attempts(w, d, 0).0.target;
      && after.temp.None?
      && (outcome.Restored? ==> after.failed == installed && installed.Some? && Verified(w, installed.value))
      && (outcome == RollbackFailed ==> after.failed == d.failed || (after.failed == installed && installed.Some?))
      && (!outcome.Restored? && outcome != RollbackFailed ==> after.failed == d.failed)
  {
    AttemptsKeepOrReplace(w, d, 0);
    hide Attempts;
  }

  /** An attempt that fails after creating its temporary file, and cannot remove it. */
  predicate LeavesStray(w: World, n: nat) {
    AttemptFault(w, n) != Fine && w.fault(Validate, n) == Fine && w.fault(CreateTemp, n) == Fine
    && w.fault(Clean, n) != Fine
  }

  function Leaving(w: World, from: nat, n: nat): set<nat> { set k | from <= k <= n && LeavesStray(w, k) }

  lemma AttemptLeaves(w: World, d: Dir, n: nat)
    requires d.temp.None?
    ensures Attempt(w, d, n).strays == d.strays + if LeavesStray(w, n) then 1 else 0
    ensures AttemptFault(w, n) != Fine ==> Attempt(w, d, n).temp.None?
  {
    hide AttemptFault;
  }

  lemma LeavingOneMore(w: World, from: nat, n: nat)
    requires from <= n
    ensures |Leaving(w, from, n)| == |Leaving(w, from + 1, n)| + if LeavesStray(w, from) then 1 else 0
  {
    hide LeavesStray;
    var all, rest := Leaving(w, from, n), Leaving(w, from + 1, n);
    assert from !in rest;
    if LeavesStray(w, from) { assert all == rest + {from}; } else { assert all == rest; }
  }

  /** Every such attempt leaves one file behind, and nothing else does. */
  lemma {:induction false} StraysAreCounted(w: World, d: Dir, from: nat, n: nat)
    requires d.temp.None? && LastAttempt(w, from, n)
    ensures Attempts(w, d, from).0.strays == d.strays + |Leaving(w, from, n)|
    decreases n - from
  {
    AttemptLeaves(w, d, from);
    LeavingOneMore(w, from, n);
    hide Attempt, AttemptFault, LeavesStray;
    if from < n {
      StraysAreCounted(w, Attempt(w, d, from), from + 1, n);
    } else {
      assert Leaving(w, from + 1, n) == {};
    }
  }

  /** A rollback leaves one behind exactly if it fails on its own temporary file and cannot
      remove that. */
  lemma RollbackLeavesStray(w: World, d: Dir)
    ensures Restore(w, d).0.strays == d.strays
      + if d.bak.Some? && w.fault(OpenBackup, 0) == Fine && w.fault(CreateRollbackTemp, 0) == Fine
           && w.fault(CleanRollback, 0) != Fine
           && exists step | step in {CopyBackup, CloseBackup, SyncRollback, CloseRollback, ChmodRollback, SwapBack} ::
                w.fault(step, 0) != Fine
        then 1 else 0
  {
    assert CopyBackup in {CopyBackup, CloseBackup, SyncRollback, CloseRollback, ChmodRollback, SwapBack};
  }

  /** The faults of starting the new executable. */
  predicate StartFails(w: World) {
    w.fault(CreateHealthRequest, 0) != Fine || w.fault(Restart, 0) != Fine || w.fault(AwaitHealth, 0) != Fine
  }

  /** What a successful rollback needs. */
  predicate CanRestore(w: World, bak: Option<string>) {
    && bak.Some?
    && forall step | step in {OpenBackup, CreateRollbackTemp, CopyBackup, CloseBackup, SyncRollback, CloseRollback,
                              ChmodRollback, SwapBack, DropBackup} :: w.fault(step, 0) == Fine
  }

  /** Every outcome, and exactly when it comes about. With a restart asked for, an update
      is reported only after the new executable proved healthy; one that was installed but
      could not be started, or did not acknowledge, is rolled back. */
  lemma OutcomeExactlyWhen(w: World, d: Dir)
    requires d.temp.None?
    ensures var fault, outcome := Attempts(w, d, 0).1, Transaction(w, d).1;
      var bak := if d.target.Some? then d.target else d.bak;
      && (outcome.HandedOver? <==> fault == Denied && !w.elevated)
      && (outcome.HandedOver? ==> outcome.launched == (w.fault(LaunchElevated, 0) == Fine))
      && (outcome.Unchanged? <==> fault != Fine && (fault != Denied || w.elevated))
      && (outcome.Unchanged? ==> outcome.fault == fault)
      && (outcome.Restored? || outcome == RollbackFailed <==> fault == Fine && w.restart && StartFails(w))
      && (outcome.Restored? <==> fault == Fine && w.restart && StartFails(w) && CanRestore(w, bak))
      && (outcome.Restored? ==> outcome.restarted == (w.fault(RestartOld, 0) == Fine))
      && (outcome == BackupNotRemoved
          <==> fault == Fine && ProvedHealthy(w) && bak.Some? && w.fault(RemoveBackup, 0) != Fine)
      && (outcome == Updated <==>
            fault == Fine && (!w.restart || (ProvedHealthy(w) && (bak.None? || w.fault(RemoveBackup, 0) == Fine))))
  {
    AttemptsKeepOrReplace(w, d, 0);
    RestoredExactlyWhen(w, Attempts(w, d, 0).0);
    hide Attempts, Restore, CanRestore;
  }

  lemma RestoredExactlyWhen(w: World, d: Dir)
    ensures Restore(w, d).1 <==> CanRestore(w, d.bak)
  {
  }

  /** What a successful attempt needs. */
  predicate CanReplace(w: World, n: nat) {
    && Verified(w, w.source(n))
    && forall step | step in {Validate, CreateTemp, OpenSource, Copy, Sync, Close, Chmod, Swap} ::
          w.fault(step, n) == Fine
  }

  lemma AttemptSucceedsExactlyWhen(w: World, n: nat)
    ensures AttemptFault(w, n) == Fine <==> CanReplace(w, n)
    ensures AttemptFault(w, n) != Fine ==>
              || (exists step | step in {Validate, CreateTemp, OpenSource, Copy, Sync, Close, Chmod, Swap} ::
                    w.fault(step, n) == AttemptFault(w, n))
              || (!Verified(w, w.source(n)) && AttemptFault(w, n) == OtherFault)
  {
    assert Validate in {Validate, CreateTemp, OpenSource, Copy, Sync, Close, Chmod, Swap};
  }

  /** The attempts go on exactly as long as each ends in a sharing violation and the
      deadline has not passed; the last one decides, and it installs what was staged then. */
  ghost predicate LastAttempt(w: World, from: nat, n: nat) {
    && from <= n && (n == from || n < w.attempts)
    && (forall k | from <= k < n :: AttemptFault(w, k) == SharingViolation)
    && (AttemptFault(w, n) == SharingViolation ==> n + 1 >= w.attempts)
  }

  lemma {:induction false} AttemptsEndAt(w: World, d: Dir, from: nat) returns (n: nat)
    requires d.temp.None?
    ensures LastAttempt(w, from, n) && Attempts(w, d, from).1 == AttemptFault(w, n)
    ensures AttemptFault(w, n) == Fine ==> Attempts(w, d, from).0.target == Some(w.source(n))
    decreases w.attempts - from
  {
    if AttemptFault(w, from) == SharingViolation && from + 1 < w.attempts {
      n := AttemptsEndAt(w, Attempt(w, d, from), from + 1);
    } else {
      n := from;
    }
  }

  /** Nothing but a fault or a wrong digest keeps an update from happening. */
  lemma NothingWrongMeansUpdated(w: World, d: Dir)
    requires (forall step, n :: w.fault(step, n) == Fine) && Verified(w, w.source(0))
    ensures var (after, outcome) := Transaction(w, d); outcome == Updated && after.target == Some(w.source(0))
  {
    assert AttemptFault(w, 0) == Fine;
    assert w.fault(CreateHealthRequest, 0) == Fine && w.fault(Restart, 0) == Fine && w.fault(AwaitHealth, 0) == Fine;
    assert w.fault(RemoveBackup, 0) == Fine;
    var next := Swapped(d.(temp := Some(w.source(0))));
    assert Attempts(w, d, 0) == (next, Fine);
    hide Attempts, Rollback;
  }

  /** "Restored previous executable" is true exactly when there was one. */
  lemma RestoredIsOldExactlyWhen(w: World, d: Dir)
    requires d.temp.None? && Transaction(w, d).1.Restored?
    ensures Transaction(w, d).0.target == d.target <==> d.target.Some?
  {
    AttemptsKeepOrReplace(w, d, 0);
  }

  /** The executable a transaction may end with. */
  ghost predicate EndsSafe(d: Dir, sha: string -> string, expected: string) {
    forall w: World | w.sha == sha && w.expected == expected :: Ended(w, d)
  }

  predicate Ended(w: World, d: Dir) {
    var after := Transaction(w, d).0;
    after.target == d.target || (after.target.Some? && Verified(w, after.target.value))
  }

  /** The old executable or a checked one, whatever fails: exactly when there is an
      executable to begin with, or no leftover backup, or a leftover that passes the
      check itself (given that some staged file passes it). */
  lemma EndsSafeExactlyWhen(d: Dir, sha: string -> string, expected: string, image: string)
    requires d.temp.None? && EqualFold(sha(image), expected)
    ensures EndsSafe(d, sha, expected) <==> Recoverable(d) || EqualFold(sha(d.bak.value), expected)
  {
    if Recoverable(d) || EqualFold(sha(d.bak.value), expected) {
      forall w: World | w.sha == sha && w.expected == expected ensures Ended(w, d) { OutcomesTellTheTruth(w, d); }
    } else {
      var w := World((step, n) => if step == Restart then OtherFault else Fine, n => image, n => 0, sha, expected, 1,
                     true, true);
      StaleBackupIsInstalled(w, d);
      assert !Ended(w, d);
    }
  }

  lemma CleanAttempt(w: World, d: Dir)
    requires forall step, n :: w.fault(step, n) == if step == Restart then OtherFault else Fine
    requires Verified(w, w.source(0))
    ensures Attempts(w, d, 0) == (Swapped(d.(temp := Some(w.source(0)))), Fine)
  {
    assert AttemptFault(w, 0) == Fine;
  }

  lemma CleanRestore(w: World, d: Dir)
    requires forall step, n :: w.fault(step, n) == if step == Restart then OtherFault else Fine
    requires d.bak.Some?
    ensures Restore(w, d) == (SwappedBack(d.(temp := d.bak)).(bak := None), true)
  {
    assert RestoreFault(w) == Fine;
  }

  /** A missing executable beside a leftover backup: the failed update ends with the
      leftover installed. */
  lemma StaleBackupIsInstalled(w: World, d: Dir)
    requires d.target.None? && d.bak.Some? && w.restart
    requires forall step, n :: w.fault(step, n) == if step == Restart then OtherFault else Fine
    requires Verified(w, w.source(0))
    ensures Transaction(w, d).0.target == d.bak && Transaction(w, d).1 == Restored(true)
  {
    var next := Swapped(d.(temp := Some(w.source(0))));
    CleanAttempt(w, d);
    CleanRestore(w, next);
    hide Attempts, Restore;
    assert w.fault(Restart, 0) == OtherFault && w.fault(RestartOld, 0) == Fine;
    assert Transaction(w, d) == Rollback(w, next);
  }
}
