/** Acquiring and releasing lock files, as one process runs it: retry loops, their bounds and their outcome. */
module PidLock {
  import opened LockNames
  import opened LockProtocol

  const CORRUPT_LOCK_MAX_READS: nat := 3
  const CORRUPT_LOCK_RETRY_DELAY: nat := 25
  const ACQUIRE_MAX_ATTEMPTS: nat := 6
  const GATE_MAX_ATTEMPTS: nat := 40
  const GATE_RETRY_DELAY: nat := 5
  const GATE_MAX_RETRY_DELAY: nat := 100

  function Min(x: nat, y: nat): nat {
    if x <= y then x else y
  }

  /** The gate's retry delay after `k` failed attempts, doubling up to its cap. */
  function GateDelay(k: nat): nat {
    if k == 0 then GATE_RETRY_DELAY else Min(2 * GateDelay(k - 1), GATE_MAX_RETRY_DELAY)
  }

  /** Milliseconds slept over the first `k` gate retries. */
  function GateSleep(k: nat): nat {
    if k == 0 then 0 else GateSleep(k - 1) + GateDelay(k - 1)
  }

  // Giving up on the gate takes 39 sleeps adding up to 3555 ms.
  lemma {:induction false} GateSleepInClosedForm(k: nat)
    ensures k >= 5 ==> GateDelay(k) == 100 && GateSleep(k) == 155 + 100 * (k - 5)
    ensures GateSleep(GATE_MAX_ATTEMPTS - 1) == 3555
  {
    assert GateDelay(1) == 10 && GateDelay(2) == 20;
    assert GateDelay(3) == 40 && GateDelay(4) == 80;
    assert GateSleep(2) == 15 && GateSleep(4) == 75;
    GateSleepFrom(k);
    GateSleepFrom(GATE_MAX_ATTEMPTS - 1);
  }

  lemma {:induction false} GateSleepFrom(k: nat)
    requires GateDelay(4) == 80 && GateSleep(4) == 75
    ensures k >= 5 ==> GateDelay(k) == 100 && GateSleep(k) == 155 + 100 * (k - 5)
  {
    if k > 5 {
      GateSleepFrom(k - 1);
    }
  }

  lemma {:induction false} GateSleepMonotone(j: nat, k: nat)
    requires j <= k
    ensures GateSleep(j) <= GateSleep(k)
  {
    if j < k {
      GateSleepMonotone(j, k - 1);
    }
  }

  /** Whether the file at `path` stops an acquisition of it. */
  predicate Blocked(files: map<string, Content>, os: map<nat, nat>, readable: bool, path: string) {
    path in files && ContentIsLive(os, readable, files[path])
  }

  predicate ContentIsLive(os: map<nat, nat>, readable: bool, c: Content) {
    c.Record? && HolderIsLive(os, c.pid, c.token, readable)
  }

  /** A running process holds the lock: the one recorded, or, where tokens are missing, any with its PID. */
  predicate Held(files: map<string, Content>, os: map<nat, nat>, readable: bool, path: string) {
    && path in files && files[path].Record? && files[path].pid != 0
    && if files[path].token.Some? && readable then Alive(os, Proc(files[path].pid, files[path].token.value))
       else files[path].pid in os
  }

  lemma BlockedIffHeld(files: map<string, Content>, os: map<nat, nat>, readable: bool, path: string)
    ensures Blocked(files, os, readable, path) <==> Held(files, os, readable, path)
  {
    if path in files && files[path].Record? {
      LivenessIsIdentity(os, files[path].pid, files[path].token, readable);
    }
  }

  /** No backup's lock is held. */
  ghost predicate NoBackupHeld(files: map<string, Content>, os: map<nat, nat>, readable: bool) {
    forall name :: name != "" && name != GLOBAL_STEM ==> !Held(files, os, readable, ScopePath(name))
  }

  // What the other tier is: the global lock for a backup, and every backup's lock for the global one.
  lemma OtherTierIff(files: map<string, Content>, os: map<nat, nat>, readable: bool, scope: LockScope)
    ensures scope.Backup? ==>
              (CrossTierHeld(files, os, readable, scope) <==> Held(files, os, readable, ScopePath(GLOBAL_STEM)))
    ensures scope.Global? ==> (CrossTierHeld(files, os, readable, scope) <==> !NoBackupHeld(files, os, readable))
  {
    forall f
      ensures Blocked(files, os, readable, f) <==> Held(files, os, readable, f)
    {
      BlockedIffHeld(files, os, readable, f);
    }
    if scope.Global? {
      if CrossTierHeld(files, os, readable, scope) {
        var f :| f in files && MustScan(scope, f) && Blocked(files, os, readable, f);
        ScanRecognisesBackupLocks(f, BackupNameFromLockFile(f).value);
      }
      if name :| name != "" && name != GLOBAL_STEM && Held(files, os, readable, ScopePath(name)) {
        ScanRecognisesBackupLocks(ScopePath(name), name);
      }
    }
  }

  // Exactly who stands in the way of an acquisition: whatever locks other backups hold, a backup is free unless the
  // gate, the global lock or its own is held; the global lock is free unless the gate, it or any backup's is.
  lemma FreeIff(files: map<string, Content>, os: map<nat, nat>, readable: bool, scope: LockScope)
    requires !scope.NoLock?
    ensures CanBeGranted(files, os, readable, scope) <==>
      && !Held(files, os, readable, GATE_LOCK_FILE)
      && !Held(files, os, readable, ScopePath(GLOBAL_STEM))
      && if scope.Backup? then !Held(files, os, readable, ScopePath(scope.name)) else NoBackupHeld(files, os, readable)
  {
    OtherTierIff(files, os, readable, scope);
    BlockedIffHeld(files, os, readable, GATE_LOCK_FILE);
    BlockedIffHeld(files, os, readable, ScopePath(Stem(scope)));
  }

  /** Some lock of the other tier is held. */
  predicate CrossTierHeld(files: map<string, Content>, os: map<nat, nat>, readable: bool, scope: LockScope) {
    exists f :: f in files && MustScan(scope, f) && Blocked(files, os, readable, f)
  }

  /** Neither the gate, nor the other tier, nor the lock itself is held by a live process. */
  ghost predicate CanBeGranted(files: map<string, Content>, os: map<nat, nat>, readable: bool, scope: LockScope)
    requires !scope.NoLock?
  {
    && !Blocked(files, os, readable, GATE_LOCK_FILE)
    && !CrossTierHeld(files, os, readable, scope)
    && !Blocked(files, os, readable, ScopePath(Stem(scope)))
  }

  /** What an undisturbed acquisition leaves behind: never a gate of its own, and its lock only if granted. */
  ghost function DirectoryAfter(files: map<string, Content>, os: map<nat, nat>, readable: bool, scope: LockScope,
                                mine: Content): map<string, Content>
    requires !scope.NoLock?
  {
    if Blocked(files, os, readable, GATE_LOCK_FILE) then files
    else if CanBeGranted(files, os, readable, scope) then (files - {GATE_LOCK_FILE})[ScopePath(Stem(scope)) := mine]
    else files - {GATE_LOCK_FILE}
  }

  /**
   The lock directory as one process sees it. `quiet` says that nobody else touches the directory; when it
   is false, other processes may create, replace or remove any lock file between any two system calls.
   */
  class LockDirectory {
    var files: map<string, Content>
    var slept: nat
    var gateSleeps: nat
    const os: map<nat, nat>
    const readable: bool
    const quiet: bool
    const mine: Content

    constructor (files: map<string, Content>, os: map<nat, nat>, readable: bool, quiet: bool, mine: Content)
      ensures this.files == files && slept == 0 && gateSleeps == 0
      ensures this.os == os && this.readable == readable && this.quiet == quiet && this.mine == mine
    {
      this.files, slept, gateSleeps := files, 0, 0;
      this.os, this.readable, this.quiet, this.mine := os, readable, quiet, mine;
    }

    method OthersRun()
      modifies `files
      ensures quiet ==> files == old(files)
    {
      if !quiet {
        files := *;
      }
    }

    method Sleep(ms: nat)
      modifies `slept, `files
      ensures slept == old(slept) + ms
      ensures quiet ==> files == old(files)
    {
      slept := slept + ms;
      OthersRun();
    }

    /** Publish `mine` at `path`, overriding a stale or corrupt lock file but never a live one. */
    method Acquire(path: string) returns (ok: bool)
      modifies `files, `slept
      ensures ok ==> path in files && files[path] == mine
      ensures slept <= old(slept) + 75
      ensures quiet ==> ok == !Blocked(old(files), os, readable, path)
      ensures quiet ==> files == if ok then old(files)[path := mine] else old(files)
      ensures quiet && !(path in old(files) && old(files)[path].Corrupt?) ==> slept == old(slept)
    {
      var corruptReads := 0;
      for attempt := 0 to ACQUIRE_MAX_ATTEMPTS
        invariant corruptReads <= CORRUPT_LOCK_MAX_READS
        invariant slept == old(slept) + corruptReads * CORRUPT_LOCK_RETRY_DELAY
        invariant quiet ==>
          || (files == old(files) && attempt == corruptReads && (attempt > 0 ==> path in files && files[path].Corrupt?))
          || (files == old(files) - {path} && path in old(files) && attempt <= corruptReads + 1
              && !Blocked(old(files), os, readable, path) && (corruptReads > 0 ==> old(files)[path].Corrupt?))
      {
        if path !in files {
          files := files[path := mine];
          return true;
        }
        OthersRun();
        if path in files {
          var found := files[path];
          if ContentIsLive(os, readable, found) {
            return false;
          } else if found.Corrupt? && corruptReads < CORRUPT_LOCK_MAX_READS {
            corruptReads := corruptReads + 1;
            Sleep(CORRUPT_LOCK_RETRY_DELAY);
          } else {
            OthersRun();
            files := files - {path};
          }
        }
      }
      return false;
    }

    method Drop(path: string)
      modifies `files
      ensures quiet ==> files == old(files) - {path}
    {
      files := files - {path};
      OthersRun();
    }

    /** Take the gate, backing off while somebody else holds it. */
    method AcquireGate() returns (ok: bool)
      modifies `files, `slept, `gateSleeps
      ensures ok ==> GATE_LOCK_FILE in files && files[GATE_LOCK_FILE] == mine
      ensures gateSleeps <= old(gateSleeps) + 39
      ensures !ok ==> gateSleeps == old(gateSleeps) + 39
      ensures slept <= old(slept) + 3555 + 40 * 75
      ensures quiet ==> ok == !Blocked(old(files), os, readable, GATE_LOCK_FILE)
      ensures quiet ==> files == if ok then old(files)[GATE_LOCK_FILE := mine] else old(files)
    {
      var delay := GATE_RETRY_DELAY;
      var attempt := 1;
      GateSleepInClosedForm(0);
      while true
        invariant 1 <= attempt <= GATE_MAX_ATTEMPTS
        invariant delay == GateDelay(attempt - 1)
        invariant gateSleeps == old(gateSleeps) + attempt - 1
        invariant slept <= old(slept) + GateSleep(attempt - 1)
                           + (attempt - 1) * 75
        invariant quiet ==> files == old(files)
        invariant quiet && attempt > 1 ==> Blocked(files, os, readable, GATE_LOCK_FILE)
        decreases GATE_MAX_ATTEMPTS - attempt
      {
        GateSleepMonotone(attempt - 1, GATE_MAX_ATTEMPTS - 1);
        ok := Acquire(GATE_LOCK_FILE);
        if ok || attempt >= GATE_MAX_ATTEMPTS {
          return;
        }
        Sleep(delay);
        gateSleeps := gateSleeps + 1;
        delay := Min(delay * 2, GATE_MAX_RETRY_DELAY);
        attempt := attempt + 1;
      }
    }

    /** Look for a live lock of the other tier, one directory entry at a time. */
    method CheckCrossTierExclusion(scope: LockScope) returns (free: bool)
      modifies `files
      ensures quiet ==> files == old(files) && free == !CrossTierHeld(files, os, readable, scope)
      ensures quiet && scope.Backup? ==> free == !Held(files, os, readable, ScopePath(GLOBAL_STEM))
      ensures quiet && scope.Global? ==> free == NoBackupHeld(files, os, readable)
    {
      OtherTierIff(files, os, readable, scope);
      var todo := set f | f in files && MustScan(scope, f);
      ghost var listed := todo;
      while todo != {}
        invariant todo <= listed
        invariant quiet ==> files == old(files)
        invariant quiet ==> forall f :: f in listed - todo ==> !Blocked(files, os, readable, f)
        decreases todo
      {
        var f :| f in todo;
        if Blocked(files, os, readable, f) {
          return false;
        }
        todo := todo - {f};
        OthersRun();
      }
      return true;
    }

    /**
     Acquire a scope lock: gate, cross-tier check, lock file, and the gate dropped again whatever happened.
     It ends after at most 39 gate sleeps.
     */
    method AcquireScoped(scope: LockScope) returns (granted: bool)
      requires Lockable(scope)
      modifies `files, `slept, `gateSleeps
      ensures gateSleeps <= old(gateSleeps) + 39
      ensures slept <= old(slept) + 3555 + 41 * 75
      ensures quiet && scope.Backup? ==>
        (granted <==> !Held(old(files), os, readable, GATE_LOCK_FILE)
                      && !Held(old(files), os, readable, ScopePath(GLOBAL_STEM))
                      && !Held(old(files), os, readable, ScopePath(scope.name)))
      ensures quiet && scope.Global? ==>
        (granted <==> !Held(old(files), os, readable, GATE_LOCK_FILE)
                      && !Held(old(files), os, readable, ScopePath(GLOBAL_STEM))
                      && NoBackupHeld(old(files), os, readable))
      ensures quiet ==> files == DirectoryAfter(old(files), os, readable, scope, mine)
    {
      FreeIff(files, os, readable, scope);
      var path := ScopePath(Stem(scope));
      var gate := AcquireGate();
      if !gate {
        return false;
      }
      if quiet {
        GateDoesNotMatterToTheScan(old(files), os, readable, scope, mine);
        GateComesAndGoes(old(files), os, readable, Stem(scope), mine);
      }
      var free := CheckCrossTierExclusion(scope);
      if free {
        granted := Acquire(path);
      } else {
        granted := false;
      }
      Drop(GATE_LOCK_FILE);
    }
  }

  // With the gate taken and dropped again, only the scope's own lock file has changed.
  lemma GateComesAndGoes(files: map<string, Content>, os: map<nat, nat>, readable: bool, stem: string, mine: Content)
    ensures var gated, path := files[GATE_LOCK_FILE := mine], ScopePath(stem);
            && Blocked(gated, os, readable, path) == Blocked(files, os, readable, path)
            && gated - {GATE_LOCK_FILE} == files - {GATE_LOCK_FILE}
            && gated[path := mine] - {GATE_LOCK_FILE} == (files - {GATE_LOCK_FILE})[path := mine]
  {
    GateAndStagedFilesAreNotScopeLocks("", "", stem);
  }

  lemma GateDoesNotMatterToTheScan(files: map<string, Content>, os: map<nat, nat>, readable: bool, scope: LockScope,
                                   mine: Content)
    ensures CrossTierHeld(files[GATE_LOCK_FILE := mine], os, readable, scope)
       <==> CrossTierHeld(files, os, readable, scope)
  {
    GateAndStagedFilesAreNotScopeLocks("", "", GLOBAL_STEM);
    forall f | f != GATE_LOCK_FILE
      ensures Blocked(files[GATE_LOCK_FILE := mine], os, readable, f) == Blocked(files, os, readable, f)
    {
    }
    if CrossTierHeld(files, os, readable, scope) {
      var f :| f in files && MustScan(scope, f) && Blocked(files, os, readable, f);
      assert f in files[GATE_LOCK_FILE := mine] && Blocked(files[GATE_LOCK_FILE := mine], os, readable, f);
    }
  }
}
