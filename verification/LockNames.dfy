/** File names of the lock directory: which names are scope locks, and for which scope. */
module LockNames {
  import opened Options

  const LOCK_PREFIX: string := "chbackup."
  const LOCK_SUFFIX: string := ".pid"
  const GLOBAL_STEM: string := "global"
  const GATE_LOCK_FILE: string := "chbackup.acquire.lock"

  /** The lock a command needs: one backup's, the global one, or none at all. */
  datatype LockScope = Backup(name: string) | Global | NoLock

  /** A scope with a lock file of its own directly inside the lock directory. */
  predicate Lockable(scope: LockScope) {
    scope.Global? || (scope.Backup? && scope.name != "" && '/' !in scope.name)
  }

  function ScopePath(stem: string): string {
    LOCK_PREFIX + stem + LOCK_SUFFIX
  }

  function Stem(scope: LockScope): string
    requires !scope.NoLock?
  {
    if scope.Global? then GLOBAL_STEM else scope.name
  }

  function LockPathForScope(scope: LockScope): Option<string> {
    if scope.NoLock? then None else Some(ScopePath(Stem(scope)))
  }

  function StripPrefix(s: string, prefix: string): Option<string> {
    if prefix <= s then Some(s[|prefix|..]) else None
  }

  function StripSuffix(s: string, suffix: string): Option<string> {
    if |suffix| <= |s| && s[|s| - |suffix|..] == suffix then Some(s[..|s| - |suffix|]) else None
  }

  /** The backup a lock file name belongs to; the scan of a global acquisition skips all other names. */
  function BackupNameFromLockFile(fileName: string): Option<string> {
    match StripPrefix(fileName, LOCK_PREFIX)
    case None => None
    case Some(rest) =>
      match StripSuffix(rest, LOCK_SUFFIX)
      case None => None
      case Some(stem) => if stem != "" && stem != GLOBAL_STEM then Some(stem) else None
  }

  /** Name of the file a lock is staged in before it is linked into place. */
  function TempLockName(fileName: string, unique: string): string {
    "." + fileName + "." + unique + ".tmp"
  }

  predicate Named(backupName: Option<string>) {
    backupName.Some? && backupName.value != ""
  }

  /** The scope a command runs under; without a backup name, the global lock stands in for the backup's. */
  function LockForCommand(command: string, backupName: Option<string>): (scope: LockScope)
    ensures var ofBackup, ofAll :=
              command in {"create", "upload", "download", "restore", "create_remote", "restore_remote", "release-deferred"},
              command in {"clean", "clean_broken", "clean_broken_remote", "clean_broken_local", "delete"};
            && (scope.NoLock? <==> !ofBackup && !ofAll)
            && (scope.Backup? <==> ofBackup && Named(backupName))
            && (scope.Backup? ==> scope.name == backupName.value)
            && (scope.Global? <==> ofAll || (ofBackup && !Named(backupName)))
    ensures (backupName.Some? ==> '/' !in backupName.value) ==> scope.NoLock? || Lockable(scope)
  {
    match command
    case "create" | "upload" | "download" | "restore" | "create_remote" | "restore_remote" | "release-deferred" =>
      if backupName.Some? && backupName.value != "" then Backup(backupName.value) else Global
    case "clean" | "clean_broken" | "clean_broken_remote" | "clean_broken_local" | "delete" => Global
    case _ => NoLock
  }

  // The scan recognises exactly the lock files of the per-backup tier.
  lemma ScanRecognisesBackupLocks(fileName: string, name: string)
    ensures BackupNameFromLockFile(fileName) == Some(name)
       <==> name != "" && name != GLOBAL_STEM && fileName == ScopePath(name)
  {
    if BackupNameFromLockFile(fileName) == Some(name) {
      var rest := fileName[|LOCK_PREFIX|..];
      assert rest == rest[..|rest| - |LOCK_SUFFIX|] + LOCK_SUFFIX;
      assert fileName == LOCK_PREFIX + rest;
    } else if fileName == ScopePath(name) {
      assert fileName[|LOCK_PREFIX|..] == name + LOCK_SUFFIX;
      assert (name + LOCK_SUFFIX)[..|name|] == name;
      assert (name + LOCK_SUFFIX)[|name|..] == LOCK_SUFFIX;
    }
  }

  // Two stems share a lock file only when they are the same stem.
  lemma ScopePathInjective(x: string, y: string)
    requires ScopePath(x) == ScopePath(y)
    ensures x == y
  {
    assert ScopePath(x)[|LOCK_PREFIX|..][..|x|] == x;
    assert ScopePath(y)[|LOCK_PREFIX|..][..|y|] == y;
  }

  // Two scopes share a lock file exactly if they are the same, or one is global and the other a backup named "global".
  lemma ScopesShareFileIff(x: LockScope, y: LockScope)
    requires !x.NoLock? && !y.NoLock?
    ensures LockPathForScope(x) == LockPathForScope(y) <==> x == y || {x, y} == {Global, Backup(GLOBAL_STEM)}
  {
    if LockPathForScope(x) == LockPathForScope(y) {
      ScopePathInjective(Stem(x), Stem(y));
    }
    if {x, y} == {Global, Backup(GLOBAL_STEM)} {
      assert Global in {x, y} && Backup(GLOBAL_STEM) in {x, y};
    }
  }

  // Neither the gate nor a staged file can be mistaken for a scope lock.
  lemma GateAndStagedFilesAreNotScopeLocks(fileName: string, unique: string, stem: string)
    ensures BackupNameFromLockFile(GATE_LOCK_FILE) == None
    ensures BackupNameFromLockFile(TempLockName(fileName, unique)) == None
    ensures GATE_LOCK_FILE != ScopePath(stem)
    ensures TempLockName(fileName, unique) != ScopePath(stem) && TempLockName(fileName, unique) != GATE_LOCK_FILE
  {
    var temp := TempLockName(fileName, unique);
    assert temp[0] == '.' && LOCK_PREFIX[0] == 'c' && GATE_LOCK_FILE[0] == 'c';
    assert ScopePath(stem)[0] == 'c';
    assert GATE_LOCK_FILE[|GATE_LOCK_FILE| - 1] == 'k';
    assert ScopePath(stem)[|ScopePath(stem)| - 1] == 'd';
    var rest := GATE_LOCK_FILE[|LOCK_PREFIX|..];
    assert rest[|rest| - 1] == 'k' && LOCK_SUFFIX[|LOCK_SUFFIX| - 1] == 'd';
  }
}
