# chbackup: verified models of its protocols and formats

chbackup copies ClickHouse data to S3 and back. This project models the parts of it whose correctness spans
several functions, processes or runs, and proves what they promise. `dafny verify dfyconfig.toml` checks all of it.

**Locks** (`LockNames`, `LockProtocol`, `LockRuns`, `LockLimits`, `PidLock`). Processes share a directory of PID lock files: one
global lock, one lock per backup, and a short-lived gate around "scan the other tier, then create". `LockProtocol` is a
transition system in which every system call of every agent is a step of its own; processes may start, die and reuse
PIDs at any point. Mutual exclusion is proved for all runs, with the takeover of an abandoned gate as the one delicate
step: exclusion holds as long as a takeover removes the file it judged; it therefore holds with an indivisible takeover
and crashes anywhere, and with separate calls as long as nobody dies inside the gate or under the eyes of a waiter. A
concrete run shows that the separate calls alone do not suffice, and `LockLimits` says exactly which takeovers lead to a
breach. `PidLock` is the same code as one process runs it,
with its retry loops, their time bounds and their outcome.

**Remote retention** (`Manifests`, `RetentionPlan`, `Bucket`, `RetentionRuns`, `RetentionLimits`). A bucket whose calls
may fail, or delete only some of what they were asked to, is worked on by retention passes, cleanups of broken backups
and arriving uploads, in any order and any number. The newest `keep` valid backups keep every object their manifests
name. Manifests of an incremental chain of any length protect the restore on their own.

**Deferred freezes** (`DeferredRecord`, `FreezeStore`, `DeferredProtocol`, `DeferredRuns`, `DeferredLimits`). A persisted
record says which
tables are still frozen for a backup, who owns it and when it expires. `FreezeStore` is the sequential code over local
backup directories; `DeferredProtocol` interleaves create, upload, reaper and operator step by step, with
every FREEZE, UNFREEZE and write a step of its own that may fail, and crashes and cancellations in between. Every frozen
table is in the record, in the hands of a create, or was let go by a create before its record was written, and it is
proved exactly which steps leave a table frozen without a record; no reaper releases a freeze that a running process has
claimed. `DeferredLimits` says exactly when late writers break either, with runs that do.

**Object-disk metadata** (`Text`, `ObjectDisk`, `ObjectKeys`, `Macros`). Parser, printer and rewriting of the five-version
metadata format on the level of characters; the keys from the source disk through the manifest to the restored file;
macro substitution in disk paths.

**Smaller cores.** `RateLimiter` (token bucket, in reals), `Utf8` and `ParamsHash` (FNV-1a over separated parameters),
`PathEncoding` (percent-encoding and staging paths), `CollectFolds` (claims settled by priority, then by order).

Imperative code is modelled imperatively: `PidLock.LockDirectory`, `Bucket.Bucket`, `FreezeStore.FreezeStore` and
`RateLimiter.RateLimiter` are classes, and the loops of the parser, printers, hash, encoder and folds are methods proved
against functions. The outside world (system calls, S3, ClickHouse, clocks) appears as nondeterminism or as parameters.

## Assumptions

- Lock names: backup names are non-empty and contain no `/`. Every scope acquisition goes through `acquire_scoped`. A
  directory scan reports every entry that is there from before it starts until after it ends; a lock file that names a
  live holder can be read and parsed.
- In the transition system the retry counters are free choices: an agent may retry or give up at any retry point, so
  its runs include those of every bound. The bounds themselves are proved in `PidLock`.
- Retention: the listing calls exactly the backups without a readable manifest broken. `list_remote` marks any failed
  fetch as broken (src/list.rs:476-484); `RetentionLimits.MisreadBackupLosesDataIff` says exactly what that costs.
  Manifests name only keys an upload chooses, under `data/` or `objects/` of some backup; backup names are distinct,
  valid backups have distinct timestamps, and passes do not overlap an upload of the same backup.
- Deferred freezes: start tokens of processes are readable in the concurrent model; the per-backup lock excludes as
  proved in `LockRuns`; a record file is replaced atomically; `unfreeze_all_checked` returns exactly the entries still
  frozen. Any operation may be cancelled at any point; an upload's task may also go on, without its lock. A
  create that fails after its record was written releases the freeze as an operator would. The results on frozen tables concern runs in which no record is published while another agent still holds a
  view of an earlier one that lacks its tables; `DeferredLimits.PublicationIsSafeIff` shows that this is needed.
- Rate limiter: admissions happen in lock order, and a sleep lasts at least as long as asked for.

## Where the code and its comments differ

- src/list.rs:1395-1396 says that a crash never leaves a manifest pointing at keys that are already gone. Deleting data
  first and the manifest second does leave one when the second call fails or never happens.
  `RetentionLimits.PassLeavesDanglingManifestIff` says which backups that can happen to, skipped ones included;
  `RetentionLimits.PassCanLeaveADanglingManifest` is an instance.
- src/backup/deferred.rs:25-27 says that a crash around publication leaves a record without a freeze, not a freeze
  without a record. Tables are frozen before the record is written, so the latter happens in three ways: the create dies,
  it is cancelled while its process lives on (src/server/state.rs:439-445 drops the future, its freeze guard and its lock),
  or the UNFREEZE after a failed record write fails. `DeferredRuns.TableIsUntrackedIff` and `DeferredRuns.FirstLeakIff` give
  the exact condition; `DeferredLimits.CrashBeforeRecordLeaksAFreeze` and `DeferredLimits.CancelBeforeRecordLeaksAFreeze`
  are instances.
- src/backup/deferred.rs:279-280 asks callers of `load` to hold the per-backup lock. Both calls of an upload
  (src/upload/mod.rs:211 and :340) run in a detached task, which a cancellation leaves without it;
  `DeferredLimits.LocklessAdoptionIsSafeIff` says exactly when that is harmless, and
  `DeferredLimits.LocklessAdoptionIsReapedUnder` is a run in which it is not.
- src/lock.rs:346-348 calls "scan, then create" atomic under the gate. The takeover of a stale gate (src/lock.rs:104-108)
  reads, judges and unlinks in separate calls, so two processes can end up inside it:
  `LockRuns.SeparateTakeoverBreaksExclusion` is a run that breaks exclusion, and `LockLimits.TakeoverIsSafeIff` the exact
  condition on the first takeover that can.

## Model

| member | source | states |
|---|---|---|
| LockNames.LockForCommand | src/lock.rs:286-301 | exactly the backup commands with a non-empty name lock that backup; without one they, like the destructive commands, lock globally; all others lock nothing |
| LockNames.ScanRecognisesBackupLocks | src/lock.rs:437-442 | the scan recognises exactly the lock files of the per-backup tier, and reads the right name out of them |
| LockNames.ScopesShareFileIff | src/lock.rs:332-339 | two scopes share a lock file exactly if they are equal, or one is global and the other a backup named "global" |
| LockNames.GateAndStagedFilesAreNotScopeLocks | src/lock.rs:195-214 | neither the gate nor a staged temporary file is ever taken for a scope lock |
| LockProtocol.JudgedDeadIsAbandoned | src/lock.rs:156-168 | a lock file judged stale was written by a process incarnation that is gone for good |
| LockProtocol.LivenessIsIdentity | src/lock.rs:156-168 | with a readable start token a lock file is held exactly by the incarnation it records, and not by a later process with the same PID; without one, by any process with that PID |
| LockProtocol.SnapshotCoversHolders | src/lock.rs:400-433 | a scan that starts now covers the lock of every conflicting holder |
| LockProtocol.OthersFilesAreSafe | src/lock.rs:180-193 | no step of one agent removes or overwrites the lock file another agent relies on |
| LockProtocol.ActorKeepsSight | src/lock.rs:408-420 | a scanning agent never loses sight of a conflicting holder, whatever is created or removed meanwhile |
| LockProtocol.ActorKeepsPairs | src/lock.rs:354-366 | a step keeps its agent and every other one apart: never two in the gate, two holders of a scope, or holders of conflicting tiers |
| LockProtocol.StepPreservesInv | src/lock.rs:354-433 | every step of every agent, process start, PID reuse and death keeps the protocol invariant |
| LockProtocol.InvGivesMutualExclusion | src/lock.rs:256-265 | the invariant excludes two holders of one scope and a global holder beside a backup holder, including a backup named "global" |
| LockRuns.ExclusionWhileTakeoversHit | src/lock.rs:354-433 | mutual exclusion in every state of every run in which a gate takeover removes the file it judged |
| LockRuns.ExclusionWithAtomicTakeover | src/lock.rs:104-108 | with an indivisible takeover of the gate, exclusion in every run, crashes anywhere, any leftover files |
| LockRuns.ExclusionWhileGateOwnersLive | src/lock.rs:354-397 | with separate calls, exclusion in every run in which nobody dies inside the gate or while a waiter judges its gate file |
| LockRuns.GateStaysFresh | src/lock.rs:373-397 | under that proviso the gate always belongs to a running process and is never taken over |
| LockRuns.WriterStaysInside | src/lock.rs:354-366 | whatever takeovers remove, a gate file written by a running process always has an agent of that process inside the gate |
| LockRuns.TakeoverLetsSecondAgentIn | src/lock.rs:104-108 | in any run so far undisturbed, a takeover puts a second agent inside the gate exactly if the gate file it removes was written by a process that is still running |
| LockRuns.SeparateTakeoverBreaksExclusion | src/lock.rs:65-134 | a concrete run ends with a global and a backup holder at once |
| LockLimits.UnguardedGateBreaks | src/lock.rs:216-220 | from any state with a running agent inside the gate and no gate file, whoever else runs and whatever the directory holds, some continuation without any further misdirected takeover breaks mutual exclusion |
| LockLimits.TakeoverIsSafeIff | src/lock.rs:104-108 | in any run so far undisturbed, a gate takeover leads to a breach of mutual exclusion in some such continuation exactly if the gate file it removes was written by a process that is still running |
| LockLimits.CoexistIff | src/lock.rs:256-265 | some run reaches a state in which two scopes are held at once exactly if they are two different backups: backups never exclude each other, everything else does |
| PidLock.GateSleepInClosedForm | src/lock.rs:320-322 | the backoff doubles to its cap; giving up on the gate takes 39 sleeps adding up to 3555 ms |
| PidLock.LockDirectory.Acquire | src/lock.rs:65-134 | at most 75 ms of re-reads; undisturbed, it is granted exactly if no live process holds the file, and a stale or corrupt file is always replaced |
| PidLock.GateComesAndGoes | src/lock.rs:216-220 | with the gate taken and dropped again, nothing but the scope's own lock file has changed |
| PidLock.LockDirectory.AcquireGate | src/lock.rs:373-397 | at most 40 attempts and 39 sleeps; giving up takes all of them; undisturbed it is granted exactly if no live process holds the gate |
| PidLock.LockDirectory.CheckCrossTierExclusion | src/lock.rs:400-433 | undisturbed, a backup is refused exactly if a live process holds the global lock, and the global lock exactly if one holds any backup's |
| PidLock.LockDirectory.AcquireScoped | src/lock.rs:354-366 | bounded sleeping; undisturbed, a backup is granted exactly if no live process holds the gate, the global lock or its own, whatever other backups hold, and the global lock exactly if none holds the gate, it or any backup's; leaves the gate gone and at most its own lock changed |
| PidLock.FreeIff | src/lock.rs:354-433 | the same of any directory: exactly who stands in the way of an acquisition |
| PidLock.GateDoesNotMatterToTheScan | src/lock.rs:309-314 | holding the gate does not change what the cross-tier scan finds |
| Manifests.CollectKeyPrefixes | src/list.rs:1175-1196 | the nested loops gather exactly the keys some part or object of the manifest names |
| Manifests.CollectedIffNamed | src/list.rs:1158-1174 | a key is collected if and only if some part, on some disk of some table, names it |
| Manifests.ProtectedIff | src/list.rs:1210-1215 | a key is protected exactly if it is an entry or lies anywhere below an entry that ends in a slash |
| Manifests.SiblingPartIsNotProtected | src/list.rs:1207-1209 | the directory of one part protects nothing of a sibling, even if one name starts the other |
| Manifests.NeedsIff | src/list.rs:1158-1215 | the collected keys protect exactly the objects some part names, or that lie below a directory some part names |
| Manifests.ProtectionIsMonotone | src/list.rs:1210-1215 | protecting more keys never unprotects one |
| Manifests.BasesIff | src/list.rs:1264-1278 | a backup counts as an incremental base exactly if the source of some part is "carried:" and its name |
| Manifests.FindPart | src/backup/diff.rs:30-41 | the base part found has the name asked for, and none is found only if the base has no such part |
| Manifests.CarriedIff | src/backup/diff.rs:30-75 | a part is carried, with the base's keys and name, exactly if the last base part of its name on the same disk of the same table has the same checksum; every other part stays unchanged |
| Manifests.IncrementFollowsBase | src/backup/diff.rs:48-75 | every part of an incremental backup is its own upload or names the physical keys of the base part of the same name and checksum |
| Manifests.PartsNamePhysicalKeys | src/list.rs:1167-1174 | through chains of any length a part names the keys its data was first uploaded to, as a part of the same name and checksum |
| Manifests.ManifestAloneProtectsRestore | src/list.rs:1158-1215 | the keys a manifest collects are exactly those a restore of it reads, data of the same checksum, so survivors protect themselves without the backups in between |
| RetentionPlan.PlanCutsByAge | src/list.rs:1235-1254 | the plan cuts the valid backups in two by age, those without a timestamp first, and keeps as many as asked for |
| RetentionPlan.PlanKeepsNewest | src/list.rs:1235-1254 | a valid backup survives exactly if fewer than `keep` valid ones are newer, and is planned for deletion otherwise |
| RetentionPlan.SurvivorsOutrankTheRest | src/list.rs:1235-1254 | whoever is planned for deletion is older than `keep` survivors |
| Bucket.PrefixesAreDisjoint | src/list.rs:1355-1355 | a key lies under one backup's prefix only |
| Bucket.UploadKeysSpareManifests | src/list.rs:1367-1379 | no key an upload records can be, or protect, a manifest key |
| Bucket.PlanCleanBroken | src/list.rs:779-824 | deletes exactly the unreferenced keys, and only if the backup is unlocked, its newest stamp known and at least the minimum age in the past, and some key unreferenced |
| Bucket.Bucket.CollectProtected | src/list.rs:1328-1341 | gathers all keys and bases of the named manifests, or gives up if one cannot be read |
| Bucket.Bucket.SplitKeys | src/list.rs:1367-1379 | splits the listed keys into deletable data and a count of referenced ones, leaving the manifest out |
| Bucket.Bucket.DeleteCandidate | src/list.rs:1391-1400 | data request first, manifest request only after it succeeded; whatever fails, nothing else goes |
| Bucket.Bucket.JudgeCandidate | src/list.rs:1346-1389 | a candidate is kept exactly if a survivor needs it; otherwise all its data keys are up for deletion |
| Bucket.Bucket.RetentionPass | src/list.rs:1314-1407 | an unreadable survivor means no delete at all; otherwise every request stays under its candidate, takes no object a survivor needs, down to the files below a directory it names, and puts manifests last, whichever calls fail; a candidate some survivor says it was carried from is skipped and loses nothing; without failures the pass is thorough |
| Bucket.OnlyCandidatesLoseKeys | src/list.rs:1381-1389 | every skipped candidate, and every backup that is no candidate, keeps everything under its prefix, manifest included |
| Bucket.PassSparesNeeded | src/list.rs:1367-1379 | whatever fails, a pass takes no object a survivor's part names or that lies below a directory one names, unless it is a candidate's manifest |
| Bucket.PassSparesSources | src/list.rs:1347-1354 | a backup named after "carried:" in the source of any survivor's part keeps everything under its prefix |
| Bucket.CandidateDeleted | src/list.rs:1391-1400 | a deletion that stops anywhere keeps the pass within its guarantees |
| Bucket.PassCanTakeIff | src/list.rs:1343-1407 | some pass takes a key exactly if all survivors can be read and the key lies under a candidate that no survivor needs |
| Bucket.Bucket.NewestLastModified | src/list.rs:925-929 | the largest timestamp, unknown as soon as one object has none |
| Bucket.AgeIsJudgedByTheNewest | src/list.rs:802-814 | a prefix is old enough exactly if every object under it is |
| Bucket.Bucket.CleanBrokenRemote | src/list.rs:881-962 | deletes only under unlocked, old enough broken prefixes and never an object a valid backup needs, down to the files below a directory it names; nothing if a valid manifest is unreadable, and all of the rest without failures |
| RetentionRuns.PlanMatchesStore | src/list.rs:1424-1440 | with an accurate listing the plan keeps exactly the newest `keep` valid backups of the bucket |
| RetentionRuns.RequestsSpareSurvivors | src/list.rs:1210-1215 | no request of a pass names a survivor's manifest, an object its parts name, or any object below a directory they name |
| RetentionRuns.RecentSurvivesPass | src/list.rs:1314-1407 | a recent backup stays valid and intact, and loses no object its parts need, through a pass with any failures |
| RetentionRuns.PlannedNeverReturns | src/list.rs:1235-1254 | a backup once planned for deletion is never among the recent ones again |
| RetentionRuns.CleanupSparesValidBackups | src/list.rs:881-962 | a cleanup takes no object that any valid backup's parts name, or that lies below a directory they name |
| RetentionRuns.PassPreservesInv | src/list.rs:1314-1407 | a pass, complete or given up, keeps every recent backup intact |
| RetentionRuns.ArrivalPreservesInv | src/list.rs:1083-1107 | a newer upload keeps every recent backup intact |
| RetentionRuns.RecentBackupsStayIntact | src/list.rs:1289-1313 | over unbounded runs of passes, cleanups and arrivals, the newest `keep` valid backups have every object they need |
| RetentionRuns.EveryObjectStays | src/list.rs:1289-1313 | object by object: whatever lay at a key some part names, or anywhere below a directory it names, when the backup arrived is there in every later state in which the backup is one of the newest `keep` |
| RetentionLimits.PassCanDangleIff | src/list.rs:1391-1400 | whatever the plan, a pass can leave a valid backup's manifest naming missing objects exactly if something it needs lies under a candidate that no survivor needs |
| RetentionLimits.PassLeavesDanglingManifestIff | src/list.rs:1391-1400 | with an accurate listing that happens to no recent backup, and to any other exactly under that condition |
| RetentionLimits.MisreadBackupStaysValid | src/list.rs:476-484 | a valid backup listed as broken keeps its manifest |
| RetentionLimits.MisreadBackupLosesDataIff | src/list.rs:476-484 | it can lose data exactly if something it needs lies under a candidate that no survivor of the wrong plan needs |
| DeferredRecord.DemotedRecordsAreBoundByTtl | src/backup/deferred.rs:231-234 | a demoted record is owned by nobody and can be reaped exactly once creation time plus time to live has passed |
| DeferredRecord.ClaimedRecordsAreProtected | src/backup/deferred.rs:217-220 | a record adopted by a running process is protected, expired or not |
| DeferredRecord.ReapableIff | src/backup/deferred.rs:555-654 | a record is reapable exactly if the recorded incarnation is gone, the lock is free and more than the time to live has passed since its creation; it is unprotected only if it is not there |
| FreezeStore.FreezeStore.Load | src/backup/deferred.rs:281-332 | what each outcome means for the record on disk: adopted with its deadline and tables, or untouched |
| FreezeStore.FreezeStore.DemoteOnOperationEnd | src/backup/deferred.rs:436-489 | ownership is given up, the freeze and its deadline stay |
| FreezeStore.FreezeStore.UnfreezeAllChecked | src/backup/freeze.rs:282-317 | reports what stays frozen and touches nothing it was not given |
| FreezeStore.FreezeStore.RetainFailed | src/backup/deferred.rs:511-533 | the rewritten record names what is still frozen, unowned, under the original deadline |
| FreezeStore.FreezeStore.Release | src/backup/deferred.rs:796-810 | releases what the record names and nothing else; the record then is gone, or names all that is still frozen under the original deadline |
| FreezeStore.FreezeStore.ReleaseNow | src/backup/deferred.rs:360-419 | success means nothing is frozen and the record is gone; an unreadable record is refused and kept |
| FreezeStore.FreezeStore.ReapOne | src/backup/deferred.rs:740-811 | releases exactly the records whose creation time plus time to live has passed, whose owner is gone and whose lock the caller holds or can take |
| FreezeStore.FreezeStore.ReapExpired | src/backup/deferred.rs:718-826 | over all backups: up to creation time plus time to live every record stays untouched; past it, with its owner gone and its lock at hand, every one is released when nothing fails; a holder of the global lock releases nothing |
| FreezeStore.FreezeStore.BlocksDestructiveOp | src/backup/deferred.rs:661-686 | blocks exactly while there is a record, readable or not |
| FreezeStore.FreezeStore.DeleteLocal | src/list.rs:524-557 | removes a backup directory only if it holds no record |
| FreezeStore.FreezeStore.CleanBrokenLocal | src/list.rs:699-753 | removes broken directories only after their freezes were released, never one with an unreadable record, and no other backup is touched |
| FreezeStore.OverdueIsReleasable | src/backup/deferred.rs:718-811 | a demoted record is released by the next pass exactly if creation time plus time to live has passed and the caller holds or can take the lock |
| FreezeStore.RemovalNeverStrandsAFreeze | src/list.rs:699-753 | over any sequence of local deletions and cleanups, a directory is gone only if all its freezes were released |
| DeferredProtocol.OwnerStaysGone | src/backup/deferred.rs:151-172 | a new process, even one reusing a PID, never looks like the owner of an old record |
| DeferredProtocol.RecordStaysComplete | src/backup/deferred.rs:242-258 | after any FREEZE, write, delete or UNFREEZE, failed or not, every frozen table is in the record, in a create's hands, or was let go by a create before its record was written |
| DeferredProtocol.OwnershipNeedsTheLock | src/backup/deferred.rs:277-332 | only a holder of the backup's lock makes a running process the owner |
| DeferredProtocol.StepKeepsCoveredIff | src/backup/deferred.rs:242-419 | every step and every crash keeps all frozen tables accounted for, except exactly a publication while another running agent still holds a view of an earlier record that lacks one of the tables |
| DeferredProtocol.StepKeepsLockInv | src/backup/deferred.rs:718-811 | while a reaper or a create works under the lock, no running process comes to own the record |
| DeferredRuns.FrozenIsAccountedFor | src/backup/deferred.rs:23-29 | in every state of every run whose publications were unseen by late writers, a frozen table is named by the record, in the hands of a running create, or some earlier step was a create's death, cancellation or failed UNFREEZE that let go of it |
| DeferredRuns.RecordOutlivesFreeze | src/backup/mod.rs:1139-1179 | the write-ahead order: a table that no create has let go of is frozen outside a create's hands only while the record names it |
| DeferredRuns.TableIsUntrackedIff | src/backup/mod.rs:1139-1179 | up to the first time a create lets go of a table, a step leaves it frozen without record or create exactly if it is a failed UNFREEZE of it after a failed record write, or the death or cancellation of the create that has it in hand, while it is frozen and the record on disk does not name it |
| DeferredRuns.FirstLeakIff | src/server/state.rs:439-445 | for all tables at once: up to the first create that stops early nothing frozen is untracked, and the next step leaves something untracked exactly if it is one of those three and leaves some table behind |
| DeferredRuns.ReapersOnlyTouchUnowned | src/backup/deferred.rs:782-811 | at every UNFREEZE of a reaper the lock is held and no running process owns the record |
| DeferredRuns.AdoptionClaims | src/backup/deferred.rs:313-332 | the adopting write makes its process the owner and changes nothing else |
| DeferredRuns.ClaimSurvivesStep | src/backup/deferred.rs:603-654 | time, other adoptions and reapers never end a running process's claim |
| DeferredRuns.ClaimStands | src/backup/deferred.rs:555-654 | a claim stands past the deadline and without the lock until the record is demoted, rewritten or deleted, and until then no reaper of any process unfreezes anything |
| DeferredRuns.FreezeHoldsUntilNextPublication | src/backup/deferred.rs:209-216 | provided that no running agent is about to write the record of another freeze when one is published: until the next publication the record has the backup, creation time and time to live published and names only tables published, or is gone, and so will whatever a running agent is about to write |
| DeferredRuns.ReapingWaitsForDeadline | src/backup/deferred.rs:740-781 | under the same proviso, no reaping check starts a release before the published time to live has passed since the publication |
| DeferredRuns.ReapersWaitForDeadline | src/backup/deferred.rs:782-811 | nor does any reaper, whenever it started, unfreeze a table before then |
| DeferredRuns.OnlyTheseUnfreeze | src/upload/mod.rs:303-338 | every UNFREEZE of a recorded freeze is by an agent that set out to release it and has been at it since: a reaper, an explicit release, or an upload whose copy succeeded, which releases only what its own process owned or adopted; a failed or cancelled upload never does |
| DeferredLimits.PublicationIsSafeIff | src/backup/deferred.rs:436-489 | after a publication some frozen table can become untracked without any further publication exactly if another running agent held a view of an earlier record that lacks a table just frozen |
| DeferredLimits.FreezeHoldsIff | src/backup/deferred.rs:436-533 | that proviso is exact: without any further publication the record can come to be of another freeze exactly if some running agent was about to write one |
| DeferredLimits.LateDemotionForgetsAFreeze | src/upload/mod.rs:315-338 | a concrete run: a cancelled upload's late demotion overwrites the record of a newer create |
| DeferredLimits.CrashBeforeRecordLeaksAFreeze | src/backup/mod.rs:1125-1148 | a concrete run: a create that dies between FREEZE and its record leaves a table frozen and unrecorded |
| DeferredLimits.CancelBeforeRecordLeaksAFreeze | src/server/state.rs:439-445 | a concrete run: a create that is cancelled there does the same although every process lives on |
| DeferredLimits.LocklessAdoptionIsSafeIff | src/upload/mod.rs:200-366 | adopting without the lock lets a reaper unfreeze what a running process owns, now or later, exactly if a reaper with tables left is at work at that moment |
| DeferredLimits.LocklessAdoptionIsReapedUnder | src/upload/mod.rs:200-211 | a concrete run: an upload that loses its lock before its first `load` adopts the record without it, and a reaper unfreezes under the running owner while it copies |
| Text.TrimBares | src/object_disk.rs:81-83 | trimming yields a piece of the text with bare ends and leaves bare text alone |
| Text.TrimsToIff | src/object_disk.rs:81-83 | a text trims to a bare core exactly if it is the core with only trimmed characters around it |
| Text.LinesOfUnlines | src/object_disk.rs:75-75 | reading back written lines loses nothing but a carriage return at the end of each |
| Text.LinesOfUnfinished | src/object_disk.rs:75-75 | a last line without its newline is a line all the same, with all its characters |
| Text.SplitPair | src/object_disk.rs:97-97 | two fields without the separator are split as they were joined |
| Text.DecimalReadsBack | src/object_disk.rs:101-108 | a printed number within range parses as itself |
| Text.ParsesAsIff | src/object_disk.rs:101-108 | a text parses as `n` exactly if it is an optional plus sign, any number of zeros and the digits of `n`, and `n` is in range |
| ObjectDisk.ParseMetadata | src/object_disk.rs:74-176 | the parser, as the loop it is, computes `Parse` with the same error for every malformed text |
| ObjectDisk.SerializeMetadata | src/object_disk.rs:310-348 | the printer, as the appends it is, writes the lines of the format for each version |
| ObjectDisk.ParsedIsWellFormed | src/object_disk.rs:74-176 | whatever the text, a parsed file is within the numeric ranges, has trimmed keys and only the parts its version allows |
| ObjectDisk.ObjectLineReads | src/object_disk.rs:122-135 | an object line is a size and a key, each trimmed; what follows a second tab is not looked at |
| ObjectDisk.ParsedTrailer | src/object_disk.rs:137-165 | a missing reference count is zero; read-only is a `1` alone, from version 3; inline data is any non-empty line, from version 4 |
| ObjectDisk.PrintedParses | src/object_disk.rs:310-348 | a printed file parses as itself up to one carriage return at the end of its inline data |
| ObjectDisk.PrintedParsesBackIff | src/object_disk.rs:74-348 | parsing undoes printing on exactly the well-formed files whose inline data does not end in a carriage return |
| ObjectDisk.ReparseIff | src/object_disk.rs:74-348 | parse, print, parse gives the first parse for every accepted text, missing last lines included, unless the inline data ends in a carriage return |
| ObjectDisk.ReparseWithoutCarriageReturns | src/object_disk.rs:74-348 | without carriage returns there is no exception |
| ObjectDisk.CutFileParses | src/object_disk.rs:74-176 | a printed file cut short anywhere after its objects parses as far as it goes, with no references, writable and without inline data beyond that; with fewer than three lines it is too short |
| ObjectKeys.SourceKeyIsReadKeyIff | src/object_disk.rs:189-213 | the upload copies from the key ClickHouse reads exactly if version 5 keys lie under the disk prefix and relative keys do not start with it |
| ObjectKeys.PrefixComesOff | src/object_disk.rs:180-213 | a prefix, however many slashes surround it, is put before a key with one slash and taken off again; keys not under it stay as they are |
| ObjectKeys.DestinationsAreDistinct | src/object_disk.rs:232-249 | distinct sources get distinct destinations |
| ObjectKeys.DestinationIsUnderTable | src/object_disk.rs:232-249 | every object is copied below its table's UUID prefix on the destination disk, under its relative key |
| ObjectKeys.TablesShareIff | src/object_disk.rs:232-249 | some objects of two tables share a destination exactly if one table's UUID prefix lies within the other's |
| ObjectKeys.ResolvesToRelativeKey | src/restore/attach.rs:650-688 | a version 5 key is resolved exactly if its own manifest entry is the only one that fits, and then to the disk-relative key although the source prefix is unknown |
| ObjectKeys.EndsWithKeyIff | src/restore/attach.rs:650-661 | a stored key fits a manifest key exactly if it is equal or ends with a slash and that key |
| ObjectKeys.ResolvesIff | src/restore/attach.rs:650-688 | a key is resolved exactly if one entry alone fits it, or one alone fits it together with the size |
| ObjectKeys.RestateKeys | src/restore/attach.rs:642-691 | the key-by-key loop resolves all keys or stops at the first that cannot be resolved |
| ObjectKeys.RewriteMetadata | src/object_disk.rs:257-305 | the rewriting appends produce the printed form of the rewritten file |
| ObjectKeys.RestoredFileDescribesCopies | src/object_disk.rs:251-305 | the rewritten file parses, keeps version, sizes, total and inline data, has no references and is writable, and ClickHouse reads each object from the key it was copied to |
| ObjectKeys.RestoredTextDescribesCopies | src/restore/attach.rs:568-587 | the same from text to text, for every metadata file that parses and resolves |
| ObjectKeys.RestoredKeyIsCopyIff | src/object_disk.rs:222-249 | for versions 2 to 4 the restored key names the copy exactly if the stored key does not start with the source prefix |
| Macros.ReplaceIsSubstitute | src/object_disk.rs:497-500 | one textual replacement is the substitution of one macro |
| Macros.ReplaceAllIsSubstitute | src/object_disk.rs:485-517 | replacing macro after macro is one simultaneous substitution on every path in which no pair of braces contains another |
| Macros.ResolveMacrosInPaths | src/object_disk.rs:485-517 | every path ends up with all replacements made, skipped ones included, whatever the macros; with brace-free macros and no nested pair that is full substitution |
| Macros.OrderShowsIff | src/object_disk.rs:497-500 | some brace-free macros give different results in different orders exactly if a matched pair of braces in the path contains another |
| RateLimiter.RateLimiter.constructor | src/rate_limiter.rs:37-52 | zero means unlimited; otherwise a full bucket |
| RateLimiter.RateLimiter.Consume | src/rate_limiter.rs:60-109 | refill, cap, deduct and sleep as one admission to the bucket |
| RateLimiter.TokensAreScaledFill | src/rate_limiter.rs:71-82 | the token count is the fill in seconds times the rate, after any admissions |
| RateLimiter.FillIsLeastAllowance | src/rate_limiter.rs:71-82 | the fill is the least allowance over all windows of admissions ending now |
| RateLimiter.ReturnIsEarliest | src/rate_limiter.rs:84-98 | a consumer goes on at the earliest time by which every window that ends with it fits the rate plus one second's burst |
| RateLimiter.ReturnIsEarliestOrCap | src/rate_limiter.rs:84-98 | in general, the earliest such time or 300 seconds after the lock, whichever comes first; capped exactly if 300 seconds are not enough |
| RateLimiter.WindowBound | src/rate_limiter.rs:60-109 | the bytes admitted from the i-th to the j-th consumer are at most rate * (1 + return_j - lock_i) |
| RateLimiter.ThroughputBound | src/rate_limiter.rs:60-109 | the bytes returned by time t are at most rate * (1 + t - start) |
| RateLimiter.WindowsFitIffNotCapped | src/rate_limiter.rs:87-98 | the bound holds for a consumer's windows exactly if its sleep was not capped at five minutes |
| Utf8.CharRoundTrip | src/resume.rs:180-180 | UTF-8 bytes determine the character and never contain 0xFF |
| Utf8.NeverSeparator | src/resume.rs:184-186 | the separator byte occurs in no parameter |
| Utf8.EncodeInjective | src/resume.rs:180-180 | different strings have different UTF-8 forms |
| ParamsHash.ComputeParamsHash | src/resume.rs:172-189 | the nested loops fold the separated byte stream into sixteen hexadecimal digits |
| ParamsHash.MixIsBijective | src/resume.rs:181-182 | each FNV-1a step is a bijection on 64-bit states |
| ParamsHash.StreamInjective | src/resume.rs:179-187 | different parameter lists feed different byte streams to the hash |
| ParamsHash.HexInjective | src/resume.rs:188-188 | different states print as different digits |
| ParamsHash.HashStandsForState | src/resume.rs:188-188 | the sixteen lower-case digits stand for the FNV-1a state of the stream |
| ParamsHash.MatchesPublishedVectors | src/resume.rs:172-182 | offset basis, prime and order of operations give the published FNV-1a values for the empty input and for the letter a |
| ParamsHash.OneByteChangesTheHash | src/resume.rs:172-189 | parameter lists whose streams have equal length and differ in one byte never share a hash |
| PathEncoding.EncodePathComponent | src/path_encoding.rs:36-49 | the character loop computes the encoding of the whole component |
| PathEncoding.EncodingIsIdentityIff | src/path_encoding.rs:36-49 | exactly the names of alphanumerics, hyphens, underscores and dots are left alone |
| PathEncoding.DecodeUndoesEncode | src/path_encoding.rs:36-49 | percent-decoding gives the UTF-8 form of the original, whatever counts as alphanumeric beyond ASCII |
| PathEncoding.EncodeComponentInjective | src/path_encoding.rs:36-49 | different names have different encodings |
| PathEncoding.EncodedIsOneComponent | src/path_encoding.rs:25-28 | an encoded name contains no slash and is empty only for the empty name |
| PathEncoding.StagingPathIsUniqueIff | src/backup/collect.rs:692-696 | a part with a slash-free name shares its staging path with another exactly if one of database and table name is empty and the other is not |
| CollectFolds.SettledStep | src/backup/collect.rs:190-236 | one more claim keeps every key with its winner |
| CollectFolds.InsertAllSettles | src/backup/collect.rs:186-236 | after any claims each key belongs to the first preferred claimant, or to the first claimant if none is preferred |
| CollectFolds.PreferredClaimWinsInAnyOrder | src/backup/collect.rs:138-142 | a single preferred claimant wins wherever it stands |
| CollectFolds.BuildUuidMap | src/backup/collect.rs:137-184 | exactly the directories in which some data path ends, and the UUIDs set in the catalogue, are mapped, each to the first table with data that uses it, or to the first of all if none has data |
| CollectFolds.LastComponentIff | src/backup/collect.rs:150-154 | the directory name of a data path is the last component before any trailing slashes |
| CollectFolds.StoresDataIff | src/backup/collect.rs:146-148 | a table has data of its own exactly if its engine ends in MergeTree or is one of the two materialized database engines |
| CollectFolds.DedupPaths | src/backup/collect.rs:290-324 | every distinct path is walked for the first disk that is no cache, or for the first of all if all are |
| CollectFolds.CollectParts | src/backup/collect.rs:564-578 | each table keeps exactly the first find of each part on each disk, in walk order |
| CollectFolds.KeptIff | src/backup/collect.rs:564-578 | a find is kept if and only if no earlier one has the same table, disk and part name |
| CollectFolds.KeptInOrder | src/backup/collect.rs:564-578 | what is kept comes in the order of the walk |
| CollectFolds.KeptHasNoDuplicates | src/backup/collect.rs:564-578 | no part is kept twice |

## Left out

- S3, ClickHouse, the asynchronous runtime and logging: only their outcomes appear, as nondeterministic results.
- I/O errors of the lock scan on single entries, which the code skips (src/lock.rs:409): a scan sees every readable entry.
- DeferredRuns.ClaimStands: assumes that adopting writes happen under the backup's lock; DeferredLimits covers the other case.
- DeferredProtocol.StepKeepsCoveredIff: two writers sharing one temporary file between write and rename are not modelled; a record write is one step.
- FreezeStore.FreezeStore.ReapExpired: a record filed under another backup's name is outside its guarantee; the reaper does not compare the two names.
- RetentionRuns.RecentBackupsStayIntact: is about the newest `keep` backups; RetentionLimits says what can happen to the others.
- RateLimiter.ThroughputBound: exact arithmetic over reals, not the rounding of 64-bit floats.
- ObjectDisk.ParseMetadata: preallocating for an absurd object count, which would abort before the truncation error.
- ObjectKeys.RestoredFileDescribesCopies: version 1 files, whose keys are absolute URLs, get no reading rule of their own in the restore.
- Manifests.IncrementFollowsBase: the diff is a function on manifests, not an update of one in place.
- ParamsHash.OneByteChangesTheHash: a 64-bit hash has collisions; streams that differ in several bytes are not covered.
- Cleanup of shadow directories by freeze prefix, listing formats, the manifest cache, configuration and command line.
- Path canonicalisation and validation of disk paths, JSON encoding of records and locks, glob and checksum matching.
- Choosing the disk prefix and endpoint of each disk (src/object_disk.rs:389-478) and polling of mutations and replicas.
