/** The record of a freeze held across create and upload: who owns it, and when it may be released. */
module DeferredRecord {
  import opened Options

  datatype FreezeInfo = FreezeInfo(database: string, table: string, freezeName: string)

  /** `ownerPid == 0` marks a demoted record; an absent token means the owner's identity is unknown. */
  datatype Record = Record(
    backup: string,
    retained: seq<FreezeInfo>,
    ownerPid: nat,
    ownerToken: Option<nat>,
    createdAt: nat,
    ttl: nat)

  /** The record file of a backup directory. */
  datatype Stored = Absent | Unreadable | Stored(record: Record)

  /** The calling process; its own start token may be unreadable. */
  datatype Caller = Caller(pid: nat, token: Option<nat>)

  /** Running PIDs with their start tokens, and whether other processes' tokens can be read. */
  datatype Processes = Processes(os: map<nat, nat>, readable: bool)

  predicate PidAlive(p: Processes, pid: nat) {
    pid != 0 && pid in p.os
  }

  function StartToken(p: Processes, pid: nat): Option<nat> {
    if p.readable && pid in p.os then Some(p.os[pid]) else None
  }

  predicate LivenessFrom(r: Record, pidAlive: bool, current: Option<nat>) {
    && pidAlive
    && r.ownerToken.Some?
    && (current.Some? ==> current == r.ownerToken)
  }

  predicate OwnerIsLive(r: Record, p: Processes) {
    LivenessFrom(r, PidAlive(p, r.ownerPid), StartToken(p, r.ownerPid))
  }

  predicate OwnedBy(r: Record, c: Caller) {
    r.ownerPid == c.pid && r.ownerToken.Some? && r.ownerToken == c.token
  }

  predicate IsExpired(r: Record, now: nat) {
    now > r.createdAt && now - r.createdAt > r.ttl
  }

  function Adopt(r: Record, c: Caller): Record {
    r.(ownerPid := c.pid, ownerToken := c.token)
  }

  function Demote(r: Record): Record {
    r.(ownerPid := 0, ownerToken := None)
  }

  function Entries(r: Record): set<FreezeInfo> {
    set e | e in r.retained
  }

  datatype Status = NotProtected | Protected | Reapable(record: Record)

  /** Protected by the lock, by a live owner or by an unexpired TTL; unreadable records fail closed. */
  function StatusOf(stored: Stored, p: Processes, now: nat, lockActive: bool): Status {
    match stored
    case Absent => NotProtected
    case Unreadable => Protected
    case Stored(r) =>
      if lockActive then Protected
      else if OwnerIsLive(r, p) then Protected
      else if !IsExpired(r, now) then Protected
      else Reapable(r)
  }

  /** A record may shrink, change owner or go away; its deadline is fixed and an unreadable one stays as it is. */
  predicate Evolves(x: Stored, y: Stored) {
    match x
    case Absent => y.Absent?
    case Unreadable => y.Unreadable?
    case Stored(r) => y.Absent? || (y.Stored? && SameFreeze(r, y.record))
  }

  /** Backup and deadline agree. */
  predicate SameHeading(r: Record, q: Record) {
    q.backup == r.backup && q.createdAt == r.createdAt && q.ttl == r.ttl
  }

  predicate SameFreeze(r: Record, q: Record) {
    SameHeading(r, q) && Entries(q) <= Entries(r)
  }

  /** The very process that was recorded is running, or, where tokens cannot be read, some process with its PID. */
  predicate OwnerRuns(r: Record, p: Processes) {
    && r.ownerPid != 0 && r.ownerPid in p.os
    && r.ownerToken.Some?
    && (p.readable ==> p.os[r.ownerPid] == r.ownerToken.value)
  }

  // An owner without a recorded token is never live; one with a token is live only as the incarnation recorded.
  lemma LiveIffRunning(r: Record, p: Processes)
    ensures OwnerIsLive(r, p) <==> OwnerRuns(r, p)
    ensures forall c: Caller :: OwnedBy(r, c) <==> c.token.Some? && r.ownerPid == c.pid && r.ownerToken == c.token
  {
  }

  // Unless the owner is live or the lock is taken, a record is protected up to its deadline and reapable from then on;
  // an unreadable one is always protected.
  lemma ReapableIff(stored: Stored, p: Processes, now: nat, lockActive: bool)
    ensures StatusOf(stored, p, now, lockActive).Reapable?
       <==> stored.Stored? && !lockActive && !OwnerRuns(stored.record, p)
            && stored.record.createdAt + stored.record.ttl < now
    ensures StatusOf(stored, p, now, lockActive).NotProtected? <==> stored.Absent?
    ensures StatusOf(stored, p, now, lockActive).Reapable? ==> StatusOf(stored, p, now, lockActive).record == stored.record
  {
    if stored.Stored? {
      LiveIffRunning(stored.record, p);
    }
  }

  // Whoever ends an operation gives up liveness: only the deadline protects a demoted record.
  lemma DemotedRecordsAreBoundByTtl(r: Record, p: Processes, c: Caller, now: nat)
    requires c.pid != 0
    ensures !OwnerIsLive(Demote(r), p) && !OwnedBy(Demote(r), c)
    ensures StatusOf(Stored(Demote(r)), p, now, false) == Reapable(Demote(r)) <==> r.createdAt + r.ttl < now
  {
  }

  // A claim by a running process with a known identity protects the record, expired or not.
  lemma ClaimedRecordsAreProtected(r: Record, p: Processes, c: Caller, now: nat, lockActive: bool)
    requires c.pid != 0 && c.token.Some? && c.pid in p.os && p.os[c.pid] == c.token.value
    ensures OwnerIsLive(Adopt(r, c), p) && OwnedBy(Adopt(r, c), c)
    ensures StatusOf(Stored(Adopt(r, c)), p, now, lockActive) == Protected
  {
  }
}
