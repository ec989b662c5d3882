/**
 One backup's deferred freeze as a transition system. Create, upload, reaper and operator run as agents of any
 number of processes; each FREEZE, record write and UNFREEZE is a step of its own that may fail, and between any two
 of them a process may die or an operation be cancelled. The exclusive lock on the backup is the one established in
 LockRuns; an upload that is cancelled goes on without it.
 */
module DeferredProtocol {
  import opened Options
  import opened DeferredRecord

  datatype Proc = Proc(pid: nat, token: nat)

  /** What an agent does once it owns, or has seen, the record. */
  datatype Goal = CopyObjects | ReleaseIt

  /** `Froze` and `Thawing` are a create before its record is written, and after that write failed. */
  datatype Pc =
    | Idle
    | Froze(tables: seq<FreezeInfo>)
    | Thawing(left: set<FreezeInfo>)
    | Loading(goal: Goal)
    | Adopting(seen: Record, goal: Goal)
    | Copying
    | Demoting(seen: Record)
    | Releasing(prior: Record, todo: set<FreezeInfo>, failed: set<FreezeInfo>, reaper: bool)

  datatype Agent = Agent(proc: Proc, pc: Pc)

  /**
   `stray` collects the tables let go by creates that died, were cancelled, or could not UNFREEZE, before their record
   was written.
   */
  datatype State = State(
    os: map<nat, nat>,
    used: set<Proc>,
    holder: Option<nat>,
    record: Stored,
    frozen: set<FreezeInfo>,
    stray: set<FreezeInfo>,
    now: nat,
    agents: map<nat, Agent>)

  datatype Step =
    | TakeLock(a: nat)
    | DropLock(a: nat)
    | Cancel(a: nat)
    | Freeze(a: nat, tables: seq<FreezeInfo>)
    | PublishRecord(a: nat, ttl: nat, backup: string, ok: bool)
    | Thaw(a: nat, entry: FreezeInfo, ok: bool)
    | BeginLoad(a: nat)
    | ReadRecord(a: nat)
    | Rewrite(a: nat, ok: bool)
    | FinishCopy(a: nat, succeeded: bool)
    | ReadToDemote(a: nat)
    | ReapCheck(a: nat)
    | ReleaseNow(a: nat)
    | UnfreezeOne(a: nat, entry: FreezeInfo, ok: bool)
    | FinishRelease(a: nat, kept: seq<FreezeInfo>, ok: bool)
    | Tick
    | StartProcess(proc: Proc)
    | Spawn(a: nat, proc: Proc)
    | Die(pid: nat)

  predicate Alive(s: State, p: Proc) {
    p.pid != 0 && p.pid in s.os && s.os[p.pid] == p.token
  }

  predicate Running(s: State, a: nat) {
    a in s.agents && Alive(s, s.agents[a].proc)
  }

  /** Start tokens of running processes are readable here. */
  function Procs(s: State): Processes {
    Processes(s.os, true)
  }

  function Identity(p: Proc): Caller {
    Caller(p.pid, Some(p.token))
  }

  predicate HoldsLock(s: State, a: nat) {
    s.holder == Some(a)
  }

  /** Some running process owns the record. */
  predicate OwnedByLive(s: State) {
    s.record.Stored? && OwnerIsLive(s.record.record, Procs(s))
  }

  /** The tables a create has frozen and not yet recorded or thawed. */
  function Held(pc: Pc): set<FreezeInfo> {
    match pc
    case Froze(tables) => set e | e in tables
    case Thawing(left) => left
    case _ => {}
  }

  /** What the running holder of the lock has in hand. */
  function InHands(s: State): set<FreezeInfo> {
    if s.holder.Some? && Running(s, s.holder.value) then Held(s.agents[s.holder.value].pc) else {}
  }

  predicate Enabled(s: State, step: Step) {
    match step
    case Tick => true
    case StartProcess(p) => p !in s.used && p.pid !in s.os && p.pid != 0
    case Spawn(a, p) => a !in s.agents && Alive(s, p) && s.holder != Some(a)
    case Die(pid) => pid in s.os
    case _ => Running(s, step.a) && AgentEnabled(s, step.a, s.agents[step.a].pc, step)
  }

  predicate AgentEnabled(s: State, a: nat, pc: Pc, step: Step) {
    match step
    case TakeLock(_) => pc.Idle? && (s.holder.None? || !Running(s, s.holder.value))
    // released at the end of an operation, or lost by a cancelled upload, whose task goes on from wherever it is
    case DropLock(_) => HoldsLock(s, a) && !(pc.Froze? || pc.Thawing? || (pc.Releasing? && pc.reaper))
    // a killed operation is dropped with its guards, while its process lives on
    case Cancel(_) => !pc.Idle?
    // a create starts in a directory of its own, and freezes table after table
    case Freeze(_, tables) => tables != [] && (pc.Froze? || (pc.Idle? && HoldsLock(s, a) && s.record.Absent?))
    case PublishRecord(_, _, _, _) => pc.Froze?
    case Thaw(_, e, _) => pc.Thawing? && e in pc.left
    case BeginLoad(_) => pc.Idle? && HoldsLock(s, a)
    case ReadRecord(_) => pc.Loading?
    case Rewrite(_, _) => pc.Demoting? || pc.Adopting?
    case FinishCopy(_, _) => pc.Copying?
    case ReadToDemote(_) => pc.Idle? && HoldsLock(s, a)
    case ReapCheck(_) => pc.Idle? && HoldsLock(s, a)
    case ReleaseNow(_) => pc.Idle? && HoldsLock(s, a)
    case UnfreezeOne(_, e, _) => pc.Releasing? && e in pc.todo
    case FinishRelease(_, kept, _) => pc.Releasing? && pc.todo == {} && (set e | e in kept) == pc.failed
    case _ => false
  }

  function SetPc(s: State, a: nat, pc: Pc): State
    requires a in s.agents
  {
    s.(agents := s.agents[a := s.agents[a].(pc := pc)])
  }

  function StartRelease(r: Record, reaper: bool): Pc {
    Releasing(r, Entries(r), {}, reaper)
  }

  function ToDemote(stored: Stored): Pc {
    if stored.Stored? && !(stored.record.ownerPid == 0 && stored.record.ownerToken.None?)
    then Demoting(stored.record) else Idle
  }

  function Proceed(r: Record, goal: Goal): Pc {
    if goal.CopyObjects? then Copying else StartRelease(r, false)
  }

  function Apply(s: State, step: Step): State
    requires Enabled(s, step)
  {
    if OfEnvironment(step) then EnvironmentApply(s, step)
    else if OfTheLock(step) then LockApply(s, step)
    else AgentApply(s, step)
  }

  predicate OfEnvironment(step: Step) {
    step.Tick? || step.StartProcess? || step.Spawn? || step.Die?
  }

  predicate OfTheLock(step: Step) {
    step.TakeLock? || step.DropLock? || step.Cancel?
  }

  function EnvironmentApply(s: State, step: Step): State
    requires Enabled(s, step) && OfEnvironment(step)
  {
    match step
    case Tick => s.(now := s.now + 1)
    case StartProcess(p) => s.(os := s.os[p.pid := p.token], used := s.used + {p})
    case Spawn(a, p) => s.(agents := s.agents[a := Agent(p, Idle)])
    case Die(pid) => LettingGoOfAll(s, s.(os := s.os - {pid}))
  }

  function LockApply(s: State, step: Step): State
    requires Enabled(s, step) && OfTheLock(step)
  {
    match step
    case TakeLock(a) => s.(holder := Some(a))
    case DropLock(a) => s.(holder := None)
    case Cancel(a) => LettingGoOfAll(s, SetPc(if HoldsLock(s, a) then s.(holder := None) else s, a, Idle))
  }

  /** `t`, its ledger extended by what was in hand in `s` and no longer is. */
  function LettingGoOfAll(s: State, t: State): State {
    t.(stray := s.stray + (InHands(s) - InHands(t)))
  }

  function AgentApply(s: State, step: Step): State
    requires Enabled(s, step) && !OfEnvironment(step) && !OfTheLock(step)
  {
    var a := step.a;
    var g := s.agents[a];
    match step
    case Freeze(_, tables) =>
      var more := set e | e in tables;
      SetPc(s.(frozen := s.frozen + more, stray := s.stray - more), a,
            Froze(if g.pc.Froze? then g.pc.tables + tables else tables))
    case PublishRecord(_, ttl, backup, ok) =>
      // only once the record is written is unfreezing skipped
      if ok then
        SetPc(s.(record := Stored(Record(backup, g.pc.tables, g.proc.pid, Some(g.proc.token), s.now, ttl))), a, Idle)
      else SetPc(s, a, Thawing(Held(g.pc)))
    case Thaw(_, e, ok) =>
      var left := g.pc.left - {e};
      SetPc(if ok then Unfrozen(s, e) else s.(stray := s.stray + {e}), a, if left == {} then Idle else Thawing(left))
    case BeginLoad(_) => SetPc(s, a, Loading(CopyObjects))
    case ReadRecord(_) =>
      if !s.record.Stored? then SetPc(s, a, if g.pc.goal.CopyObjects? then Copying else Idle)
      else if OwnedBy(s.record.record, Identity(g.proc)) then SetPc(s, a, Proceed(s.record.record, g.pc.goal))
      else if OwnerIsLive(s.record.record, Procs(s)) then SetPc(s, a, if g.pc.goal.CopyObjects? then Copying else Idle)
      else SetPc(s, a, Adopting(s.record.record, g.pc.goal))
    case Rewrite(_, ok) =>
      if g.pc.Demoting? then
        SetPc(if ok then s.(record := Stored(Demote(g.pc.seen))) else s, a, Idle)
      else
        var adopted := Adopt(g.pc.seen, Identity(g.proc));
        SetPc(if ok then s.(record := Stored(adopted)) else s, a, Proceed(adopted, g.pc.goal))
    case FinishCopy(_, succeeded) => SetPc(s, a, if succeeded then Loading(ReleaseIt) else ToDemote(s.record))
    case ReadToDemote(_) => SetPc(s, a, ToDemote(s.record))
    case ReapCheck(_) =>
      var status := StatusOf(s.record, Procs(s), s.now, false);
      SetPc(s, a, if status.Reapable? then StartRelease(status.record, true) else Idle)
    case ReleaseNow(_) => SetPc(s, a, if s.record.Stored? then StartRelease(s.record.record, false) else Idle)
    case UnfreezeOne(_, e, ok) =>
      var pc := g.pc.(todo := g.pc.todo - {e}, failed := if ok then g.pc.failed else g.pc.failed + {e});
      SetPc(if ok then Unfrozen(s, e) else s, a, pc)
    case FinishRelease(_, kept, ok) =>
      var next := if kept == [] then Absent else Stored(Demote(g.pc.prior.(retained := kept)));
      SetPc(if ok then s.(record := next) else s, a, Idle)
  }

  function Unfrozen(s: State, e: FreezeInfo): State {
    s.(frozen := s.frozen - {e}, stray := s.stray - {e})
  }

  /** Nothing deferred yet. */
  ghost predicate Init(s: State) {
    && s.agents == map[] && s.holder == None && s.record == Absent && s.frozen == {} && s.stray == {}
    && forall pid :: pid in s.os ==> Proc(pid, s.os[pid]) in s.used
  }

  // -- identities and locks: kept by every step --

  /** The owner recorded in `r` is some process of the past or present, or nobody. */
  predicate KnownOwner(used: set<Proc>, r: Record) {
    r.ownerToken.Some? ==> Proc(r.ownerPid, r.ownerToken.value) in used
  }

  predicate AgentIsSound(s: State, a: nat)
    requires a in s.agents
  {
    var g := s.agents[a];
    && g.proc in s.used
    && (g.pc.Adopting? || g.pc.Demoting? ==> KnownOwner(s.used, g.pc.seen))
    && (Running(s, a) && (g.pc.Froze? || g.pc.Thawing?) ==> HoldsLock(s, a))
  }

  ghost predicate Sound(s: State) {
    && (forall pid :: pid in s.os ==> Proc(pid, s.os[pid]) in s.used)
    && !s.record.Unreadable?
    && (s.record.Stored? ==> KnownOwner(s.used, s.record.record))
    && (forall a :: a in s.agents ==> AgentIsSound(s, a))
  }

  lemma InitIsSound(s: State)
    requires Init(s)
    ensures Sound(s)
  {
  }

  // A new process, even one reusing a PID, never looks like the owner of an old record.
  lemma OwnerStaysGone(s: State, step: Step)
    requires Sound(s) && Enabled(s, step) && OfEnvironment(step)
    ensures OwnedByLive(Apply(s, step)) ==> OwnedByLive(s)
  {
  }

  // An agent's step changes no other agent, and starts or ends no process.
  lemma OthersStand(s: State, step: Step)
    requires Enabled(s, step) && !OfEnvironment(step)
    ensures var t := Apply(s, step);
            && t.os == s.os && t.used == s.used && t.agents.Keys == s.agents.Keys
            && (forall b :: b in s.agents && b != step.a ==> t.agents[b] == s.agents[b])
            && t.agents[step.a].proc == s.agents[step.a].proc
            && (t.holder == s.holder || OfTheLock(step))
  {
  }

  lemma WriterStaysSound(s: State, step: Step)
    requires Sound(s) && Enabled(s, step) && !OfEnvironment(step) && !OfTheLock(step)
    ensures var t := AgentApply(s, step);
            && AgentIsSound(t, step.a)
            && !t.record.Unreadable? && (t.record.Stored? ==> KnownOwner(t.used, t.record.record))
  {
    assert AgentIsSound(s, step.a);
  }

  lemma ActorStaysSound(s: State, step: Step)
    requires Sound(s) && Enabled(s, step) && !OfEnvironment(step)
    ensures var t := Apply(s, step);
            && AgentIsSound(t, step.a)
            && !t.record.Unreadable? && (t.record.Stored? ==> KnownOwner(t.used, t.record.record))
  {
    if OfTheLock(step) {
      assert AgentIsSound(s, step.a);
    } else {
      WriterStaysSound(s, step);
    }
  }

  lemma EnvironmentKeepsSound(s: State, step: Step)
    requires Sound(s) && Enabled(s, step) && OfEnvironment(step)
    ensures Sound(Apply(s, step))
  {
    var t := Apply(s, step);
    forall a | a in t.agents
      ensures AgentIsSound(t, a)
    {
      assert a in s.agents ==> AgentIsSound(s, a);
    }
  }

  lemma OthersStaySound(s: State, step: Step, b: nat)
    requires Sound(s) && Enabled(s, step) && !OfEnvironment(step)
    requires b in s.agents && b != step.a
    ensures b in Apply(s, step).agents && AgentIsSound(Apply(s, step), b)
  {
    assert AgentIsSound(s, b);
    OthersStand(s, step);
  }

  lemma StepKeepsSound(s: State, step: Step)
    requires Sound(s) && Enabled(s, step)
    ensures Sound(Apply(s, step))
  {
    if OfEnvironment(step) {
      EnvironmentKeepsSound(s, step);
    } else {
      OthersStand(s, step);
      ActorStaysSound(s, step);
      forall b | b in s.agents && b != step.a
        ensures AgentIsSound(Apply(s, step), b)
      {
        OthersStaySound(s, step, b);
      }
    }
  }

  // -- every frozen table is accounted for --

  function Recorded(stored: Stored): set<FreezeInfo> {
    if stored.Stored? then Entries(stored.record) else {}
  }

  /** Every frozen table is in the record, in the hands of a running create, or was left by one that ended early. */
  predicate Accounted(s: State) {
    s.frozen <= Recorded(s.record) + s.stray + InHands(s)
  }

  predicate HasView(pc: Pc) {
    pc.Adopting? || pc.Demoting? || pc.Releasing?
  }

  /** The tables an agent will leave in the record if it writes it. */
  function View(pc: Pc): set<FreezeInfo>
    requires HasView(pc)
  {
    if pc.Releasing? then pc.todo + pc.failed else Entries(pc.seen)
  }

  predicate ViewCovers(s: State, pc: Pc) {
    HasView(pc) ==> s.frozen <= View(pc) + s.stray + InHands(s)
  }

  /** A create that has not written its record yet relies on no earlier one. */
  predicate StartsAfresh(s: State, pc: Pc) {
    pc.Froze? || pc.Thawing? ==> s.frozen <= s.stray + InHands(s)
  }

  ghost predicate Covered(s: State) {
    && Accounted(s)
    && forall a :: Running(s, a) ==> ViewCovers(s, s.agents[a].pc) && StartsAfresh(s, s.agents[a].pc)
  }

  /** A record is published while no other running agent is about to write one that lacks a table just frozen. */
  ghost predicate PublishesUnseen(s: State, step: Step) {
    step.PublishRecord? && step.ok && Running(s, step.a) ==>
      forall b :: Running(s, b) && b != step.a && HasView(s.agents[b].pc) ==>
        Held(s.agents[step.a].pc) * s.frozen <= View(s.agents[b].pc) + s.stray
  }

  lemma InitIsCovered(s: State)
    requires Init(s)
    ensures Covered(s)
  {
  }

  lemma EnvironmentKeepsCovered(s: State, step: Step)
    requires Sound(s) && Covered(s) && Enabled(s, step) && OfEnvironment(step)
    ensures Covered(Apply(s, step))
  {
    var t := Apply(s, step);
    assert s.stray + InHands(s) <= t.stray + InHands(t);
    forall a | Running(t, a)
      ensures ViewCovers(t, t.agents[a].pc) && StartsAfresh(t, t.agents[a].pc)
    {
      if !(step.Spawn? && step.a == a) {
        assert Running(s, a);
      }
    }
  }

  /** What a successful publication puts on record. */
  function JustRecorded(s: State, step: Step): set<FreezeInfo>
    requires Enabled(s, step)
  {
    if step.PublishRecord? && step.ok then Held(s.agents[step.a].pc) * s.frozen - s.stray else {}
  }

  lemma WriterSpeaksFor(s: State, step: Step)
    requires Sound(s) && Enabled(s, step) && !OfEnvironment(step) && !OfTheLock(step)
    ensures var t := AgentApply(s, step);
            t.frozen - t.stray - InHands(t) <= (s.frozen - s.stray - InHands(s)) + JustRecorded(s, step)
  {
    assert AgentIsSound(s, step.a);
    assert s.holder.Some? && Running(s, s.holder.value) ==> AgentIsSound(s, s.holder.value);
  }

  // What is frozen and not excused only shrinks, except that a create's tables pass from its hands to its record.
  lemma SpokenFor(s: State, step: Step)
    requires Sound(s) && Enabled(s, step) && !OfEnvironment(step)
    ensures var t := Apply(s, step);
            t.frozen - t.stray - InHands(t) <= (s.frozen - s.stray - InHands(s)) + JustRecorded(s, step)
  {
    if OfTheLock(step) {
      assert AgentIsSound(s, step.a);
    } else {
      WriterSpeaksFor(s, step);
    }
  }

  lemma RecordStaysComplete(s: State, step: Step)
    requires Sound(s) && Covered(s) && Enabled(s, step) && !OfEnvironment(step)
    ensures Accounted(Apply(s, step))
  {
    SpokenFor(s, step);
    assert ViewCovers(s, s.agents[step.a].pc) && StartsAfresh(s, s.agents[step.a].pc);
    assert AgentIsSound(s, step.a);
  }

  lemma ActorKeepsView(s: State, step: Step)
    requires Sound(s) && Covered(s) && Enabled(s, step) && !OfEnvironment(step)
    ensures ViewCovers(Apply(s, step), Apply(s, step).agents[step.a].pc)
  {
    var pc, t := s.agents[step.a].pc, Apply(s, step);
    SpokenFor(s, step);
    assert ViewCovers(s, pc) && Accounted(s);
    if !OfTheLock(step) {
      ViewGrowsFromRecord(s, step);
    }
  }

  // What an agent will leave in the record comes from the record it read, or from what it had in view before.
  lemma ViewGrowsFromRecord(s: State, step: Step)
    requires Enabled(s, step) && !OfEnvironment(step) && !OfTheLock(step)
    ensures var pc, t := s.agents[step.a].pc, AgentApply(s, step);
            var next := t.agents[step.a].pc;
            HasView(next) ==>
              && !(step.PublishRecord? && step.ok)
              && if HasView(pc) then (View(pc) - View(next)) !! t.frozen else View(next) == Recorded(s.record)
  {
  }

  lemma ActorStartsAfresh(s: State, step: Step)
    requires Sound(s) && Covered(s) && Enabled(s, step) && !OfEnvironment(step)
    ensures StartsAfresh(Apply(s, step), Apply(s, step).agents[step.a].pc)
  {
    SpokenFor(s, step);
    assert StartsAfresh(s, s.agents[step.a].pc);
  }

  // Exactly the agents that would overwrite the new record without one of its tables spoil a publication.
  lemma OtherStaysCoveredIff(s: State, step: Step, b: nat)
    requires Sound(s) && Covered(s) && Enabled(s, step) && !OfEnvironment(step)
    requires Running(s, b) && b != step.a
    ensures var t := Apply(s, step);
            && StartsAfresh(t, s.agents[b].pc)
            && (!(step.PublishRecord? && step.ok) ==> ViewCovers(t, s.agents[b].pc))
            && (step.PublishRecord? && step.ok && HasView(s.agents[b].pc) ==>
                  (ViewCovers(t, s.agents[b].pc) <==>
                     Held(s.agents[step.a].pc) * s.frozen <= View(s.agents[b].pc) + s.stray))
  {
    var t, pc := Apply(s, step), s.agents[b].pc;
    SpokenFor(s, step);
    assert AgentIsSound(s, step.a) && AgentIsSound(s, b);
    assert ViewCovers(s, pc) && StartsAfresh(s, pc);
  }

  lemma StepKeepsCoveredIff(s: State, step: Step)
    requires Sound(s) && Covered(s) && Enabled(s, step)
    ensures Covered(Apply(s, step)) <==> PublishesUnseen(s, step)
  {
    if OfEnvironment(step) {
      EnvironmentKeepsCovered(s, step);
    } else {
      var t := Apply(s, step);
      OthersStand(s, step);
      RecordStaysComplete(s, step);
      ActorKeepsView(s, step);
      ActorStartsAfresh(s, step);
      forall b | Running(s, b) && b != step.a
        ensures Running(t, b) && t.agents[b] == s.agents[b] && StartsAfresh(t, s.agents[b].pc)
        ensures !(step.PublishRecord? && step.ok) ==> ViewCovers(t, s.agents[b].pc)
        ensures step.PublishRecord? && step.ok && HasView(s.agents[b].pc) ==>
                  (ViewCovers(t, s.agents[b].pc) <==>
                     Held(s.agents[step.a].pc) * s.frozen <= View(s.agents[b].pc) + s.stray)
      {
        OtherStaysCoveredIff(s, step, b);
      }
    }
  }

  // -- ownership --

  /**
   While a reaper is at work, a create is under way or an adoption is pending under the lock, nobody running owns the
   record.
   */
  predicate ActsOnUnowned(s: State, a: nat)
    requires a in s.agents
  {
    var pc := s.agents[a].pc;
    && (pc.Releasing? && pc.reaper ==> HoldsLock(s, a) && !OwnedByLive(s))
    && (pc.Adopting? && HoldsLock(s, a) ==> !OwnedByLive(s))
    && (pc.Froze? ==> !OwnedByLive(s))
  }

  ghost predicate LockInv(s: State) {
    forall a :: Running(s, a) ==> ActsOnUnowned(s, a)
  }

  /** A record is adopted only by an agent that still holds the backup's lock. */
  predicate AdoptsUnderLock(s: State, step: Step) {
    step.Rewrite? && step.a in s.agents && s.agents[step.a].pc.Adopting? ==> HoldsLock(s, step.a)
  }

  // Only a holder of the lock makes a running process the owner.
  lemma OwnershipNeedsTheLock(s: State, step: Step)
    requires Sound(s) && Enabled(s, step) && AdoptsUnderLock(s, step)
    ensures OwnedByLive(Apply(s, step)) ==> OwnedByLive(s) || (!OfEnvironment(step) && HoldsLock(s, step.a))
  {
    if OfEnvironment(step) {
      OwnerStaysGone(s, step);
    } else {
      assert AgentIsSound(s, step.a);
    }
  }

  lemma ActorKeepsUnowned(s: State, step: Step)
    requires Sound(s) && LockInv(s) && Enabled(s, step) && !OfEnvironment(step) && AdoptsUnderLock(s, step)
    ensures step.a in Apply(s, step).agents && ActsOnUnowned(Apply(s, step), step.a)
  {
    OwnershipNeedsTheLock(s, step);
    assert ActsOnUnowned(s, step.a) && AgentIsSound(s, step.a);
  }

  lemma OtherKeepsUnowned(s: State, step: Step, b: nat)
    requires Sound(s) && LockInv(s) && Enabled(s, step) && !OfEnvironment(step) && AdoptsUnderLock(s, step)
    requires Running(s, b) && b != step.a
    ensures b in Apply(s, step).agents && ActsOnUnowned(Apply(s, step), b)
  {
    OwnershipNeedsTheLock(s, step);
    OthersStand(s, step);
    assert ActsOnUnowned(s, b) && AgentIsSound(s, b);
  }

  lemma EnvironmentKeepsUnowned(s: State, step: Step)
    requires Sound(s) && LockInv(s) && Enabled(s, step) && OfEnvironment(step)
    ensures LockInv(Apply(s, step))
  {
    var t := Apply(s, step);
    OwnerStaysGone(s, step);
    forall a | Running(t, a)
      ensures ActsOnUnowned(t, a)
    {
      assert Running(s, a) ==> ActsOnUnowned(s, a);
    }
  }

  lemma StepKeepsLockInv(s: State, step: Step)
    requires Sound(s) && LockInv(s) && Enabled(s, step) && AdoptsUnderLock(s, step)
    ensures LockInv(Apply(s, step))
  {
    if OfEnvironment(step) {
      EnvironmentKeepsUnowned(s, step);
    } else {
      OthersStand(s, step);
      ActorKeepsUnowned(s, step);
      forall b | Running(s, b) && b != step.a
        ensures ActsOnUnowned(Apply(s, step), b)
      {
        OtherKeepsUnowned(s, step, b);
      }
    }
  }
}
