/**
 The two-tier lock protocol as a transition system: any number of agents, running in any number of
 processes, share one lock directory. Every system call is a step of its own, so reading a lock file,
 judging its recorded holder and unlinking it may be separated by steps of everybody else.
 */
module LockProtocol {
  import opened Options
  import opened LockNames

  /** One incarnation of a process: a PID is only an identity together with its start token. */
  datatype Proc = Proc(pid: nat, token: nat)

  datatype Content = Record(pid: nat, token: Option<nat>) | Corrupt

  /** A directory entry. `ino` identifies this very file and `writer` the process that published it, if any agent did. */
  datatype File = File(ino: nat, writer: Option<Proc>, content: Content)

  /** Which of its two lock files an agent is acquiring. */
  datatype Stage = Gate | Target

  datatype Pc =
    | Idle
    | Publish(stage: Stage)
    | Inspect(stage: Stage)
    | Judge(stage: Stage, seen: File)
    | Unlink(stage: Stage, seen: File)
    | Entered
    | Scan(pending: map<string, nat>)
    | ScanJudge(pending: map<string, nat>, entry: string, seen: File)
    | Leave(granted: bool)
    | Holding

  datatype Agent = Agent(proc: Proc, scope: LockScope, pc: Pc)

  /** What all processes share: the lock directory, the running PIDs with their start tokens, and every incarnation so far. */
  datatype World = World(files: map<string, File>, os: map<nat, nat>, used: set<Proc>)

  datatype State = State(w: World, agents: map<nat, Agent>, nextIno: nat)

  /** One system call or local decision of one agent. */
  datatype Action =
    | Begin(scope: LockScope)
    | Link(tokenKnown: bool)
    | GiveUp
    | Read
    | Verdict(readable: bool, again: bool)
    | Remove
    | OpenDir
    | ReadEntry(entry: string)
    | PassEntry(entry: string)
    | EntryVerdict(readable: bool)
    | EndScan
    | FailScan
    | DropGate
    | Release
    | TakeOverAtOnce(readable: bool)

  datatype Step = Act(a: nat, action: Action) | Start(proc: Proc) | Spawn(b: nat, on: Proc) | Exit(pid: nat)

  predicate Alive(os: map<nat, nat>, p: Proc) {
    p.pid in os && os[p.pid] == p.token
  }

  /** Liveness of a recorded holder; a missing or unreadable token counts as "still held". */
  predicate HolderIsLive(os: map<nat, nat>, pid: nat, token: Option<nat>, readable: bool) {
    pid != 0 && pid in os && (token.Some? && readable ==> os[pid] == token.value)
  }

  // With a readable start token a lock file is held exactly by the incarnation it records, and not by a later process
  // with the same PID; without one, by any process with that PID.
  lemma LivenessIsIdentity(os: map<nat, nat>, pid: nat, token: Option<nat>, readable: bool)
    ensures token.Some? && readable ==>
              (HolderIsLive(os, pid, token, readable) <==> pid != 0 && Alive(os, Proc(pid, token.value)))
    ensures token.None? || !readable ==> (HolderIsLive(os, pid, token, readable) <==> pid != 0 && pid in os)
  {
  }

  /** Whether a lock file blocks whoever inspects it. */
  predicate FileIsLive(os: map<nat, nat>, f: File, readable: bool) {
    f.content.Record? && HolderIsLive(os, f.content.pid, f.content.token, readable)
  }

  predicate Running(s: State, a: nat) {
    a in s.agents && Alive(s.w.os, s.agents[a].proc)
  }

  function TargetPath(g: Agent): string {
    if g.scope.NoLock? then "" else ScopePath(Stem(g.scope))
  }

  function PathOf(g: Agent, stage: Stage): string {
    if stage.Gate? then GATE_LOCK_FILE else TargetPath(g)
  }

  /** Entries a cross-tier check has to look at: every backup lock, or just the global one. */
  predicate MustScan(scope: LockScope, fileName: string) {
    if scope.Global? then BackupNameFromLockFile(fileName).Some? else fileName == ScopePath(GLOBAL_STEM)
  }

  function Snapshot(files: map<string, File>, scope: LockScope): map<string, nat> {
    map f | f in files && MustScan(scope, f) :: files[f].ino
  }

  predicate CanAct(w: World, g: Agent, action: Action) {
    match action
    case Begin(scope) => g.pc.Idle? && Lockable(scope)
    case Link(_) => g.pc.Publish?
    case GiveUp => g.pc.Publish?
    case Read => g.pc.Inspect?
    case Verdict(_, _) => g.pc.Judge?
    case Remove => g.pc.Unlink?
    case OpenDir => g.pc.Entered?
    case FailScan => g.pc.Entered?
    case ReadEntry(e) => g.pc.Scan? && e in g.pc.pending
    case PassEntry(e) =>
      // readdir may leave an entry out only if the file it named is no longer there
      g.pc.Scan? && e in g.pc.pending && (e in w.files ==> w.files[e].ino != g.pc.pending[e])
    case EntryVerdict(_) => g.pc.ScanJudge?
    case EndScan => g.pc.Scan? && g.pc.pending == map[]
    case DropGate => g.pc.Leave?
    case Release => g.pc.Holding?
    case TakeOverAtOnce(readable) =>
      && g.pc == Inspect(Gate)
      && GATE_LOCK_FILE in w.files
      && !FileIsLive(w.os, w.files[GATE_LOCK_FILE], readable)
  }

  /** Where the action leaves its agent. */
  function NextPc(w: World, g: Agent, action: Action): Pc
    requires CanAct(w, g, action)
  {
    match action
    case Begin(_) => Publish(Gate)
    case Link(_) =>
      if PathOf(g, g.pc.stage) in w.files then Inspect(g.pc.stage)
      else if g.pc.stage.Gate? then Entered else Leave(true)
    case GiveUp => if g.pc.stage.Gate? then Idle else Leave(false)
    case Read =>
      var path := PathOf(g, g.pc.stage);
      if path in w.files then Judge(g.pc.stage, w.files[path]) else Publish(g.pc.stage)
    case Verdict(readable, again) =>
      if FileIsLive(w.os, g.pc.seen, readable) then
        if g.pc.stage.Gate? then Publish(Gate) else Leave(false)
      else if g.pc.seen.content.Corrupt? && again then Publish(g.pc.stage)
      else Unlink(g.pc.stage, g.pc.seen)
    case Remove => Publish(g.pc.stage)
    case OpenDir => Scan(Snapshot(w.files, g.scope))
    case FailScan => Leave(false)
    case ReadEntry(e) =>
      if e in w.files then ScanJudge(g.pc.pending - {e}, e, w.files[e]) else Scan(g.pc.pending - {e})
    case PassEntry(e) => Scan(g.pc.pending - {e})
    case EntryVerdict(readable) =>
      if FileIsLive(w.os, g.pc.seen, readable) then Leave(false) else Scan(g.pc.pending)
    case EndScan => Publish(Target)
    case DropGate => if g.pc.granted then Holding else Idle
    case Release => Idle
    case TakeOverAtOnce(_) => Publish(Gate)
  }

  function NextAgent(w: World, g: Agent, action: Action): Agent
    requires CanAct(w, g, action)
  {
    Agent(g.proc, if action.Begin? then action.scope else g.scope, NextPc(w, g, action))
  }

  /** The lock file an action unlinks or tries to create, if it is such an action. */
  function Touched(g: Agent, action: Action): Option<string> {
    match action
    case Link(_) => if g.pc.Publish? then Some(PathOf(g, g.pc.stage)) else None
    case Remove => if g.pc.Unlink? then Some(PathOf(g, g.pc.stage)) else None
    case DropGate => Some(GATE_LOCK_FILE)
    case Release => Some(TargetPath(g))
    case TakeOverAtOnce(_) => Some(GATE_LOCK_FILE)
    case _ => None
  }

  function NewFile(g: Agent, tokenKnown: bool, ino: nat): File {
    File(ino, Some(g.proc), Record(g.proc.pid, if tokenKnown then Some(g.proc.token) else None))
  }

  function NextFiles(w: World, g: Agent, action: Action, ino: nat): map<string, File> {
    match Touched(g, action)
    case None => w.files
    case Some(path) =>
      if !action.Link? then w.files - {path}
      else if path in w.files then w.files
      else w.files[path := NewFile(g, action.tokenKnown, ino)]
  }

  predicate Enabled(s: State, step: Step) {
    match step
    case Act(a, action) => Running(s, a) && CanAct(s.w, s.agents[a], action)
    case Start(p) => p !in s.w.used && p.pid !in s.w.os && p.pid != 0
    case Spawn(b, p) => b !in s.agents && Alive(s.w.os, p)
    case Exit(pid) => pid in s.w.os
  }

  function Apply(s: State, step: Step): State
    requires Enabled(s, step)
  {
    match step
    case Act(a, action) =>
      var g := s.agents[a];
      State(s.w.(files := NextFiles(s.w, g, action, s.nextIno)),
            s.agents[a := NextAgent(s.w, g, action)],
            s.nextIno + 1)
    case Start(p) => s.(w := s.w.(os := s.w.os[p.pid := p.token], used := s.w.used + {p}))
    case Spawn(b, p) => s.(agents := s.agents[b := Agent(p, Global, Idle)])
    case Exit(pid) => s.(w := s.w.(os := s.w.os - {pid}))
  }

  /** A directory left behind by earlier runs: any files at all, but none published by an agent of this run. */
  ghost predicate Init(s: State) {
    && s.agents == map[]
    && (forall f :: f in s.w.files ==> s.w.files[f].writer == None)
    && (forall pid :: pid in s.w.os ==> pid != 0 && Proc(pid, s.w.os[pid]) in s.w.used)
  }

  /** The agent has been granted its scope lock and has not released it. */
  predicate Granted(pc: Pc) {
    pc == Leave(true) || pc.Holding?
  }

  predicate Holds(s: State, a: nat) {
    Running(s, a) && Granted(s.agents[a].pc)
  }

  /** What the two tiers promise: no two holders of one scope, no global holder beside a backup holder. */
  ghost predicate MutualExclusion(s: State) {
    forall a, b :: Holds(s, a) && Holds(s, b) && a != b ==>
      && s.agents[a].scope != s.agents[b].scope
      && !(s.agents[a].scope.Global? && s.agents[b].scope.Backup?)
  }

  // -- the inductive invariant --

  /** Past the cross-tier check. */
  predicate Publishing(pc: Pc) {
    (pc.Publish? || pc.Inspect? || pc.Judge? || pc.Unlink?) && pc.stage.Target?
  }

  /** Between taking the gate and dropping it. */
  predicate InGate(pc: Pc) {
    pc.Entered? || pc.Scan? || pc.ScanJudge? || pc.Leave? || Publishing(pc)
  }

  predicate CrossTier(x: LockScope, y: LockScope) {
    || (x.Global? && y.Backup? && y.name != GLOBAL_STEM)
    || (y.Global? && x.Backup? && x.name != GLOBAL_STEM)
  }

  /** A file published by an agent records the identity of that agent's process. */
  predicate FileOk(used: set<Proc>, f: File) {
    f.writer.Some? ==>
      && f.writer.value in used
      && f.writer.value.pid != 0
      && f.content.Record?
      && f.content.pid == f.writer.value.pid
      && (f.content.token.Some? ==> f.content.token.value == f.writer.value.token)
  }

  /** Whoever published this file is gone for good. */
  predicate Abandoned(os: map<nat, nat>, f: File) {
    f.writer.Some? ==> !Alive(os, f.writer.value)
  }

  predicate Owns(w: World, path: string, p: Proc) {
    path in w.files && w.files[path].writer == Some(p)
  }

  predicate AgentInv(w: World, g: Agent) {
    && Lockable(g.scope)
    && (InGate(g.pc) ==> Owns(w, GATE_LOCK_FILE, g.proc))
    && (Granted(g.pc) ==> Owns(w, TargetPath(g), g.proc))
    && (g.pc.Judge? || g.pc.Unlink? || g.pc.ScanJudge? ==> FileOk(w.used, g.pc.seen))
    && (g.pc.Unlink? ==> Abandoned(w.os, g.pc.seen))
    && ((g.pc.Judge? || g.pc.Unlink?) && g.pc.stage.Target? && TargetPath(g) in w.files
        ==> w.files[TargetPath(g)] == g.pc.seen)
  }

  predicate StillListed(w: World, pending: map<string, nat>, path: string) {
    path in pending && path in w.files && w.files[path].ino == pending[path]
  }

  /** While `g` scans, the lock of any cross-tier holder is still ahead of it, or is the one being judged. */
  predicate WillSee(w: World, g: Agent, path: string) {
    match g.pc
    case Scan(pending) => StillListed(w, pending, path)
    case ScanJudge(pending, entry, seen) =>
      StillListed(w, pending, path) || (path == entry && path in w.files && w.files[path] == seen)
    case _ => !Publishing(g.pc)
  }

  predicate PairInv(w: World, g: Agent, h: Agent) {
    && !(InGate(g.pc) && InGate(h.pc))
    && (Granted(g.pc) && Granted(h.pc) ==> !CrossTier(g.scope, h.scope) && TargetPath(g) != TargetPath(h))
    && (Granted(h.pc) && CrossTier(g.scope, h.scope) ==> WillSee(w, g, TargetPath(h)))
  }

  ghost predicate WorldInv(s: State) {
    && (forall pid :: pid in s.w.os ==> pid != 0 && Proc(pid, s.w.os[pid]) in s.w.used)
    && (forall f :: f in s.w.files ==> FileOk(s.w.used, s.w.files[f]))
    && (forall a :: a in s.agents ==> s.agents[a].proc in s.w.used)
  }

  ghost predicate Inv(s: State) {
    && WorldInv(s)
    && (forall a :: Running(s, a) ==> AgentInv(s.w, s.agents[a]))
    && (forall a, b :: Running(s, a) && Running(s, b) && a != b ==> PairInv(s.w, s.agents[a], s.agents[b]))
  }

  /** A takeover of the gate unlinks the very file it judged, not one published since. */
  predicate TakeoverHits(w: World, g: Agent, action: Action) {
    action.Remove? && g.pc.Unlink? && g.pc.stage.Gate? && GATE_LOCK_FILE in w.files ==>
      w.files[GATE_LOCK_FILE] == g.pc.seen
  }

  predicate StepHits(s: State, step: Step) {
    step.Act? && Running(s, step.a) ==> TakeoverHits(s.w, s.agents[step.a], step.action)
  }

  lemma InitEstablishesInv(s: State)
    requires Init(s)
    ensures Inv(s)
  {
  }

  lemma InvGivesMutualExclusion(s: State)
    requires Inv(s)
    ensures MutualExclusion(s)
  {
    forall a, b | Holds(s, a) && Holds(s, b) && a != b
      ensures s.agents[a].scope != s.agents[b].scope
      ensures !(s.agents[a].scope.Global? && s.agents[b].scope.Backup?)
    {
      assert PairInv(s.w, s.agents[a], s.agents[b]);
      assert AgentInv(s.w, s.agents[a]) && AgentInv(s.w, s.agents[b]);
    }
  }

  // A file judged dead was published by a process that is gone.
  lemma JudgedDeadIsAbandoned(w: World, f: File, readable: bool)
    requires FileOk(w.used, f) && !FileIsLive(w.os, f, readable)
    ensures Abandoned(w.os, f)
  {
  }

  // A scan that starts now lists every lock of the other tier.
  lemma SnapshotCoversHolders(w: World, g: Agent, h: Agent)
    requires AgentInv(w, h) && Granted(h.pc) && Lockable(g.scope) && CrossTier(g.scope, h.scope)
    ensures StillListed(w, Snapshot(w.files, g.scope), TargetPath(h))
  {
    if h.scope.Backup? {
      ScanRecognisesBackupLocks(TargetPath(h), h.scope.name);
    }
  }

  // -- one action, seen from its own agent `g` and from another agent `h` --

  // The files after an action, at any path.
  lemma FilesAfter(w: World, g: Agent, action: Action, ino: nat, path: string)
    ensures var files := NextFiles(w, g, action, ino);
            && (Touched(g, action) != Some(path) ==>
                  (path in files <==> path in w.files) && (path in w.files ==> files[path] == w.files[path]))
            && (action.Link? && path in w.files ==> path in files && files[path] == w.files[path])
  {
  }

  // An action never removes the lock file another agent's safety rests on, nor links over it.
  lemma OthersFilesAreSafe(w: World, g: Agent, h: Agent, action: Action)
    requires Alive(w.os, g.proc) && Alive(w.os, h.proc)
    requires AgentInv(w, g) && AgentInv(w, h) && PairInv(w, g, h)
    requires CanAct(w, g, action) && TakeoverHits(w, g, action)
    requires forall f :: f in w.files ==> FileOk(w.used, w.files[f])
    ensures InGate(h.pc) && !action.Link? ==> Touched(g, action) != Some(GATE_LOCK_FILE)
    ensures Granted(h.pc) && !action.Link? ==> Touched(g, action) != Some(TargetPath(h))
  {
    GateAndStagedFilesAreNotScopeLocks("", "", Stem(g.scope));
    GateAndStagedFilesAreNotScopeLocks("", "", Stem(h.scope));
    if action.TakeOverAtOnce? {
      JudgedDeadIsAbandoned(w, w.files[GATE_LOCK_FILE], action.readable);
    }
  }

  lemma MoverKeepsAgentInv(w: World, g: Agent, action: Action)
    requires AgentInv(w, g) && CanAct(w, g, action) && Touched(g, action) == None
    requires forall f :: f in w.files ==> FileOk(w.used, w.files[f])
    ensures AgentInv(w, NextAgent(w, g, action))
  {
    if action.Verdict? && !FileIsLive(w.os, g.pc.seen, action.readable) {
      JudgedDeadIsAbandoned(w, g.pc.seen, action.readable);
    }
  }

  lemma ActorKeepsAgentInv(w: World, g: Agent, action: Action, ino: nat)
    requires AgentInv(w, g) && CanAct(w, g, action)
    requires forall f :: f in w.files ==> FileOk(w.used, w.files[f])
    ensures AgentInv(w.(files := NextFiles(w, g, action, ino)), NextAgent(w, g, action))
  {
    if Touched(g, action) == None {
      MoverKeepsAgentInv(w, g, action);
    } else {
      GateAndStagedFilesAreNotScopeLocks("", "", Stem(g.scope));
      FilesAfter(w, g, action, ino, GATE_LOCK_FILE);
      FilesAfter(w, g, action, ino, TargetPath(g));
    }
  }

  lemma OtherKeepsAgentInv(w: World, g: Agent, h: Agent, action: Action, ino: nat)
    requires Alive(w.os, g.proc) && Alive(w.os, h.proc)
    requires AgentInv(w, g) && AgentInv(w, h) && PairInv(w, g, h)
    requires CanAct(w, g, action) && TakeoverHits(w, g, action)
    requires forall f :: f in w.files ==> FileOk(w.used, w.files[f])
    ensures AgentInv(w.(files := NextFiles(w, g, action, ino)), h)
  {
    OthersFilesAreSafe(w, g, h, action);
    FilesAfter(w, g, action, ino, GATE_LOCK_FILE);
    FilesAfter(w, g, action, ino, TargetPath(h));
    GateAndStagedFilesAreNotScopeLocks("", "", Stem(h.scope));
  }

  // The heart of the cross-tier check: a scanning agent never loses sight of a conflicting holder.
  lemma ActorKeepsSight(w: World, g: Agent, h: Agent, action: Action, ino: nat)
    requires Alive(w.os, g.proc) && Alive(w.os, h.proc)
    requires AgentInv(w, g) && AgentInv(w, h) && PairInv(w, g, h)
    requires CanAct(w, g, action) && TakeoverHits(w, g, action)
    requires forall f :: f in w.files ==> FileOk(w.used, w.files[f])
    requires Granted(h.pc) && CrossTier(NextAgent(w, g, action).scope, h.scope)
    ensures WillSee(w.(files := NextFiles(w, g, action, ino)), NextAgent(w, g, action), TargetPath(h))
  {
    OthersFilesAreSafe(w, g, h, action);
    FilesAfter(w, g, action, ino, TargetPath(h));
    if action.OpenDir? {
      SnapshotCoversHolders(w, g, h);
    } else if action.EntryVerdict? && !FileIsLive(w.os, g.pc.seen, action.readable) {
      JudgedDeadIsAbandoned(w, g.pc.seen, action.readable);
    }
  }

  lemma ActorKeepsPairs(w: World, g: Agent, h: Agent, action: Action, ino: nat)
    requires Alive(w.os, g.proc) && Alive(w.os, h.proc)
    requires AgentInv(w, g) && AgentInv(w, h) && PairInv(w, g, h) && PairInv(w, h, g)
    requires CanAct(w, g, action) && TakeoverHits(w, g, action)
    requires forall f :: f in w.files ==> FileOk(w.used, w.files[f])
    ensures var w2, g2 := w.(files := NextFiles(w, g, action, ino)), NextAgent(w, g, action);
            PairInv(w2, g2, h) && PairInv(w2, h, g2)
  {
    var w2, g2 := w.(files := NextFiles(w, g, action, ino)), NextAgent(w, g, action);
    if Granted(h.pc) && CrossTier(g2.scope, h.scope) {
      ActorKeepsSight(w, g, h, action, ino);
    }
    if Granted(g2.pc) && CrossTier(h.scope, g2.scope) {
      FilesAfter(w, g, action, ino, TargetPath(g));
      GateAndStagedFilesAreNotScopeLocks("", "", Stem(g.scope));
    }
  }

  lemma BystandersKeepPairs(w: World, g: Agent, h: Agent, k: Agent, action: Action, ino: nat)
    requires Alive(w.os, g.proc) && Alive(w.os, k.proc)
    requires AgentInv(w, g) && AgentInv(w, k) && PairInv(w, g, k)
    requires CanAct(w, g, action) && TakeoverHits(w, g, action)
    requires forall f :: f in w.files ==> FileOk(w.used, w.files[f])
    requires PairInv(w, h, k)
    ensures PairInv(w.(files := NextFiles(w, g, action, ino)), h, k)
  {
    OthersFilesAreSafe(w, g, k, action);
    FilesAfter(w, g, action, ino, TargetPath(k));
  }

  // -- one step of the whole system --

  lemma StepKeepsWorldInv(s: State, step: Step)
    requires WorldInv(s) && Enabled(s, step)
    ensures WorldInv(Apply(s, step))
  {
  }

  lemma ActionPreservesInv(s: State, a: nat, action: Action)
    requires Inv(s) && Enabled(s, Act(a, action)) && StepHits(s, Act(a, action))
    ensures Inv(Apply(s, Act(a, action)))
  {
    var t := Apply(s, Act(a, action));
    var g := s.agents[a];
    StepKeepsWorldInv(s, Act(a, action));
    forall b | Running(t, b)
      ensures AgentInv(t.w, t.agents[b])
    {
      if b == a {
        ActorKeepsAgentInv(s.w, g, action, s.nextIno);
      } else {
        assert Running(s, b);
        OtherKeepsAgentInv(s.w, g, s.agents[b], action, s.nextIno);
      }
    }
    forall b, c | Running(t, b) && Running(t, c) && b != c
      ensures PairInv(t.w, t.agents[b], t.agents[c])
    {
      assert Running(s, b) && Running(s, c);
      if b == a {
        ActorKeepsPairs(s.w, g, s.agents[c], action, s.nextIno);
      } else if c == a {
        ActorKeepsPairs(s.w, g, s.agents[b], action, s.nextIno);
      } else {
        BystandersKeepPairs(s.w, g, s.agents[b], s.agents[c], action, s.nextIno);
      }
    }
  }

  lemma EnvironmentPreservesInv(s: State, step: Step)
    requires Inv(s) && Enabled(s, step) && !step.Act?
    ensures Inv(Apply(s, step))
  {
    StepKeepsWorldInv(s, step);
    var t := Apply(s, step);
    forall a | Running(t, a)
      ensures AgentInv(t.w, t.agents[a])
    {
      if !(step.Spawn? && step.b == a) {
        assert Running(s, a);
        assert AgentInv(s.w, s.agents[a]);
      }
    }
    forall a, b | Running(t, a) && Running(t, b) && a != b
      ensures PairInv(t.w, t.agents[a], t.agents[b])
    {
      if !(step.Spawn? && (step.b == a || step.b == b)) {
        assert Running(s, a) && Running(s, b);
        assert PairInv(s.w, s.agents[a], s.agents[b]);
      }
    }
  }

  lemma StepPreservesInv(s: State, step: Step)
    requires Inv(s) && Enabled(s, step) && StepHits(s, step)
    ensures Inv(Apply(s, step))
  {
    if step.Act? {
      ActionPreservesInv(s, step.a, step.action);
    } else {
      EnvironmentPreservesInv(s, step);
    }
  }
}
