/** When the separate calls of a gate takeover break mutual exclusion: the exact condition, over all continuations. */
module LockLimits {
  import opened Options
  import opened LockNames
  import opened LockProtocol
  import opened LockRuns

  // -- continuations --

  /** A continuation of `s` that ends in `t`, in which further takeovers of the gate remove the file they judged. */
  ghost predicate Joins(s: State, t: State, states: seq<State>, steps: seq<Step>) {
    && |states| == |steps| + 1 && states[0] == s && states[|steps|] == t
    && forall i :: 0 <= i < |steps| ==>
         Enabled(states[i], steps[i]) && StepHits(states[i], steps[i]) && states[i + 1] == Apply(states[i], steps[i])
  }

  ghost predicate Leads(s: State, t: State) {
    exists states, steps :: Joins(s, t, states, steps)
  }

  /** From here on the tiers can come to overlap, although nothing goes wrong any more. */
  ghost predicate CanBreak(s: State) {
    exists t :: Leads(s, t) && !MutualExclusion(t)
  }

  lemma LeadsToItself(s: State)
    ensures Leads(s, s)
  {
    var none: seq<Step> := [];
    assert Joins(s, s, [s], none);
  }

  lemma LeadsOn(o: State, s: State, step: Step)
    requires Leads(o, s) && Enabled(s, step) && StepHits(s, step)
    ensures Leads(o, Apply(s, step))
  {
    var states, steps :| Joins(o, s, states, steps);
    assert Joins(o, Apply(s, step), states + [Apply(s, step)], steps + [step]);
  }

  lemma {:induction false} InvAlong(s: State, t: State, states: seq<State>, steps: seq<Step>, i: nat)
    requires Joins(s, t, states, steps) && Inv(s) && i <= |steps|
    ensures Inv(states[i])
  {
    if i > 0 {
      InvAlong(s, t, states, steps, i - 1);
      StepPreservesInv(states[i - 1], steps[i - 1]);
    }
  }

  lemma InvIsSafe(s: State)
    requires Inv(s)
    ensures !CanBreak(s)
  {
    forall t | Leads(s, t)
      ensures MutualExclusion(t)
    {
      var states, steps :| Joins(s, t, states, steps);
      InvAlong(s, t, states, steps, |steps|);
      InvGivesMutualExclusion(t);
    }
  }

  // -- single agents on their way --

  /** Agent `a` has moved on its own; lock files may have come and gone. */
  ghost predicate Moved(s: State, t: State, a: nat) {
    && a in s.agents
    && t.w.os == s.w.os
    && t.agents.Keys == s.agents.Keys
    && t.agents[a].proc == s.agents[a].proc
    && forall b :: b in s.agents && b != a ==> t.agents[b] == s.agents[b]
  }

  /** No lock file has been added or changed. */
  predicate FilesRemain(files: map<string, File>, more: map<string, File>) {
    forall f :: f in files ==> f in more && files[f] == more[f]
  }

  lemma Acts(o: State, s: State, a: nat, action: Action) returns (t: State)
    requires Leads(o, s) && Running(s, a) && CanAct(s.w, s.agents[a], action)
    requires action.Remove? && s.agents[a].pc.Unlink? ==> s.agents[a].pc.stage.Target?
    ensures Leads(o, t) && Moved(s, t, a) && Running(t, a)
    ensures t.agents[a] == NextAgent(s.w, s.agents[a], action)
    ensures t.w.files == NextFiles(s.w, s.agents[a], action, s.nextIno)
  {
    t := Apply(s, Act(a, action));
    LeadsOn(o, s, Act(a, action));
  }

  /** How far an agent inside the gate is from leaving it. */
  function WayToGo(pc: Pc): nat {
    match pc
    case Leave(_) => 0
    case Unlink(_, _) => 2
    case Judge(_, _) => 3
    case Inspect(_) => 4
    case Scan(pending) => 5 + 2 * |pending.Keys|
    case ScanJudge(pending, _, _) => 6 + 2 * |pending.Keys|
    case _ => 1
  }

  function WayOut(pc: Pc): Action {
    match pc
    case Entered => FailScan
    case Scan(_) => EndScan
    case ScanJudge(_, _, _) => EntryVerdict(true)
    case Inspect(_) => Read
    case Judge(_, _) => Verdict(true, false)
    case Unlink(_, _) => Remove
    case _ => GiveUp
  }

  predicate IsWayOut(w: World, g: Agent, action: Action) {
    && CanAct(w, g, action) && !action.Link?
    && InGate(NextAgent(w, g, action).pc)
    && WayToGo(NextAgent(w, g, action).pc) < WayToGo(g.pc)
    && (action.Remove? && g.pc.Unlink? ==> g.pc.stage.Target?)
  }

  lemma OnlyLinksAdd(w: World, g: Agent, action: Action, ino: nat)
    requires !action.Link?
    ensures FilesRemain(NextFiles(w, g, action, ino), w.files)
  {
  }

  lemma EntryIsWayOut(w: World, g: Agent, entry: string)
    requires g.pc.Scan? && entry in g.pc.pending
    ensures IsWayOut(w, g, ReadEntry(entry))
  {
    assert (g.pc.pending - {entry}).Keys == g.pc.pending.Keys - {entry};
  }

  lemma ThisIsWayOut(w: World, g: Agent)
    requires InGate(g.pc) && !g.pc.Leave? && !(g.pc.Scan? && g.pc.pending != map[])
    ensures IsWayOut(w, g, WayOut(g.pc))
  {
  }

  // An agent inside the gate can always make its way to the end of it.
  lemma {:induction false} ComesToLeave(o: State, s: State, a: nat) returns (t: State)
    requires Leads(o, s) && Running(s, a) && InGate(s.agents[a].pc)
    ensures Leads(o, t) && Moved(s, t, a) && Running(t, a) && t.agents[a].pc.Leave?
    ensures FilesRemain(t.w.files, s.w.files)
    decreases WayToGo(s.agents[a].pc)
  {
    t := s;
    if !s.agents[a].pc.Leave? {
      var pc, action := s.agents[a].pc, WayOut(s.agents[a].pc);
      if pc.Scan? && pc.pending != map[] {
        var entry :| entry in pc.pending;
        action := ReadEntry(entry);
        EntryIsWayOut(s.w, s.agents[a], entry);
      } else {
        ThisIsWayOut(s.w, s.agents[a]);
      }
      OnlyLinksAdd(s.w, s.agents[a], action, s.nextIno);
      t := Acts(o, s, a, action);
      t := ComesToLeave(o, t, a);
    }
  }

  /** The scope lock files that `pending` lists are not held by anybody. */
  ghost predicate NoneLive(w: World, pending: map<string, nat>) {
    forall f :: f in pending && f in w.files ==> !FileIsLive(w.os, w.files[f], true)
  }

  // A scan that finds no live lock passes.
  lemma {:induction false} ScanPasses(o: State, s: State, a: nat) returns (t: State)
    requires Leads(o, s) && Running(s, a) && s.agents[a].pc.Scan? && NoneLive(s.w, s.agents[a].pc.pending)
    ensures Leads(o, t) && Moved(s, t, a) && Running(t, a)
    ensures t.agents[a] == s.agents[a].(pc := Publish(Target)) && t.w.files == s.w.files
    decreases |s.agents[a].pc.pending.Keys|
  {
    var pending := s.agents[a].pc.pending;
    if pending == map[] {
      t := Acts(o, s, a, EndScan);
    } else {
      var e :| e in pending;
      assert (pending - {e}).Keys == pending.Keys - {e};
      t := Acts(o, s, a, ReadEntry(e));
      if e in s.w.files {
        t := Acts(o, t, a, EntryVerdict(true));
      }
      t := ScanPasses(o, t, a);
    }
  }

  // A lock file of somebody gone is taken over.
  lemma TakesOver(o: State, s: State, a: nat) returns (t: State)
    requires Leads(o, s) && Running(s, a) && s.agents[a].pc == Publish(Target)
    requires var path := TargetPath(s.agents[a]); path in s.w.files && !FileIsLive(s.w.os, s.w.files[path], true)
    ensures Leads(o, t) && Moved(s, t, a) && Running(t, a)
    ensures t.agents[a] == s.agents[a] && t.w.files == s.w.files - {TargetPath(s.agents[a])}
  {
    t := Acts(o, s, a, Link(true));
    t := Acts(o, t, a, Read);
    t := Acts(o, t, a, Verdict(true, false));
    t := Acts(o, t, a, Remove);
  }

  // An agent past its scan is granted its lock if nobody alive holds it.
  lemma IsGranted(o: State, s: State, a: nat) returns (t: State)
    requires Leads(o, s) && Running(s, a) && s.agents[a].pc == Publish(Target)
    requires var path := TargetPath(s.agents[a]); path in s.w.files ==> !FileIsLive(s.w.os, s.w.files[path], true)
    ensures Leads(o, t) && Moved(s, t, a) && Running(t, a)
    ensures t.agents[a] == s.agents[a].(pc := Leave(true))
    ensures t.w.files - {TargetPath(s.agents[a])} == s.w.files - {TargetPath(s.agents[a])}
  {
    t := s;
    if TargetPath(s.agents[a]) in s.w.files {
      t := TakesOver(o, s, a);
    }
    t := Acts(o, t, a, Link(true));
  }

  // An idle agent walks into a gate without a gate file.
  lemma Enters(o: State, s: State, a: nat, scope: LockScope) returns (t: State)
    requires Leads(o, s) && Running(s, a) && s.agents[a].pc.Idle? && Lockable(scope) && GATE_LOCK_FILE !in s.w.files
    ensures Leads(o, t) && Moved(s, t, a) && Running(t, a)
    ensures t.agents[a] == Agent(s.agents[a].proc, scope, Entered)
    ensures t.w.files - {GATE_LOCK_FILE} == s.w.files
  {
    t := Acts(o, s, a, Begin(scope));
    t := Acts(o, t, a, Link(true));
  }

  // -- newcomers --

  lemma {:induction false} FreshNat(x: set<nat>) returns (n: nat)
    ensures forall m :: m in x ==> m < n
  {
    if x == {} {
      n := 0;
    } else {
      var m :| m in x;
      n := FreshNat(x - {m});
      n := if m < n then n else m + 1;
      assert x == (x - {m}) + {m};
    }
  }

  /** No lock file but the gate's records one of these PIDs. */
  ghost predicate Unrecorded(files: map<string, File>, pids: set<nat>) {
    forall f :: f in files && f != GATE_LOCK_FILE && files[f].content.Record? ==> files[f].content.pid !in pids
  }

  lemma Environment(o: State, s: State, step: Step) returns (t: State)
    requires Leads(o, s) && Enabled(s, step) && !step.Act?
    ensures Leads(o, t) && t == Apply(s, step)
  {
    t := Apply(s, step);
    LeadsOn(o, s, step);
  }

  lemma FreshPid(s: State) returns (n: nat)
    ensures n > 0
    ensures forall pid :: pid in s.w.os ==> pid < n
    ensures forall p :: p in s.w.used ==> p.pid < n
    ensures forall f :: f in s.w.files && s.w.files[f].content.Record? ==> s.w.files[f].content.pid < n
  {
    var recorded := set f | f in s.w.files && s.w.files[f].content.Record? :: s.w.files[f].content.pid;
    var used := set p | p in s.w.used :: p.pid;
    n := FreshNat({0} + s.w.os.Keys + used + recorded);
    assert 0 in {0} + s.w.os.Keys + used + recorded;
    forall p | p in s.w.used
      ensures p.pid < n
    {
      assert p.pid in used;
    }
    forall f | f in s.w.files && s.w.files[f].content.Record?
      ensures s.w.files[f].content.pid < n
    {
      assert s.w.files[f].content.pid in recorded;
    }
  }

  /** The process is running, next to those that ran before; nothing else has changed. */
  ghost predicate Started(s: State, t: State, p: Proc) {
    && t.agents == s.agents && t.w.files == s.w.files && Alive(t.w.os, p)
    && forall q :: Alive(s.w.os, q) ==> Alive(t.w.os, q)
  }

  lemma ProcessStarts(o: State, s: State) returns (t: State, p: Proc)
    requires Leads(o, s)
    ensures Leads(o, t) && Started(s, t, p) && p.pid !in s.w.os
    ensures Unrecorded(t.w.files, {p.pid})
  {
    var n := FreshPid(s);
    p := Proc(n, 0);
    t := Environment(o, s, Start(p));
  }

  // Two agents of two new processes, with PIDs no lock file has ever seen, join in.
  lemma TwoJoin(o: State, s: State) returns (t: State, c: nat, d: nat)
    requires Leads(o, s)
    ensures Leads(o, t) && t.w.files == s.w.files
    ensures forall a :: Running(s, a) ==> Running(t, a) && t.agents[a] == s.agents[a] && a != c && a != d
    ensures c != d && Running(t, c) && Running(t, d) && t.agents[c].pc.Idle? && t.agents[d].pc.Idle?
    ensures t.agents[c].proc.pid != t.agents[d].proc.pid
    ensures Unrecorded(t.w.files, {t.agents[c].proc.pid, t.agents[d].proc.pid})
  {
    var one, two, p, q;
    one, p := ProcessStarts(o, s);
    two, q := ProcessStarts(o, one);
    c := FreshNat(s.agents.Keys);
    d := c + 1;
    t := Environment(o, two, Spawn(c, p));
    t := Environment(o, t, Spawn(d, q));
  }

  // All processes but these may end.
  lemma {:induction false} OthersEnd(o: State, s: State, keep: set<nat>) returns (t: State)
    requires Leads(o, s)
    ensures Leads(o, t) && t.agents == s.agents && t.w.files == s.w.files
    ensures t.w.os.Keys <= keep
    ensures forall pid :: pid in s.w.os && pid in keep ==> pid in t.w.os && t.w.os[pid] == s.w.os[pid]
    decreases |s.w.os.Keys - keep|
  {
    t := s;
    if pid :| pid in s.w.os && pid !in keep {
      t := Environment(o, s, Exit(pid));
      assert t.w.os.Keys - keep == (s.w.os.Keys - keep) - {pid};
      t := OthersEnd(o, t, keep);
    }
  }

  // -- an agent in the gate without a gate file --

  /** Two running agents of conflicting scopes, and no lock file but the gate's that anybody alive holds. */
  ghost predicate Doubled(s: State, c: nat, d: nat, x: string) {
    && c != d && Running(s, c) && Running(s, d)
    && s.agents[c].scope == Global && s.agents[d].scope == Backup(x) && Lockable(Backup(x)) && x != GLOBAL_STEM
    && forall f :: f in s.w.files && f != GATE_LOCK_FILE ==> !FileIsLive(s.w.os, s.w.files[f], true)
  }

  // Two newcomers enter: the first finds no gate file, and the agent that was inside removes the first one's.
  lemma TwoEnter(o: State, s: State, b: nat, x: string) returns (t: State, c: nat, d: nat)
    requires Leads(o, s) && Running(s, b) && InGate(s.agents[b].pc) && GATE_LOCK_FILE !in s.w.files
    requires Lockable(Backup(x)) && x != GLOBAL_STEM
    ensures Leads(o, t) && c != d && Running(t, c) && Running(t, d)
    ensures t.agents[c].scope == Global && t.agents[d].scope == Backup(x)
    ensures t.agents[c].pc.Entered? && t.agents[d].pc.Entered?
    ensures Unrecorded(t.w.files, {t.agents[c].proc.pid, t.agents[d].proc.pid})
  {
    var joined, first, leaving, gone: State;
    joined, c, d := TwoJoin(o, s);
    var pids := {joined.agents[c].proc.pid, joined.agents[d].proc.pid};
    first := Enters(o, joined, c, Global);
    leaving := ComesToLeave(o, first, b);
    gone := Acts(o, leaving, b, DropGate);
    t := Enters(o, gone, d, Backup(x));
    StillUnrecorded(first.w.files, joined.w.files, pids);
    StillUnrecorded(leaving.w.files, first.w.files, pids);
    StillUnrecorded(t.w.files, leaving.w.files, pids);
  }

  lemma StillUnrecorded(files: map<string, File>, more: map<string, File>, pids: set<nat>)
    requires FilesRemain(files - {GATE_LOCK_FILE}, more) && Unrecorded(more, pids)
    ensures Unrecorded(files, pids)
  {
    forall f | f in files && f != GATE_LOCK_FILE && files[f].content.Record?
      ensures files[f].content.pid !in pids
    {
      assert f in files - {GATE_LOCK_FILE};
    }
  }

  lemma TwoAreAlone(o: State, s: State, b: nat, x: string) returns (t: State, c: nat, d: nat)
    requires Leads(o, s) && Running(s, b) && InGate(s.agents[b].pc) && GATE_LOCK_FILE !in s.w.files
    requires Lockable(Backup(x)) && x != GLOBAL_STEM
    ensures Leads(o, t) && Doubled(t, c, d, x)
    ensures t.agents[c].pc.Entered? && t.agents[d].pc.Entered?
  {
    t, c, d := TwoEnter(o, s, b, x);
    t := OthersEnd(o, t, {t.agents[c].proc.pid, t.agents[d].proc.pid});
  }

  // Each passes the cross-tier check.
  lemma Passes(o: State, s: State, a: nat, c: nat, d: nat, x: string) returns (t: State)
    requires Leads(o, s) && Doubled(s, c, d, x) && a in {c, d} && s.agents[a].pc.Entered?
    ensures Leads(o, t) && Doubled(t, c, d, x) && Moved(s, t, a)
    ensures t.agents[a] == s.agents[a].(pc := Publish(Target)) && t.w.files == s.w.files
  {
    GateAndStagedFilesAreNotScopeLocks("", "", GLOBAL_STEM);
    t := Acts(o, s, a, OpenDir);
    t := ScanPasses(o, t, a);
  }

  // Past the check, both are granted their locks.
  lemma BothAreGranted(o: State, s: State, c: nat, d: nat, x: string)
    requires Leads(o, s) && Doubled(s, c, d, x)
    requires s.agents[c].pc == Publish(Target) && s.agents[d].pc == Publish(Target)
    ensures CanBreak(o)
  {
    if ScopePath(x) == ScopePath(GLOBAL_STEM) {
      ScopePathInjective(x, GLOBAL_STEM);
    }
    GateAndStagedFilesAreNotScopeLocks("", "", GLOBAL_STEM);
    GateAndStagedFilesAreNotScopeLocks("", "", x);
    var one := IsGranted(o, s, c);
    var global := {ScopePath(GLOBAL_STEM)};
    assert ScopePath(x) in one.w.files - global <==> ScopePath(x) in s.w.files - global;
    var both := IsGranted(o, one, d);
    assert Holds(both, c) && Holds(both, d);
    assert !MutualExclusion(both);
  }

  // A gate without a gate file keeps nobody apart.
  lemma UnguardedGateBreaks(s: State, b: nat, x: string)
    requires Running(s, b) && InGate(s.agents[b].pc) && GATE_LOCK_FILE !in s.w.files
    requires Lockable(Backup(x)) && x != GLOBAL_STEM
    ensures CanBreak(s)
  {
    LeadsToItself(s);
    var t, c, d := TwoAreAlone(s, s, b, x);
    t := Passes(s, t, c, c, d, x);
    t := Passes(s, t, d, c, d, x);
    BothAreGranted(s, t, c, d, x);
  }

  /** As `s`, but the file agent `a` is about to remove is the very one now at the gate's path. */
  function AsIfJudged(s: State, a: nat): State
    requires a in s.agents && GATE_LOCK_FILE in s.w.files
  {
    s.(agents := s.agents[a := s.agents[a].(pc := Unlink(Gate, s.w.files[GATE_LOCK_FILE]))])
  }

  lemma AsIfJudgedKeepsInv(s: State, a: nat)
    requires Inv(s) && Running(s, a) && s.agents[a].pc.Unlink? && s.agents[a].pc.stage.Gate?
    requires GATE_LOCK_FILE in s.w.files && !GateFileIsFresh(s.w)
    ensures Inv(AsIfJudged(s, a))
  {
    var s' := AsIfJudged(s, a);
    assert AgentInv(s.w, s.agents[a]);
    forall b | Running(s', b)
      ensures AgentInv(s'.w, s'.agents[b])
      ensures b != a ==> PairInv(s'.w, s'.agents[a], s'.agents[b]) && PairInv(s'.w, s'.agents[b], s'.agents[a])
    {
      assert Running(s, b) && AgentInv(s.w, s.agents[b]);
    }
  }

  // Removing an abandoned gate file is no different from removing the one judged.
  lemma StaleGateIsRemovedSafely(s: State, a: nat)
    requires Inv(s) && Running(s, a) && s.agents[a].pc.Unlink? && s.agents[a].pc.stage.Gate?
    requires !GateFileIsFresh(s.w)
    ensures Inv(Apply(s, Act(a, Remove)))
  {
    if GATE_LOCK_FILE in s.w.files {
      AsIfJudgedKeepsInv(s, a);
      StepPreservesInv(AsIfJudged(s, a), Act(a, Remove));
      assert Apply(AsIfJudged(s, a), Act(a, Remove)).agents == Apply(s, Act(a, Remove)).agents;
    } else {
      StepPreservesInv(s, Act(a, Remove));
    }
  }

  // The first takeover of a run that can go wrong leads to a breach of mutual exclusion, in some continuation in
  // which every further takeover hits, if and only if the gate file it removes was written by a process that is
  // still running.
  lemma TakeoverIsSafeIff(states: seq<State>, steps: seq<Step>, i: nat, a: nat)
    requires Run(states, steps) && i <= |steps|
    requires forall k :: 0 <= k < i ==> StepHits(states[k], steps[k])
    requires Running(states[i], a) && states[i].agents[a].pc.Unlink? && states[i].agents[a].pc.stage.Gate?
    ensures Enabled(states[i], Act(a, Remove))
    ensures CanBreak(Apply(states[i], Act(a, Remove))) <==> GateFileIsFresh(states[i].w)
  {
    var s, t := states[i], Apply(states[i], Act(a, Remove));
    InvHoldsAlong(states, steps, i);
    WriterInsideAlong(states, steps, i);
    if GateFileIsFresh(s.w) {
      var b :| Running(s, b) && InGate(s.agents[b].pc) && s.w.files[GATE_LOCK_FILE].writer == Some(s.agents[b].proc);
      UnguardedGateBreaks(t, b, "x");
    } else {
      StaleGateIsRemovedSafely(s, a);
      InvIsSafe(t);
    }
  }

  // -- who can hold locks at once --

  /** Some run reaches the state without a misdirected takeover of the gate. */
  ghost predicate Reached(s: State) {
    exists s0 :: Init(s0) && Leads(s0, s)
  }

  ghost predicate HeldTogether(s: State, x: LockScope, y: LockScope) {
    exists a, b :: a != b && Holds(s, a) && Holds(s, b) && s.agents[a].scope == x && s.agents[b].scope == y
  }

  lemma ReachedIsExclusive(s: State)
    requires Reached(s)
    ensures MutualExclusion(s)
  {
    var s0 :| Init(s0) && Leads(s0, s);
    InitEstablishesInv(s0);
    InvIsSafe(s0);
    assert !CanBreak(s0);
  }

  // An idle agent gets its backup's lock while nobody holds the gate, the global lock or that very lock.
  lemma GetsBackupLock(o: State, s: State, a: nat, name: string) returns (t: State)
    requires Leads(o, s) && Running(s, a) && s.agents[a].pc.Idle? && Lockable(Backup(name))
    requires GATE_LOCK_FILE !in s.w.files && ScopePath(name) !in s.w.files && ScopePath(GLOBAL_STEM) !in s.w.files
    ensures Leads(o, t) && Moved(s, t, a) && Running(t, a)
    ensures t.agents[a].pc.Holding? && t.agents[a].scope == Backup(name)
    ensures t.w.files.Keys <= s.w.files.Keys + {ScopePath(name)} && GATE_LOCK_FILE !in t.w.files
  {
    GateAndStagedFilesAreNotScopeLocks("", "", GLOBAL_STEM);
    GateAndStagedFilesAreNotScopeLocks("", "", name);
    var entered := Enters(o, s, a, Backup(name));
    forall f | f in entered.w.files && f != GATE_LOCK_FILE
      ensures f in s.w.files
    {
      assert f in entered.w.files - {GATE_LOCK_FILE};
    }
    t := TakesBackupLock(o, entered, a, name);
  }

  lemma TakesBackupLock(o: State, s: State, a: nat, name: string) returns (t: State)
    requires Leads(o, s) && Running(s, a) && s.agents[a].pc.Entered? && s.agents[a].scope == Backup(name)
    requires ScopePath(name) !in s.w.files && ScopePath(GLOBAL_STEM) !in s.w.files
    ensures Leads(o, t) && Moved(s, t, a) && Running(t, a)
    ensures t.agents[a].pc.Holding? && t.agents[a].scope == Backup(name)
    ensures t.w.files.Keys <= s.w.files.Keys + {ScopePath(name)} && GATE_LOCK_FILE !in t.w.files
  {
    t := Acts(o, s, a, OpenDir);
    t := ScanPasses(o, t, a);
    t := Acts(o, t, a, Link(true));
    t := Acts(o, t, a, DropGate);
  }

  lemma TwoIdleAgents() returns (o: State, s: State)
    ensures Init(o) && Leads(o, s) && Running(s, 0) && Running(s, 1) && s.w.files == map[]
    ensures s.agents[0].pc.Idle? && s.agents[1].pc.Idle? && s.agents[0].proc != s.agents[1].proc
  {
    o := State(World(map[], map[1 := 10, 2 := 20], {G, B}), map[], 1);
    LeadsToItself(o);
    s := Environment(o, o, Spawn(0, G));
    s := Environment(o, s, Spawn(1, B));
  }

  lemma BackupsCoexist(x: string, y: string) returns (t: State)
    requires Lockable(Backup(x)) && Lockable(Backup(y)) && x != y && x != GLOBAL_STEM
    ensures Reached(t) && HeldTogether(t, Backup(x), Backup(y)) && HeldTogether(t, Backup(y), Backup(x))
  {
    var o, s := TwoIdleAgents();
    if ScopePath(x) == ScopePath(y) {
      ScopePathInjective(x, y);
    }
    if ScopePath(x) == ScopePath(GLOBAL_STEM) {
      ScopePathInjective(x, GLOBAL_STEM);
    }
    GateAndStagedFilesAreNotScopeLocks("", "", x);
    t := GetsBackupLock(o, s, 0, x);
    t := GetsBackupLock(o, t, 1, y);
    assert Holds(t, 0) && Holds(t, 1);
  }

  // Two scopes can be held at once exactly if they are two different backups: backups do not exclude each other, and
  // everything else does.
  lemma CoexistIff(x: LockScope, y: LockScope)
    requires Lockable(x) && Lockable(y)
    ensures (exists s :: Reached(s) && HeldTogether(s, x, y)) <==> x.Backup? && y.Backup? && x != y
  {
    if s :| Reached(s) && HeldTogether(s, x, y) {
      ReachedIsExclusive(s);
    }
    if x.Backup? && y.Backup? && x != y {
      if x.name != GLOBAL_STEM {
        var t := BackupsCoexist(x.name, y.name);
      } else {
        var t := BackupsCoexist(y.name, x.name);
      }
    }
  }
}
