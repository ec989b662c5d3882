/** Safety of the lock protocol over whole runs, and the one interleaving that breaks it. */
module LockRuns {
  import opened Options
  import opened LockNames
  import opened LockProtocol

  /** A run of any length: each state follows from the one before by an enabled step. */
  ghost predicate Run(states: seq<State>, steps: seq<Step>) {
    && |states| == |steps| + 1
    && Init(states[0])
    && forall i :: 0 <= i < |steps| ==> Enabled(states[i], steps[i]) && states[i + 1] == Apply(states[i], steps[i])
  }

  lemma {:induction false} InvHoldsAlong(states: seq<State>, steps: seq<Step>, i: nat)
    requires Run(states, steps) && i <= |steps|
    requires forall k :: 0 <= k < i ==> StepHits(states[k], steps[k])
    ensures Inv(states[i])
  {
    if i == 0 {
      InitEstablishesInv(states[0]);
    } else {
      InvHoldsAlong(states, steps, i - 1);
      StepPreservesInv(states[i - 1], steps[i - 1]);
    }
  }

  // Mutual exclusion in every state of every run, provided no takeover of the gate unlinks a file
  // published after the one it judged.
  lemma ExclusionWhileTakeoversHit(states: seq<State>, steps: seq<Step>, i: nat)
    requires Run(states, steps) && i <= |steps|
    requires forall k :: 0 <= k < i ==> StepHits(states[k], steps[k])
    ensures MutualExclusion(states[i])
  {
    InvHoldsAlong(states, steps, i);
    InvGivesMutualExclusion(states[i]);
  }

  /** No separate unlink of the gate: it is only ever taken over in one indivisible read-judge-unlink. */
  predicate TakesOverAtOnce(s: State, step: Step) {
    step.Act? && step.action.Remove? && step.a in s.agents && s.agents[step.a].pc.Unlink? ==>
      s.agents[step.a].pc.stage.Target?
  }

  // With an indivisible takeover of the gate, processes may crash anywhere, even inside the gate, and
  // the directory may start with a stale or corrupt gate and any leftover locks.
  lemma ExclusionWithAtomicTakeover(states: seq<State>, steps: seq<Step>, i: nat)
    requires Run(states, steps) && i <= |steps|
    requires forall k :: 0 <= k < |steps| ==> TakesOverAtOnce(states[k], steps[k])
    ensures MutualExclusion(states[i])
  {
    forall k | 0 <= k < i
      ensures StepHits(states[k], steps[k])
    {
      assert TakesOverAtOnce(states[k], steps[k]);
    }
    ExclusionWhileTakeoversHit(states, steps, i);
  }

  /** A process ends only while the gate is not its own and nobody is looking at a gate file it wrote. */
  ghost predicate EndsAwayFromGate(s: State, step: Step) {
    step.Exit? && step.pid in s.w.os ==>
      var p := Proc(step.pid, s.w.os[step.pid]);
      && !Owns(s.w, GATE_LOCK_FILE, p)
      && forall a :: Running(s, a) && s.agents[a].pc.Judge? && s.agents[a].pc.stage.Gate? ==>
           s.agents[a].pc.seen.writer != Some(p)
  }

  /** The gate, and every gate file under inspection, belongs to a running process; no takeover is under way. */
  ghost predicate GateNeverStale(s: State) {
    && (GATE_LOCK_FILE in s.w.files ==> OfRunning(s.w, s.w.files[GATE_LOCK_FILE]))
    && (forall a :: Running(s, a) && s.agents[a].pc.Judge? && s.agents[a].pc.stage.Gate? ==>
          OfRunning(s.w, s.agents[a].pc.seen))
    && (forall a :: Running(s, a) && s.agents[a].pc.Unlink? ==> s.agents[a].pc.stage.Target?)
  }

  predicate OfRunning(w: World, f: File) {
    f.writer.Some? && Alive(w.os, f.writer.value)
  }

  lemma GateStaysFresh(s: State, step: Step)
    requires Inv(s) && GateNeverStale(s) && Enabled(s, step) && EndsAwayFromGate(s, step)
    ensures StepHits(s, step) && GateNeverStale(Apply(s, step))
  {
    var t := Apply(s, step);
    if step.Act? {
      var g := s.agents[step.a];
      FilesAfter(s.w, g, step.action, s.nextIno, GATE_LOCK_FILE);
      assert AgentInv(s.w, g);
      GateAndStagedFilesAreNotScopeLocks("", "", Stem(g.scope));
    }
    forall a | Running(t, a)
      ensures t.agents[a].pc.Judge? && t.agents[a].pc.stage.Gate? ==> OfRunning(t.w, t.agents[a].pc.seen)
      ensures t.agents[a].pc.Unlink? ==> t.agents[a].pc.stage.Target?
    {
      if !(step.Spawn? && step.b == a) {
        assert Running(s, a) && AgentInv(s.w, s.agents[a]);
      }
    }
  }

  // With every system call a separate step and crashes everywhere else, exclusion holds as long as
  // nobody dies inside the gate or under the eyes of somebody waiting for it.
  lemma ExclusionWhileGateOwnersLive(states: seq<State>, steps: seq<Step>, i: nat)
    requires Run(states, steps) && i <= |steps|
    requires GATE_LOCK_FILE !in states[0].w.files
    requires forall k :: 0 <= k < |steps| ==> EndsAwayFromGate(states[k], steps[k])
    ensures MutualExclusion(states[i])
  {
    GateFreshAlong(states, steps, i);
    ExclusionWhileTakeoversHit(states, steps, i);
  }

  lemma {:induction false} GateFreshAlong(states: seq<State>, steps: seq<Step>, i: nat)
    requires Run(states, steps) && i <= |steps|
    requires GATE_LOCK_FILE !in states[0].w.files
    requires forall k :: 0 <= k < |steps| ==> EndsAwayFromGate(states[k], steps[k])
    ensures GateNeverStale(states[i])
    ensures forall k :: 0 <= k < i ==> StepHits(states[k], steps[k])
  {
    if i > 0 {
      GateFreshAlong(states, steps, i - 1);
      InvHoldsAlong(states, steps, i - 1);
      GateStaysFresh(states[i - 1], steps[i - 1]);
    }
  }

  /** Some running agent other than `a` is inside the gate. */
  ghost predicate GateOccupied(s: State, a: nat) {
    exists b :: b != a && Running(s, b) && InGate(s.agents[b].pc)
  }

  /** The gate file now at the path was written by a process that is still running. */
  predicate GateFileIsFresh(w: World) {
    GATE_LOCK_FILE in w.files && OfRunning(w, w.files[GATE_LOCK_FILE])
  }

  /** Some running agent of the process that wrote the gate file is inside the gate. */
  ghost predicate WriterIsInside(s: State) {
    GateFileIsFresh(s.w) ==>
      exists b :: Running(s, b) && InGate(s.agents[b].pc)
                  && s.w.files[GATE_LOCK_FILE].writer == Some(s.agents[b].proc)
  }

  // An action leaves the gate file alone, removes it, or creates it where there was none.
  lemma GateFileAfter(w: World, g: Agent, action: Action, ino: nat)
    ensures var files := NextFiles(w, g, action, ino);
            GATE_LOCK_FILE in files && GATE_LOCK_FILE in w.files ==> files[GATE_LOCK_FILE] == w.files[GATE_LOCK_FILE]
  {
  }

  ghost predicate AllLockable(s: State) {
    forall a :: a in s.agents ==> Lockable(s.agents[a].scope)
  }

  lemma ActionKeepsWriterInside(s: State, a: nat, action: Action)
    requires AllLockable(s) && WriterIsInside(s) && Enabled(s, Act(a, action))
    ensures WriterIsInside(Apply(s, Act(a, action)))
  {
    var t, g := Apply(s, Act(a, action)), s.agents[a];
    FilesAfter(s.w, g, action, s.nextIno, GATE_LOCK_FILE);
    GateFileAfter(s.w, g, action, s.nextIno);
    GateAndStagedFilesAreNotScopeLocks("", "", Stem(g.scope));
    if GateFileIsFresh(t.w) {
      if GATE_LOCK_FILE in s.w.files {
        var b :| Running(s, b) && InGate(s.agents[b].pc)
                 && s.w.files[GATE_LOCK_FILE].writer == Some(s.agents[b].proc);
        assert Running(t, b) && InGate(t.agents[b].pc);
      } else {
        assert Running(t, a) && InGate(t.agents[a].pc);
      }
    }
  }

  // A fresh gate file always has its writer inside, even after a takeover that removed the wrong file.
  lemma WriterStaysInside(s: State, step: Step)
    requires WorldInv(s) && AllLockable(s) && WriterIsInside(s) && Enabled(s, step)
    ensures AllLockable(Apply(s, step)) && WriterIsInside(Apply(s, step))
  {
    var t := Apply(s, step);
    if step.Act? {
      ActionKeepsWriterInside(s, step.a, step.action);
    } else if GateFileIsFresh(t.w) {
      assert GateFileIsFresh(s.w);
      var b :| Running(s, b) && InGate(s.agents[b].pc)
               && s.w.files[GATE_LOCK_FILE].writer == Some(s.agents[b].proc);
      assert Running(t, b) && t.agents[b] == s.agents[b];
    }
  }

  // In every run at all, whatever takeovers have done before.
  lemma {:induction false} WriterInsideAlong(states: seq<State>, steps: seq<Step>, i: nat)
    requires Run(states, steps) && i <= |steps|
    ensures WorldInv(states[i]) && AllLockable(states[i]) && WriterIsInside(states[i])
  {
    if i > 0 {
      WriterInsideAlong(states, steps, i - 1);
      StepKeepsWorldInv(states[i - 1], steps[i - 1]);
      WriterStaysInside(states[i - 1], steps[i - 1]);
    }
  }

  // The gate is occupied exactly while the file at its path is of a running process.
  lemma OccupiedIffFresh(s: State, a: nat)
    requires Inv(s) && WriterIsInside(s) && Running(s, a) && !InGate(s.agents[a].pc)
    ensures GateOccupied(s, a) <==> GateFileIsFresh(s.w)
  {
    if GateOccupied(s, a) {
      var b :| b != a && Running(s, b) && InGate(s.agents[b].pc);
      assert AgentInv(s.w, s.agents[b]);
    }
  }

  // Removing the file and linking its own puts the waiter inside, and disturbs nobody else there.
  lemma TakeoverEnters(s: State, a: nat, tokenKnown: bool)
    requires Inv(s) && Running(s, a) && s.agents[a].pc.Unlink? && s.agents[a].pc.stage.Gate?
    ensures Enabled(s, Act(a, Remove))
    ensures var t := Apply(s, Act(a, Remove));
            && Enabled(t, Act(a, Link(tokenKnown)))
            && var u := Apply(t, Act(a, Link(tokenKnown)));
               && Running(u, a) && InGate(u.agents[a].pc)
               && (GateOccupied(u, a) <==> GateOccupied(s, a))
  {
    var t := Apply(s, Act(a, Remove));
    var u := Apply(t, Act(a, Link(tokenKnown)));
    assert AgentInv(s.w, s.agents[a]);
    forall b | b != a
      ensures Running(u, b) && InGate(u.agents[b].pc) <==> Running(s, b) && InGate(s.agents[b].pc)
    {
      assert b in u.agents <==> b in s.agents;
    }
    if GateOccupied(s, a) {
      var b :| b != a && Running(s, b) && InGate(s.agents[b].pc);
      assert Running(u, b) && InGate(u.agents[b].pc);
    }
    if GateOccupied(u, a) {
      var b :| b != a && Running(u, b) && InGate(u.agents[b].pc);
      assert Running(s, b) && InGate(s.agents[b].pc);
    }
  }

  // Exactly when a takeover goes wrong, at the first takeover of a run that can: it puts a second agent inside the
  // gate if and only if the file now at the gate's path was written by a process that is still running. A waiter
  // could read that off the file before unlinking it.
  lemma TakeoverLetsSecondAgentIn(states: seq<State>, steps: seq<Step>, i: nat, a: nat, tokenKnown: bool)
    requires Run(states, steps) && i <= |steps|
    requires forall k :: 0 <= k < i ==> StepHits(states[k], steps[k])
    requires Running(states[i], a) && states[i].agents[a].pc.Unlink? && states[i].agents[a].pc.stage.Gate?
    ensures Enabled(states[i], Act(a, Remove))
    ensures var t := Apply(states[i], Act(a, Remove));
            && Enabled(t, Act(a, Link(tokenKnown)))
            && var u := Apply(t, Act(a, Link(tokenKnown)));
               && Running(u, a) && InGate(u.agents[a].pc)
               && (GateOccupied(u, a) <==> GateFileIsFresh(states[i].w))
  {
    InvHoldsAlong(states, steps, i);
    WriterInsideAlong(states, steps, i);
    OccupiedIffFresh(states[i], a);
    TakeoverEnters(states[i], a, tokenKnown);
  }

  // -- a concrete run that none of the provisos above covers --

  /** The gate file of a process that crashed before the run. */
  const DEAD_GATE: File := File(0, None, Record(7, None))
  const G: Proc := Proc(1, 10)
  const B: Proc := Proc(2, 20)
  const X: LockScope := Backup("x")

  function At(files: map<string, File>, g: Agent, b: Agent, ino: nat): State {
    State(World(files, map[1 := 10, 2 := 20], {G, B}), map[0 := g, 1 := b], ino)
  }

  function Of(p: Proc, ino: nat): File {
    File(ino, Some(p), Record(p.pid, Some(p.token)))
  }

  ghost predicate Reachable(s: State) {
    exists states, steps :: Run(states, steps) && states[|steps|] == s
  }

  lemma Advance(s: State, step: Step, t: State)
    requires Reachable(s) && Enabled(s, step) && t == Apply(s, step)
    ensures Reachable(t)
  {
    var states, steps :| Run(states, steps) && states[|steps|] == s;
    assert Run(states + [t], steps + [step]);
    assert (states + [t])[|steps + [step]|] == t;
  }

  // A single action of either agent, written out as the two states around it.
  lemma AdvanceG(files: map<string, File>, g: Agent, b: Agent, ino: nat, action: Action,
                 files': map<string, File>, g': Agent)
    requires g.proc == G && b.proc == B && Reachable(At(files, g, b, ino))
    requires CanAct(At(files, g, b, ino).w, g, action)
    requires g' == NextAgent(At(files, g, b, ino).w, g, action)
    requires files' == NextFiles(At(files, g, b, ino).w, g, action, ino)
    ensures Reachable(At(files', g', b, ino + 1))
  {
    assert At(files', g', b, ino + 1).agents == At(files, g, b, ino).agents[0 := g'];
    Advance(At(files, g, b, ino), Act(0, action), At(files', g', b, ino + 1));
  }

  lemma AdvanceB(files: map<string, File>, g: Agent, b: Agent, ino: nat, action: Action,
                 files': map<string, File>, b': Agent)
    requires g.proc == G && b.proc == B && Reachable(At(files, g, b, ino))
    requires CanAct(At(files, g, b, ino).w, b, action)
    requires b' == NextAgent(At(files, g, b, ino).w, b, action)
    requires files' == NextFiles(At(files, g, b, ino).w, b, action, ino)
    ensures Reachable(At(files', g, b', ino + 1))
  {
    assert At(files', g, b', ino + 1).agents == At(files, g, b, ino).agents[1 := b'];
    Advance(At(files, g, b, ino), Act(1, action), At(files', g, b', ino + 1));
  }

  function Ag(pc: Pc): Agent { Agent(G, Global, pc) }

  function Ab(pc: Pc): Agent { Agent(B, X, pc) }

  function GateOf(p: Proc, ino: nat): map<string, File> { map[GATE_LOCK_FILE := Of(p, ino)] }

  lemma RaceBegins()
    ensures Reachable(At(map[GATE_LOCK_FILE := DEAD_GATE], Ag(Idle), Agent(B, Global, Idle), 1))
  {
    var dead := map[GATE_LOCK_FILE := DEAD_GATE];
    var w := World(dead, map[1 := 10, 2 := 20], {G, B});
    var s0, s1 := State(w, map[], 1), State(w, map[0 := Ag(Idle)], 1);
    var none: seq<Step> := [];
    assert Run([s0], none) && [s0][|none|] == s0;
    Advance(s0, Spawn(0, G), s1);
    Advance(s1, Spawn(1, B), At(dead, Ag(Idle), Agent(B, Global, Idle), 1));
  }

  // Both agents judge the same abandoned gate before either of them removes it.
  lemma BothCondemnTheGate()
    ensures Reachable(At(map[GATE_LOCK_FILE := DEAD_GATE], Ag(Unlink(Gate, DEAD_GATE)), Ab(Unlink(Gate, DEAD_GATE)), 9))
  {
    var dead := map[GATE_LOCK_FILE := DEAD_GATE];
    var idle, doomed := Agent(B, Global, Idle), Ag(Unlink(Gate, DEAD_GATE));
    RaceBegins();
    AdvanceG(dead, Ag(Idle), idle, 1, Begin(Global), dead, Ag(Publish(Gate)));
    AdvanceG(dead, Ag(Publish(Gate)), idle, 2, Link(true), dead, Ag(Inspect(Gate)));
    AdvanceG(dead, Ag(Inspect(Gate)), idle, 3, Read, dead, Ag(Judge(Gate, DEAD_GATE)));
    AdvanceG(dead, Ag(Judge(Gate, DEAD_GATE)), idle, 4, Verdict(true, false), dead, doomed);
    AdvanceB(dead, doomed, idle, 5, Begin(X), dead, Ab(Publish(Gate)));
    AdvanceB(dead, doomed, Ab(Publish(Gate)), 6, Link(true), dead, Ab(Inspect(Gate)));
    AdvanceB(dead, doomed, Ab(Inspect(Gate)), 7, Read, dead, Ab(Judge(Gate, DEAD_GATE)));
    AdvanceB(dead, doomed, Ab(Judge(Gate, DEAD_GATE)), 8, Verdict(true, false), dead, Ab(Unlink(Gate, DEAD_GATE)));
  }

  // The second removal hits the gate the first agent has published meanwhile.
  lemma BothEnterTheGate()
    ensures Reachable(At(GateOf(G, 12), Ag(Entered), Ab(Entered), 13))
  {
    var dead := map[GATE_LOCK_FILE := DEAD_GATE];
    var doomed := Ag(Unlink(Gate, DEAD_GATE));
    BothCondemnTheGate();
    AdvanceB(dead, doomed, Ab(Unlink(Gate, DEAD_GATE)), 9, Remove, map[], Ab(Publish(Gate)));
    AdvanceB(map[], doomed, Ab(Publish(Gate)), 10, Link(true), GateOf(B, 10), Ab(Entered));
    AdvanceG(GateOf(B, 10), doomed, Ab(Entered), 11, Remove, map[], Ag(Publish(Gate)));
    AdvanceG(map[], Ag(Publish(Gate)), Ab(Entered), 12, Link(true), GateOf(G, 12), Ag(Entered));
  }

  lemma BothFindNoConflict()
    ensures Reachable(At(GateOf(G, 12), Ag(Publish(Target)), Ab(Publish(Target)), 17))
  {
    var gate := GateOf(G, 12);
    BothEnterTheGate();
    GateAndStagedFilesAreNotScopeLocks("", "", GLOBAL_STEM);
    assert Snapshot(gate, Global) == map[] && Snapshot(gate, X) == map[];
    AdvanceG(gate, Ag(Entered), Ab(Entered), 13, OpenDir, gate, Ag(Scan(map[])));
    AdvanceG(gate, Ag(Scan(map[])), Ab(Entered), 14, EndScan, gate, Ag(Publish(Target)));
    AdvanceB(gate, Ag(Publish(Target)), Ab(Entered), 15, OpenDir, gate, Ab(Scan(map[])));
    AdvanceB(gate, Ag(Publish(Target)), Ab(Scan(map[])), 16, EndScan, gate, Ab(Publish(Target)));
  }

  // The protocol as it stands does not exclude the tiers: a takeover that reads, judges and unlinks in
  // separate calls can let a global holder and a backup holder in together.
  lemma SeparateTakeoverBreaksExclusion()
    ensures exists s :: Reachable(s) && !MutualExclusion(s)
  {
    var gate := GateOf(G, 12);
    var one := gate[ScopePath("x") := Of(B, 17)];
    var both := one[ScopePath(GLOBAL_STEM) := Of(G, 18)];
    BothFindNoConflict();
    GateAndStagedFilesAreNotScopeLocks("", "", GLOBAL_STEM);
    GateAndStagedFilesAreNotScopeLocks("", "", "x");
    if ScopePath("x") == ScopePath(GLOBAL_STEM) {
      ScopePathInjective("x", GLOBAL_STEM);
    }
    AdvanceB(gate, Ag(Publish(Target)), Ab(Publish(Target)), 17, Link(true), one, Ab(Leave(true)));
    AdvanceG(one, Ag(Publish(Target)), Ab(Leave(true)), 18, Link(true), both, Ag(Leave(true)));
    var last := At(both, Ag(Leave(true)), Ab(Leave(true)), 19);
    assert Holds(last, 0) && Holds(last, 1) && last.agents[0].scope.Global? && last.agents[1].scope.Backup?;
    assert !MutualExclusion(last);
  }
}
