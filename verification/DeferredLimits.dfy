/** Where the deferred-freeze protocol stops short of its promises: the exact conditions, and runs that meet them. */
module DeferredLimits {
  import opened Options
  import opened DeferredRecord
  import opened DeferredProtocol
  import opened DeferredRuns

  // -- a late writer can forget a new freeze --

  /** No further record is published. */
  predicate NothingPublished(steps: seq<Step>) {
    forall i :: 0 <= i < |steps| ==> !(steps[i].PublishRecord? && steps[i].ok)
  }

  /** From here on, without any further publication, some frozen table can end up without anybody accounting for it. */
  ghost predicate CanLoseTrack(s: State) {
    exists states, steps :: LosesTrack(s, states, steps)
  }

  ghost predicate LosesTrack(s: State, states: seq<State>, steps: seq<Step>) {
    && Follows(states, steps) && states[0] == s && NothingPublished(steps)
    && !Accounted(states[|steps|])
  }

  lemma LostAlready(s: State)
    requires !Accounted(s)
    ensures CanLoseTrack(s)
  {
    var none: seq<Step> := [];
    assert LosesTrack(s, [s], none);
  }

  lemma LosesAfter(s: State, step: Step)
    requires Enabled(s, step) && !(step.PublishRecord? && step.ok) && CanLoseTrack(Apply(s, step))
    ensures CanLoseTrack(s)
  {
    var states, steps :| LosesTrack(Apply(s, step), states, steps);
    assert LosesTrack(s, [s] + states, [step] + steps);
  }

  lemma {:induction false} AsSequence(x: set<FreezeInfo>) returns (xs: seq<FreezeInfo>)
    ensures forall e :: e in xs <==> e in x
  {
    if x == {} {
      xs := [];
    } else {
      var e :| e in x;
      xs := AsSequence(x - {e});
      xs := [e] + xs;
    }
  }

  /** The table is frozen, and only a write by agent `b` would decide whether it stays recorded. */
  predicate Forgotten(s: State, b: nat, x: FreezeInfo) {
    && Running(s, b) && HasView(s.agents[b].pc)
    && x in s.frozen && x !in View(s.agents[b].pc) && x !in s.stray && InHands(s) == {}
  }

  lemma ReleasingLosesTrack(s: State, b: nat, x: FreezeInfo)
    requires Forgotten(s, b, x) && s.agents[b].pc.Releasing? && s.agents[b].pc.todo == {}
    ensures CanLoseTrack(s)
  {
    var kept := AsSequence(s.agents[b].pc.failed);
    var step := FinishRelease(b, kept, true);
    assert (set e | e in kept) == s.agents[b].pc.failed;
    LostAlready(Apply(s, step));
    LosesAfter(s, step);
  }

  lemma RewritingLosesTrack(s: State, b: nat, x: FreezeInfo)
    requires Forgotten(s, b, x) && !s.agents[b].pc.Releasing?
    ensures CanLoseTrack(s)
  {
    var step := Rewrite(b, true);
    LostAlready(Apply(s, step));
    LosesAfter(s, step);
  }

  // An agent that has forgotten a table loses track of it by going on with what it is doing.
  lemma {:induction false} ForgottenIsLost(s: State, b: nat, x: FreezeInfo)
    requires Forgotten(s, b, x)
    ensures CanLoseTrack(s)
    decreases if s.agents[b].pc.Releasing? then |s.agents[b].pc.todo| else 0
  {
    var pc := s.agents[b].pc;
    if pc.Releasing? {
      if pc.todo == {} {
        ReleasingLosesTrack(s, b, x);
      } else {
        var e :| e in pc.todo;
        var step := UnfreezeOne(b, e, true);
        ForgottenIsLost(Apply(s, step), b, x);
        LosesAfter(s, step);
      }
    } else {
      RewritingLosesTrack(s, b, x);
    }
  }

  lemma AfterPublication(s: State, step: Step)
    requires Sound(s) && Enabled(s, step) && step.PublishRecord? && step.ok
    ensures InHands(Apply(s, step)) == {}
  {
    assert AgentIsSound(s, step.a);
  }

  // Publishing a record is safe exactly if no other running agent still holds a view of an earlier one that lacks a
  // table just frozen: otherwise that agent's own next writes leave the table frozen and unrecorded.
  lemma PublicationIsSafeIff(s: State, step: Step)
    requires Sound(s) && Covered(s) && Enabled(s, step) && step.PublishRecord? && step.ok
    ensures CanLoseTrack(Apply(s, step)) <==> !PublishesUnseen(s, step)
  {
    var t := Apply(s, step);
    if PublishesUnseen(s, step) {
      StepKeepsCoveredIff(s, step);
      StepKeepsSound(s, step);
      forall states, steps | Follows(states, steps) && states[0] == t && NothingPublished(steps)
        ensures Accounted(states[|steps|])
      {
        CoveredAlong(states, steps, |steps|);
      }
    } else {
      var b :| Running(s, b) && b != step.a && HasView(s.agents[b].pc)
               && !(Held(s.agents[step.a].pc) * s.frozen <= View(s.agents[b].pc) + s.stray);
      var x :| x in Held(s.agents[step.a].pc) * s.frozen && x !in View(s.agents[b].pc) + s.stray;
      OthersStand(s, step);
      AfterPublication(s, step);
      ForgottenIsLost(t, b, x);
    }
  }

  // -- a late writer can bring back an old freeze --

  /** From here on, without any further publication, the record can come to be of another freeze than `r`. */
  ghost predicate CanDrift(s: State, r: Record) {
    exists states, steps :: Drifts(s, r, states, steps)
  }

  ghost predicate Drifts(s: State, r: Record, states: seq<State>, steps: seq<Step>) {
    && Follows(states, steps) && states[0] == s && NothingPublished(steps)
    && Drifted(states[|steps|], r)
  }

  predicate Drifted(s: State, r: Record) {
    s.record.Stored? && !SameFreeze(r, s.record.record)
  }

  lemma DriftedAlready(s: State, r: Record)
    requires Drifted(s, r)
    ensures CanDrift(s, r)
  {
    var none: seq<Step> := [];
    assert Drifts(s, r, [s], none);
  }

  lemma DriftsAfter(s: State, step: Step, r: Record)
    requires Enabled(s, step) && !(step.PublishRecord? && step.ok) && CanDrift(Apply(s, step), r)
    ensures CanDrift(s, r)
  {
    var states, steps :| Drifts(Apply(s, step), r, states, steps);
    assert Drifts(s, r, [s] + states, [step] + steps);
  }

  lemma ReleasingDrifts(s: State, b: nat, r: Record)
    requires Running(s, b) && !WritesOf(r, s.agents[b].pc) && s.agents[b].pc.Releasing? && s.agents[b].pc.todo == {}
    ensures CanDrift(s, r)
  {
    var kept := AsSequence(s.agents[b].pc.failed);
    var step := FinishRelease(b, kept, true);
    assert (set e | e in kept) == s.agents[b].pc.failed;
    assert Entries(Demote(s.agents[b].pc.prior.(retained := kept))) == s.agents[b].pc.failed;
    DriftedAlready(Apply(s, step), r);
    DriftsAfter(s, step, r);
  }

  // An agent that works on another freeze brings its record back by going on, failing to unfreeze if need be.
  lemma {:induction false} LateWriterDrifts(s: State, b: nat, r: Record)
    requires Running(s, b) && !WritesOf(r, s.agents[b].pc)
    ensures CanDrift(s, r)
    decreases if s.agents[b].pc.Releasing? then |s.agents[b].pc.todo| else 0
  {
    var pc := s.agents[b].pc;
    if pc.Releasing? {
      if pc.todo == {} {
        ReleasingDrifts(s, b, r);
      } else {
        var e :| e in pc.todo;
        var step := UnfreezeOne(b, e, false);
        assert View(Apply(s, step).agents[b].pc) == View(pc);
        LateWriterDrifts(Apply(s, step), b, r);
        DriftsAfter(s, step, r);
      }
    } else {
      var step := Rewrite(b, true);
      DriftedAlready(Apply(s, step), r);
      DriftsAfter(s, step, r);
    }
  }

  // What is published stays, up to owner and fewer tables, until the next publication exactly if no running agent is
  // at work on the record of another freeze at that moment.
  lemma FreezeHoldsIff(s: State, step: Step)
    requires Sound(s) && Enabled(s, step) && step.PublishRecord? && step.ok
    ensures CanDrift(Apply(s, step), Published(s, step))
       <==> exists b :: Running(s, b) && !WritesOf(Published(s, step), s.agents[b].pc)
  {
    var t, r := Apply(s, step), Published(s, step);
    OthersStand(s, step);
    if b :| Running(s, b) && !WritesOf(r, s.agents[b].pc) {
      LateWriterDrifts(t, b, r);
    } else {
      StepKeepsSound(s, step);
      PublicationSetsFreeze(s, step);
      forall states, steps | Follows(states, steps) && states[0] == t && NothingPublished(steps)
        ensures !Drifted(states[|steps|], r)
      {
        FreezeAlong(states, steps, 0, |steps|, r);
      }
    }
  }

  // -- adopting without the lock --

  predicate AtWork(pc: Pc) {
    pc.Releasing? && pc.reaper && pc.todo != {}
  }

  /** A reaper that still has tables to unfreeze. */
  ghost predicate ReaperAtWork(s: State) {
    exists b :: Running(s, b) && AtWork(s.agents[b].pc)
  }

  /** Reapers with tables to unfreeze hold the lock, and nobody running owns the record. */
  ghost predicate ReapersAreSafe(s: State) {
    forall b :: Running(s, b) && AtWork(s.agents[b].pc) ==> HoldsLock(s, b) && !OwnedByLive(s)
  }

  lemma AgentKeepsReapersSafe(s: State, step: Step, b: nat)
    requires Sound(s) && ReapersAreSafe(s) && Enabled(s, step) && !OfEnvironment(step) && AdoptsUnderLock(s, step)
    requires Running(s, b)
    ensures var t := Apply(s, step);
            b in t.agents && (AtWork(t.agents[b].pc) ==> HoldsLock(t, b) && !OwnedByLive(t))
  {
    OwnershipNeedsTheLock(s, step);
    assert AgentIsSound(s, b);
  }

  lemma EnvironmentKeepsReapersSafe(s: State, step: Step)
    requires Sound(s) && ReapersAreSafe(s) && Enabled(s, step) && OfEnvironment(step)
    ensures ReapersAreSafe(Apply(s, step))
  {
    var t := Apply(s, step);
    OwnerStaysGone(s, step);
    forall b | Running(t, b) && AtWork(t.agents[b].pc)
      ensures HoldsLock(t, b) && !OwnedByLive(t)
    {
      assert b in s.agents ==> AgentIsSound(s, b);
    }
  }

  lemma StepKeepsReapersSafe(s: State, step: Step)
    requires Sound(s) && ReapersAreSafe(s) && Enabled(s, step) && AdoptsUnderLock(s, step)
    ensures ReapersAreSafe(Apply(s, step))
  {
    if OfEnvironment(step) {
      EnvironmentKeepsReapersSafe(s, step);
    } else {
      OthersStand(s, step);
      forall b | Running(s, b)
        ensures var t := Apply(s, step);
                b in t.agents && (AtWork(t.agents[b].pc) ==> HoldsLock(t, b) && !OwnedByLive(t))
      {
        AgentKeepsReapersSafe(s, step, b);
      }
    }
  }

  lemma {:induction false} ReapersSafeAlong(states: seq<State>, steps: seq<Step>, i: nat)
    requires Follows(states, steps) && i <= |steps| && Sound(states[0]) && ReapersAreSafe(states[0])
    requires forall k :: 0 <= k < i ==> AdoptsUnderLock(states[k], steps[k])
    ensures ReapersAreSafe(states[i])
  {
    if i > 0 {
      SoundAlong(states, steps, i - 1);
      ReapersSafeAlong(states, steps, i - 1);
      StepKeepsReapersSafe(states[i - 1], steps[i - 1]);
    }
  }

  /** Some continuation, adopting only under the lock from here on, lets a reaper unfreeze under a running owner. */
  ghost predicate CanReapUnderOwner(s: State) {
    exists states, steps, step :: ReapsUnderOwner(s, states, steps, step)
  }

  ghost predicate ReapsUnderOwner(s: State, states: seq<State>, steps: seq<Step>, step: Step) {
    && Follows(states, steps) && states[0] == s
    && (forall k :: 0 <= k < |steps| ==> AdoptsUnderLock(states[k], steps[k]))
    && var t := states[|steps|];
       Enabled(t, step) && Reaps(t, step) && OwnedByLive(t)
  }

  lemma AdopterIsLiveOwner(s: State, step: Step)
    requires Enabled(s, step) && step.Rewrite? && step.ok && s.agents[step.a].pc.Adopting?
    ensures OwnedByLive(Apply(s, step))
  {
  }

  lemma SafeReapersStaySafe(s: State)
    requires Sound(s) && ReapersAreSafe(s)
    ensures !CanReapUnderOwner(s)
  {
    if states, steps, step :| ReapsUnderOwner(s, states, steps, step) {
      ReapersSafeAlong(states, steps, |steps|);
    }
  }

  // Adopting without the lock, as a cancelled upload may at its start or its end, lets a reaper unfreeze what a running
  // process owns exactly if a reaper with tables left to unfreeze is at work at that moment.
  lemma LocklessAdoptionIsSafeIff(s: State, step: Step)
    requires Sound(s) && ReapersAreSafe(s) && Enabled(s, step) && step.Rewrite? && step.ok
    requires s.agents[step.a].pc.Adopting? && !HoldsLock(s, step.a)
    ensures CanReapUnderOwner(Apply(s, step)) <==> ReaperAtWork(s)
  {
    var t := Apply(s, step);
    OthersStand(s, step);
    if ReaperAtWork(s) {
      var b :| Running(s, b) && AtWork(s.agents[b].pc);
      var e :| e in s.agents[b].pc.todo;
      var none: seq<Step> := [];
      AdopterIsLiveOwner(s, step);
      assert t.agents[b] == s.agents[b];
      assert ReapsUnderOwner(t, [t], none, UnfreezeOne(b, e, true));
    } else {
      StepKeepsSound(s, step);
      SafeReapersStaySafe(t);
    }
  }

  // -- runs that meet both conditions --

  ghost predicate Reachable(s: State) {
    exists states, steps :: Run(states, steps) && states[|steps|] == s
  }

  lemma Advance(s: State, step: Step, t: State)
    requires Reachable(s) && Enabled(s, step) && t == Apply(s, step)
    ensures Reachable(t)
  {
    var states, steps :| Run(states, steps) && states[|steps|] == s;
    assert Run(states + [t], steps + [step]);
    assert (states + [t])[|steps + [step]|] == t;
  }

  const P: Proc := Proc(1, 10)
  const Q: Proc := Proc(2, 20)

  /** Two agents of two processes. */
  function At(holder: Option<nat>, record: Stored, frozen: set<FreezeInfo>, now: nat, p: Pc, q: Pc): State {
    State(map[1 := 10, 2 := 20], {P, Q}, holder, record, frozen, {}, now, map[0 := Agent(P, p), 1 := Agent(Q, q)])
  }

  lemma SetPcIsAt(h: Option<nat>, r: Stored, f: set<FreezeInfo>, now: nat, p: Pc, q: Pc, p': Pc, q': Pc)
    ensures SetPc(At(h, r, f, now, p, q), 0, p') == At(h, r, f, now, p', q)
    ensures SetPc(At(h, r, f, now, p, q), 1, q') == At(h, r, f, now, p, q')
  {
    assert At(h, r, f, now, p, q).agents[0 := Agent(P, p')] == At(h, r, f, now, p', q).agents;
    assert At(h, r, f, now, p, q).agents[1 := Agent(Q, q')] == At(h, r, f, now, p, q').agents;
  }

  // One step of either agent, written out as the two states around it.
  lemma GoP(h: Option<nat>, r: Stored, f: set<FreezeInfo>, now: nat, p: Pc, q: Pc, step: Step,
            h': Option<nat>, r': Stored, f': set<FreezeInfo>, p': Pc)
    requires Reachable(At(h, r, f, now, p, q)) && Enabled(At(h, r, f, now, p, q), step)
    requires Apply(At(h, r, f, now, p, q), step) == SetPc(At(h', r', f', now, p, q), 0, p')
    ensures Reachable(At(h', r', f', now, p', q))
  {
    SetPcIsAt(h', r', f', now, p, q, p', q);
    Advance(At(h, r, f, now, p, q), step, At(h', r', f', now, p', q));
  }

  lemma GoQ(h: Option<nat>, r: Stored, f: set<FreezeInfo>, now: nat, p: Pc, q: Pc, step: Step,
            h': Option<nat>, r': Stored, f': set<FreezeInfo>, q': Pc)
    requires Reachable(At(h, r, f, now, p, q)) && Enabled(At(h, r, f, now, p, q), step)
    requires Apply(At(h, r, f, now, p, q), step) == SetPc(At(h', r', f', now, p, q), 1, q')
    ensures Reachable(At(h', r', f', now, p, q'))
  {
    SetPcIsAt(h', r', f', now, p, q, p, q');
    Advance(At(h, r, f, now, p, q), step, At(h', r', f', now, p, q'));
  }

  lemma TwoAgentsStart()
    ensures Reachable(At(None, Absent, {}, 0, Idle, Idle))
  {
    var s0 := State(map[1 := 10, 2 := 20], {P, Q}, None, Absent, {}, {}, 0, map[]);
    var s1 := s0.(agents := map[0 := Agent(P, Idle)]);
    var none: seq<Step> := [];
    assert Run([s0], none) && [s0][|none|] == s0;
    Advance(s0, Spawn(0, P), s1);
    Advance(s1, Spawn(1, Q), At(None, Absent, {}, 0, Idle, Idle));
  }

  /** The record of a create by `p` with no time to live. */
  function RecordBy(p: Proc, x: FreezeInfo): Record {
    Record("", [x], p.pid, Some(p.token), 0, 0)
  }

  lemma OneTable(x: FreezeInfo)
    ensures (set e | e in [x]) == {x}
    ensures Entries(RecordBy(P, x)) == {x} && Entries(RecordBy(Q, x)) == {x}
    ensures {} + {x} == {x} && {x} - {x} == {}
  {
  }

  // P creates the backup and has frozen a table.
  lemma FrozenByP(x: FreezeInfo)
    ensures Reachable(At(Some(0), Absent, {x}, 0, Froze([x]), Idle))
  {
    TwoAgentsStart();
    OneTable(x);
    GoP(None, Absent, {}, 0, Idle, Idle, TakeLock(0), Some(0), Absent, {}, Idle);
    GoP(Some(0), Absent, {}, 0, Idle, Idle, Freeze(0, [x]), Some(0), Absent, {x}, Froze([x]));
  }

  // A crash between FREEZE and the record leaves a table frozen that nothing on disk tells of.
  lemma CrashBeforeRecordLeaksAFreeze(x: FreezeInfo)
    ensures exists s :: Reachable(s) && x in s.frozen && s.record.Absent? && !InTheHandsOfACreate(s, x)
  {
    FrozenByP(x);
    var s := At(Some(0), Absent, {x}, 0, Froze([x]), Idle);
    var t := Apply(s, Die(1));
    Advance(s, Die(1), t);
    assert !Running(t, 0) && Held(t.agents[1].pc) == {};
    assert Reachable(t) && x in t.frozen && t.record.Absent?;
  }

  // So does a cancellation, in a process that goes on running.
  lemma CancelBeforeRecordLeaksAFreeze(x: FreezeInfo)
    ensures exists s :: Reachable(s) && x in s.frozen && s.record.Absent? && !InTheHandsOfACreate(s, x)
                        && forall a :: a in s.agents ==> Running(s, a)
  {
    FrozenByP(x);
    var s := At(Some(0), Absent, {x}, 0, Froze([x]), Idle);
    var t := Apply(s, Cancel(0));
    Advance(s, Cancel(0), t);
    assert Held(t.agents[0].pc) == {} && Held(t.agents[1].pc) == {};
    assert Reachable(t) && x in t.frozen && t.record.Absent?;
  }

  // P has created the backup and is about to upload it.
  lemma CreatedByP(x: FreezeInfo)
    ensures Reachable(At(Some(0), Stored(RecordBy(P, x)), {x}, 0, Idle, Idle))
  {
    FrozenByP(x);
    GoP(Some(0), Absent, {x}, 0, Froze([x]), Idle, PublishRecord(0, 0, "", true),
        Some(0), Stored(RecordBy(P, x)), {x}, Idle);
  }

  // P uploads the backup.
  lemma UploadUnderWay(x: FreezeInfo)
    ensures Reachable(At(Some(0), Stored(RecordBy(P, x)), {x}, 0, Copying, Idle))
  {
    var r := RecordBy(P, x);
    CreatedByP(x);
    GoP(Some(0), Stored(r), {x}, 0, Idle, Idle, BeginLoad(0),
        Some(0), Stored(r), {x}, Loading(CopyObjects));
    GoP(Some(0), Stored(r), {x}, 0, Loading(CopyObjects), Idle, ReadRecord(0), Some(0), Stored(r), {x}, Copying);
  }

  // P's upload is cancelled and has read the record to demote it.
  lemma CancelledUpload(x: FreezeInfo)
    ensures Reachable(At(None, Stored(RecordBy(P, x)), {x}, 0, Demoting(RecordBy(P, x)), Idle))
  {
    var r := RecordBy(P, x);
    UploadUnderWay(x);
    GoP(Some(0), Stored(r), {x}, 0, Copying, Idle, DropLock(0), None, Stored(r), {x}, Copying);
    GoP(None, Stored(r), {x}, 0, Copying, Idle, FinishCopy(0, false), None, Stored(r), {x}, Demoting(r));
  }

  // Q sets out to release the freeze by hand.
  lemma ReleaseByQ(x: FreezeInfo)
    ensures var r := RecordBy(P, x);
            Reachable(At(Some(1), Stored(r), {x}, 0, Demoting(r), Releasing(r, {x}, {}, false)))
  {
    var r, d := RecordBy(P, x), Demoting(RecordBy(P, x));
    CancelledUpload(x);
    OneTable(x);
    GoQ(None, Stored(r), {x}, 0, d, Idle, TakeLock(1), Some(1), Stored(r), {x}, Idle);
    GoQ(Some(1), Stored(r), {x}, 0, d, Idle, ReleaseNow(1), Some(1), Stored(r), {x}, Releasing(r, {x}, {}, false));
  }

  lemma ReleasedByQ(x: FreezeInfo)
    ensures Reachable(At(Some(1), Absent, {}, 0, Demoting(RecordBy(P, x)), Idle))
  {
    var r, d := RecordBy(P, x), Demoting(RecordBy(P, x));
    ReleaseByQ(x);
    OneTable(x);
    GoQ(Some(1), Stored(r), {x}, 0, d, Releasing(r, {x}, {}, false), UnfreezeOne(1, x, true),
        Some(1), Stored(r), {}, Releasing(r, {}, {}, false));
    GoQ(Some(1), Stored(r), {}, 0, d, Releasing(r, {}, {}, false), FinishRelease(1, [], true),
        Some(1), Absent, {}, Idle);
  }

  // Q creates the backup anew.
  lemma RecreatedByQ(x: FreezeInfo, y: FreezeInfo)
    ensures Reachable(At(Some(1), Stored(RecordBy(Q, y)), {y}, 0, Demoting(RecordBy(P, x)), Idle))
  {
    var d := Demoting(RecordBy(P, x));
    ReleasedByQ(x);
    OneTable(y);
    GoQ(Some(1), Absent, {}, 0, d, Idle, Freeze(1, [y]), Some(1), Absent, {y}, Froze([y]));
    GoQ(Some(1), Absent, {y}, 0, d, Froze([y]), PublishRecord(1, 0, "", true),
        Some(1), Stored(RecordBy(Q, y)), {y}, Idle);
  }

  // The late demotion then overwrites the new record: a table stays frozen, and nothing on disk says so.
  lemma LateDemotionForgetsAFreeze(x: FreezeInfo, y: FreezeInfo)
    requires x != y
    ensures exists s :: Reachable(s) && y in s.frozen && !NamedByRecord(s, y) && y !in s.stray && InHands(s) == {}
  {
    var r, d := RecordBy(P, x), Demoting(RecordBy(P, x));
    RecreatedByQ(x, y);
    GoP(Some(1), Stored(RecordBy(Q, y)), {y}, 0, d, Idle, Rewrite(0, true), Some(1), Stored(Demote(r)), {y}, Idle);
    var s := At(Some(1), Stored(Demote(r)), {y}, 0, Idle, Idle);
    assert Reachable(s) && y in s.frozen && !NamedByRecord(s, y);
  }

  // P hands its record over at the end of the create.
  lemma HandedOver(x: FreezeInfo)
    ensures Reachable(At(Some(0), Stored(Demote(RecordBy(P, x))), {x}, 0, Idle, Idle))
  {
    var r, u := RecordBy(P, x), Demote(RecordBy(P, x));
    CreatedByP(x);
    GoP(Some(0), Stored(r), {x}, 0, Idle, Idle, ReadToDemote(0), Some(0), Stored(r), {x}, Demoting(r));
    GoP(Some(0), Stored(r), {x}, 0, Demoting(r), Idle, Rewrite(0, true), Some(0), Stored(u), {x}, Idle);
  }

  // P begins an upload, whose caller is cancelled, and the lock lost, before the record is claimed.
  lemma UploadLosesTheLock(x: FreezeInfo)
    ensures Reachable(At(None, Stored(Demote(RecordBy(P, x))), {x}, 0, Loading(CopyObjects), Idle))
  {
    var u := Demote(RecordBy(P, x));
    HandedOver(x);
    GoP(Some(0), Stored(u), {x}, 0, Idle, Idle, BeginLoad(0),
        Some(0), Stored(u), {x}, Loading(CopyObjects));
    GoP(Some(0), Stored(u), {x}, 0, Loading(CopyObjects), Idle, DropLock(0),
        None, Stored(u), {x}, Loading(CopyObjects));
  }

  // The deadline passes and Q's reaper sets to work.
  lemma ReaperSetsToWork(x: FreezeInfo)
    ensures var u := Demote(RecordBy(P, x));
            Reachable(At(Some(1), Stored(u), {x}, 1, Loading(CopyObjects), Releasing(u, {x}, {}, true)))
  {
    var u, l := Demote(RecordBy(P, x)), Loading(CopyObjects);
    UploadLosesTheLock(x);
    OneTable(x);
    Advance(At(None, Stored(u), {x}, 0, l, Idle), Tick, At(None, Stored(u), {x}, 1, l, Idle));
    GoQ(None, Stored(u), {x}, 1, l, Idle, TakeLock(1), Some(1), Stored(u), {x}, Idle);
    GoQ(Some(1), Stored(u), {x}, 1, l, Idle, ReapCheck(1), Some(1), Stored(u), {x}, Releasing(u, {x}, {}, true));
  }

  // The upload then adopts the record without the lock and copies; the reaper unfreezes under the running owner.
  lemma LocklessAdoptionIsReapedUnder(x: FreezeInfo)
    ensures exists s, step :: Reachable(s) && Enabled(s, step) && Reaps(s, step) && OwnedByLive(s)
                            && 0 in s.agents && s.agents[0].pc.Copying? && ClaimedBy(s, s.agents[0].proc)
  {
    var u, q := Demote(RecordBy(P, x)), Releasing(Demote(RecordBy(P, x)), {x}, {}, true);
    var owned, l := Adopt(u, Identity(P)), Loading(CopyObjects);
    ReaperSetsToWork(x);
    OneTable(x);
    GoP(Some(1), Stored(u), {x}, 1, l, q, ReadRecord(0), Some(1), Stored(u), {x}, Adopting(u, CopyObjects));
    GoP(Some(1), Stored(u), {x}, 1, Adopting(u, CopyObjects), q, Rewrite(0, true),
        Some(1), Stored(owned), {x}, Copying);
    var s := At(Some(1), Stored(owned), {x}, 1, Copying, q);
    assert Enabled(s, UnfreezeOne(1, x, true)) && Reaps(s, UnfreezeOne(1, x, true)) && OwnedByLive(s);
  }
}
