/** What the deferred-freeze protocol guarantees over whole runs. */
module DeferredRuns {
  import opened DeferredRecord
  import opened DeferredProtocol

  /** Each state follows from the one before by an enabled step. */
  ghost predicate Follows(states: seq<State>, steps: seq<Step>) {
    && |states| == |steps| + 1
    && forall i :: 0 <= i < |steps| ==> Enabled(states[i], steps[i]) && states[i + 1] == Apply(states[i], steps[i])
  }

  /** A run of any length. */
  ghost predicate Run(states: seq<State>, steps: seq<Step>) {
    Follows(states, steps) && Init(states[0])
  }

  lemma {:induction false} SoundAlong(states: seq<State>, steps: seq<Step>, i: nat)
    requires Follows(states, steps) && i <= |steps| && Sound(states[0])
    ensures Sound(states[i])
  {
    if i > 0 {
      SoundAlong(states, steps, i - 1);
      StepKeepsSound(states[i - 1], steps[i - 1]);
    }
  }

  lemma {:induction false} CoveredAlong(states: seq<State>, steps: seq<Step>, i: nat)
    requires Follows(states, steps) && i <= |steps| && Sound(states[0]) && Covered(states[0])
    requires forall k :: 0 <= k < i ==> PublishesUnseen(states[k], steps[k])
    ensures Covered(states[i])
  {
    if i > 0 {
      SoundAlong(states, steps, i - 1);
      CoveredAlong(states, steps, i - 1);
      StepKeepsCoveredIff(states[i - 1], steps[i - 1]);
    }
  }

  lemma {:induction false} LockInvAlong(states: seq<State>, steps: seq<Step>, i: nat)
    requires Run(states, steps) && i <= |steps|
    requires forall k :: 0 <= k < i ==> AdoptsUnderLock(states[k], steps[k])
    ensures LockInv(states[i])
  {
    if i > 0 {
      LockInvAlong(states, steps, i - 1);
      InitIsSound(states[0]);
      SoundAlong(states, steps, i - 1);
      StepKeepsLockInv(states[i - 1], steps[i - 1]);
    }
  }

  /** The record on disk names the table. */
  predicate NamedByRecord(s: State, e: FreezeInfo) {
    s.record.Stored? && e in s.record.record.retained
  }

  /** A running create has frozen the table and not yet written its record, or is thawing it again. */
  ghost predicate InTheHandsOfACreate(s: State, e: FreezeInfo) {
    exists a :: Running(s, a) && e in Held(s.agents[a].pc)
  }

  // -- when a freeze is left without a record --

  predicate HolderDies(s: State, pid: nat) {
    s.holder.Some? && Running(s, s.holder.value) && s.agents[s.holder.value].proc.pid == pid
  }

  /** A create lets go of a table: it dies, is cancelled, or cannot thaw what it failed to record. */
  predicate LetsGo(s: State, step: Step, e: FreezeInfo) {
    || (step.Thaw? && !step.ok && step.entry == e)
    || (step.Die? && HolderDies(s, step.pid) && e in InHands(s))
    || (step.Cancel? && HoldsLock(s, step.a) && e in InHands(s))
  }

  // The ledger gains exactly the tables let go.
  lemma StrayGrowsIff(s: State, step: Step, e: FreezeInfo)
    requires Enabled(s, step) && e !in s.stray
    ensures e in Apply(s, step).stray <==> LetsGo(s, step, e)
  {
    if step.Die? && HolderDies(s, step.pid) {
      assert InHands(Apply(s, step)) == {};
    }
  }

  lemma {:induction false} NotStray(states: seq<State>, steps: seq<Step>, i: nat, e: FreezeInfo)
    requires Run(states, steps) && i <= |steps|
    requires forall k :: 0 <= k < i ==> !LetsGo(states[k], steps[k], e)
    ensures e !in states[i].stray
  {
    if i > 0 {
      NotStray(states, steps, i - 1, e);
      StrayGrowsIff(states[i - 1], steps[i - 1], e);
    }
  }

  // Whatever crashes, fails or runs concurrently: a frozen table is named by the record, or still in the hands of
  // the create that froze it, or some create has let go of it before its record was written.
  lemma FrozenIsAccountedFor(states: seq<State>, steps: seq<Step>, i: nat, e: FreezeInfo)
    requires Run(states, steps) && i <= |steps|
    requires forall k :: 0 <= k < i ==> PublishesUnseen(states[k], steps[k])
    requires e in states[i].frozen
    ensures NamedByRecord(states[i], e) || InTheHandsOfACreate(states[i], e)
              || exists k :: 0 <= k < i && LetsGo(states[k], steps[k], e)
  {
    InitIsSound(states[0]);
    InitIsCovered(states[0]);
    CoveredAlong(states, steps, i);
    if forall k :: 0 <= k < i ==> !LetsGo(states[k], steps[k], e) {
      NotStray(states, steps, i, e);
    }
  }

  // The write-ahead order: a table no create has let go is frozen outside a create's hands only if the record names it.
  lemma RecordOutlivesFreeze(states: seq<State>, steps: seq<Step>, i: nat, e: FreezeInfo)
    requires Run(states, steps) && i <= |steps|
    requires forall k :: 0 <= k < i ==> PublishesUnseen(states[k], steps[k]) && !LetsGo(states[k], steps[k], e)
    requires e in states[i].frozen && !InTheHandsOfACreate(states[i], e)
    ensures NamedByRecord(states[i], e)
  {
    FrozenIsAccountedFor(states, steps, i, e);
  }

  /** Frozen, although no record names the table and no running create has it in hand. */
  ghost predicate Untracked(s: State, e: FreezeInfo) {
    e in s.frozen && !NamedByRecord(s, e) && !InTheHandsOfACreate(s, e)
  }

  /**
   Under the record as it is, the step leaves the table frozen with nothing to find it by: a failed UNFREEZE after
   a failed record write, or the death or cancellation of the create that has it in hand.
   */
  predicate LeavesBehind(s: State, step: Step, e: FreezeInfo) {
    LetsGo(s, step, e) && e in s.frozen && !NamedByRecord(s, e)
  }

  // Only the holder of the lock has tables in hand.
  lemma HandsAreTheHolders(s: State, e: FreezeInfo)
    requires Sound(s)
    ensures InTheHandsOfACreate(s, e) <==> e in InHands(s)
  {
    if InTheHandsOfACreate(s, e) {
      var a :| Running(s, a) && e in Held(s.agents[a].pc);
      assert AgentIsSound(s, a);
    }
  }

  lemma LettingGo(s: State, step: Step, e: FreezeInfo)
    requires Sound(s) && Enabled(s, step) && LetsGo(s, step, e)
    ensures Untracked(Apply(s, step), e) <==> LeavesBehind(s, step, e)
  {
    var t := Apply(s, step);
    StepKeepsSound(s, step);
    HandsAreTheHolders(t, e);
    if step.Thaw? {
      assert AgentIsSound(s, step.a);
    }
    assert t.record == s.record && t.frozen == s.frozen && e !in InHands(t);
  }

  // The exact condition for a freeze without a record. In any run whose publications were unseen, up to the first
  // time a create lets go of the table, a step leaves the table untracked if and only if it is a failed UNFREEZE, a
  // death or a cancellation that lets go of it while it is frozen and the record on disk does not name it.
  lemma TableIsUntrackedIff(states: seq<State>, steps: seq<Step>, i: nat, e: FreezeInfo)
    requires Run(states, steps) && i < |steps|
    requires forall k :: 0 <= k <= i ==> PublishesUnseen(states[k], steps[k])
    requires forall k :: 0 <= k < i ==> !LetsGo(states[k], steps[k], e)
    ensures !Untracked(states[i], e)
    ensures Untracked(states[i + 1], e) <==> LeavesBehind(states[i], steps[i], e)
  {
    var t := states[i + 1];
    if Untracked(states[i], e) {
      RecordOutlivesFreeze(states, steps, i, e);
    }
    if LetsGo(states[i], steps[i], e) {
      InitIsSound(states[0]);
      SoundAlong(states, steps, i);
      LettingGo(states[i], steps[i], e);
    } else if Untracked(t, e) {
      RecordOutlivesFreeze(states, steps, i + 1, e);
    }
  }

  /** Some freeze is there with nothing to find it by. */
  ghost predicate Leaks(s: State) {
    exists e :: Untracked(s, e)
  }

  ghost predicate StopsEarly(s: State, step: Step) {
    exists e :: LetsGo(s, step, e)
  }

  ghost predicate LeavesSomethingBehind(s: State, step: Step) {
    exists e :: LeavesBehind(s, step, e)
  }

  // The same for all tables at once: up to the first create that stops early, exactly these steps leak a freeze.
  lemma FirstLeakIff(states: seq<State>, steps: seq<Step>, i: nat)
    requires Run(states, steps) && i < |steps|
    requires forall k :: 0 <= k <= i ==> PublishesUnseen(states[k], steps[k])
    requires forall k :: 0 <= k < i ==> !StopsEarly(states[k], steps[k])
    ensures !Leaks(states[i])
    ensures Leaks(states[i + 1]) <==> LeavesSomethingBehind(states[i], steps[i])
  {
    var s, step, t := states[i], steps[i], states[i + 1];
    forall e
      ensures !Untracked(s, e) && (Untracked(t, e) <==> LeavesBehind(s, step, e))
    {
      TableIsUntrackedIff(states, steps, i, e);
    }
    if Leaks(t) {
      var e :| Untracked(t, e);
      assert LeavesBehind(s, step, e);
    }
    if LeavesSomethingBehind(s, step) {
      var e :| LeavesBehind(s, step, e);
      assert Untracked(t, e);
    }
  }

  /** A reaping pass unfreezes one table. */
  predicate Reaps(s: State, step: Step) {
    && step.UnfreezeOne?
    && step.a in s.agents
    && s.agents[step.a].pc.Releasing?
    && s.agents[step.a].pc.reaper
  }

  // Between its check under the lock and every UNFREEZE that follows, no running process comes to own the record.
  lemma ReapersOnlyTouchUnowned(states: seq<State>, steps: seq<Step>, i: nat)
    requires Run(states, steps) && i < |steps|
    requires forall k :: 0 <= k < i ==> AdoptsUnderLock(states[k], steps[k])
    requires Reaps(states[i], steps[i])
    ensures !OwnedByLive(states[i]) && HoldsLock(states[i], steps[i].a)
  {
    LockInvAlong(states, steps, i);
  }

  predicate ClaimedBy(s: State, p: Proc) {
    s.record.Stored? && OwnedBy(s.record.record, Identity(p))
  }

  /** The record is demoted, rewritten after a partial release, or deleted. */
  predicate GivesUp(s: State, step: Step) {
    || (step.FinishRelease? && step.ok)
    || (step.Rewrite? && step.ok && step.a in s.agents && s.agents[step.a].pc.Demoting?)
  }

  // The adopting write makes its process the owner, and leaves the deadline and the tables as they were.
  lemma AdoptionClaims(s: State, step: Step)
    requires Enabled(s, step) && step.Rewrite? && step.ok && s.agents[step.a].pc.Adopting?
    ensures var t, seen := Apply(s, step), s.agents[step.a].pc.seen;
            && ClaimedBy(t, s.agents[step.a].proc)
            && SameFreeze(seen, t.record.record) && SameFreeze(t.record.record, seen)
  {
  }

  // A claim is lost only to a step that gives the record up: not to time, another adoption or a reaper.
  lemma ClaimSurvivesStep(s: State, step: Step, p: Proc)
    requires Sound(s) && LockInv(s) && Enabled(s, step) && AdoptsUnderLock(s, step)
    requires ClaimedBy(s, p) && Alive(s, p) && !GivesUp(s, step)
    ensures Apply(s, step).record == s.record
    ensures !Reaps(s, step)
  {
    assert OwnedByLive(s);
    if !OfEnvironment(step) {
      assert ActsOnUnowned(s, step.a);
    }
  }

  lemma ClaimStandsOneStep(states: seq<State>, steps: seq<Step>, k: nat, p: Proc)
    requires Run(states, steps) && k < |steps|
    requires forall h :: 0 <= h <= k ==> AdoptsUnderLock(states[h], steps[h])
    requires ClaimedBy(states[k], p) && Alive(states[k], p) && !GivesUp(states[k], steps[k])
    ensures states[k + 1].record == states[k].record && !Reaps(states[k], steps[k])
  {
    InitIsSound(states[0]);
    SoundAlong(states, steps, k);
    LockInvAlong(states, steps, k);
    ClaimSurvivesStep(states[k], steps[k], p);
  }

  // The claim of a running process stands, past the deadline and without the lock, until the record is given up;
  // up to then no reaping pass of any process unfreezes anything.
  lemma {:induction false} ClaimStands(states: seq<State>, steps: seq<Step>, i: nat, j: nat, p: Proc)
    requires Run(states, steps) && i <= j <= |steps|
    requires forall k :: 0 <= k < j ==> AdoptsUnderLock(states[k], steps[k])
    requires ClaimedBy(states[i], p)
    requires forall k :: i <= k < j ==> Alive(states[k], p) && !GivesUp(states[k], steps[k])
    ensures states[j].record == states[i].record
    ensures forall k :: i <= k < j ==> !Reaps(states[k], steps[k])
  {
    if i < j {
      ClaimStands(states, steps, i, j - 1, p);
      ClaimStandsOneStep(states, steps, j - 1, p);
    }
  }

  // -- between two publications --

  /** Whatever this agent may still write is `r` with another owner and perhaps fewer tables, or no record at all. */
  predicate WritesOf(r: Record, pc: Pc) {
    && (pc.Adopting? || pc.Demoting? ==> SameFreeze(r, pc.seen))
    && (pc.Releasing? && View(pc) != {} ==> SameHeading(r, pc.prior) && View(pc) <= Entries(r))
  }

  /** The record, and every version of it a running agent may still write, belongs to the freeze published as `r`. */
  ghost predicate AllOf(s: State, r: Record) {
    && (s.record.Stored? ==> SameFreeze(r, s.record.record))
    && forall a :: Running(s, a) ==> WritesOf(r, s.agents[a].pc)
  }

  lemma EnvironmentKeepsFreeze(s: State, step: Step, r: Record)
    requires Sound(s) && AllOf(s, r) && Enabled(s, step) && OfEnvironment(step)
    ensures AllOf(Apply(s, step), r)
  {
    var t := Apply(s, step);
    forall a | Running(t, a)
      ensures WritesOf(r, t.agents[a].pc)
    {
      assert a in s.agents ==> AgentIsSound(s, a);
      assert Running(s, a) ==> WritesOf(r, s.agents[a].pc);
    }
  }

  lemma RewrittenIsOf(r: Record, pc: Pc, kept: seq<FreezeInfo>)
    requires WritesOf(r, pc) && pc.Releasing? && pc.todo == {} && (set e | e in kept) == pc.failed && kept != []
    ensures SameFreeze(r, Demote(pc.prior.(retained := kept)))
  {
    assert kept[0] in pc.failed;
  }

  lemma ActorKeepsFreeze(s: State, step: Step, r: Record)
    requires AllOf(s, r) && Enabled(s, step) && !OfEnvironment(step) && !(step.PublishRecord? && step.ok)
    ensures var t := Apply(s, step);
            && WritesOf(r, t.agents[step.a].pc)
            && (t.record.Stored? ==> SameFreeze(r, t.record.record))
  {
    assert WritesOf(r, s.agents[step.a].pc);
    if step.FinishRelease? && step.kept != [] {
      RewrittenIsOf(r, s.agents[step.a].pc, step.kept);
    }
  }

  lemma StepKeepsFreeze(s: State, step: Step, r: Record)
    requires Sound(s) && AllOf(s, r) && Enabled(s, step) && !(step.PublishRecord? && step.ok)
    ensures AllOf(Apply(s, step), r)
  {
    if OfEnvironment(step) {
      EnvironmentKeepsFreeze(s, step, r);
    } else {
      OthersStand(s, step);
      ActorKeepsFreeze(s, step, r);
    }
  }

  lemma {:induction false} FreezeAlong(states: seq<State>, steps: seq<Step>, i: nat, j: nat, r: Record)
    requires Follows(states, steps) && i <= j <= |steps| && Sound(states[0]) && AllOf(states[i], r)
    requires forall k :: i <= k < j ==> !(steps[k].PublishRecord? && steps[k].ok)
    ensures AllOf(states[j], r)
  {
    if i < j {
      FreezeAlong(states, steps, i, j - 1, r);
      SoundAlong(states, steps, j - 1);
      StepKeepsFreeze(states[j - 1], steps[j - 1], r);
    }
  }

  /** The record a publication writes. */
  function Published(s: State, step: Step): Record
    requires Enabled(s, step) && step.PublishRecord? && step.ok
  {
    Apply(s, step).record.record
  }

  lemma PublicationSetsFreeze(s: State, step: Step)
    requires Enabled(s, step) && step.PublishRecord? && step.ok
    requires forall b :: Running(s, b) ==> WritesOf(Published(s, step), s.agents[b].pc)
    ensures AllOf(Apply(s, step), Published(s, step))
  {
    OthersStand(s, step);
  }

  // From one publication to the next the record is the one published, with another owner and perhaps fewer tables, or
  // gone: adoptions, demotions and partial releases move no deadline and add no table, and neither will any write a
  // running agent is about to make. Agents that saw an earlier record when this one was published must have seen no
  // other freeze; DeferredLimits shows that this is exactly what is needed.
  lemma FreezeHoldsUntilNextPublication(states: seq<State>, steps: seq<Step>, i: nat, j: nat)
    requires Run(states, steps) && i < j <= |steps|
    requires steps[i].PublishRecord? && steps[i].ok
    requires forall b :: Running(states[i], b) ==> WritesOf(Published(states[i], steps[i]), states[i].agents[b].pc)
    requires forall k :: i < k < j ==> !(steps[k].PublishRecord? && steps[k].ok)
    ensures states[j].record.Stored? ==> SameFreeze(Published(states[i], steps[i]), states[j].record.record)
    ensures forall a :: Running(states[j], a) ==> WritesOf(Published(states[i], steps[i]), states[j].agents[a].pc)
  {
    InitIsSound(states[0]);
    PublicationSetsFreeze(states[i], steps[i]);
    FreezeAlong(states, steps, i + 1, j, Published(states[i], steps[i]));
  }

  // -- reapers wait --

  /** What a reaper is releasing was overdue when it began. */
  predicate StartedOverdue(s: State, pc: Pc) {
    pc.Releasing? && pc.reaper ==> pc.prior.createdAt + pc.prior.ttl < s.now
  }

  ghost predicate ReapersAreLate(s: State) {
    forall a :: Running(s, a) ==> StartedOverdue(s, s.agents[a].pc)
  }

  lemma ActorStaysLate(s: State, step: Step)
    requires ReapersAreLate(s) && Enabled(s, step) && !OfEnvironment(step)
    ensures StartedOverdue(Apply(s, step), Apply(s, step).agents[step.a].pc)
  {
    assert StartedOverdue(s, s.agents[step.a].pc);
    if step.ReapCheck? {
      ReapableIff(s.record, Procs(s), s.now, false);
    }
  }

  lemma StepKeepsReapersLate(s: State, step: Step)
    requires Sound(s) && ReapersAreLate(s) && Enabled(s, step)
    ensures ReapersAreLate(Apply(s, step)) && s.now <= Apply(s, step).now
  {
    var t := Apply(s, step);
    if OfEnvironment(step) {
      forall a | Running(t, a)
        ensures StartedOverdue(t, t.agents[a].pc)
      {
        assert a in s.agents ==> AgentIsSound(s, a);
        assert Running(s, a) ==> StartedOverdue(s, s.agents[a].pc);
      }
    } else {
      OthersStand(s, step);
      ActorStaysLate(s, step);
      forall a | Running(t, a) && a != step.a
        ensures StartedOverdue(t, t.agents[a].pc)
      {
        assert Running(s, a) && StartedOverdue(s, s.agents[a].pc);
      }
    }
  }

  lemma {:induction false} ReapersLateAlong(states: seq<State>, steps: seq<Step>, i: nat)
    requires Run(states, steps) && i <= |steps|
    ensures ReapersAreLate(states[i])
  {
    if i > 0 {
      ReapersLateAlong(states, steps, i - 1);
      InitIsSound(states[0]);
      SoundAlong(states, steps, i - 1);
      StepKeepsReapersLate(states[i - 1], steps[i - 1]);
    }
  }

  // Until the next publication no reaping pass starts a release before the time to live published has passed since.
  lemma ReapingWaitsForDeadline(states: seq<State>, steps: seq<Step>, i: nat, j: nat)
    requires Run(states, steps) && i < j < |steps|
    requires steps[i].PublishRecord? && steps[i].ok
    requires forall b :: Running(states[i], b) ==> WritesOf(Published(states[i], steps[i]), states[i].agents[b].pc)
    requires forall k :: i < k < j ==> !(steps[k].PublishRecord? && steps[k].ok)
    requires steps[j].ReapCheck? && Apply(states[j], steps[j]).agents[steps[j].a].pc.Releasing?
    ensures states[j].now > states[i].now + steps[i].ttl
  {
    FreezeHoldsUntilNextPublication(states, steps, i, j);
    ReapableIff(states[j].record, Procs(states[j]), states[j].now, false);
  }

  // Nor does any reaper, whenever it started, unfreeze a table before then.
  lemma ReapersWaitForDeadline(states: seq<State>, steps: seq<Step>, i: nat, j: nat)
    requires Run(states, steps) && i < j < |steps|
    requires steps[i].PublishRecord? && steps[i].ok
    requires forall b :: Running(states[i], b) ==> WritesOf(Published(states[i], steps[i]), states[i].agents[b].pc)
    requires forall k :: i < k < j ==> !(steps[k].PublishRecord? && steps[k].ok)
    requires Reaps(states[j], steps[j])
    ensures states[j].now > states[i].now + steps[i].ttl
  {
    FreezeHoldsUntilNextPublication(states, steps, i, j);
    ReapersLateAlong(states, steps, j);
    var a := steps[j].a;
    assert WritesOf(Published(states[i], steps[i]), states[j].agents[a].pc);
    assert StartedOverdue(states[j], states[j].agents[a].pc);
    assert steps[j].entry in View(states[j].agents[a].pc);
  }

  // -- who releases --

  /** A reaping check, an explicit release, or an upload that has copied everything. */
  predicate SetsOutToRelease(step: Step) {
    step.ReapCheck? || step.ReleaseNow? || (step.FinishCopy? && step.succeeded)
  }

  predicate OnTheWayToRelease(pc: Pc) {
    pc.Releasing? || ((pc.Loading? || pc.Adopting?) && pc.goal.ReleaseIt?)
  }

  /** The agent is about to unfreeze what the record names. */
  predicate Releases(s: State, a: nat) {
    a in s.agents && OnTheWayToRelease(s.agents[a].pc)
  }

  lemma OnlySoItBegins(s: State, step: Step, a: nat)
    requires Enabled(s, step) && Releases(Apply(s, step), a) && !Releases(s, a)
    ensures !OfEnvironment(step) && step.a == a && SetsOutToRelease(step)
  {
    if !OfEnvironment(step) {
      OthersStand(s, step);
    }
  }

  /** What the agent releases belongs to its own process, as far as it knows. */
  predicate ReleasesItsOwn(s: State, a: nat)
    requires a in s.agents
  {
    var g := s.agents[a];
    g.pc.Releasing? ==> !g.pc.reaper && OwnedBy(g.pc.prior, Identity(g.proc))
  }

  lemma GoesOnReleasing(s: State, step: Step, a: nat)
    requires Enabled(s, step) && Releases(s, a) && Releases(Apply(s, step), a)
    ensures ReleasesItsOwn(s, a) ==> ReleasesItsOwn(Apply(s, step), a)
  {
    if !OfEnvironment(step) {
      OthersStand(s, step);
    }
  }

  lemma {:induction false} ReleaseHasBegun(states: seq<State>, steps: seq<Step>, j: nat, a: nat) returns (i: nat)
    requires Run(states, steps) && j <= |steps| && Releases(states[j], a)
    ensures i < j && !OfEnvironment(steps[i]) && steps[i].a == a && SetsOutToRelease(steps[i])
    ensures forall k :: i < k <= j ==> Releases(states[k], a)
    ensures steps[i].FinishCopy? ==> ReleasesItsOwn(states[j], a)
  {
    if j > 0 {
      if Releases(states[j - 1], a) {
        i := ReleaseHasBegun(states, steps, j - 1, a);
        GoesOnReleasing(states[j - 1], steps[j - 1], a);
      } else {
        i := j - 1;
        OnlySoItBegins(states[i], steps[i], a);
      }
    }
  }

  // A freeze on record is released only by an agent that set out to and has been at it since: a reaper, somebody told
  // to, or an upload that has copied its objects, and then only what its own process owned or adopted. A failed or
  // cancelled upload never unfreezes what its retry will need.
  lemma OnlyTheseUnfreeze(states: seq<State>, steps: seq<Step>, j: nat)
    requires Run(states, steps) && j < |steps| && steps[j].UnfreezeOne?
    ensures exists i :: 0 <= i < j && !OfEnvironment(steps[i]) && steps[i].a == steps[j].a && SetsOutToRelease(steps[i])
                        && (forall k :: i < k <= j ==> Releases(states[k], steps[j].a))
                        && (steps[i].FinishCopy? ==> ReleasesItsOwn(states[j], steps[j].a))
  {
    var i := ReleaseHasBegun(states, steps, j, steps[j].a);
  }
}
