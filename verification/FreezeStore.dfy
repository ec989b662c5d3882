/**
 Local backups with their deferred-freeze records, and the tables ClickHouse still holds frozen for them.
 Record files are replaced atomically; any write, delete or UNFREEZE may fail.
 */
module FreezeStore {
  import opened Options
  import opened DeferredRecord

  datatype LoadOutcome = NoRecord | Usable(record: Record) | Corrupt | ForeignLive(record: Record)

  /** Local backup directories with their record files, and the tables still frozen on behalf of each backup. */
  datatype Local = Local(dirs: map<string, Stored>, frozen: map<string, set<FreezeInfo>>)

  function FrozenFor(l: Local, n: string): set<FreezeInfo> {
    if n in l.frozen then l.frozen[n] else {}
  }

  function RecordOf(l: Local, n: string): Stored {
    if n in l.dirs then l.dirs[n] else Absent
  }

  /** Every table still frozen for the backup is named by its record; an unreadable record is trusted to. */
  predicate Tracked(l: Local, n: string) {
    match RecordOf(l, n)
    case Absent => FrozenFor(l, n) == {}
    case Unreadable => true
    case Stored(r) => FrozenFor(l, n) <= Entries(r) && r.backup == n
  }

  /** What any operation on existing records may do to one backup. */
  predicate Careful(x: Local, y: Local, n: string) {
    && Evolves(RecordOf(x, n), RecordOf(y, n))
    && FrozenFor(y, n) <= FrozenFor(x, n)
    && (Tracked(x, n) ==> Tracked(y, n))
  }

  predicate Untouched(x: Local, y: Local, n: string) {
    && (n in y.dirs <==> n in x.dirs)
    && RecordOf(y, n) == RecordOf(x, n)
    && FrozenFor(y, n) == FrozenFor(x, n)
  }

  predicate OnlyTouches(x: Local, y: Local, n: string) {
    x.dirs - {n} == y.dirs - {n} && x.frozen - {n} == y.frozen - {n}
  }

  lemma OthersUntouched(x: Local, y: Local, n: string, m: string)
    requires OnlyTouches(x, y, n) && m != n
    ensures Untouched(x, y, m)
  {
    assert m in x.dirs - {n} <==> m in x.dirs;
    assert m in y.dirs - {n} <==> m in y.dirs;
    assert m in x.frozen - {n} <==> m in x.frozen;
    assert m in y.frozen - {n} <==> m in y.frozen;
    assert m in x.dirs ==> (x.dirs - {n})[m] == x.dirs[m] && (y.dirs - {n})[m] == y.dirs[m];
    assert m in x.frozen ==> (x.frozen - {n})[m] == x.frozen[m] && (y.frozen - {n})[m] == y.frozen[m];
  }

  /** Nobody but the releasing caller is in the way: owner gone, deadline passed, and the lock is the caller's or free. */
  predicate Releasable(l: Local, n: string, p: Processes, now: nat, ownLock: Option<string>, busy: set<string>,
                       globalLive: bool)
  {
    && RecordOf(l, n).Stored?
    && !OwnerRuns(RecordOf(l, n).record, p)
    && RecordOf(l, n).record.createdAt + RecordOf(l, n).record.ttl < now
    && (ownLock == Some(n) || (n !in busy && !globalLive))
  }

  /** The record names the backup it is filed under. */
  predicate Named(l: Local, n: string) {
    RecordOf(l, n).Stored? ==> RecordOf(l, n).record.backup == n
  }

  /** What a reaping pass does to one backup. */
  predicate Reaped(x: Local, y: Local, n: string, p: Processes, now: nat, ownLock: Option<string>, busy: set<string>,
                   globalLive: bool, allOk: bool)
  {
    && (globalLive && ownLock != Some(n) ==> Untouched(x, y, n))
    && (!Releasable(x, n, p, now, ownLock, busy, globalLive) ==> Untouched(x, y, n))
    && (Named(x, n) ==>
          && Careful(x, y, n)
          && (allOk && Releasable(x, n, p, now, ownLock, busy, globalLive) ==>
                RecordOf(y, n).Absent? && (Tracked(x, n) ==> FrozenFor(y, n) == {})))
  }

  class FreezeStore {
    var l: Local
    const me: Caller
    const processes: Processes
    /** Backups whose lock another operation holds, and whether the global lock is held. */
    const busy: set<string>
    const globalLive: bool
    /** No file operation, respectively no UNFREEZE, fails. */
    const diskOk: bool
    const chOk: bool

    constructor (l: Local, me: Caller, processes: Processes, busy: set<string>, globalLive: bool, diskOk: bool,
                 chOk: bool)
      ensures this.l == l && this.me == me && this.processes == processes
      ensures this.busy == busy && this.globalLive == globalLive && this.diskOk == diskOk && this.chOk == chOk
    {
      this.l, this.me, this.processes, this.busy, this.globalLive, this.diskOk, this.chOk :=
        l, me, processes, busy, globalLive, diskOk, chOk;
    }

    method Publish(n: string, r: Record) returns (ok: bool)
      requires n in l.dirs
      modifies this
      ensures l == if ok then old(l).(dirs := old(l).dirs[n := Stored(r)]) else old(l)
      ensures diskOk ==> ok
    {
      ok := *;
      ok := ok || diskOk;
      if ok {
        l := l.(dirs := l.dirs[n := Stored(r)]);
      }
    }

    method Delete(n: string) returns (ok: bool)
      requires n in l.dirs
      modifies this
      ensures l == if ok then old(l).(dirs := old(l).dirs[n := Absent]) else old(l)
      ensures diskOk ==> ok
    {
      ok := *;
      ok := ok || diskOk;
      if ok {
        l := l.(dirs := l.dirs[n := Absent]);
      }
    }

    /** Claim a record whose owner is gone; one owned by somebody else still running is left alone. */
    method Load(n: string) returns (outcome: LoadOutcome)
      modifies this
      ensures OnlyTouches(old(l), l, n)
      ensures Careful(old(l), l, n) && FrozenFor(l, n) == FrozenFor(old(l), n)
      ensures var x := RecordOf(old(l), n);
              match outcome
              case NoRecord => x.Absent? && l == old(l)
              case Corrupt => (x.Unreadable? || (x.Stored? && x.record.backup != n)) && l == old(l)
              case ForeignLive(r) => x == Stored(r) && OwnerIsLive(r, processes) && !OwnedBy(r, me) && l == old(l)
              case Usable(r) =>
                && x.Stored? && x.record.backup == n
                && (if OwnedBy(x.record, me) then r == x.record && l == old(l)
                    else r == Adopt(x.record, me) && !OwnerIsLive(x.record, processes)
                         && RecordOf(l, n) in {x, Stored(r)})
                && (diskOk ==> RecordOf(l, n) == Stored(r))
    {
      if n !in l.dirs || l.dirs[n].Absent? {
        return NoRecord;
      }
      if l.dirs[n].Unreadable? || l.dirs[n].record.backup != n {
        return Corrupt;
      }
      var r := l.dirs[n].record;
      if OwnedBy(r, me) {
        return Usable(r);
      }
      if OwnerIsLive(r, processes) {
        return ForeignLive(r);
      }
      var _ := Publish(n, Adopt(r, me));
      return Usable(Adopt(r, me));
    }

    /** Hand ownership back while the freeze stays in place. */
    method DemoteOnOperationEnd(n: string)
      modifies this
      ensures OnlyTouches(old(l), l, n)
      ensures Careful(old(l), l, n) && FrozenFor(l, n) == FrozenFor(old(l), n)
      ensures RecordOf(l, n) == RecordOf(old(l), n)
           || (RecordOf(old(l), n).Stored? && RecordOf(l, n) == Stored(Demote(RecordOf(old(l), n).record)))
      ensures diskOk && RecordOf(old(l), n).Stored? && RecordOf(old(l), n).record.backup == n ==>
                RecordOf(l, n) == Stored(Demote(RecordOf(old(l), n).record))
    {
      if n !in l.dirs || !l.dirs[n].Stored? || l.dirs[n].record.backup != n {
        return;
      }
      var r := l.dirs[n].record;
      if r.ownerPid == 0 && r.ownerToken.None? {
        return;
      }
      var _ := Publish(n, Demote(r));
    }

    /** UNFREEZE every entry, reporting those that could not be released. */
    method UnfreezeAllChecked(n: string, entries: seq<FreezeInfo>) returns (failed: seq<FreezeInfo>)
      modifies this
      ensures forall e :: e in failed ==> e in entries
      ensures l.dirs == old(l).dirs && OnlyTouches(old(l), l, n)
      ensures FrozenFor(l, n) <= FrozenFor(old(l), n)
      ensures forall e :: e in entries && e !in failed ==> e !in FrozenFor(l, n)
      ensures forall e :: e !in entries && e in FrozenFor(old(l), n) ==> e in FrozenFor(l, n)
      ensures chOk ==> failed == []
    {
      failed := [];
      for i := 0 to |entries|
        invariant forall e :: e in failed ==> e in entries
        invariant l.dirs == old(l).dirs && OnlyTouches(old(l), l, n)
        invariant FrozenFor(l, n) <= FrozenFor(old(l), n)
        invariant forall e :: e in entries[..i] && e !in failed ==> e !in FrozenFor(l, n)
        invariant forall e :: e !in entries && e in FrozenFor(old(l), n) ==> e in FrozenFor(l, n)
        invariant chOk ==> failed == []
      {
        var released: bool := *;
        if released || chOk {
          l := l.(frozen := l.frozen[n := FrozenFor(l, n) - {entries[i]}]);
        } else {
          failed := failed + [entries[i]];
        }
      }
    }

    /** Rewrite the record with what is still frozen: unowned, and under its original deadline. */
    method RetainFailed(n: string, failed: seq<FreezeInfo>, prior: Record)
      requires n in l.dirs
      modifies this
      ensures l == old(l) || l == old(l).(dirs := old(l).dirs[n := Stored(Demote(prior.(backup := n, retained := failed)))])
      ensures diskOk ==> RecordOf(l, n) == Stored(Demote(prior.(backup := n, retained := failed)))
    {
      var _ := Publish(n, Record(n, failed, 0, None, prior.createdAt, prior.ttl));
    }

    /** Release what the record names, then drop the record, or keep in it what could not be released. */
    method Release(n: string, r: Record) returns (released: bool)
      requires RecordOf(l, n) == Stored(r)
      modifies this
      ensures l.dirs.Keys == old(l).dirs.Keys && OnlyTouches(old(l), l, n)
      ensures r.backup == n ==> Careful(old(l), l, n)
      ensures forall e :: e in FrozenFor(old(l), n) && e !in Entries(r) ==> e in FrozenFor(l, n)
      ensures released ==> forall e :: e in Entries(r) ==> e !in FrozenFor(l, n)
      ensures chOk ==> released
      ensures chOk && diskOk ==> RecordOf(l, n) == Absent
    {
      var failed := UnfreezeAllChecked(n, r.retained);
      if failed == [] {
        var _ := Delete(n);
        released := true;
      } else {
        RetainFailed(n, failed, r);
        released := false;
      }
    }

    /** An operator's explicit release, deadline or not. */
    method ReleaseNow(n: string) returns (ok: bool)
      modifies this
      ensures l.dirs.Keys == old(l).dirs.Keys && OnlyTouches(old(l), l, n)
      ensures Careful(old(l), l, n)
      ensures RecordOf(old(l), n).Unreadable? ==> !ok && l == old(l)
      ensures RecordOf(old(l), n).Absent? ==> ok && l == old(l)
      ensures ok ==> RecordOf(l, n).Absent?
      ensures ok && Tracked(old(l), n) ==> FrozenFor(l, n) == {}
      ensures chOk && diskOk && RecordOf(old(l), n).Stored? && RecordOf(old(l), n).record.backup == n ==> ok
    {
      if n !in l.dirs || l.dirs[n].Absent? {
        return true;
      }
      if l.dirs[n].Unreadable? || l.dirs[n].record.backup != n {
        return false;
      }
      var released := Release(n, l.dirs[n].record);
      ok := released && l.dirs[n].Absent?;
    }

    method LockIsActive(n: string) returns (active: bool)
      ensures active == (n in busy)
    {
      active := n in busy;
    }

    predicate AllOk() {
      chOk && diskOk
    }

    /** Judge one backup, take its lock unless the caller holds it, judge again, and release what is still due. */
    method ReapOne(n: string, now: nat, ownLock: Option<string>) returns (released: bool)
      requires n in l.dirs
      modifies this
      ensures l.dirs.Keys == old(l).dirs.Keys && OnlyTouches(old(l), l, n)
      ensures Reaped(old(l), l, n, processes, now, ownLock, busy, globalLive, AllOk())
      ensures chOk ==> (released <==> Releasable(old(l), n, processes, now, ownLock, busy, globalLive))
    {
      released := false;
      var selfOwned := ownLock == Some(n);
      ReapableIff(l.dirs[n], processes, now, false);
      var lockActive := LockIsActive(n);
      if StatusOf(l.dirs[n], processes, now, lockActive && !selfOwned).Reapable? {
        if selfOwned || (!globalLive && !lockActive) {
          // Judged again under the lock, without consulting the lock itself.
          var status := StatusOf(l.dirs[n], processes, now, false);
          if status.Reapable? {
            released := Release(n, status.record);
          }
        }
      }
    }

    /**
     Release every expired freeze whose owner is gone and whose lock the caller holds or can take. With the
     global lock held no per-backup lock can be taken, so only the caller's own backup is eligible.
     */
    method ReapExpired(now: nat, ownLock: Option<string>) returns (reaped: nat)
      modifies this
      ensures l.dirs.Keys == old(l).dirs.Keys
      ensures forall n :: Reaped(old(l), l, n, processes, now, ownLock, busy, globalLive, AllOk())
      ensures globalLive && ownLock.None? ==> forall n :: Untouched(old(l), l, n)
      ensures forall n ::
                (RecordOf(old(l), n).Stored?
                 && now <= RecordOf(old(l), n).record.createdAt + RecordOf(old(l), n).record.ttl) ==>
                  Untouched(old(l), l, n)
    {
      var names := l.dirs.Keys;
      reaped := 0;
      while names != {}
        invariant names <= l.dirs.Keys == old(l).dirs.Keys
        invariant forall n :: n in names || n !in old(l).dirs ==> Untouched(old(l), l, n)
        invariant forall n :: n !in names ==>
          Reaped(old(l), l, n, processes, now, ownLock, busy, globalLive, AllOk())
        decreases names
      {
        var n :| n in names;
        names := names - {n};
        ghost var before := l;
        assert Untouched(old(l), before, n);
        var released := ReapOne(n, now, ownLock);
        reaped := if released then reaped + 1 else reaped;
        forall m | m != n
          ensures Untouched(before, l, m)
        {
          OthersUntouched(before, l, n, m);
        }
        ReapedSoFar(old(l), before, l, n, names, processes, now, ownLock, busy, globalLive, AllOk());
      }
    }

    /** Whether local deletion has to refuse. */
    method BlocksDestructiveOp(n: string, now: nat) returns (blocked: bool)
      ensures blocked <==> !RecordOf(l, n).Absent?
    {
      var lockActive := LockIsActive(n);
      var stored := if n in l.dirs then l.dirs[n] else Absent;
      match StatusOf(stored, processes, now, lockActive)
      case NotProtected => blocked := false;
      case Protected => blocked := true;
      case Reapable(_) => blocked := true;
    }

    method DeleteLocal(n: string, now: nat) returns (ok: bool)
      modifies this
      ensures l == if ok then old(l).(dirs := old(l).dirs - {n}) else old(l)
      ensures ok ==> n in old(l).dirs && old(l).dirs[n].Absent?
      ensures diskOk && n in old(l).dirs && old(l).dirs[n].Absent? ==> ok
    {
      if n !in l.dirs {
        return false;
      }
      var blocked := BlocksDestructiveOp(n, now);
      if blocked {
        return false;
      }
      ok := *;
      ok := ok || diskOk;
      if ok {
        l := l.(dirs := l.dirs - {n});
      }
    }

    /** Delete broken backups, releasing their freezes first when a ClickHouse connection is at hand. */
    method CleanBrokenLocal(broken: seq<string>, now: nat, connected: bool) returns (deleted: nat)
      modifies this
      ensures forall n :: SafeRemoval(old(l), l, n) && (n !in broken ==> Untouched(old(l), l, n))
      ensures connected && chOk && diskOk ==> forall n :: n in broken && Cleanable(old(l), n) ==> n !in l.dirs
    {
      deleted := 0;
      for i := 0 to |broken|
        invariant forall n :: SafeRemoval(old(l), l, n) && (n !in broken[..i] ==> Untouched(old(l), l, n))
        invariant connected && chOk && diskOk ==> forall n :: n in broken[..i] && Cleanable(old(l), n) ==> n !in l.dirs
      {
        var n := broken[i];
        ghost var before := l;
        var released := true;
        if connected && n in l.dirs && !l.dirs[n].Absent? {
          released := ReleaseNow(n);
        }
        assert SafeRemoval(before, l, n) && OnlyTouches(before, l, n);
        ghost var middle := l;
        if released {
          var ok := DeleteLocal(n, now);
          deleted := if ok then deleted + 1 else deleted;
        }
        assert SafeRemoval(middle, l, n) && OnlyTouches(middle, l, n);
        SafeRemovalComposes(before, middle, l, n);
        forall m
          ensures SafeRemoval(old(l), l, m) && (m !in broken[..i + 1] ==> Untouched(old(l), l, m))
          ensures m in broken[..i] ==> m !in before.dirs ==> m !in l.dirs
        {
          assert SafeRemoval(old(l), before, m);
          assert broken[..i + 1] == broken[..i] + [n];
          if m != n {
            OthersUntouched(before, middle, n, m);
            OthersUntouched(middle, l, n, m);
          } else {
            SafeRemovalComposes(old(l), before, l, n);
          }
        }
        assert connected && chOk && diskOk && Cleanable(old(l), n) ==> n !in l.dirs;
      }
      assert broken[..|broken|] == broken;
    }
  }

  /** The record, if there is one, can be read and belongs to the backup. */
  predicate Cleanable(l: Local, n: string) {
    Named(l, n) && !RecordOf(l, n).Unreadable?
  }

  // Once demoted, a freeze is released by exactly the passes past its fixed deadline whose caller holds or can take the lock.
  lemma OverdueIsReleasable(l: Local, n: string, r: Record, p: Processes, now: nat, ownLock: Option<string>,
                            busy: set<string>, globalLive: bool)
    requires RecordOf(l, n) == Stored(Demote(r))
    ensures Releasable(l, n, p, now, ownLock, busy, globalLive)
       <==> r.createdAt + r.ttl < now && (ownLock == Some(n) || (n !in busy && !globalLive))
  {
    DemotedRecordsAreBoundByTtl(r, p, Caller(1, None), now);
  }

  lemma ReapedSoFar(x: Local, y: Local, z: Local, n: string, names: set<string>, p: Processes, now: nat,
                    ownLock: Option<string>, busy: set<string>, globalLive: bool, allOk: bool)
    requires x.dirs.Keys == y.dirs.Keys == z.dirs.Keys && n !in names && n in x.dirs
    requires forall m :: m in names + {n} || m !in x.dirs ==> Untouched(x, y, m)
    requires forall m :: m !in names + {n} ==> Reaped(x, y, m, p, now, ownLock, busy, globalLive, allOk)
    requires forall m :: m != n ==> Untouched(y, z, m)
    requires Reaped(y, z, n, p, now, ownLock, busy, globalLive, allOk)
    ensures forall m :: m in names || m !in x.dirs ==> Untouched(x, z, m)
    ensures forall m :: m !in names ==> Reaped(x, z, m, p, now, ownLock, busy, globalLive, allOk)
  {
    forall m | m in names || m !in x.dirs
      ensures Untouched(x, z, m)
    {
      assert Untouched(x, y, m) && Untouched(y, z, m);
    }
    forall m | m !in names
      ensures Reaped(x, z, m, p, now, ownLock, busy, globalLive, allOk)
    {
      if m == n {
        assert Untouched(x, y, n);
      } else {
        assert Reaped(x, y, m, p, now, ownLock, busy, globalLive, allOk) && Untouched(y, z, m);
      }
    }
  }

  /**
   A backup directory only goes once nothing is frozen for it any more, and never under an unreadable record.
   */
  predicate SafeRemoval(x: Local, y: Local, n: string) {
    && (n in y.dirs ==> n in x.dirs)
    && (Tracked(x, n) ==> Tracked(y, n))
    && FrozenFor(y, n) <= FrozenFor(x, n)
    && (n in x.dirs && x.dirs[n].Unreadable? ==> n in y.dirs && y.dirs[n].Unreadable?)
  }

  lemma SafeRemovalComposes(x: Local, y: Local, z: Local, n: string)
    requires SafeRemoval(x, y, n) && SafeRemoval(y, z, n)
    ensures SafeRemoval(x, z, n)
  {
  }

  /** Any sequence of `delete_local` and `clean_broken_local` calls, as the states around them. */
  ghost predicate Cleanups(states: seq<Local>) {
    |states| > 0 && forall i :: 0 <= i < |states| - 1 ==> RemovesSafely(states[i], states[i + 1])
  }

  ghost predicate RemovesSafely(x: Local, y: Local) {
    forall n :: SafeRemoval(x, y, n)
  }

  // Over any such sequence, a directory is gone only if all its freezes were released, and one with an
  // unreadable record is still there.
  lemma {:induction false} RemovalNeverStrandsAFreeze(states: seq<Local>, i: nat, n: string)
    requires Cleanups(states) && i < |states|
    requires Tracked(states[0], n)
    ensures SafeRemoval(states[0], states[i], n)
    ensures n !in states[i].dirs ==> FrozenFor(states[i], n) == {}
    ensures n in states[0].dirs && states[0].dirs[n].Unreadable? ==> n in states[i].dirs
  {
    if i > 0 {
      RemovalNeverStrandsAFreeze(states, i - 1, n);
      assert RemovesSafely(states[i - 1], states[i]);
      SafeRemovalComposes(states[0], states[i - 1], states[i], n);
    }
  }
}
