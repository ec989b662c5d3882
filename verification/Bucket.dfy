/** The remote bucket: retention passes and broken-backup cleanup against storage that may fail at any call. */
module Bucket {
  import opened Options
  import opened Manifests
  import opened RetentionPlan

  function BackupPrefix(name: string): string {
    name + "/"
  }

  function ManifestKey(name: string): string {
    name + "/metadata.json"
  }

  /** Names come from the first path component of the bucket's keys. */
  predicate IsName(name: string) {
    '/' !in name
  }

  predicate Under(name: string, key: string) {
    BackupPrefix(name) <= key
  }

  // Keys of different backups never share a prefix.
  lemma PrefixesAreDisjoint(n: string, m: string, key: string)
    requires IsName(n) && IsName(m) && Under(n, key) && Under(m, key)
    ensures n == m
  {
    assert key[|n|] == '/' && key[|m|] == '/';
    assert key[..|n|] == n && key[..|m|] == m;
  }

  /** Keys as uploads choose them: under a backup's `data/` or `objects/` directory. */
  ghost predicate UploadKey(entry: string) {
    exists n :: IsName(n) && (n + "/data/" <= entry || n + "/objects/" <= entry)
  }

  // No key an upload writes into a manifest can protect, or be, a manifest.
  lemma UploadKeysSpareManifests(entries: set<string>, name: string)
    requires IsName(name) && forall e :: e in entries ==> UploadKey(e)
    ensures !IsKeyProtected(ManifestKey(name), entries)
  {
    var key := ManifestKey(name);
    forall e | e in entries
      ensures !(e <= key)
    {
      var n :| IsName(n) && (n + "/data/" <= e || n + "/objects/" <= e);
      assert n + "/" <= n + "/data/" && n + "/" <= n + "/objects/";
      assert e <= key ==> Under(n, key);
      assert Under(name, key);
      if Under(n, key) {
        PrefixesAreDisjoint(n, name, key);
        assert key[|name| + 1] == 'm' && e[|name| + 1] != 'm';
      }
    }
  }

  /** One batch delete sent to the bucket. */
  datatype Request = DataRequest(backup: string, keys: set<string>) | ManifestRequest(backup: string)

  function RequestKeys(r: Request): set<string> {
    match r
    case DataRequest(_, keys) => keys
    case ManifestRequest(n) => {ManifestKey(n)}
  }

  datatype Outcome = Outcome(deleted: seq<string>, skipped: seq<string>)

  ghost function AllKeys(manifests: map<string, Manifest>, names: seq<string>): set<string> {
    set n, k | n in names && n in manifests && k in CollectedKeys(manifests[n]) :: k
  }

  ghost function AllBases(manifests: map<string, Manifest>, names: seq<string>): set<string> {
    set n, k | n in names && n in manifests && k in IncrementalBases(manifests[n]) :: k
  }

  /** A delete request of a pass stays within the backup it is for, and names no protected key. */
  ghost predicate Confined(r: Request, protected: set<string>) {
    match r
    case DataRequest(n, keys) =>
      forall k :: k in keys ==> Under(n, k) && k != ManifestKey(n) && !IsKeyProtected(k, protected)
    case ManifestRequest(n) => true
  }

  /** All keys under a backup's prefix but its manifest. */
  function DataUnder(name: string, keys: set<string>): set<string> {
    set k | k in keys && Under(name, k) && k != ManifestKey(name)
  }

  /** A data request names all data of its backup, never just a part of it. */
  predicate Complete(r: Request, before: set<string>) {
    r.DataRequest? ==> r.keys == DataUnder(r.backup, before)
  }

  ghost predicate SurvivorsReadable(surviving: seq<string>, manifests: map<string, Manifest>, before: set<string>) {
    forall n :: n in surviving ==> n in manifests && ManifestKey(n) in before
  }

  /** A manifest is only requested right after the data of the same backup, and at most once. */
  ghost predicate ManifestsLast(log: seq<Request>) {
    && (forall i :: 0 <= i < |log| && log[i].ManifestRequest? ==>
          i > 0 && log[i - 1].DataRequest? && log[i - 1].backup == log[i].backup)
    && (forall i, j :: 0 <= i < j < |log| && log[i].ManifestRequest? ==> log[j].backup != log[i].backup)
  }

  /** A planned backup is kept on purpose: a survivor names it as its base or still references one of its keys. */
  ghost predicate MustKeep(name: string, keys: set<string>, protected: set<string>, bases: set<string>) {
    || name in bases
    || exists k :: k in keys && Under(name, k) && k != ManifestKey(name) && IsKeyProtected(k, protected)
  }

  ghost predicate Requested(log: seq<Request>, key: string) {
    exists i :: 0 <= i < |log| && key in RequestKeys(log[i])
  }

  /** What a completed pass may have done, whatever calls failed. */
  ghost predicate PassEffect(plan: Plan, manifests: map<string, Manifest>, before: set<string>, after: set<string>,
                             log: seq<Request>, outcome: Outcome)
  {
    var protected, bases := AllKeys(manifests, plan.surviving), AllBases(manifests, plan.surviving);
    && after <= before
    && SurvivorsReadable(plan.surviving, manifests, before)
    && (forall k :: k in before && !Requested(log, k) ==> k in after)
    && (forall r :: r in log ==> Complete(r, before))
    && (forall r :: r in log ==> r.backup in plan.toDelete && r.backup !in outcome.skipped && Confined(r, protected))
    && ManifestsLast(log)
    && (forall r :: r in log ==> !MustKeep(r.backup, before, protected, bases))
    && (forall n :: n in outcome.skipped ==> n in plan.toDelete && MustKeep(n, before, protected, bases))
    && (forall n :: n in outcome.deleted ==> ManifestRequest(n) in log)
  }

  // -- a pass grows its log one request, or its skip list one backup, at a time --

  lemma PassStarts(plan: Plan, manifests: map<string, Manifest>, keys: set<string>)
    requires SurvivorsReadable(plan.surviving, manifests, keys)
    ensures PassEffect(plan, manifests, keys, keys, [], Outcome([], []))
  {
  }

  lemma PassLooksFurther(d: seq<string>, n: string, surviving: seq<string>, manifests: map<string, Manifest>,
                         before: set<string>, after: set<string>, log: seq<Request>, o: Outcome)
    requires PassEffect(Plan(d, surviving), manifests, before, after, log, o)
    ensures PassEffect(Plan(d + [n], surviving), manifests, before, after, log, o)
  {
  }

  // A pass that sends no request for a backup leaves everything under its prefix in place.
  lemma OwnPrefixUntouched(plan: Plan, manifests: map<string, Manifest>, before: set<string>, after: set<string>,
                           log: seq<Request>, o: Outcome, n: string)
    requires PassEffect(plan, manifests, before, after, log, o)
    requires IsName(n) && forall r :: r in log ==> IsName(r.backup) && r.backup != n
    ensures forall k :: Under(n, k) ==> (k in before <==> k in after)
  {
    forall k | Under(n, k) && k in before
      ensures !Requested(log, k)
    {
      if Requested(log, k) {
        var i :| 0 <= i < |log| && k in RequestKeys(log[i]);
        assert log[i] in log;
        PrefixesAreDisjoint(n, log[i].backup, k);
      }
    }
  }

  // Skipped candidates, and backups that are no candidates, keep everything under their prefix, manifest included.
  lemma OnlyCandidatesLoseKeys(plan: Plan, manifests: map<string, Manifest>, before: set<string>, after: set<string>,
                               log: seq<Request>, o: Outcome, n: string)
    requires PassEffect(plan, manifests, before, after, log, o)
    requires IsName(n) && forall m :: m in plan.toDelete ==> IsName(m)
    requires n in o.skipped || n !in plan.toDelete
    ensures forall k :: Under(n, k) ==> (k in before <==> k in after)
  {
    OwnPrefixUntouched(plan, manifests, before, after, log, o, n);
  }

  lemma PassSkips(plan: Plan, manifests: map<string, Manifest>, before: set<string>, after: set<string>,
                  log: seq<Request>, o: Outcome, n: string)
    requires PassEffect(plan, manifests, before, after, log, o)
    requires n in plan.toDelete && forall r :: r in log ==> r.backup != n
    requires MustKeep(n, before, AllKeys(manifests, plan.surviving), AllBases(manifests, plan.surviving))
    ensures PassEffect(plan, manifests, before, after, log, o.(skipped := o.skipped + [n]))
  {
  }

  lemma PassRequests(plan: Plan, manifests: map<string, Manifest>, before: set<string>, after: set<string>,
                     log: seq<Request>, o: Outcome, r: Request, after': set<string>)
    requires PassEffect(plan, manifests, before, after, log, o)
    requires r.backup in plan.toDelete && r.backup !in o.skipped
    requires Confined(r, AllKeys(manifests, plan.surviving)) && Complete(r, before)
    requires !MustKeep(r.backup, before, AllKeys(manifests, plan.surviving), AllBases(manifests, plan.surviving))
    requires forall i :: 0 <= i < |log| && log[i].ManifestRequest? ==> log[i].backup != r.backup
    requires r.ManifestRequest? ==> |log| > 0 && log[|log| - 1].DataRequest? && log[|log| - 1].backup == r.backup
    requires after - RequestKeys(r) <= after' <= after
    ensures PassEffect(plan, manifests, before, after', log + [r], o)
  {
    var log' := log + [r];
    forall k | k in before && !Requested(log', k)
      ensures k in after'
    {
      assert log'[|log|] == r;
      assert forall i :: 0 <= i < |log| ==> log'[i] == log[i];
      assert !Requested(log, k);
    }
    forall n | n in o.deleted
      ensures ManifestRequest(n) in log'
    {
      assert ManifestRequest(n) in log;
    }
  }

  /** What `clean_broken` knows about a broken backup besides its keys. */
  datatype Broken = Broken(name: string, lockIsLive: bool)

  function ClampedAge(now: int, newest: int): nat {
    var age := now - newest;
    if age < 0 then 0 else if age > MAX_I64 then MAX_I64 else age
  }

  const MAX_I64 := 0x7FFF_FFFF_FFFF_FFFF

  /** At least `minAge` seconds have passed since the stamp; no age exceeds what 63 bits hold. */
  predicate Aged(stamp: int, now: int, minAge: nat) {
    minAge == 0 || (minAge <= MAX_I64 && stamp + minAge <= now)
  }

  datatype CleanPlan = Skip | Delete(keys: set<string>)

  /** All guards of the cleanup in one place: lock, age, and keys a valid backup still references. */
  function PlanCleanBroken(candidates: set<string>, newest: Option<int>, now: int, minAge: nat, lockIsLive: bool,
                           protected: set<string>): (plan: CleanPlan)
    ensures plan.Delete? <==>
      && !lockIsLive && newest.Some? && Aged(newest.value, now, minAge)
      && exists k :: k in candidates && !IsKeyProtected(k, protected)
    ensures plan.Delete? ==> forall k :: k in plan.keys <==> k in candidates && !IsKeyProtected(k, protected)
  {
    if lockIsLive then Skip
    else if newest.None? then Skip
    else if ClampedAge(now, newest.value) < minAge then Skip
    else
      var keys := set k | k in candidates && !IsKeyProtected(k, protected);
      assert forall k :: k in keys <==> k in candidates && !IsKeyProtected(k, protected);
      if keys == {} then Skip else Delete(keys)
  }

  /** The youngest timestamp of a prefix is known and old enough. */
  ghost predicate OldEnough(keys: set<string>, stamps: map<string, Option<int>>, name: string, now: int, minAge: nat) {
    && (exists k :: k in keys && Under(name, k))
    && forall k :: k in keys && Under(name, k) ==>
         k in stamps && stamps[k].Some? && Aged(stamps[k].value, now, minAge)
  }

  ghost predicate CleanEffect(broken: seq<Broken>, protected: set<string>, stamps: map<string, Option<int>>, now: int,
                              minAge: nat, before: set<string>, after: set<string>)
  {
    && after <= before
    && forall k :: k in before - after ==>
         && !IsKeyProtected(k, protected)
         && exists b :: b in broken && Under(b.name, k) && !b.lockIsLive && OldEnough(before, stamps, b.name, now, minAge)
  }

  class Bucket {
    var keys: set<string>
    var log: seq<Request>
    const manifests: map<string, Manifest>
    const stamps: map<string, Option<int>>
    /** No call to the storage fails. */
    const reliable: bool

    constructor (keys: set<string>, manifests: map<string, Manifest>, stamps: map<string, Option<int>>, reliable: bool)
      ensures this.keys == keys && log == [] && this.manifests == manifests && this.stamps == stamps
      ensures this.reliable == reliable
    {
      this.keys, log, this.manifests, this.stamps, this.reliable := keys, [], manifests, stamps, reliable;
    }

    ghost predicate Readable(name: string)
      reads this
    {
      ManifestKey(name) in keys && name in manifests
    }

    /** Fetch and parse a manifest; any failure reads as `None`. */
    method FetchManifest(name: string) returns (m: Option<Manifest>)
      ensures m.Some? ==> Readable(name) && m.value == manifests[name]
      ensures reliable && Readable(name) ==> m.Some?
    {
      var reachable: bool := *;
      m := if (reachable || reliable) && ManifestKey(name) in keys && name in manifests then Some(manifests[name]) else None;
    }

    method ListPrefix(name: string) returns (listed: Option<set<string>>)
      ensures listed.Some? ==> listed.value == set k | k in keys && Under(name, k)
      ensures reliable ==> listed.Some?
    {
      var reachable: bool := *;
      listed := if reachable || reliable then Some(set k | k in keys && Under(name, k)) else None;
    }

    /** A batch delete: any subset of the requested keys may go, and it may report success or failure either way. */
    method DeleteKeys(request: Request) returns (ok: bool)
      modifies this
      ensures log == old(log) + [request]
      ensures old(keys) - RequestKeys(request) <= keys <= old(keys)
      ensures reliable ==> ok && keys == old(keys) - RequestKeys(request)
    {
      log := log + [request];
      var gone: set<string> := *;
      ok := *;
      if reliable {
        gone, ok := RequestKeys(request), true;
      }
      keys := keys - (gone * RequestKeys(request));
    }

    /** Gather what the manifests of `names` protect, giving up at the first one that cannot be read. */
    method CollectProtected(names: seq<string>) returns (protected: Option<set<string>>, bases: set<string>)
      ensures protected.Some? ==>
        && protected.value == AllKeys(manifests, names)
        && bases == AllBases(manifests, names)
        && forall n :: n in names ==> Readable(n)
      ensures reliable && (forall n :: n in names ==> Readable(n)) ==> protected.Some?
    {
      var sofar: set<string> := {};
      bases := {};
      for i := 0 to |names|
        invariant sofar == AllKeys(manifests, names[..i]) && bases == AllBases(manifests, names[..i])
        invariant forall n :: n in names[..i] ==> Readable(n)
      {
        var m := FetchManifest(names[i]);
        if m.None? {
          return None, bases;
        }
        assert names[..i + 1] == names[..i] + [names[i]];
        assert AllKeys(manifests, names[..i + 1]) == AllKeys(manifests, names[..i]) + CollectedKeys(m.value);
        assert AllBases(manifests, names[..i + 1]) == AllBases(manifests, names[..i]) + IncrementalBases(m.value);
        var found := CollectKeyPrefixes(m.value);
        sofar := sofar + found;
        bases := bases + IncrementalBases(m.value);
      }
      assert names[..|names|] == names;
      protected := Some(sofar);
    }

    /** Set aside the manifest and count the keys that are still referenced. */
    method SplitKeys(name: string, listed: set<string>, protected: set<string>)
      returns (data: set<string>, protectedCount: nat)
      ensures data == set k | k in listed && k != ManifestKey(name) && !IsKeyProtected(k, protected)
      ensures protectedCount > 0 <==> exists k :: k in listed && k != ManifestKey(name) && IsKeyProtected(k, protected)
    {
      data, protectedCount := {}, 0;
      var todo := listed;
      while todo != {}
        invariant todo <= listed
        invariant data == set k | k in listed - todo && k != ManifestKey(name) && !IsKeyProtected(k, protected)
        invariant protectedCount > 0 <==>
          exists k :: k in listed - todo && k != ManifestKey(name) && IsKeyProtected(k, protected)
        decreases todo
      {
        var key :| key in todo;
        todo := todo - {key};
        if key != ManifestKey(name) {
          if IsKeyProtected(key, protected) {
            protectedCount := protectedCount + 1;
          } else {
            data := data + {key};
          }
        }
      }
    }

    /** Delete one candidate: its data first, its manifest last, stopping at the first failed call. */
    method DeleteCandidate(name: string, data: set<string>) returns (ok: bool)
      modifies this
      ensures |log| > |old(log)| && log[..|old(log)|] == old(log) && log[|old(log)|] == DataRequest(name, data)
      ensures |log| <= |old(log)| + 2
      ensures |log| == |old(log)| + 2 ==> log[|old(log)| + 1] == ManifestRequest(name)
      ensures ok ==> |log| == |old(log)| + 2
      ensures keys <= old(keys)
      ensures old(keys) - data - (if |log| == |old(log)| + 2 then {ManifestKey(name)} else {}) <= keys
      ensures reliable ==> ok && keys == old(keys) - data - {ManifestKey(name)}
    {
      ok := DeleteKeys(DataRequest(name, data));
      if ok {
        ok := DeleteKeys(ManifestRequest(name));
      }
    }

    /** Decide about one candidate; a failed or empty listing leaves it to the next pass. */
    method JudgeCandidate(name: string, protected: set<string>, bases: set<string>) returns (v: Verdict)
      ensures v.KeepIntact? ==> MustKeep(name, keys, protected, bases)
      ensures name in bases ==> v.KeepIntact?
      ensures v.Erase? ==> !MustKeep(name, keys, protected, bases) && Confined(DataRequest(name, v.data), protected)
      ensures v.Erase? ==> v.data == DataUnder(name, keys)
      ensures reliable && v.LeaveForLater? ==> name !in bases && forall k :: Under(name, k) ==> k !in keys
    {
      if name in bases {
        return KeepIntact;
      }
      var listed := ListPrefix(name);
      assert listed.Some? ==> forall k :: k in keys && Under(name, k) ==> k in listed.value;
      if listed.None? || listed.value == {} {
        return LeaveForLater;
      }
      var data, protectedCount := SplitKeys(name, listed.value, protected);
      v := if protectedCount > 0 then KeepIntact else Erase(data);
    }

    /** One retention pass. `None` means it gave up before sending any delete request. */
    method RetentionPass(plan: Plan) returns (outcome: Option<Outcome>)
      requires forall n :: n in plan.toDelete ==> IsName(n)
      requires Distinct(plan.toDelete)
      modifies this
      ensures |old(log)| <= |log| && log[..|old(log)|] == old(log)
      ensures outcome.None? ==> keys == old(keys) && log == old(log)
      ensures outcome.Some? ==>
        && PassEffect(plan, manifests, old(keys), keys, log[|old(log)|..], outcome.value)
        && forall n :: n in plan.surviving ==> old(Readable(n))
      ensures outcome.Some? ==>
        && (forall n :: n in plan.toDelete && SourceOfSurvivor(manifests, plan.surviving, n) ==> n in outcome.value.skipped)
        && (forall n, k :: SourceOfSurvivor(manifests, plan.surviving, n) && IsName(n) && Under(n, k) ==>
              (k in old(keys) <==> k in keys))
        && forall k :: k in old(keys) && NeededByAny(manifests, plan.surviving, k) && !IsManifestOf(plan.toDelete, k) ==>
             k in keys
      ensures reliable && (forall n :: n in plan.surviving ==> old(Readable(n))) ==>
        && outcome.Some?
        && Thorough(plan.toDelete, manifests, plan.surviving, old(keys), keys, outcome.value.skipped)
    {
      var collected, bases := CollectProtected(plan.surviving);
      if collected.None? {
        return None;
      }
      var o := Outcome([], []);
      ghost var start, before := |log|, keys;
      PassStarts(Plan([], plan.surviving), manifests, keys);
      for i := 0 to |plan.toDelete|
        invariant start <= |log| && log[..start] == old(log)
        invariant PassEffect(Plan(plan.toDelete[..i], plan.surviving), manifests, before, keys, log[start..], o)
        invariant forall n :: n in plan.toDelete[..i] && n in bases ==> n in o.skipped
        invariant reliable ==> Thorough(plan.toDelete[..i], manifests, plan.surviving, before, keys, o.skipped)
      {
        var n := plan.toDelete[i];
        ghost var log0, keys0, o0 := log[start..], keys, o;
        assert plan.toDelete[..i + 1] == plan.toDelete[..i] + [n];
        NextCandidate(plan, i, manifests, before, keys0, log0, o0);
        var verdict := JudgeCandidate(n, collected.value, bases);
        if verdict.KeepIntact? {
          PassSkips(UpTo(plan, i + 1), manifests, before, keys0, log0, o0, n);
          o := o.(skipped := o.skipped + [n]);
        } else if verdict.Erase? {
          var ok := DeleteCandidate(n, verdict.data);
          o := if ok then o.(deleted := o.deleted + [n]) else o;
          CandidateDeleted(UpTo(plan, i + 1), manifests, before, keys0, keys, log0, log[start..], o0, n, verdict.data, ok);
        }
      }
      assert plan.toDelete[..|plan.toDelete|] == plan.toDelete;
      outcome := Some(o);
      PassSparesSources(plan, manifests, before, keys, log[start..], o);
      PassSparesNeeded(plan, manifests, before, keys, log[start..], o);
    }

    /** The youngest timestamp under a prefix, unknown as soon as one object carries none. */
    method NewestLastModified(listed: set<string>) returns (newest: Option<int>)
      ensures newest.Some? <==> listed != {} && forall k :: k in listed ==> k in stamps && stamps[k].Some?
      ensures newest.Some? ==> forall k :: k in listed ==> stamps[k].value <= newest.value
      ensures newest.Some? ==> exists k :: k in listed && stamps[k].value == newest.value
    {
      newest := None;
      var todo := listed;
      while todo != {}
        invariant todo <= listed
        invariant newest.None? ==> todo == listed
        invariant newest.Some? ==> forall k :: k in listed - todo ==>
          k in stamps && stamps[k].Some? && stamps[k].value <= newest.value
        invariant newest.Some? ==>
          exists k :: k in listed - todo && k in stamps && stamps[k].Some? && stamps[k].value == newest.value
        decreases todo
      {
        var k :| k in todo;
        todo := todo - {k};
        if k !in stamps || stamps[k].None? {
          return None;
        }
        if newest.None? || newest.value < stamps[k].value {
          newest := stamps[k];
        }
      }
    }

    /** Delete what the planner clears under each broken prefix. `None` means it gave up before deleting anything. */
    method CleanBrokenRemote(valid: seq<string>, broken: seq<Broken>, now: int, minAge: nat)
      returns (deleted: Option<nat>)
      requires forall b :: b in broken ==> IsName(b.name)
      requires forall i, j :: 0 <= i < j < |broken| ==> broken[i].name != broken[j].name
      modifies this
      ensures deleted.None? ==> keys == old(keys) && log == old(log)
      ensures deleted.Some? ==>
        && CleanEffect(broken, AllKeys(manifests, valid), stamps, now, minAge, old(keys), keys)
        && forall n :: n in valid ==> old(Readable(n))
      ensures forall k :: k in old(keys) && NeededByAny(manifests, valid, k) ==> k in keys
      ensures reliable && (forall n :: n in valid ==> old(Readable(n))) ==>
        && deleted.Some?
        && Cleaned(broken, |broken|, AllKeys(manifests, valid), stamps, now, minAge, old(keys), keys)
    {
      var protected, _ := CollectProtected(valid);
      if protected.None? {
        return None;
      }
      var count := 0;
      ghost var before := keys;
      for i := 0 to |broken|
        invariant CleanEffect(broken, protected.value, stamps, now, minAge, before, keys)
        invariant forall j, k :: i <= j < |broken| && Under(broken[j].name, k) ==> (k in before <==> k in keys)
        invariant reliable ==> Cleaned(broken, i, protected.value, stamps, now, minAge, before, keys)
      {
        var b := broken[i];
        ghost var keys0 := keys;
        var listed := ListPrefix(b.name);
        if listed.Some? {
          assert listed.value == set k | k in before && Under(b.name, k);
          var newest := NewestLastModified(listed.value);
          var plan := PlanCleanBroken(listed.value, newest, now, minAge, b.lockIsLive, protected.value);
          if plan.Delete? {
            var ok := DeleteKeys(DataRequest(b.name, plan.keys));
            count := if ok then count + 1 else count;
          }
          AgeIsJudgedByTheNewest(before, stamps, b.name, listed.value, newest, now, minAge);
          OneCleaned(broken, i, protected.value, stamps, now, minAge, before, keys0, keys, listed.value, plan, reliable);
        }
      }
      CleanSparesNeeded(broken, manifests, valid, stamps, now, minAge, before, keys);
      deleted := Some(count);
    }
  }

  /** Some part of a survivor says that it was carried from backup `n`. */
  ghost predicate SourceOfSurvivor(manifests: map<string, Manifest>, surviving: seq<string>, n: string) {
    exists m :: m in surviving && m in manifests && CarriesFrom(manifests[m], n)
  }

  ghost predicate CarriesFrom(m: Manifest, n: string) {
    exists t, d, i :: At(m, t, d, i) && PartAt(m, t, d, i).source == "carried:" + n
  }

  /** Some part of one of these backups is restored from the object. */
  ghost predicate NeededByAny(manifests: map<string, Manifest>, names: seq<string>, k: string) {
    exists m :: m in names && m in manifests && Needs(manifests[m], k)
  }

  ghost predicate IsManifestOf(names: seq<string>, k: string) {
    exists n :: n in names && k == ManifestKey(n)
  }

  lemma NeededIsProtected(manifests: map<string, Manifest>, names: seq<string>, k: string)
    ensures NeededByAny(manifests, names, k) ==> IsKeyProtected(k, AllKeys(manifests, names))
  {
    if m :| m in names && m in manifests && Needs(manifests[m], k) {
      NeedsIff(manifests[m], k);
      ProtectionIsMonotone(k, CollectedKeys(manifests[m]), AllKeys(manifests, names));
    }
  }

  lemma SourcesAreBases(manifests: map<string, Manifest>, surviving: seq<string>, n: string)
    ensures n in AllBases(manifests, surviving) <==> SourceOfSurvivor(manifests, surviving, n)
  {
    if n in AllBases(manifests, surviving) {
      var m :| m in surviving && m in manifests && n in IncrementalBases(manifests[m]);
      BasesIff(manifests[m], n);
    }
    if m :| m in surviving && m in manifests && CarriesFrom(manifests[m], n) {
      BasesIff(manifests[m], n);
    }
  }

  // Whatever a survivor says it was carried from loses nothing to a pass, manifest included.
  lemma PassSparesSources(plan: Plan, manifests: map<string, Manifest>, before: set<string>, after: set<string>,
                          log: seq<Request>, o: Outcome)
    requires PassEffect(plan, manifests, before, after, log, o)
    requires forall n :: n in plan.toDelete ==> IsName(n)
    ensures forall n :: SourceOfSurvivor(manifests, plan.surviving, n) <==> n in AllBases(manifests, plan.surviving)
    ensures forall n, k :: SourceOfSurvivor(manifests, plan.surviving, n) && IsName(n) && Under(n, k) ==>
              (k in before <==> k in after)
  {
    forall n
      ensures SourceOfSurvivor(manifests, plan.surviving, n) <==> n in AllBases(manifests, plan.surviving)
    {
      SourcesAreBases(manifests, plan.surviving, n);
    }
    forall n | SourceOfSurvivor(manifests, plan.surviving, n) && IsName(n)
      ensures forall k :: Under(n, k) ==> (k in before <==> k in after)
    {
      OwnPrefixUntouched(plan, manifests, before, after, log, o, n);
    }
  }

  // A pass takes no object a survivor needs, down to the last file below a directory it names.
  lemma PassSparesNeeded(plan: Plan, manifests: map<string, Manifest>, before: set<string>, after: set<string>,
                         log: seq<Request>, o: Outcome)
    requires PassEffect(plan, manifests, before, after, log, o)
    ensures forall k :: k in before && NeededByAny(manifests, plan.surviving, k) && !IsManifestOf(plan.toDelete, k) ==>
              k in after
  {
    forall k | k in before && NeededByAny(manifests, plan.surviving, k) && !IsManifestOf(plan.toDelete, k)
      ensures k in after
    {
      NeededIsProtected(manifests, plan.surviving, k);
      forall i | 0 <= i < |log|
        ensures k !in RequestKeys(log[i])
      {
        assert log[i] in log;
      }
    }
  }

  // Nor does a cleanup take one that a valid backup needs.
  lemma CleanSparesNeeded(broken: seq<Broken>, manifests: map<string, Manifest>, valid: seq<string>,
                          stamps: map<string, Option<int>>, now: int, minAge: nat, before: set<string>,
                          after: set<string>)
    requires CleanEffect(broken, AllKeys(manifests, valid), stamps, now, minAge, before, after)
    ensures forall k :: k in before && NeededByAny(manifests, valid, k) ==> k in after
  {
    forall k | k in before && NeededByAny(manifests, valid, k)
      ensures k in after
    {
      NeededIsProtected(manifests, valid, k);
      assert k !in after ==> k in before - after;
    }
  }

  /** The prefixes handled so far hold nothing but protected keys, unless a guard spared them. */
  ghost predicate Cleaned(broken: seq<Broken>, i: nat, protected: set<string>, stamps: map<string, Option<int>>, now: int,
                          minAge: nat, before: set<string>, after: set<string>)
    requires i <= |broken|
  {
    forall j, k :: 0 <= j < i && Under(broken[j].name, k) && k in before ==>
      (k in after <==>
        broken[j].lockIsLive || !OldEnough(before, stamps, broken[j].name, now, minAge) || IsKeyProtected(k, protected))
  }

  lemma AgeIsJudgedByTheNewest(keys: set<string>, stamps: map<string, Option<int>>, name: string, listed: set<string>,
                               newest: Option<int>, now: int, minAge: nat)
    requires listed == set k | k in keys && Under(name, k)
    requires newest.Some? <==> listed != {} && forall k :: k in listed ==> k in stamps && stamps[k].Some?
    requires newest.Some? ==> forall k :: k in listed ==> stamps[k].value <= newest.value
    requires newest.Some? ==> exists k :: k in listed && stamps[k].value == newest.value
    ensures newest.Some? && Aged(newest.value, now, minAge) <==> OldEnough(keys, stamps, name, now, minAge)
  {
    assert forall k :: k in listed <==> k in keys && Under(name, k);
    assert listed != {} <==> exists k :: k in keys && Under(name, k);
    if newest.Some? {
      var k :| k in listed && stamps[k].value == newest.value;
      assert k in keys && Under(name, k);
    }
  }

  lemma OneCleaned(broken: seq<Broken>, i: nat, protected: set<string>, stamps: map<string, Option<int>>, now: int,
                   minAge: nat, before: set<string>, keys0: set<string>, keys1: set<string>, listed: set<string>,
                   plan: CleanPlan, reliable: bool)
    requires i < |broken| && forall b :: b in broken ==> IsName(b.name)
    requires forall j, k :: 0 <= j < k < |broken| ==> broken[j].name != broken[k].name
    requires CleanEffect(broken, protected, stamps, now, minAge, before, keys0)
    requires forall j, k :: i <= j < |broken| && Under(broken[j].name, k) ==> (k in before <==> k in keys0)
    requires reliable ==> Cleaned(broken, i, protected, stamps, now, minAge, before, keys0)
    requires listed == set k | k in before && Under(broken[i].name, k)
    requires var ripe := !broken[i].lockIsLive && OldEnough(before, stamps, broken[i].name, now, minAge);
             && (plan.Delete? <==> ripe && exists k :: k in listed && !IsKeyProtected(k, protected))
             && (plan.Delete? ==> forall k :: k in plan.keys <==> k in listed && !IsKeyProtected(k, protected))
    requires keys1 <= keys0
    requires if plan.Delete? then keys0 - plan.keys <= keys1 else keys1 == keys0
    requires reliable && plan.Delete? ==> keys1 == keys0 - plan.keys
    ensures CleanEffect(broken, protected, stamps, now, minAge, before, keys1)
    ensures forall j, k :: i + 1 <= j < |broken| && Under(broken[j].name, k) ==> (k in before <==> k in keys1)
    ensures reliable ==> Cleaned(broken, i + 1, protected, stamps, now, minAge, before, keys1)
  {
    forall j, k | 0 <= j < |broken| && j != i && Under(broken[j].name, k)
      ensures k in keys1 <==> k in keys0
    {
      if Under(broken[i].name, k) {
        PrefixesAreDisjoint(broken[i].name, broken[j].name, k);
      }
    }
    forall k | k in before - keys1
      ensures !IsKeyProtected(k, protected)
      ensures exists b :: b in broken && Under(b.name, k) && !b.lockIsLive && OldEnough(before, stamps, b.name, now, minAge)
    {
      if k in keys0 {
        assert broken[i] in broken && Under(broken[i].name, k);
      }
    }
  }

  /** Every candidate was either kept for a reason or removed without a trace. */
  ghost predicate Thorough(names: seq<string>, manifests: map<string, Manifest>, surviving: seq<string>,
                           before: set<string>, after: set<string>, skipped: seq<string>)
  {
    forall n :: n in names ==>
      if MustKeep(n, before, AllKeys(manifests, surviving), AllBases(manifests, surviving)) then n in skipped
      else forall k :: Under(n, k) ==> k !in after
  }

  datatype Verdict = KeepIntact | LeaveForLater | Erase(data: set<string>)

  ghost function UpTo(plan: Plan, i: nat): Plan
    requires i <= |plan.toDelete|
  {
    Plan(plan.toDelete[..i], plan.surviving)
  }

  // Nothing done so far concerns the next candidate, so it is judged on the keys the pass started with.
  lemma NextCandidate(plan: Plan, i: nat, manifests: map<string, Manifest>, before: set<string>, keys: set<string>,
                      log: seq<Request>, o: Outcome)
    requires i < |plan.toDelete| && Distinct(plan.toDelete) && forall n :: n in plan.toDelete ==> IsName(n)
    requires PassEffect(UpTo(plan, i), manifests, before, keys, log, o)
    ensures PassEffect(UpTo(plan, i + 1), manifests, before, keys, log, o)
    ensures var n := plan.toDelete[i];
            && n !in o.skipped
            && (forall r :: r in log ==> r.backup != n)
            && DataUnder(n, keys) == DataUnder(n, before)
            && forall protected, bases ::
                 MustKeep(n, keys, protected, bases) <==> MustKeep(n, before, protected, bases)
  {
    var n := plan.toDelete[i];
    assert plan.toDelete[..i + 1] == plan.toDelete[..i] + [n];
    assert forall m :: m in plan.toDelete[..i] ==> m in plan.toDelete && m != n;
    OwnPrefixUntouched(UpTo(plan, i), manifests, before, keys, log, o, n);
    PassLooksFurther(plan.toDelete[..i], n, plan.surviving, manifests, before, keys, log, o);
  }

  // Deleting one candidate keeps the pass within its effect, however far the deletion got.
  lemma CandidateDeleted(plan: Plan, manifests: map<string, Manifest>, before: set<string>, keys0: set<string>,
                         keys1: set<string>, log0: seq<Request>, log1: seq<Request>, o: Outcome, n: string,
                         data: set<string>, ok: bool)
    requires PassEffect(plan, manifests, before, keys0, log0, o)
    requires n in plan.toDelete && n !in o.skipped && forall r :: r in log0 ==> r.backup != n
    requires Confined(DataRequest(n, data), AllKeys(manifests, plan.surviving)) && data == DataUnder(n, before)
    requires !MustKeep(n, before, AllKeys(manifests, plan.surviving), AllBases(manifests, plan.surviving))
    requires log1 == log0 + [DataRequest(n, data)]
          || log1 == log0 + [DataRequest(n, data)] + [ManifestRequest(n)]
    requires ok ==> |log1| == |log0| + 2
    requires keys1 <= keys0 && keys0 - data - (if |log1| == |log0| + 2 then {ManifestKey(n)} else {}) <= keys1
    ensures PassEffect(plan, manifests, before, keys1, log1, if ok then o.(deleted := o.deleted + [n]) else o)
  {
    var log := log0 + [DataRequest(n, data)];
    if |log1| == |log0| + 2 {
      PassRequests(plan, manifests, before, keys0, log0, o, DataRequest(n, data), keys0 - data);
      PassRequests(plan, manifests, before, keys0 - data, log, o, ManifestRequest(n), (keys0 - data) * keys1);
      PassMayKeepMore(plan, manifests, before, (keys0 - data) * keys1, log1, o, keys1);
      assert log1[|log1| - 1] == ManifestRequest(n);
    } else {
      PassRequests(plan, manifests, before, keys0, log0, o, DataRequest(n, data), keys1);
    }
  }

  lemma PassMayKeepMore(plan: Plan, manifests: map<string, Manifest>, before: set<string>, after: set<string>,
                        log: seq<Request>, o: Outcome, more: set<string>)
    requires PassEffect(plan, manifests, before, after, log, o) && after <= more <= before
    ensures PassEffect(plan, manifests, before, more, log, o)
  {
  }

  /** A pass over the plan, complete and with any calls failing, that takes this key. */
  ghost predicate PassTakes(plan: Plan, manifests: map<string, Manifest>, before: set<string>, k: string,
                            after: set<string>, log: seq<Request>, o: Outcome)
  {
    PassEffect(plan, manifests, before, after, log, o) && k in before - after
  }

  /** The key lies under a planned candidate that no survivor needs, and all survivors can be read. */
  ghost predicate Exposed(plan: Plan, manifests: map<string, Manifest>, before: set<string>, k: string) {
    && SurvivorsReadable(plan.surviving, manifests, before)
    && exists n :: n in plan.toDelete && Under(n, k)
                   && !MustKeep(n, before, AllKeys(manifests, plan.surviving), AllBases(manifests, plan.surviving))
  }

  // A pass whose calls fail for everything but the data of `n`, of which only `k` goes.
  lemma DataCanGo(plan: Plan, manifests: map<string, Manifest>, before: set<string>, n: string, k: string)
    requires SurvivorsReadable(plan.surviving, manifests, before)
    requires n in plan.toDelete && k in DataUnder(n, before)
    requires !MustKeep(n, before, AllKeys(manifests, plan.surviving), AllBases(manifests, plan.surviving))
    ensures PassTakes(plan, manifests, before, k, before - {k}, [DataRequest(n, DataUnder(n, before))], Outcome([], []))
  {
    var log := [DataRequest(n, DataUnder(n, before))];
    assert log[0] == DataRequest(n, DataUnder(n, before)) && k in RequestKeys(log[0]);
    assert Requested(log, k);
  }

  // A pass that deletes `n` alone, where of all keys only the manifest goes.
  lemma ManifestCanGo(plan: Plan, manifests: map<string, Manifest>, before: set<string>, n: string)
    requires SurvivorsReadable(plan.surviving, manifests, before)
    requires n in plan.toDelete && ManifestKey(n) in before
    requires !MustKeep(n, before, AllKeys(manifests, plan.surviving), AllBases(manifests, plan.surviving))
    ensures PassTakes(plan, manifests, before, ManifestKey(n), before - {ManifestKey(n)},
                      [DataRequest(n, DataUnder(n, before)), ManifestRequest(n)], Outcome([], []))
  {
    var log := [DataRequest(n, DataUnder(n, before)), ManifestRequest(n)];
    assert log[1] == ManifestRequest(n) && ManifestKey(n) in RequestKeys(log[1]);
    assert Requested(log, ManifestKey(n));
  }

  lemma OnlyExposedKeysGo(plan: Plan, manifests: map<string, Manifest>, before: set<string>, k: string,
                          after: set<string>, log: seq<Request>, o: Outcome)
    requires PassTakes(plan, manifests, before, k, after, log, o)
    ensures Exposed(plan, manifests, before, k)
  {
    var i :| 0 <= i < |log| && k in RequestKeys(log[i]);
    var r := log[i];
    assert r in log;
    assert Under(r.backup, ManifestKey(r.backup));
    assert Under(r.backup, k);
  }

  // An exposed key can be the only one that goes.
  lemma ExposedKeyCanGoAlone(plan: Plan, manifests: map<string, Manifest>, before: set<string>, k: string)
    returns (log: seq<Request>, o: Outcome)
    requires k in before && Exposed(plan, manifests, before, k)
    ensures PassTakes(plan, manifests, before, k, before - {k}, log, o)
  {
    var n :| n in plan.toDelete && Under(n, k)
             && !MustKeep(n, before, AllKeys(manifests, plan.surviving), AllBases(manifests, plan.surviving));
    o := Outcome([], []);
    if k == ManifestKey(n) {
      log := [DataRequest(n, DataUnder(n, before)), ManifestRequest(n)];
      ManifestCanGo(plan, manifests, before, n);
    } else {
      log := [DataRequest(n, DataUnder(n, before))];
      DataCanGo(plan, manifests, before, n, k);
    }
  }

  // What a pass can take is decided by the plan and the bucket before it starts.
  lemma PassCanTakeIff(plan: Plan, manifests: map<string, Manifest>, before: set<string>, k: string)
    requires k in before
    ensures (exists after, log, o :: PassTakes(plan, manifests, before, k, after, log, o))
       <==> Exposed(plan, manifests, before, k)
  {
    if after, log, o :| PassTakes(plan, manifests, before, k, after, log, o) {
      OnlyExposedKeysGo(plan, manifests, before, k, after, log, o);
    }
    if Exposed(plan, manifests, before, k) {
      var log, o := ExposedKeyCanGoAlone(plan, manifests, before, k);
    }
  }
}
