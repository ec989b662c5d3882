/** Remote storage over unbounded runs of retention passes, cleanups and new backups. */
module RetentionRuns {
  import opened Options
  import opened Manifests
  import opened RetentionPlan
  import opened Bucket

  /** A committed backup; `needs` is every object it is restored from that was there when it was committed. */
  datatype Backup = Backup(timestamp: int, manifest: Manifest, needs: set<string>)

  datatype Store = Store(keys: set<string>, backups: map<string, Backup>)

  function Contents(s: Store): map<string, Manifest> {
    map n | n in s.backups :: s.backups[n].manifest
  }

  predicate IsValid(s: Store, n: string) {
    n in s.backups && ManifestKey(n) in s.keys
  }

  ghost function NewerThan(s: Store, t: int): set<string> {
    set n | n in s.backups && IsValid(s, n) && s.backups[n].timestamp > t
  }

  /** One of the `keep` newest valid backups. */
  ghost predicate IsRecent(s: Store, keep: nat, n: string) {
    IsValid(s, n) && |NewerThan(s, s.backups[n].timestamp)| < keep
  }

  /** Every object the backup is restored from is still there. */
  predicate Intact(s: Store, n: string)
    requires n in s.backups
  {
    s.backups[n].needs <= s.keys
  }

  ghost predicate WellFormed(s: Store) {
    && (forall n :: n in s.backups ==> WellFormedBackup(n, s.backups[n]))
    && (forall n, m :: IsValid(s, n) && IsValid(s, m) && n != m ==> s.backups[n].timestamp != s.backups[m].timestamp)
  }

  ghost predicate WellFormedBackup(n: string, b: Backup) {
    && IsName(n)
    && (forall e :: e in CollectedKeys(b.manifest) ==> UploadKey(e))
    && (forall k :: k in b.needs ==> Needs(b.manifest, k))
    && (forall e :: e in CollectedKeys(b.manifest) && !IsDirectory(e) ==> e in b.needs)
  }

  predicate IsDirectory(entry: string) {
    entry != "" && entry[|entry| - 1] == '/'
  }

  /** A listing that names every backup once and calls exactly the unreadable ones broken. */
  ghost predicate Accurate(s: Store, listing: seq<Summary>) {
    && (forall i, j :: 0 <= i < j < |listing| ==> listing[i].name != listing[j].name)
    && (forall b :: b in listing && !b.broken ==>
          IsValid(s, b.name) && b.timestamp == Some(s.backups[b.name].timestamp))
    && (forall n :: IsValid(s, n) ==> exists b :: b in listing && b.name == n && !b.broken)
  }

  /** A retention pass, complete or given up, with any calls failing. */
  ghost predicate PassNext(s: Store, t: Store, keep: nat) {
    exists listing, log, outcome :: PassOf(s, t, keep, listing, log, outcome)
  }

  ghost predicate PassOf(s: Store, t: Store, keep: nat, listing: seq<Summary>, log: seq<Request>, outcome: Outcome) {
    && t.backups == s.backups
    && Accurate(s, listing)
    && (t.keys == s.keys || PassEffect(PlanRetention(listing, keep), Contents(s), s.keys, t.keys, log, outcome))
  }

  /** A cleanup of broken backups, complete or given up, with any calls failing. */
  ghost predicate CleanNext(s: Store, t: Store) {
    exists valid, broken, stamps, now, minAge :: CleanOf(s, t, valid, broken, stamps, now, minAge)
  }

  ghost predicate CleanOf(s: Store, t: Store, valid: seq<string>, broken: seq<Broken>,
                          stamps: map<string, Option<int>>, now: int, minAge: nat)
  {
    && t.backups == s.backups
    && (forall n :: IsValid(s, n) ==> n in valid)
    && (forall b :: b in broken ==> IsName(b.name) && !IsValid(s, b.name))
    && (t.keys == s.keys || CleanEffect(broken, AllKeys(Contents(s), valid), stamps, now, minAge, s.keys, t.keys))
  }

  /** A strictly newer backup is committed; everything it references exists by then. */
  ghost predicate ArriveNext(s: Store, t: Store) {
    && s.keys <= t.keys
    && exists n, b :: Arrives(s, t, n, b)
  }

  ghost predicate Arrives(s: Store, t: Store, n: string, b: Backup) {
    && !IsValid(s, n)
    && t.backups == s.backups[n := b]
    && (forall m :: IsValid(t, m) <==> IsValid(s, m) || m == n)
    && (forall m :: IsValid(s, m) ==> s.backups[m].timestamp < b.timestamp)
    && WellFormedBackup(n, b)
    && b.needs == set k | k in t.keys && Needs(b.manifest, k)
  }

  ghost predicate Next(s: Store, t: Store, keep: nat) {
    PassNext(s, t, keep) || CleanNext(s, t) || ArriveNext(s, t)
  }

  ghost predicate Inv(s: Store, keep: nat) {
    WellFormed(s) && forall n :: IsRecent(s, keep, n) ==> Intact(s, n)
  }

  // -- listings and counting --

  // The place of a valid backup in the whole listing.
  lemma {:induction false} PlaceInListing(listing: seq<Summary>, j: nat) returns (k: nat)
    requires j < |NotBroken(listing)|
    ensures k < |listing| && listing[k] == NotBroken(listing)[j]
  {
    if listing[0].broken {
      k := PlaceInListing(listing[1..], j);
      k := k + 1;
    } else if j > 0 {
      k := PlaceInListing(listing[1..], j - 1);
      k := k + 1;
    } else {
      k := 0;
    }
  }

  lemma {:induction false} PlacesInOrder(listing: seq<Summary>, i: nat, j: nat) returns (k: nat, l: nat)
    requires i < j < |NotBroken(listing)|
    ensures k < l < |listing| && listing[k] == NotBroken(listing)[i] && listing[l] == NotBroken(listing)[j]
  {
    if listing[0].broken {
      k, l := PlacesInOrder(listing[1..], i, j);
      k, l := k + 1, l + 1;
    } else if i > 0 {
      k, l := PlacesInOrder(listing[1..], i - 1, j - 1);
      k, l := k + 1, l + 1;
    } else {
      l := PlaceInListing(listing[1..], j - 1);
      k, l := 0, l + 1;
    }
  }

  lemma AccurateListingsAreUnambiguous(s: Store, listing: seq<Summary>)
    requires WellFormed(s) && Accurate(s, listing)
    ensures Unambiguous(listing)
  {
    var valid := Valid(listing);
    forall i, j | 0 <= i < j < |valid|
      ensures valid[i].name != valid[j].name && valid[i].timestamp.Some? && valid[j].timestamp.Some?
      ensures valid[i].timestamp != valid[j].timestamp
    {
      var k, l := PlacesInOrder(listing, i, j);
      assert listing[k].name != listing[l].name;
      assert valid[i] in valid && valid[j] in valid;
    }
  }

  lemma {:induction false} NamesCount(backups: set<Summary>)
    requires forall b, c :: b in backups && c in backups && b.name == c.name ==> b == c
    ensures |set b | b in backups :: b.name| == |backups|
  {
    if backups != {} {
      var b :| b in backups;
      NamesCount(backups - {b});
      assert (set c | c in backups :: c.name) == (set c | c in backups - {b} :: c.name) + {b.name};
    }
  }

  lemma SameNameSameSummary(listing: seq<Summary>, b: Summary, c: Summary)
    requires forall i, j :: 0 <= i < j < |listing| ==> listing[i].name != listing[j].name
    requires b in listing && c in listing && b.name == c.name
    ensures b == c
  {
  }

  lemma ListingCountsNewer(s: Store, listing: seq<Summary>, b: Summary)
    requires WellFormed(s) && Accurate(s, listing) && b in Valid(listing)
    ensures |NewerThan(s, s.backups[b.name].timestamp)| == |Newer(listing, b)|
  {
    var newer := Newer(listing, b);
    forall c, d | c in newer && d in newer && c.name == d.name
      ensures c == d
    {
      SameNameSameSummary(listing, c, d);
    }
    NamesCount(newer);
    assert NewerThan(s, s.backups[b.name].timestamp) == set c | c in newer :: c.name by {
      forall n | n in NewerThan(s, s.backups[b.name].timestamp)
        ensures n in set c | c in newer :: c.name
      {
        var c :| c in listing && c.name == n && !c.broken;
        assert c in newer;
      }
    }
  }

  // A pass keeps exactly the recent backups and plans all other valid ones for deletion.
  lemma PlanMatchesStore(s: Store, listing: seq<Summary>, keep: nat, n: string)
    requires WellFormed(s) && Accurate(s, listing)
    ensures n in PlanRetention(listing, keep).surviving <==> IsRecent(s, keep, n)
    ensures n in PlanRetention(listing, keep).toDelete <==> IsValid(s, n) && !IsRecent(s, keep, n)
  {
    AccurateListingsAreUnambiguous(s, listing);
    if IsValid(s, n) {
      var b :| b in listing && b.name == n && !b.broken;
      assert b in Valid(listing);
      PlanKeepsNewest(listing, keep, b);
      ListingCountsNewer(s, listing, b);
    } else if n in PlanRetention(listing, keep).surviving || n in PlanRetention(listing, keep).toDelete {
      PlanNamesAreValid(listing, keep, n);
    }
  }

  lemma PlanNamesAreValid(listing: seq<Summary>, keep: nat, n: string)
    requires n in PlanRetention(listing, keep).surviving || n in PlanRetention(listing, keep).toDelete
    ensures exists b :: b in Valid(listing) && b.name == n
  {
    var valid, plan := OldestFirst(Valid(listing)), PlanRetention(listing, keep);
    PlanCutsByAge(listing, keep);
    assert n in plan.toDelete + plan.surviving;
    var i :| 0 <= i < |valid| && NamesOf(valid)[i] == n;
    assert valid[i] in multiset(valid);
  }

  // -- what one event does --

  lemma CollectedWithinAll(s: Store, names: seq<string>, n: string)
    requires n in names && n in s.backups
    ensures CollectedKeys(s.backups[n].manifest) <= AllKeys(Contents(s), names)
  {
    forall k | k in CollectedKeys(s.backups[n].manifest)
      ensures k in AllKeys(Contents(s), names)
    {
      assert n in Contents(s) && k in CollectedKeys(Contents(s)[n]);
    }
  }

  // No request confined to another backup touches a survivor's manifest or any object it is restored from.
  lemma RequestsSpareSurvivors(s: Store, surviving: seq<string>, r: Request, n: string, k: string)
    requires WellFormed(s) && n in surviving && n in s.backups
    requires IsName(r.backup) && r.backup != n && Confined(r, AllKeys(Contents(s), surviving))
    requires k == ManifestKey(n) || Needs(s.backups[n].manifest, k)
    ensures k !in RequestKeys(r)
  {
    if Needs(s.backups[n].manifest, k) {
      NeedsIff(s.backups[n].manifest, k);
      CollectedWithinAll(s, surviving, n);
      ProtectionIsMonotone(k, CollectedKeys(s.backups[n].manifest), AllKeys(Contents(s), surviving));
      UploadKeysSpareManifests(CollectedKeys(s.backups[n].manifest), r.backup);
    } else if k in RequestKeys(r) {
      assert Under(n, k) && Under(r.backup, k);
      PrefixesAreDisjoint(r.backup, n, k);
    }
  }

  lemma RecentSurvivesPass(s: Store, t: Store, keep: nat, listing: seq<Summary>, log: seq<Request>, outcome: Outcome,
                           n: string)
    requires WellFormed(s) && Accurate(s, listing) && t.backups == s.backups
    requires PassEffect(PlanRetention(listing, keep), Contents(s), s.keys, t.keys, log, outcome)
    requires IsRecent(s, keep, n)
    ensures IsValid(t, n)
    ensures Intact(s, n) ==> Intact(t, n)
    ensures forall k :: k in s.keys && Needs(s.backups[n].manifest, k) ==> k in t.keys
  {
    PlanMatchesStore(s, listing, keep, n);
    forall r | r in log
      ensures IsName(r.backup) && r.backup != n
    {
      PlanMatchesStore(s, listing, keep, r.backup);
    }
    SurvivorKeepsKeys(s, t, PlanRetention(listing, keep), log, outcome, n);
  }

  lemma SurvivorKeepsKeys(s: Store, t: Store, plan: Plan, log: seq<Request>, outcome: Outcome, n: string)
    requires WellFormed(s) && t.backups == s.backups
    requires PassEffect(plan, Contents(s), s.keys, t.keys, log, outcome)
    requires n in plan.surviving && IsValid(s, n)
    requires forall r :: r in log ==> IsName(r.backup) && r.backup != n
    ensures IsValid(t, n)
    ensures Intact(s, n) ==> Intact(t, n)
    ensures forall k :: k in s.keys && Needs(s.backups[n].manifest, k) ==> k in t.keys
  {
    assert WellFormedBackup(n, s.backups[n]);
    forall k | k in s.keys && (k == ManifestKey(n) || Needs(s.backups[n].manifest, k))
      ensures k in t.keys
    {
      forall i | 0 <= i < |log|
        ensures k !in RequestKeys(log[i])
      {
        assert log[i] in log;
        RequestsSpareSurvivors(s, plan.surviving, log[i], n, k);
      }
      assert !Requested(log, k);
    }
  }

  // A backup once planned for deletion never becomes one of the recent ones again.
  lemma PlannedNeverReturns(s: Store, t: Store, keep: nat, listing: seq<Summary>, log: seq<Request>, outcome: Outcome,
                            n: string)
    requires WellFormed(s) && Accurate(s, listing) && t.backups == s.backups
    requires PassEffect(PlanRetention(listing, keep), Contents(s), s.keys, t.keys, log, outcome)
    requires IsRecent(t, keep, n)
    ensures IsRecent(s, keep, n)
  {
    if !IsRecent(s, keep, n) {
      var plan := PlanRetention(listing, keep);
      AccurateListingsAreUnambiguous(s, listing);
      PlanMatchesStore(s, listing, keep, n);
      var b :| b in listing && b.name == n && !b.broken;
      SurvivorsOutrankTheRest(listing, keep, b);
      var survivors := set m | m in plan.surviving;
      forall m | m in survivors
        ensures m in NewerThan(t, t.backups[n].timestamp)
      {
        PlanMatchesStore(s, listing, keep, m);
        RecentSurvivesPass(s, t, keep, listing, log, outcome, m);
        var c :| c in Valid(listing) && c.name == m && !Before(c.timestamp, b.timestamp);
      }
      SubsetSize(survivors, NewerThan(t, t.backups[n].timestamp));
    }
  }

  lemma PassPreservesInv(s: Store, t: Store, keep: nat)
    requires Inv(s, keep) && PassNext(s, t, keep)
    ensures Inv(t, keep)
  {
    var listing, log, outcome :| PassOf(s, t, keep, listing, log, outcome);
    if t.keys == s.keys {
      assert t == s;
    } else {
      forall n | IsRecent(t, keep, n)
        ensures Intact(t, n)
      {
        PlannedNeverReturns(s, t, keep, listing, log, outcome, n);
        RecentSurvivesPass(s, t, keep, listing, log, outcome, n);
      }
    }
  }

  // Cleanup takes nothing from any valid backup, recent or not.
  lemma CleanupSparesValidBackups(s: Store, t: Store, n: string)
    requires WellFormed(s) && CleanNext(s, t)
    ensures IsValid(t, n) <==> IsValid(s, n)
    ensures IsValid(s, n) ==> forall k :: k in s.keys && Needs(s.backups[n].manifest, k) ==> k in t.keys
    ensures IsValid(s, n) && Intact(s, n) ==> Intact(t, n)
  {
    var valid, broken, stamps, now, minAge :| CleanOf(s, t, valid, broken, stamps, now, minAge);
    if t.keys != s.keys {
      if IsValid(s, n) {
        CleanSparesNeeded(broken, Contents(s), valid, stamps, now, minAge, s.keys, t.keys);
        ManifestSurvivesCleanup(s, t, n, AllKeys(Contents(s), valid), broken, stamps, now, minAge);
        forall k | k in s.keys && Needs(s.backups[n].manifest, k)
          ensures k in t.keys
        {
          assert n in Contents(s) && NeededByAny(Contents(s), valid, k);
        }
        assert WellFormedBackup(n, s.backups[n]);
      }
    }
  }

  lemma ManifestSurvivesCleanup(s: Store, t: Store, n: string, protected: set<string>, broken: seq<Broken>,
                                stamps: map<string, Option<int>>, now: int, minAge: nat)
    requires WellFormed(s) && IsValid(s, n)
    requires forall b :: b in broken ==> IsName(b.name) && !IsValid(s, b.name)
    requires CleanEffect(broken, protected, stamps, now, minAge, s.keys, t.keys)
    ensures ManifestKey(n) in t.keys
  {
    var k := ManifestKey(n);
    if k !in t.keys {
      assert k in s.keys - t.keys;
      var b: Broken :| b in broken && Under(b.name, k);
      PrefixesAreDisjoint(b.name, n, k);
    }
  }

  lemma CleanPreservesInv(s: Store, t: Store, keep: nat)
    requires Inv(s, keep) && CleanNext(s, t)
    ensures Inv(t, keep)
  {
    forall n
      ensures IsValid(t, n) <==> IsValid(s, n)
      ensures IsValid(s, n) && Intact(s, n) ==> Intact(t, n)
    {
      CleanupSparesValidBackups(s, t, n);
    }
    forall n | IsRecent(t, keep, n)
      ensures Intact(t, n)
    {
      assert NewerThan(t, t.backups[n].timestamp) == NewerThan(s, s.backups[n].timestamp);
      assert IsRecent(s, keep, n);
    }
  }

  lemma ArrivalPreservesInv(s: Store, t: Store, keep: nat)
    requires Inv(s, keep) && ArriveNext(s, t)
    ensures Inv(t, keep)
  {
    var n, b :| Arrives(s, t, n, b);
    forall m | IsRecent(t, keep, m)
      ensures Intact(t, m)
    {
      if m != n {
        assert NewerThan(s, s.backups[m].timestamp) <= NewerThan(t, t.backups[m].timestamp);
        SubsetSize(NewerThan(s, s.backups[m].timestamp), NewerThan(t, t.backups[m].timestamp));
        assert IsRecent(s, keep, m);
      }
    }
  }

  /** Any number of passes with a fixed `keep`, cleanups and arrivals, in any order. */
  ghost predicate Run(states: seq<Store>, keep: nat) {
    && |states| > 0
    && forall i :: 0 <= i < |states| - 1 ==> Next(states[i], states[i + 1], keep)
  }

  lemma {:induction false} InvHoldsAlong(states: seq<Store>, keep: nat, i: nat)
    requires Run(states, keep) && i < |states| && Inv(states[0], keep)
    ensures Inv(states[i], keep)
  {
    if i > 0 {
      InvHoldsAlong(states, keep, i - 1);
      assert Next(states[i - 1], states[i], keep);
      if PassNext(states[i - 1], states[i], keep) {
        PassPreservesInv(states[i - 1], states[i], keep);
      } else if CleanNext(states[i - 1], states[i]) {
        CleanPreservesInv(states[i - 1], states[i], keep);
      } else {
        ArrivalPreservesInv(states[i - 1], states[i], keep);
      }
    }
  }

  // In every state of every run, the newest `keep` valid backups have every object they had when committed,
  // in particular every whole key their manifests name.
  lemma RecentBackupsStayIntact(states: seq<Store>, keep: nat, i: nat, n: string)
    requires Run(states, keep) && i < |states| && Inv(states[0], keep)
    requires IsRecent(states[i], keep, n)
    ensures Intact(states[i], n)
    ensures forall e :: e in CollectedKeys(states[i].backups[n].manifest) && !IsDirectory(e) ==> e in states[i].keys
  {
    InvHoldsAlong(states, keep, i);
  }

  // The same from the arrival on, object by object: whatever lay at a key that a part names, or anywhere below a
  // directory it names, when the backup was committed is there as long as the backup is one of the newest `keep`.
  lemma EveryObjectStays(states: seq<Store>, keep: nat, j: nat, i: nat, n: string, b: Backup,
                         table: string, disk: string, pos: int, entry: string, rest: string)
    requires Run(states, keep) && j < i < |states| && Inv(states[0], keep)
    requires Arrives(states[j], states[j + 1], n, b)
    requires IsRecent(states[i], keep, n) && states[i].backups[n] == b
    requires At(b.manifest, table, disk, pos) && entry in NamedKeys(PartAt(b.manifest, table, disk, pos))
    requires rest == "" || (entry != "" && entry[|entry| - 1] == '/')
    requires entry + rest in states[j + 1].keys
    ensures entry + rest in states[i].keys
  {
    RecentBackupsStayIntact(states, keep, i, n);
    assert Names(b.manifest, table, disk, pos, entry);
    assert BelongsTo(entry + rest, entry) by {
      if rest == "" {
        assert entry + rest == entry;
      } else {
        assert entry == entry[..|entry| - 1] + "/";
      }
    }
  }
}
