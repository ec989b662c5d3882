/** The limits of what retention guarantees: exactly which backups a pass can leave without their data. */
module RetentionLimits {
  import opened Options
  import opened Manifests
  import opened RetentionPlan
  import opened Bucket
  import opened RetentionRuns

  /** Something the backup needs lies under a planned candidate that no survivor needs. */
  ghost predicate AtRisk(s: Store, plan: Plan, n: string)
    requires n in s.backups
  {
    exists k :: k in s.backups[n].needs && Exposed(plan, Contents(s), s.keys, k)
  }

  /** A pass over the plan after which the backup still has its manifest, but no longer all it needs. */
  ghost predicate Dangles(s: Store, t: Store, plan: Plan, n: string, log: seq<Request>, o: Outcome)
    requires n in s.backups
  {
    && t.backups == s.backups
    && PassEffect(plan, Contents(s), s.keys, t.keys, log, o)
    && IsValid(t, n) && !Intact(t, n)
  }

  lemma NeedsNoManifest(s: Store, n: string, k: string)
    requires WellFormed(s) && n in s.backups && k in s.backups[n].needs
    ensures k != ManifestKey(n)
  {
    NeedsIff(s.backups[n].manifest, k);
    UploadKeysSpareManifests(CollectedKeys(s.backups[n].manifest), n);
  }

  lemma AtRiskCanDangle(s: Store, plan: Plan, n: string)
    requires WellFormed(s) && IsValid(s, n) && AtRisk(s, plan, n) && Intact(s, n)
    ensures exists t, log, o :: Dangles(s, t, plan, n, log, o)
  {
    var k :| k in s.backups[n].needs && Exposed(plan, Contents(s), s.keys, k);
    var log, o := ExposedKeyCanGoAlone(plan, Contents(s), s.keys, k);
    NeedsNoManifest(s, n, k);
    assert Dangles(s, s.(keys := s.keys - {k}), plan, n, log, o);
  }

  // Whatever the plan was made from: a pass can leave a valid backup with a manifest that names missing objects
  // if and only if something it needs lies under a candidate that no survivor needs.
  lemma PassCanDangleIff(s: Store, plan: Plan, n: string)
    requires WellFormed(s) && IsValid(s, n) && Intact(s, n)
    ensures (exists t, log, o :: Dangles(s, t, plan, n, log, o)) <==> AtRisk(s, plan, n)
  {
    if t, log, o :| Dangles(s, t, plan, n, log, o) {
      var k :| k in s.backups[n].needs && k !in t.keys;
      OnlyExposedKeysGo(plan, Contents(s), s.keys, k, t.keys, log, o);
    }
    if AtRisk(s, plan, n) {
      AtRiskCanDangle(s, plan, n);
    }
  }

  // With an accurate listing that is about the backups a pass gives up or skips: a recent one is never at risk,
  // any other one exactly under the condition above.
  lemma PassLeavesDanglingManifestIff(s: Store, listing: seq<Summary>, keep: nat, n: string)
    requires WellFormed(s) && Accurate(s, listing) && IsValid(s, n) && Intact(s, n)
    ensures (exists t, log, o :: PassOf(s, t, keep, listing, log, o) && IsValid(t, n) && !Intact(t, n))
       <==> !IsRecent(s, keep, n) && AtRisk(s, PlanRetention(listing, keep), n)
  {
    var plan := PlanRetention(listing, keep);
    PassCanDangleIff(s, plan, n);
    if t, log, o :| PassOf(s, t, keep, listing, log, o) && IsValid(t, n) && !Intact(t, n) {
      assert Dangles(s, t, plan, n, log, o);
      if IsRecent(s, keep, n) {
        RecentSurvivesPass(s, t, keep, listing, log, o, n);
      }
    }
    if AtRisk(s, plan, n) {
      var t, log, o :| Dangles(s, t, plan, n, log, o);
      assert PassOf(s, t, keep, listing, log, o);
    }
  }

  /** A pass over a listing that calls `n` broken, or leaves it out, although its manifest is there. */
  ghost predicate PassMisreading(s: Store, t: Store, keep: nat, listing: seq<Summary>, n: string, log: seq<Request>,
                                 o: Outcome)
  {
    && t.backups == s.backups
    && Misread(s, listing, n)
    && PassEffect(PlanRetention(listing, keep), Contents(s), s.keys, t.keys, log, o)
  }

  ghost predicate Misread(s: Store, listing: seq<Summary>, n: string) {
    && (forall i, j :: 0 <= i < j < |listing| ==> listing[i].name != listing[j].name)
    && (forall b :: b in listing && b.name == n ==> b.broken)
    && (forall b :: b in listing && !b.broken ==>
          IsValid(s, b.name) && b.timestamp == Some(s.backups[b.name].timestamp))
    && (forall m :: IsValid(s, m) && m != n ==> exists b :: b in listing && b.name == m && !b.broken)
  }

  // A misread backup keeps its manifest.
  lemma MisreadBackupStaysValid(s: Store, t: Store, keep: nat, listing: seq<Summary>, n: string, log: seq<Request>,
                                o: Outcome)
    requires WellFormed(s) && IsValid(s, n) && PassMisreading(s, t, keep, listing, n, log, o)
    ensures IsValid(t, n)
  {
    var plan := PlanRetention(listing, keep);
    forall r | r in log
      ensures IsName(r.backup) && r.backup != n
    {
      PlanNamesAreValid(listing, keep, r.backup);
    }
    OwnPrefixUntouched(plan, Contents(s), s.keys, t.keys, log, o, n);
    assert Under(n, ManifestKey(n));
  }

  // A valid backup that one failed fetch makes look broken loses data in some pass if and only if something it
  // needs lies under a candidate that no survivor of the wrong plan needs.
  lemma MisreadBackupLosesDataIff(s: Store, listing: seq<Summary>, keep: nat, n: string)
    requires WellFormed(s) && IsValid(s, n) && Intact(s, n) && Misread(s, listing, n)
    ensures (exists t, log, o :: PassMisreading(s, t, keep, listing, n, log, o) && !Intact(t, n))
       <==> AtRisk(s, PlanRetention(listing, keep), n)
  {
    var plan := PlanRetention(listing, keep);
    PassCanDangleIff(s, plan, n);
    if t, log, o :| PassMisreading(s, t, keep, listing, n, log, o) && !Intact(t, n) {
      MisreadBackupStaysValid(s, t, keep, listing, n, log, o);
      assert Dangles(s, t, plan, n, log, o);
    }
    if AtRisk(s, plan, n) {
      var t, log, o :| Dangles(s, t, plan, n, log, o);
      assert PassMisreading(s, t, keep, listing, n, log, o) && !Intact(t, n);
    }
  }

  // -- both conditions occur --

  function Empty(name: string): Manifest {
    Manifest(name, map[])
  }

  function Naming(name: string, key: string): Manifest {
    Manifest(name, map[name := map[name := [Part(name, 0, key, UPLOADED, None)]]])
  }

  lemma KeysOfExamples(name: string, key: string)
    requires key != ""
    ensures CollectedKeys(Empty(name)) == {} && IncrementalBases(Empty(name)) == {}
    ensures CollectedKeys(Naming(name, key)) == {key} && IncrementalBases(Naming(name, key)) == {}
  {
    var m := Naming(name, key);
    var p := m.tables[name][name][0];
    assert NamedKeys(p) == {key};
    assert key in CollectedKeys(m);
    forall t, d, i | At(m, t, d, i)
      ensures PartAt(m, t, d, i) == p
    {
      assert t == name && d == name;
    }
    assert UPLOADED[0] != CARRIED[0];
    assert CarriedFrom(p) == None;
  }

  lemma ExamplesAreWellFormed(n: string, a: string, key: string, t: int)
    requires IsName(n) && IsName(a) && a + "/data/" <= key
    ensures WellFormedBackup(n, Backup(t, Empty(n), {}))
    ensures WellFormedBackup(n, Backup(t, Naming(n, key), {key}))
  {
    KeysOfExamples(n, key);
    DataKeyIsNoManifest(a, key, n);
    NeedsIff(Naming(n, key), key);
  }

  lemma ValidInListing(x: Summary, y: Summary, rest: seq<Summary>)
    requires !x.broken && !y.broken && Valid(rest) == []
    ensures Valid([x, y] + rest) == [x, y]
  {
    var listing := [x, y] + rest;
    assert listing[1..][1..] == rest && listing[1..][0] == y;
    assert Valid(listing[1..]) == [y] + Valid(rest);
  }

  lemma TwoInOrder(x: Summary, y: Summary)
    requires x.timestamp == Some(1) && y.timestamp == Some(2)
    ensures OldestFirst([x, y]) == [x, y]
  {
    assert [x, y][1..] == [y] && [y][1..] == [];
    assert OldestFirst([]) == [] && OldestFirst([y]) == Insert(y, []) == [y];
    assert Insert(x, [y]) == [x] + [y];
  }

  lemma PlanOfTwo(x: Summary, y: Summary, listing: seq<Summary>)
    requires Valid(listing) == [x, y] && x.timestamp == Some(1) && y.timestamp == Some(2)
    ensures PlanRetention(listing, 1) == Plan([x.name], [y.name])
  {
    TwoInOrder(x, y);
    assert [x, y][..1] == [x] && [x, y][1..] == [y];
    assert NamesOf([x]) == [x.name] && NamesOf([y]) == [y.name];
  }

  lemma DataKeyIsNoManifest(a: string, key: string, n: string)
    requires IsName(a) && IsName(n) && a + "/data/" <= key
    ensures UploadKey(key) && key != ManifestKey(n) && Under(a, key)
  {
    UploadKeysSpareManifests({key}, n);
    assert a + "/" <= a + "/data/";
  }

  /** Two backups one after the other: the older one's data, and a newer one without any. */
  function TwoBackups(a: string, b: string, key: string): Store {
    Store({ManifestKey(a), ManifestKey(b), key},
          map[a := Backup(1, Naming(a, key), {key}), b := Backup(2, Empty(b), {})])
  }

  lemma TwoAreFine(keys: set<string>, a: string, x: Backup, b: string, y: Backup)
    requires WellFormedBackup(a, x) && WellFormedBackup(b, y) && x.timestamp < y.timestamp
    requires x.needs <= keys && y.needs <= keys
    ensures Inv(Store(keys, map[a := x, b := y]), 1)
  {
  }

  function Listed(a: string, b: string): seq<Summary> {
    [Summary(a, Some(1), false), Summary(b, Some(2), false)]
  }

  lemma ListingOfTwoIsAccurate(a: string, b: string, key: string)
    requires IsName(a) && IsName(b) && a != b
    ensures Accurate(TwoBackups(a, b, key), Listed(a, b))
  {
    assert Listed(a, b)[0] in Listed(a, b) && Listed(a, b)[1] in Listed(a, b);
  }

  lemma PlanOfListedTwo(a: string, b: string)
    ensures PlanRetention(Listed(a, b), 1) == Plan([a], [b])
  {
    var x, y := Summary(a, Some(1), false), Summary(b, Some(2), false);
    assert Listed(a, b) == [x, y] + [];
    ValidInListing(x, y, []);
    PlanOfTwo(x, y, Listed(a, b));
  }

  // Candidate `a` is not needed by a survivor that names nothing.
  lemma DataIsExposed(manifests: map<string, Manifest>, a: string, survivor: string, key: string, before: set<string>)
    requires survivor in manifests && manifests[survivor] == Empty(survivor) && ManifestKey(survivor) in before
    requires IsName(a) && a + "/data/" <= key
    ensures Exposed(Plan([a], [survivor]), manifests, before, key)
  {
    KeysOfExamples(survivor, key);
    DataKeyIsNoManifest(a, key, a);
    assert AllKeys(manifests, [survivor]) == {} && AllBases(manifests, [survivor]) == {};
    assert !MustKeep(a, before, {}, {});
    assert a in Plan([a], [survivor]).toDelete;
  }

  // The older of two backups can be left with a manifest and no data.
  lemma PassCanLeaveADanglingManifest(a: string, b: string, key: string)
    requires IsName(a) && IsName(b) && a != b && a + "/data/" <= key
    ensures var s := TwoBackups(a, b, key);
            Inv(s, 1) && exists t :: PassNext(s, t, 1) && IsValid(t, a) && !Intact(t, a)
  {
    var s := TwoBackups(a, b, key);
    ExamplesAreWellFormed(a, a, key, 1);
    ExamplesAreWellFormed(b, a, key, 2);
    TwoAreFine(s.keys, a, Backup(1, Naming(a, key), {key}), b, Backup(2, Empty(b), {}));
    ListingOfTwoIsAccurate(a, b, key);
    PlanOfListedTwo(a, b);
    DataIsExposed(Contents(s), a, b, key, s.keys);
    PassCanDangleIff(s, Plan([a], [b]), a);
    var t, log, o :| Dangles(s, t, Plan([a], [b]), a, log, o);
    assert PassOf(s, t, 1, Listed(a, b), log, o);
  }

  /** An old backup whose data the newest one carries on, and one in between. */
  function ThreeBackups(a: string, b: string, c: string, key: string): Store {
    Store({ManifestKey(a), ManifestKey(b), ManifestKey(c), key},
          map[a := Backup(1, Empty(a), {}), b := Backup(2, Empty(b), {}), c := Backup(3, Naming(c, key), {key})])
  }

  lemma DistinctTimesAreWellFormed(keys: set<string>, a: string, x: Backup, b: string, y: Backup, c: string, z: Backup)
    requires WellFormedBackup(a, x) && WellFormedBackup(b, y) && WellFormedBackup(c, z)
    requires x.timestamp < y.timestamp < z.timestamp
    ensures WellFormed(Store(keys, map[a := x, b := y, c := z]))
  {
  }

  lemma ThreeBackupsAreWellFormed(a: string, b: string, c: string, key: string)
    requires IsName(a) && IsName(b) && IsName(c) && a != b && b != c && a != c && a + "/data/" <= key
    ensures WellFormed(ThreeBackups(a, b, c, key))
  {
    ExamplesAreWellFormed(a, a, key, 1);
    ExamplesAreWellFormed(b, a, key, 2);
    ExamplesAreWellFormed(c, a, key, 3);
    DistinctTimesAreWellFormed(ThreeBackups(a, b, c, key).keys, a, Backup(1, Empty(a), {}), b, Backup(2, Empty(b), {}),
                               c, Backup(3, Naming(c, key), {key}));
  }

  lemma ThreeBackupsAreFine(a: string, b: string, c: string, key: string)
    requires a != b && b != c && a != c && WellFormed(ThreeBackups(a, b, c, key))
    ensures Inv(ThreeBackups(a, b, c, key), 1) && IsRecent(ThreeBackups(a, b, c, key), 1, c)
  {
    var s := ThreeBackups(a, b, c, key);
    AllIntact(s, 1);
    assert IsValid(s, c) && s.backups[c].timestamp == 3;
    assert NewerThan(s, 3) == {};
  }

  lemma AllIntact(s: Store, keep: nat)
    requires WellFormed(s) && forall n :: n in s.backups ==> s.backups[n].needs <= s.keys
    ensures Inv(s, keep)
  {
  }

  function ListedWithBroken(a: string, b: string, c: string): seq<Summary> {
    [Summary(a, Some(1), false), Summary(b, Some(2), false), Summary(c, None, true)]
  }

  lemma ListingMisreads(a: string, b: string, c: string, key: string)
    requires a != b && b != c && a != c
    ensures Misread(ThreeBackups(a, b, c, key), ListedWithBroken(a, b, c), c)
  {
    var l := ListedWithBroken(a, b, c);
    assert l[0] in l && l[1] in l && l[2] in l;
  }

  lemma ListingOfThree(a: string, b: string, c: string)
    ensures PlanRetention(ListedWithBroken(a, b, c), 1) == Plan([a], [b])
  {
    var x, y, z := Summary(a, Some(1), false), Summary(b, Some(2), false), Summary(c, None, true);
    assert [x, y, z] == [x, y] + [z];
    assert [z][1..] == [] && NotBroken([z]) == [];
    ValidInListing(x, y, [z]);
    PlanOfTwo(x, y, [x, y, z]);
  }

  // The newest of three backups can lose the data it carries from the oldest.
  lemma MisreadBackupLosesData(a: string, b: string, c: string, key: string)
    requires IsName(a) && IsName(b) && IsName(c) && a != b && b != c && a != c && a + "/data/" <= key
    ensures var s := ThreeBackups(a, b, c, key);
            && Inv(s, 1) && IsRecent(s, 1, c)
            && exists t, log, o :: PassMisreading(s, t, 1, ListedWithBroken(a, b, c), c, log, o) && !Intact(t, c)
  {
    var s := ThreeBackups(a, b, c, key);
    ThreeBackupsAreWellFormed(a, b, c, key);
    ThreeBackupsAreFine(a, b, c, key);
    ListingMisreads(a, b, c, key);
    ListingOfThree(a, b, c);
    DataIsExposed(Contents(s), a, b, key, s.keys);
    MisreadBackupLosesDataIff(s, ListedWithBroken(a, b, c), 1, c);
    assert key in s.backups[c].needs && AtRisk(s, Plan([a], [b]), c);
  }
}
