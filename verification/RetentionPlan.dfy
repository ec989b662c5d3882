/** Which remote backups a retention pass deletes and which it keeps. */
module RetentionPlan {
  import opened Options

  datatype Summary = Summary(name: string, timestamp: Option<int>, broken: bool)

  datatype Plan = Plan(toDelete: seq<string>, surviving: seq<string>)

  /** Timestamps as they sort, with an absent one first. */
  predicate Before(x: Option<int>, y: Option<int>) {
    x.None? || (y.Some? && x.value <= y.value)
  }

  function Valid(summaries: seq<Summary>): (valid: seq<Summary>)
    ensures forall b :: b in valid <==> b in summaries && !b.broken
  {
    forall b {
      NotBrokenIff(summaries, b);
    }
    NotBroken(summaries)
  }

  function NotBroken(summaries: seq<Summary>): seq<Summary> {
    if summaries == [] then []
    else (if summaries[0].broken then [] else [summaries[0]]) + NotBroken(summaries[1..])
  }

  lemma {:induction false} NotBrokenIff(summaries: seq<Summary>, b: Summary)
    ensures b in NotBroken(summaries) <==> b in summaries && !b.broken
  {
    if summaries != [] {
      NotBrokenIff(summaries[1..], b);
    }
  }

  function Insert(b: Summary, sorted: seq<Summary>): (r: seq<Summary>)
    ensures multiset(r) == multiset(sorted) + multiset{b}
  {
    if sorted == [] || Before(b.timestamp, sorted[0].timestamp) then [b] + sorted
    else
      assert sorted == [sorted[0]] + sorted[1..];
      [sorted[0]] + Insert(b, sorted[1..])
  }

  /** Stable sort, oldest first. */
  function OldestFirst(backups: seq<Summary>): (r: seq<Summary>)
    ensures multiset(r) == multiset(backups)
    ensures |r| == |backups|
  {
    if backups == [] then []
    else
      assert backups == [backups[0]] + backups[1..];
      assert |multiset(Insert(backups[0], OldestFirst(backups[1..])))| == |backups|;
      Insert(backups[0], OldestFirst(backups[1..]))
  }

  ghost predicate Sorted(s: seq<Summary>) {
    forall i, j :: 0 <= i < j < |s| ==> Before(s[i].timestamp, s[j].timestamp)
  }

  lemma {:induction false} InsertKeepsSorted(b: Summary, s: seq<Summary>)
    requires Sorted(s)
    ensures Sorted(Insert(b, s))
  {
    if s != [] && !Before(b.timestamp, s[0].timestamp) {
      InsertKeepsSorted(b, s[1..]);
      var rest := Insert(b, s[1..]);
      forall j | 0 <= j < |rest|
        ensures Before(s[0].timestamp, rest[j].timestamp)
      {
        assert rest[j] in multiset(rest);
        assert rest[j] == b || rest[j] in s[1..];
      }
    }
  }

  lemma {:induction false} OldestFirstSorts(s: seq<Summary>)
    ensures Sorted(OldestFirst(s))
  {
    if s != [] {
      OldestFirstSorts(s[1..]);
      InsertKeepsSorted(s[0], OldestFirst(s[1..]));
    }
  }

  function NamesOf(s: seq<Summary>): (names: seq<string>)
    ensures |names| == |s| && forall i :: 0 <= i < |s| ==> names[i] == s[i].name
  {
    seq(|s|, i requires 0 <= i < |s| => s[i].name)
  }

  function Split(valid: seq<Summary>, keep: nat): Plan {
    var cut := if |valid| > keep then |valid| - keep else 0;
    Plan(NamesOf(valid[..cut]), NamesOf(valid[cut..]))
  }

  function PlanRetention(summaries: seq<Summary>, keep: nat): Plan {
    Split(OldestFirst(Valid(summaries)), keep)
  }

  lemma SplitCuts(valid: seq<Summary>, keep: nat)
    ensures Split(valid, keep).toDelete + Split(valid, keep).surviving == NamesOf(valid)
    ensures |Split(valid, keep).surviving| == (if |valid| > keep then keep else |valid|)
  {
  }

  lemma SortedByTime(s: seq<Summary>, i: nat, j: nat)
    requires Sorted(s) && i < j < |s| && s[i].timestamp.Some?
    ensures s[j].timestamp.Some? && s[i].timestamp.value <= s[j].timestamp.value
  {
    assert Before(s[i].timestamp, s[j].timestamp);
  }

  // The plan cuts the valid backups in two, keeps as many as asked for, and deletes none newer than a survivor; those
  // without a timestamp go first.
  lemma PlanCutsByAge(summaries: seq<Summary>, keep: nat)
    ensures var plan, valid := PlanRetention(summaries, keep), OldestFirst(Valid(summaries));
            && plan.toDelete + plan.surviving == NamesOf(valid)
            && multiset(valid) == multiset(Valid(summaries))
            && |plan.surviving| == (if |valid| > keep then keep else |valid|)
            && forall i, j :: 0 <= i < |plan.toDelete| <= j < |valid| && valid[i].timestamp.Some? ==>
                 valid[j].timestamp.Some? && valid[i].timestamp.value <= valid[j].timestamp.value
  {
    var valid, plan := OldestFirst(Valid(summaries)), PlanRetention(summaries, keep);
    SplitCuts(valid, keep);
    OldestFirstSorts(Valid(summaries));
    forall i, j | 0 <= i < |plan.toDelete| <= j < |valid| && valid[i].timestamp.Some?
      ensures valid[j].timestamp.Some? && valid[i].timestamp.value <= valid[j].timestamp.value
    {
      SortedByTime(valid, i, j);
    }
  }

  /** A listing names every backup once and no two valid backups carry the same timestamp. */
  ghost predicate Unambiguous(summaries: seq<Summary>) {
    var valid := Valid(summaries);
    forall i, j :: 0 <= i < j < |valid| ==>
      && valid[i].name != valid[j].name
      && valid[i].timestamp.Some? && valid[j].timestamp.Some?
      && valid[i].timestamp != valid[j].timestamp
  }

  /** The valid backups newer than `b`. */
  ghost function Newer(summaries: seq<Summary>, b: Summary): set<Summary> {
    set c | c in Valid(summaries) && !Before(c.timestamp, b.timestamp)
  }

  ghost predicate Distinct<T>(s: seq<T>) {
    forall i, j :: 0 <= i < j < |s| ==> s[i] != s[j]
  }

  lemma {:induction false} DistinctSize<T>(s: seq<T>)
    requires Distinct(s)
    ensures |set x | x in s| == |s|
  {
    if s != [] {
      DistinctSize(s[1..]);
      assert (set x | x in s) == {s[0]} + set x | x in s[1..];
    }
  }

  lemma {:induction false} SortingKeepsPairsApart(s: seq<Summary>, t: seq<Summary>)
    requires multiset(s) == multiset(t) && Distinct(s)
    ensures Distinct(t)
  {
    forall i, j | 0 <= i < j < |t|
      ensures t[i] != t[j]
    {
      DistinctCount(s, t[i]);
      assert t == t[..i] + [t[i]] + t[i + 1..j] + [t[j]] + t[j + 1..];
    }
  }

  lemma {:induction false} DistinctCount<T>(s: seq<T>, x: T)
    requires Distinct(s)
    ensures multiset(s)[x] <= 1
  {
    if s != [] {
      assert s == [s[0]] + s[1..];
      DistinctCount(s[1..], x);
    }
  }

  lemma OnePlaceOnly<T>(xs: seq<T>, ys: seq<T>, i: nat)
    requires Distinct(xs + ys) && i < |xs + ys|
    ensures (xs + ys)[i] in xs <==> i < |xs|
    ensures (xs + ys)[i] in ys <==> i >= |xs|
  {
    var all := xs + ys;
    if all[i] in xs {
      var k :| 0 <= k < |xs| && xs[k] == all[i];
      assert all[k] == all[i];
    }
    if all[i] in ys {
      var k :| 0 <= k < |ys| && ys[k] == all[i];
      assert all[k + |xs|] == all[i];
    }
  }

  lemma SortedNamesAreDistinct(summaries: seq<Summary>, valid: seq<Summary>)
    requires Unambiguous(summaries) && Distinct(valid)
    requires multiset(valid) == multiset(Valid(summaries))
    ensures Distinct(NamesOf(valid))
  {
    forall i, j | 0 <= i < j < |valid|
      ensures valid[i].name != valid[j].name
    {
      assert valid[i] in multiset(valid) && valid[j] in multiset(valid);
      assert valid[i] in Valid(summaries) && valid[j] in Valid(summaries);
    }
  }

  /** Sorted with no two timestamps equal. */
  ghost predicate Ascending(s: seq<Summary>) {
    forall i, j :: 0 <= i < j < |s| ==>
      Before(s[i].timestamp, s[j].timestamp) && !Before(s[j].timestamp, s[i].timestamp)
  }

  lemma SortedListIsAscending(summaries: seq<Summary>, valid: seq<Summary>)
    requires Unambiguous(summaries) && Distinct(valid) && Sorted(valid)
    requires multiset(valid) == multiset(Valid(summaries))
    ensures Ascending(valid)
  {
    forall i, j | 0 <= i < j < |valid|
      ensures Before(valid[i].timestamp, valid[j].timestamp) && !Before(valid[j].timestamp, valid[i].timestamp)
    {
      assert valid[i] in multiset(valid) && valid[j] in multiset(valid);
      assert valid[i] in Valid(summaries) && valid[j] in Valid(summaries);
    }
  }

  lemma LaterOnesAreTheRest(s: seq<Summary>, i: nat)
    requires Ascending(s) && Distinct(s) && i < |s|
    ensures |set c | c in s && !Before(c.timestamp, s[i].timestamp)| == |s| - 1 - i
  {
    var rest := s[i + 1..];
    forall c | c in s && !Before(c.timestamp, s[i].timestamp)
      ensures c in rest
    {
      var k :| 0 <= k < |s| && s[k] == c;
      if k > i {
        assert rest[k - i - 1] == c;
      }
    }
    assert (set c | c in s && !Before(c.timestamp, s[i].timestamp)) == set c | c in rest;
    DistinctSize(rest);
  }

  lemma KeepsNewest(summaries: seq<Summary>, valid: seq<Summary>, plan: Plan, keep: nat, b: Summary)
    requires Unambiguous(summaries) && b in Valid(summaries)
    requires multiset(valid) == multiset(Valid(summaries)) && Sorted(valid)
    requires plan.toDelete + plan.surviving == NamesOf(valid)
    requires |plan.surviving| == (if |valid| > keep then keep else |valid|)
    ensures b.name in plan.surviving <==> |Newer(summaries, b)| < keep
    ensures b.name in plan.toDelete <==> |Newer(summaries, b)| >= keep
  {
    SortingKeepsPairsApart(Valid(summaries), valid);
    assert b in multiset(valid);
    var i :| 0 <= i < |valid| && valid[i] == b;
    SortedListIsAscending(summaries, valid);
    LaterOnesAreTheRest(valid, i);
    assert forall c :: c in valid <==> c in multiset(valid);
    assert Newer(summaries, b) == set c | c in valid && !Before(c.timestamp, valid[i].timestamp);
    SortedNamesAreDistinct(summaries, valid);
    OnePlaceOnly(plan.toDelete, plan.surviving, i);
  }

  // A valid backup survives exactly when fewer than `keep` valid backups are newer; every other one is planned for deletion.
  lemma PlanKeepsNewest(summaries: seq<Summary>, keep: nat, b: Summary)
    requires Unambiguous(summaries) && b in Valid(summaries)
    ensures b.name in PlanRetention(summaries, keep).surviving <==> |Newer(summaries, b)| < keep
    ensures b.name in PlanRetention(summaries, keep).toDelete <==> |Newer(summaries, b)| >= keep
  {
    PlanCutsByAge(summaries, keep);
    OldestFirstSorts(Valid(summaries));
    KeepsNewest(summaries, OldestFirst(Valid(summaries)), PlanRetention(summaries, keep), keep, b);
  }

  lemma SuffixIsDistinct(summaries: seq<Summary>, valid: seq<Summary>, plan: Plan)
    requires Unambiguous(summaries) && multiset(valid) == multiset(Valid(summaries))
    requires plan.toDelete + plan.surviving == NamesOf(valid)
    ensures Distinct(plan.surviving)
    ensures forall i :: 0 <= i < |plan.surviving| ==>
              i + |plan.toDelete| < |valid| && plan.surviving[i] == valid[i + |plan.toDelete|].name
  {
    SortingKeepsPairsApart(Valid(summaries), valid);
    SortedNamesAreDistinct(summaries, valid);
    SurvivingIsASuffix(plan, valid);
  }

  lemma SurvivorsAreDistinct(summaries: seq<Summary>, keep: nat)
    requires Unambiguous(summaries)
    ensures var plan, valid := PlanRetention(summaries, keep), OldestFirst(Valid(summaries));
            && Distinct(plan.surviving)
            && forall i :: 0 <= i < |plan.surviving| ==>
                 i + |plan.toDelete| < |valid| && plan.surviving[i] == valid[i + |plan.toDelete|].name
  {
    PlanCutsByAge(summaries, keep);
    SuffixIsDistinct(summaries, OldestFirst(Valid(summaries)), PlanRetention(summaries, keep));
  }

  lemma SurvivorIsNewer(summaries: seq<Summary>, keep: nat, b: Summary, n: string)
    requires Unambiguous(summaries) && b in Valid(summaries) && b.name in PlanRetention(summaries, keep).toDelete
    requires n in PlanRetention(summaries, keep).surviving
    ensures exists c :: c in Valid(summaries) && c.name == n && !Before(c.timestamp, b.timestamp)
  {
    var plan, valid := PlanRetention(summaries, keep), OldestFirst(Valid(summaries));
    SurvivorsAreDistinct(summaries, keep);
    var i :| 0 <= i < |plan.surviving| && plan.surviving[i] == n;
    var c := valid[i + |plan.toDelete|];
    assert c in multiset(valid);
    SurvivorIsNotOlder(summaries, keep, b, c);
  }

  // Whoever is planned for deletion is older than all of `keep` survivors.
  lemma SurvivorsOutrankTheRest(summaries: seq<Summary>, keep: nat, b: Summary)
    requires Unambiguous(summaries) && b in Valid(summaries) && b.name in PlanRetention(summaries, keep).toDelete
    ensures var surviving := PlanRetention(summaries, keep).surviving;
            && |set n | n in surviving| == keep
            && forall n :: n in surviving ==>
                 exists c :: c in Valid(summaries) && c.name == n && !Before(c.timestamp, b.timestamp)
  {
    var surviving := PlanRetention(summaries, keep).surviving;
    SurvivorsAreDistinct(summaries, keep);
    DistinctSize(surviving);
    SomeArePlanned(summaries, keep);
    forall n | n in surviving
      ensures exists c :: c in Valid(summaries) && c.name == n && !Before(c.timestamp, b.timestamp)
    {
      SurvivorIsNewer(summaries, keep, b, n);
    }
  }

  lemma SomeArePlanned(summaries: seq<Summary>, keep: nat)
    requires PlanRetention(summaries, keep).toDelete != []
    ensures |PlanRetention(summaries, keep).surviving| == keep
  {
  }

  lemma SurvivorIsNotOlder(summaries: seq<Summary>, keep: nat, b: Summary, c: Summary)
    requires Unambiguous(summaries) && b in Valid(summaries) && c in Valid(summaries)
    requires b.name in PlanRetention(summaries, keep).toDelete && c.name in PlanRetention(summaries, keep).surviving
    ensures !Before(c.timestamp, b.timestamp)
  {
    PlanKeepsNewest(summaries, keep, b);
    PlanKeepsNewest(summaries, keep, c);
    if Before(c.timestamp, b.timestamp) {
      OlderHasMoreNewer(summaries, b, c);
    }
  }

  lemma OlderHasMoreNewer(summaries: seq<Summary>, b: Summary, c: Summary)
    requires Unambiguous(summaries) && b in Valid(summaries) && c in Valid(summaries)
    requires Before(c.timestamp, b.timestamp)
    ensures |Newer(summaries, b)| <= |Newer(summaries, c)|
  {
    assert Newer(summaries, b) <= Newer(summaries, c);
    SubsetSize(Newer(summaries, b), Newer(summaries, c));
  }

  lemma SurvivingIsASuffix(plan: Plan, valid: seq<Summary>)
    requires plan.toDelete + plan.surviving == NamesOf(valid) && Distinct(NamesOf(valid))
    ensures Distinct(plan.surviving)
    ensures forall i :: 0 <= i < |plan.surviving| ==>
              i + |plan.toDelete| < |valid| && plan.surviving[i] == valid[i + |plan.toDelete|].name
  {
    var names := plan.toDelete + plan.surviving;
    forall i | 0 <= i < |plan.surviving|
      ensures i + |plan.toDelete| < |valid| && plan.surviving[i] == valid[i + |plan.toDelete|].name
    {
      assert names[i + |plan.toDelete|] == plan.surviving[i];
    }
    SuffixStaysDistinct(plan.toDelete, plan.surviving);
  }

  lemma SuffixStaysDistinct<T>(xs: seq<T>, ys: seq<T>)
    requires Distinct(xs + ys)
    ensures Distinct(ys)
  {
    var all := xs + ys;
    forall i, j | 0 <= i < j < |ys|
      ensures ys[i] != ys[j]
    {
      assert all[i + |xs|] == ys[i] && all[j + |xs|] == ys[j];
    }
  }

  lemma {:induction false} SubsetSize<T>(x: set<T>, y: set<T>)
    requires x <= y
    ensures |x| <= |y|
  {
    if x != {} {
      var e :| e in x;
      SubsetSize(x - {e}, y - {e});
    }
  }
}
