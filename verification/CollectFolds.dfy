/** How a collection pass settles competing claims: which table owns a UUID, which disk owns a path, which part is first. */
module CollectFolds {
  import opened Sequences
  import opened Text

  /** A claim of `value` to `key`; a preferred claim displaces one that is not. */
  datatype Claim<V> = Claim(key: string, value: V, preferred: bool)

  datatype Entry<V> = Entry(value: V, preferred: bool)

  function Insert<V>(m: map<string, Entry<V>>, c: Claim<V>): map<string, Entry<V>> {
    if c.key !in m || (c.preferred && !m[c.key].preferred) then m[c.key := Entry(c.value, c.preferred)] else m
  }

  method InsertWithPriority<V>(m: map<string, Entry<V>>, key: string, value: V, preferred: bool)
    returns (r: map<string, Entry<V>>)
    ensures r == Insert(m, Claim(key, value, preferred))
  {
    if key !in m {
      r := m[key := Entry(value, preferred)];
    } else if preferred && !m[key].preferred {
      r := m[key := Entry(value, preferred)];
    } else {
      r := m;
    }
  }

  function InsertAll<V>(cs: seq<Claim<V>>): map<string, Entry<V>> {
    if cs == [] then map[] else Insert(InsertAll(cs[..|cs| - 1]), cs[|cs| - 1])
  }

  /** Claim `i` is the first preferred one for its key, or the first one if none is preferred. */
  predicate Wins<V>(cs: seq<Claim<V>>, i: nat) {
    && i < |cs|
    && forall j :: 0 <= j < |cs| && cs[j].key == cs[i].key && j != i ==>
         if cs[i].preferred then (j < i ==> !cs[j].preferred) else !cs[j].preferred && i < j
  }

  predicate Claimed<V>(cs: seq<Claim<V>>, key: string) {
    exists i :: 0 <= i < |cs| && cs[i].key == key
  }

  ghost predicate Settled<V>(cs: seq<Claim<V>>, key: string, e: Entry<V>) {
    exists i: nat :: Wins(cs, i) && cs[i].key == key && e == Entry(cs[i].value, cs[i].preferred)
  }

  lemma WinnerExtends<V>(cs: seq<Claim<V>>, c: Claim<V>, i: nat)
    requires Wins(cs, i) && (cs[i].key == c.key ==> cs[i].preferred || !c.preferred)
    ensures Wins(cs + [c], i)
  {
  }

  lemma NewcomerWins<V>(cs: seq<Claim<V>>, c: Claim<V>)
    requires forall j :: 0 <= j < |cs| && cs[j].key == c.key ==> c.preferred && !cs[j].preferred
    ensures Wins(cs + [c], |cs|)
  {
  }

  // One key after one more claim.
  lemma SettledStep<V>(cs: seq<Claim<V>>, c: Claim<V>, m: map<string, Entry<V>>, key: string)
    requires Claimed(cs, key) <==> key in m
    requires key in m ==> Settled(cs, key, m[key])
    ensures Claimed(cs + [c], key) <==> key in Insert(m, c)
    ensures key in Insert(m, c) ==> Settled(cs + [c], key, Insert(m, c)[key])
  {
    var all := cs + [c];
    assert forall i :: 0 <= i < |cs| ==> all[i] == cs[i];
    assert all[|cs|] == c;
    if key in m {
      var i: nat :| Wins(cs, i) && cs[i].key == key && m[key] == Entry(cs[i].value, cs[i].preferred);
      if c.key == key && c.preferred && !m[key].preferred {
        NewcomerWins(cs, c);
      } else {
        WinnerExtends(cs, c, i);
      }
    } else if c.key == key {
      NewcomerWins(cs, c);
    }
  }

  // Inserting claims one by one settles every key in favour of its winner.
  lemma {:induction false} InsertAllSettles<V>(cs: seq<Claim<V>>, key: string)
    ensures Claimed(cs, key) <==> key in InsertAll(cs)
    ensures key in InsertAll(cs) ==> Settled(cs, key, InsertAll(cs)[key])
  {
    if cs != [] {
      var init, last := cs[..|cs| - 1], cs[|cs| - 1];
      InsertAllSettles(init, key);
      SettledStep(init, last, InsertAll(init), key);
      assert init + [last] == cs;
    }
  }

  /** Exactly one preferred claimant for the key. */
  predicate OnePreferred<V(==)>(cs: seq<Claim<V>>, key: string, value: V) {
    && Claim(key, value, true) in cs
    && forall c :: c in cs && c.key == key && c.preferred ==> c.value == value
  }

  // A single preferred claimant wins wherever it stands, so the order of the claims does not matter then.
  lemma PreferredClaimWinsInAnyOrder<V>(cs: seq<Claim<V>>, key: string, value: V)
    requires OnePreferred(cs, key, value)
    ensures key in InsertAll(cs) && InsertAll(cs)[key] == Entry(value, true)
  {
    InsertAllSettles(cs, key);
    var j :| 0 <= j < |cs| && cs[j] == Claim(key, value, true);
    assert Claimed(cs, key);
    var i: nat :| Wins(cs, i) && cs[i].key == key
                  && InsertAll(cs)[key] == Entry(cs[i].value, cs[i].preferred);
    assert cs[i] in cs;
  }

  lemma InsertAllAppend<V>(cs: seq<Claim<V>>, c: Claim<V>)
    ensures InsertAll(cs + [c]) == Insert(InsertAll(cs), c)
  {
    assert (cs + [c])[..|cs|] == cs;
  }

  // -- tables by UUID --

  datatype TableName = TableName(db: string, table: string)

  datatype TableRow = TableRow(name: TableName, engine: string, uuid: string, dataPaths: seq<string>)

  const MERGE_TREE := "MergeTree"

  /** The engine stores data of its own; a materialized view reports the directory of its target table. */
  predicate IsData(t: TableRow) {
    || (|t.engine| >= |MERGE_TREE| && t.engine[|t.engine| - |MERGE_TREE|..] == MERGE_TREE)
    || t.engine == "MaterializedMySQL"
    || t.engine == "MaterializedPostgreSQL"
  }

  predicate HasUuid(t: TableRow) {
    t.uuid != "" && t.uuid != "00000000-0000-0000-0000-000000000000"
  }

  /** The last component of a path without its trailing slashes. */
  function LastComponent(path: string): string {
    var parts := Split(TrimEnd(path, IsSlash), '/');
    parts[|parts| - 1]
  }

  function PathClaims(t: TableRow, preferred: bool, n: nat): seq<Claim<TableName>>
    requires n <= |t.dataPaths|
  {
    if n == 0 then []
    else PathClaims(t, preferred, n - 1) + [Claim(LastComponent(t.dataPaths[n - 1]), t.name, preferred)]
  }

  function UuidClaims(t: TableRow, preferred: bool, hasUuid: bool): seq<Claim<TableName>> {
    if hasUuid then [Claim(t.uuid, t.name, preferred)] else []
  }

  /** A table claims the directory of each of its data paths, then its own UUID. */
  function TableClaims(t: TableRow): seq<Claim<TableName>> {
    PathClaims(t, IsData(t), |t.dataPaths|) + UuidClaims(t, IsData(t), HasUuid(t))
  }

  function AllClaims(ts: seq<TableRow>): seq<Claim<TableName>> {
    if ts == [] then [] else AllClaims(ts[..|ts| - 1]) + TableClaims(ts[|ts| - 1])
  }

  method ClaimForTable(m: map<string, Entry<TableName>>, t: TableRow, isData: bool, hasUuid: bool,
                       ghost before: seq<Claim<TableName>>)
    returns (r: map<string, Entry<TableName>>)
    requires m == InsertAll(before)
    ensures r == InsertAll(before + (PathClaims(t, isData, |t.dataPaths|) + UuidClaims(t, isData, hasUuid)))
  {
    r := m;
    ghost var done := before;
    for k := 0 to |t.dataPaths|
      invariant done == before + PathClaims(t, isData, k)
      invariant r == InsertAll(done)
    {
      var uuidDir := LastComponent(t.dataPaths[k]);
      r := InsertWithPriority(r, uuidDir, t.name, isData);
      InsertAllAppend(done, Claim(uuidDir, t.name, isData));
      Regroup(before, PathClaims(t, isData, k), [Claim(uuidDir, t.name, isData)]);
      done := done + [Claim(uuidDir, t.name, isData)];
    }
    Regroup(before, PathClaims(t, isData, |t.dataPaths|), UuidClaims(t, isData, hasUuid));
    if hasUuid {
      r := InsertWithPriority(r, t.uuid, t.name, isData);
      InsertAllAppend(done, Claim(t.uuid, t.name, isData));
    } else {
      assert done + [] == done;
    }
  }

  // -- who owns a UUID, said of the tables themselves --

  /** The last directory of the path, whatever slashes follow it, has this name. */
  ghost predicate EndsInDirectory(path: string, name: string) {
    && '/' !in name
    && exists before, slashes :: Only(slashes, IsSlash) && path == before + name + slashes
                                 && (before == [] || (before[|before| - 1] == '/' && name != []))
  }

  lemma LastComponentIff(path: string, name: string)
    ensures LastComponent(path) == name <==> EndsInDirectory(path, name)
  {
    if LastComponent(path) == name {
      var k := TrimEndSplits(path, IsSlash);
      var before := SplitLast(path[..k], '/');
      assert path == before + name + path[k..];
      assert name == [] ==> before == path[..k];
    }
    if EndsInDirectory(path, name) {
      var before, slashes :| Only(slashes, IsSlash) && path == before + name + slashes
                             && (before == [] || (before[|before| - 1] == '/' && name != []));
      NameComesLast(before, name, slashes);
    }
  }

  lemma NameComesLast(before: string, name: string, slashes: string)
    requires '/' !in name && Only(slashes, IsSlash)
    requires before == [] || (before[|before| - 1] == '/' && name != [])
    ensures LastComponent(before + name + slashes) == name
  {
    assert name != [] ==> name[|name| - 1] in name && (before + name)[|before + name| - 1] == name[|name| - 1];
    TrimEndTakesOff(before + name, slashes, IsSlash);
    var rest := SplitLast(before + name, '/');
    LastSlash(before, name, rest, LastComponent(before + name + slashes));
  }

  // After the last slash only one text can stand.
  lemma LastSlash(a: string, x: string, b: string, y: string)
    requires a + x == b + y && '/' !in x && '/' !in y
    requires (a == [] || a[|a| - 1] == '/') && (b == [] || b[|b| - 1] == '/')
    ensures x == y
  {
    NoSlashAfter(a, x, b, y);
    NoSlashAfter(b, y, a, x);
    assert (a + x)[|a|..] == x && (b + y)[|b|..] == y;
  }

  lemma NoSlashAfter(a: string, x: string, b: string, y: string)
    requires a + x == b + y && '/' !in x && (b == [] || b[|b| - 1] == '/')
    ensures |b| <= |a|
  {
    var s := a + x;
    assert forall i :: |a| <= i < |s| ==> s[i] == x[i - |a|] && s[i] in x;
    assert b != [] ==> (b + y)[|b| - 1] == '/';
  }

  /** The table stores data of its own: a MergeTree of any kind, or a materialized database of another server. */
  ghost predicate StoresData(t: TableRow) {
    t.engine in {"MaterializedMySQL", "MaterializedPostgreSQL"} || exists kind :: t.engine == kind + "MergeTree"
  }

  lemma StoresDataIff(t: TableRow)
    ensures IsData(t) <==> StoresData(t)
  {
    if |t.engine| >= |MERGE_TREE| && t.engine[|t.engine| - |MERGE_TREE|..] == MERGE_TREE {
      assert t.engine == t.engine[..|t.engine| - |MERGE_TREE|] + "MergeTree";
    }
    if kind :| t.engine == kind + "MergeTree" {
      assert t.engine[|kind|..] == "MergeTree";
    }
  }

  /** One of the table's data paths ends in the directory, or it is the table's own UUID. */
  ghost predicate Uses(t: TableRow, uuid: string) {
    || (exists k :: 0 <= k < |t.dataPaths| && EndsInDirectory(t.dataPaths[k], uuid))
    || (uuid == t.uuid && uuid !in {"", "00000000-0000-0000-0000-000000000000"})
  }

  /** Table `i` is the first one with data that uses the directory, or the first of all if none of those has data. */
  ghost predicate OwnsUuid(tables: seq<TableRow>, uuid: string, i: int) {
    && 0 <= i < |tables| && Uses(tables[i], uuid)
    && forall j :: 0 <= j < |tables| && Uses(tables[j], uuid) ==>
         if StoresData(tables[i]) then (j < i ==> !StoresData(tables[j])) else !StoresData(tables[j]) && i <= j
  }

  /** The table that makes the `c`-th claim. */
  ghost function Claimant(tables: seq<TableRow>, c: nat): (i: nat)
    requires c < |AllClaims(tables)|
    ensures i < |tables|
  {
    var n := |tables| - 1;
    if c < |AllClaims(tables[..n])| then Claimant(tables[..n], c) else n
  }

  lemma {:induction false} ClaimantsAreInOrder(tables: seq<TableRow>, c: nat, d: nat)
    requires c <= d < |AllClaims(tables)|
    ensures Claimant(tables, c) <= Claimant(tables, d)
  {
    var n := |tables| - 1;
    if d < |AllClaims(tables[..n])| {
      ClaimantsAreInOrder(tables[..n], c, d);
    }
  }

  lemma {:induction false} PathClaimIs(t: TableRow, preferred: bool, n: nat, c: nat)
    requires c < n <= |t.dataPaths|
    ensures |PathClaims(t, preferred, n)| == n
    ensures PathClaims(t, preferred, n)[c] == Claim(LastComponent(t.dataPaths[c]), t.name, preferred)
  {
    if c < n - 1 {
      PathClaimIs(t, preferred, n - 1, c);
    } else if n > 1 {
      PathClaimIs(t, preferred, n - 1, 0);
    }
  }

  lemma PathClaimCount(t: TableRow, preferred: bool)
    ensures |PathClaims(t, preferred, |t.dataPaths|)| == |t.dataPaths|
  {
    if |t.dataPaths| > 0 {
      PathClaimIs(t, preferred, |t.dataPaths|, 0);
    }
  }

  // A table claims exactly the directories it uses.
  lemma TableClaimsIff(t: TableRow, uuid: string)
    ensures Uses(t, uuid) <==> exists c :: 0 <= c < |TableClaims(t)| && TableClaims(t)[c].key == uuid
    ensures forall c :: 0 <= c < |TableClaims(t)| ==>
              TableClaims(t)[c].value == t.name && (TableClaims(t)[c].preferred <==> StoresData(t))
  {
    var cs, n := TableClaims(t), |t.dataPaths|;
    StoresDataIff(t);
    PathClaimCount(t, IsData(t));
    forall k | 0 <= k < n
      ensures cs[k] == Claim(LastComponent(t.dataPaths[k]), t.name, IsData(t))
      ensures cs[k].key == uuid <==> EndsInDirectory(t.dataPaths[k], uuid)
    {
      PathClaimIs(t, IsData(t), n, k);
      LastComponentIff(t.dataPaths[k], uuid);
    }
    assert HasUuid(t) ==> cs[n] == Claim(t.uuid, t.name, IsData(t));
  }

  lemma {:induction false} ClaimIsClaimants(tables: seq<TableRow>, c: nat)
    requires c < |AllClaims(tables)|
    ensures var claim, t := AllClaims(tables)[c], tables[Claimant(tables, c)];
            Uses(t, claim.key) && claim.value == t.name && (claim.preferred <==> StoresData(t))
  {
    var n := |tables| - 1;
    var before := AllClaims(tables[..n]);
    if c < |before| {
      ClaimIsClaimants(tables[..n], c);
    } else {
      TableClaimsIff(tables[n], AllClaims(tables)[c].key);
      assert AllClaims(tables)[c] == TableClaims(tables[n])[c - |before|];
    }
  }

  lemma EarlierClaim(tables: seq<TableRow>, c: nat)
    requires tables != [] && c < |AllClaims(tables[..|tables| - 1])|
    ensures c < |AllClaims(tables)| && AllClaims(tables)[c] == AllClaims(tables[..|tables| - 1])[c]
    ensures Claimant(tables, c) == Claimant(tables[..|tables| - 1], c)
  {
  }

  lemma LastClaim(tables: seq<TableRow>, d: nat)
    requires tables != [] && d < |TableClaims(tables[|tables| - 1])|
    ensures var c := |AllClaims(tables[..|tables| - 1])| + d;
            && c < |AllClaims(tables)| && AllClaims(tables)[c] == TableClaims(tables[|tables| - 1])[d]
            && Claimant(tables, c) == |tables| - 1
  {
  }

  lemma {:induction false} ClaimOf(tables: seq<TableRow>, i: nat, d: nat) returns (c: nat)
    requires i < |tables| && d < |TableClaims(tables[i])|
    ensures c < |AllClaims(tables)| && AllClaims(tables)[c] == TableClaims(tables[i])[d] && Claimant(tables, c) == i
  {
    var init := tables[..|tables| - 1];
    if i < |init| {
      assert init[i] == tables[i];
      c := ClaimOf(init, i, d);
      EarlierClaim(tables, c);
    } else {
      c := |AllClaims(init)| + d;
      LastClaim(tables, d);
    }
  }

  lemma UserClaims(tables: seq<TableRow>, uuid: string, i: nat) returns (c: nat)
    requires i < |tables| && Uses(tables[i], uuid)
    ensures c < |AllClaims(tables)| && AllClaims(tables)[c].key == uuid && Claimant(tables, c) == i
  {
    var d := OwnClaim(tables[i], uuid);
    c := ClaimOf(tables, i, d);
  }

  lemma OwnClaim(t: TableRow, uuid: string) returns (d: nat)
    requires Uses(t, uuid)
    ensures d < |TableClaims(t)| && TableClaims(t)[d].key == uuid
  {
    TableClaimsIff(t, uuid);
    d :| 0 <= d < |TableClaims(t)| && TableClaims(t)[d].key == uuid;
  }

  lemma ClaimedIffUsed(tables: seq<TableRow>, uuid: string)
    ensures Claimed(AllClaims(tables), uuid) <==> exists i :: 0 <= i < |tables| && Uses(tables[i], uuid)
  {
    if c :| 0 <= c < |AllClaims(tables)| && AllClaims(tables)[c].key == uuid {
      ClaimIsClaimants(tables, c);
    }
    if i :| 0 <= i < |tables| && Uses(tables[i], uuid) {
      var c := UserClaims(tables, uuid, i);
    }
  }

  lemma WinnerOwns(tables: seq<TableRow>, c: nat)
    requires Wins(AllClaims(tables), c)
    ensures OwnsUuid(tables, AllClaims(tables)[c].key, Claimant(tables, c))
  {
    var cs, i := AllClaims(tables), Claimant(tables, c);
    var uuid := cs[c].key;
    ClaimIsClaimants(tables, c);
    forall j | 0 <= j < |tables| && Uses(tables[j], uuid)
      ensures if StoresData(tables[i]) then (j < i ==> !StoresData(tables[j])) else !StoresData(tables[j]) && i <= j
    {
      var d := UserClaims(tables, uuid, j);
      ClaimIsClaimants(tables, d);
      if c <= d {
        ClaimantsAreInOrder(tables, c, d);
      } else {
        ClaimantsAreInOrder(tables, d, c);
      }
    }
  }

  // What the claims settle, in terms of the tables.
  lemma SettledIsOwned(tables: seq<TableRow>, uuid: string, e: Entry<TableName>)
    requires Settled(AllClaims(tables), uuid, e)
    ensures exists i :: OwnsUuid(tables, uuid, i) && e.value == tables[i].name
  {
    var c: nat :| Wins(AllClaims(tables), c) && AllClaims(tables)[c].key == uuid
                  && e == Entry(AllClaims(tables)[c].value, AllClaims(tables)[c].preferred);
    WinnerOwns(tables, c);
    ClaimIsClaimants(tables, c);
  }

  // Settling all claims maps every directory in use, and each to its owner.
  lemma OwnerIs(tables: seq<TableRow>, uuid: string)
    ensures uuid in InsertAll(AllClaims(tables)) <==> exists i :: 0 <= i < |tables| && Uses(tables[i], uuid)
    ensures uuid in InsertAll(AllClaims(tables)) ==>
              exists i :: OwnsUuid(tables, uuid, i) && InsertAll(AllClaims(tables))[uuid].value == tables[i].name
  {
    var cs := AllClaims(tables);
    InsertAllSettles(cs, uuid);
    ClaimedIffUsed(tables, uuid);
    if Claimed(cs, uuid) {
      SettledIsOwned(tables, uuid, InsertAll(cs)[uuid]);
    }
  }

  method ClaimForAll(tables: seq<TableRow>) returns (m: map<string, Entry<TableName>>)
    ensures m == InsertAll(AllClaims(tables))
  {
    m := map[];
    for i := 0 to |tables|
      invariant m == InsertAll(AllClaims(tables[..i]))
    {
      m := ClaimForTable(m, tables[i], IsData(tables[i]), HasUuid(tables[i]), AllClaims(tables[..i]));
      assert tables[..i + 1][..i] == tables[..i];
    }
    assert tables[..|tables|] == tables;
  }

  method BuildUuidMap(tables: seq<TableRow>) returns (owners: map<string, TableName>)
    ensures forall uuid :: uuid in owners <==> exists i :: 0 <= i < |tables| && Uses(tables[i], uuid)
    ensures forall uuid :: uuid in owners ==> exists i :: OwnsUuid(tables, uuid, i) && owners[uuid] == tables[i].name
  {
    var m := ClaimForAll(tables);
    owners := map uuid | uuid in m :: m[uuid].value;
    forall uuid
      ensures uuid in owners <==> exists i :: 0 <= i < |tables| && Uses(tables[i], uuid)
      ensures uuid in owners ==> exists i :: OwnsUuid(tables, uuid, i) && owners[uuid] == tables[i].name
    {
      OwnerIs(tables, uuid);
    }
  }

  // -- disks by path --

  datatype DiskPath = DiskPath(disk: string, path: string)

  /** A disk's claim to its path; a cache disk gives way to the disk it caches. */
  function DiskClaim(d: DiskPath, caches: set<string>): Claim<string> {
    Claim(TrimEnd(d.path, IsSlash), d.disk, d.disk !in caches)
  }

  function DiskClaims(ds: seq<DiskPath>, caches: set<string>): seq<Claim<string>> {
    seq(|ds|, i requires 0 <= i < |ds| => DiskClaim(ds[i], caches))
  }

  /** Disk `i` is the first one with this path that is no cache, or the first of all if all of them are. */
  predicate WalksPath(disks: seq<DiskPath>, caches: set<string>, path: string, i: int) {
    && 0 <= i < |disks| && TrimEnd(disks[i].path, IsSlash) == path
    && forall j :: 0 <= j < |disks| && TrimEnd(disks[j].path, IsSlash) == path ==>
         if disks[i].disk !in caches then (j < i ==> disks[j].disk in caches) else disks[j].disk in caches && i <= j
  }

  lemma SettledIsWalked(disks: seq<DiskPath>, caches: set<string>, path: string, e: Entry<string>)
    requires Settled(DiskClaims(disks, caches), path, e)
    ensures exists i :: WalksPath(disks, caches, path, i) && e.value == disks[i].disk
  {
    var cs := DiskClaims(disks, caches);
    var i: nat :| Wins(cs, i) && cs[i].key == path && e == Entry(cs[i].value, cs[i].preferred);
    assert forall j :: 0 <= j < |disks| ==> cs[j] == DiskClaim(disks[j], caches);
    assert WalksPath(disks, caches, path, i);
  }

  /** One disk to walk for each distinct path; the disks come in name order. */
  method DedupPaths(disks: seq<DiskPath>, caches: set<string>) returns (byPath: map<string, Entry<string>>)
    ensures forall path :: path in byPath <==> exists i :: 0 <= i < |disks| && TrimEnd(disks[i].path, IsSlash) == path
    ensures forall path :: path in byPath ==>
              exists i :: WalksPath(disks, caches, path, i) && byPath[path].value == disks[i].disk
  {
    byPath := map[];
    ghost var claims := DiskClaims(disks, caches);
    for i := 0 to |disks|
      invariant byPath == InsertAll(claims[..i])
    {
      var normalized := TrimEnd(disks[i].path, IsSlash);
      var isCache := disks[i].disk in caches;
      InsertAllAppend(claims[..i], claims[i]);
      assert claims[..i + 1] == claims[..i] + [claims[i]];
      if normalized !in byPath {
        byPath := byPath[normalized := Entry(disks[i].disk, !isCache)];
      } else if !byPath[normalized].preferred && !isCache {
        byPath := byPath[normalized := Entry(disks[i].disk, !isCache)];
      }
    }
    assert claims[..|claims|] == claims;
    forall path
      ensures path in byPath <==> exists i :: 0 <= i < |disks| && TrimEnd(disks[i].path, IsSlash) == path
      ensures path in byPath ==> exists i :: WalksPath(disks, caches, path, i) && byPath[path].value == disks[i].disk
    {
      InsertAllSettles(claims, path);
      assert forall i :: 0 <= i < |disks| ==> claims[i].key == TrimEnd(disks[i].path, IsSlash);
      if path in byPath {
        SettledIsWalked(disks, caches, path, byPath[path]);
      }
    }
  }

  // -- parts, first come first kept --

  /** A part found on a walk, with whatever is recorded about it. */
  datatype Found = Found(table: string, disk: string, name: string, info: int)

  predicate SamePart(x: Found, y: Found) {
    x.table == y.table && x.disk == y.disk && x.name == y.name
  }

  predicate FirstSeen(xs: seq<Found>, i: nat)
    requires i < |xs|
  {
    forall j :: 0 <= j < i ==> !SamePart(xs[j], xs[i])
  }

  /** The first finds of a table's parts, in the order of the walk. */
  function Kept(xs: seq<Found>, table: string): seq<Found> {
    if xs == [] then []
    else
      var n := |xs| - 1;
      Kept(xs[..n], table) + if xs[n].table == table && FirstSeen(xs, n) then [xs[n]] else []
  }

  function Collected(result: map<string, seq<Found>>, table: string): seq<Found> {
    if table in result then result[table] else []
  }

  lemma {:induction false} KeptAreFirst(xs: seq<Found>, table: string, x: Found)
    ensures x in Kept(xs, table) <==> x.table == table && exists i :: 0 <= i < |xs| && xs[i] == x && FirstSeen(xs, i)
  {
    if xs != [] {
      var n := |xs| - 1;
      KeptAreFirst(xs[..n], table, x);
      assert forall i :: 0 <= i < n ==> (FirstSeen(xs[..n], i) <==> FirstSeen(xs, i));
    }
  }

  /** No find before `i` is of the same part of the same table on the same disk. */
  predicate FirstOfItsPart(xs: seq<Found>, i: int) {
    && 0 <= i < |xs|
    && forall j :: 0 <= j < i ==>
         !(xs[j].table == xs[i].table && xs[j].disk == xs[i].disk && xs[j].name == xs[i].name)
  }

  // Every part found is represented by exactly one kept find, and that is its first.
  lemma KeptIff(xs: seq<Found>, table: string, x: Found)
    ensures x in Kept(xs, table) <==> x.table == table && exists i :: FirstOfItsPart(xs, i) && xs[i] == x
  {
    KeptAreFirst(xs, table, x);
    if i :| FirstOfItsPart(xs, i) && xs[i] == x {
      assert FirstSeen(xs, i);
    }
    if i :| 0 <= i < |xs| && xs[i] == x && FirstSeen(xs, i) {
      assert FirstOfItsPart(xs, i);
    }
  }

  // What is kept comes in the order of the walk.
  lemma {:induction false} KeptInOrder(xs: seq<Found>, table: string, a: nat, b: nat) returns (i: nat, j: nat)
    requires a < b < |Kept(xs, table)|
    ensures i < j < |xs| && xs[i] == Kept(xs, table)[a] && xs[j] == Kept(xs, table)[b]
  {
    var n := |xs| - 1;
    var before := Kept(xs[..n], table);
    if b < |before| {
      i, j := KeptInOrder(xs[..n], table, a, b);
    } else {
      j := n;
      assert before[a] in before;
      KeptAreFirst(xs[..n], table, before[a]);
      i :| 0 <= i < n && xs[..n][i] == before[a];
    }
  }

  lemma {:induction false} FirstFindExists(xs: seq<Found>, i: nat) returns (j: nat)
    requires i < |xs|
    ensures j <= i && SamePart(xs[j], xs[i]) && FirstSeen(xs, j)
  {
    if FirstSeen(xs, i) {
      j := i;
    } else {
      var k :| 0 <= k < i && SamePart(xs[k], xs[i]);
      j := FirstFindExists(xs, k);
    }
  }

  lemma {:induction false} KeptHasNoDuplicates(xs: seq<Found>, table: string, i: nat, j: nat)
    requires i < j < |Kept(xs, table)|
    ensures !SamePart(Kept(xs, table)[i], Kept(xs, table)[j])
  {
    var n := |xs| - 1;
    if j < |Kept(xs[..n], table)| {
      KeptHasNoDuplicates(xs[..n], table, i, j);
    } else {
      KeptAreFirst(xs[..n], table, Kept(xs, table)[i]);
    }
  }

  // Looking a part up among the kept ones is looking it up among all finds.
  lemma AlreadyCollectedIff(xs: seq<Found>, x: Found)
    ensures (exists p :: p in Kept(xs, x.table) && p.disk == x.disk && p.name == x.name)
            <==> exists i :: 0 <= i < |xs| && SamePart(xs[i], x)
  {
    if i :| 0 <= i < |xs| && SamePart(xs[i], x) {
      var j := FirstFindExists(xs, i);
      KeptAreFirst(xs, x.table, xs[j]);
    }
    if p :| p in Kept(xs, x.table) && p.disk == x.disk && p.name == x.name {
      KeptAreFirst(xs, x.table, p);
    }
  }

  /** The first `n` finds of the walk have been collected. */
  ghost predicate CollectedUpTo(result: map<string, seq<Found>>, xs: seq<Found>, n: nat)
    requires n <= |xs|
  {
    forall table :: Collected(result, table) == Kept(xs[..n], table)
  }

  predicate Already(parts: seq<Found>, x: Found) {
    exists p :: p in parts && p.disk == x.disk && p.name == x.name
  }

  lemma AlreadyIff(parts: seq<Found>, xs: seq<Found>, i: nat)
    requires i < |xs| && parts == Kept(xs[..i], xs[i].table)
    ensures Already(parts, xs[i]) <==> !FirstSeen(xs, i)
  {
    AlreadyCollectedIff(xs[..i], xs[i]);
    assert forall j :: 0 <= j < i ==> xs[..i][j] == xs[j];
    if j :| 0 <= j < i && SamePart(xs[j], xs[i]) {
      assert SamePart(xs[..i][j], xs[i]);
    }
  }

  lemma CollectStep(result: map<string, seq<Found>>, xs: seq<Found>, i: nat)
    requires i < |xs| && CollectedUpTo(result, xs, i)
    ensures var x := xs[i];
            var parts := Collected(result, x.table);
            CollectedUpTo(if Already(parts, x) then result else result[x.table := parts + [x]], xs, i + 1)
  {
    var x := xs[i];
    var parts := Collected(result, x.table);
    var after := if Already(parts, x) then result else result[x.table := parts + [x]];
    AlreadyIff(parts, xs, i);
    forall table
      ensures Collected(after, table) == Kept(xs[..i + 1], table)
    {
      KeptNext(xs, i, table);
      assert Collected(result, table) == Kept(xs[..i], table);
    }
  }

  lemma KeptNext(xs: seq<Found>, i: nat, table: string)
    requires i < |xs|
    ensures Kept(xs[..i + 1], table) ==
            Kept(xs[..i], table) + if xs[i].table == table && FirstSeen(xs, i) then [xs[i]] else []
  {
    assert xs[..i + 1][..i] == xs[..i] && xs[..i + 1][i] == xs[i];
  }

  /** Collects the finds of one walk; a part met again, under the same table and disk, is skipped. */
  method CollectParts(xs: seq<Found>) returns (result: map<string, seq<Found>>)
    ensures forall table :: Collected(result, table) == Kept(xs, table)
  {
    result := map[];
    for i := 0 to |xs|
      invariant CollectedUpTo(result, xs, i)
    {
      var x := xs[i];
      var parts := Collected(result, x.table);
      CollectStep(result, xs, i);
      if !Already(parts, x) {
        result := result[x.table := parts + [x]];
      }
    }
    assert xs[..|xs|] == xs;
  }
}
