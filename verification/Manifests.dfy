/** Backup manifests, incremental chains, and the keys a manifest protects. */
module Manifests {
  import opened Options

  datatype S3Object = S3Object(path: string, size: nat, backupKey: string)

  datatype Part = Part(name: string, crc: nat, backupKey: string, source: string, s3Objects: Option<seq<S3Object>>)

  /** Parts of one table, by disk. */
  type Table = map<string, seq<Part>>

  datatype Manifest = Manifest(name: string, tables: map<string, Table>)

  const UPLOADED: string := "uploaded"
  const CARRIED: string := "carried:"

  /** A part of the manifest, located by table, disk and position. */
  predicate At(m: Manifest, table: string, disk: string, i: int) {
    table in m.tables && disk in m.tables[table] && 0 <= i < |m.tables[table][disk]|
  }

  function PartAt(m: Manifest, table: string, disk: string, i: int): Part
    requires At(m, table, disk, i)
  {
    m.tables[table][disk][i]
  }

  function ObjectKeys(objects: seq<S3Object>): set<string> {
    set o | o in objects && o.backupKey != "" :: o.backupKey
  }

  /** The keys one part names: its archive or metadata directory, and its object-disk objects. */
  function NamedKeys(part: Part): set<string> {
    (if part.backupKey != "" then {part.backupKey} else {})
    + (if part.s3Objects.Some? then ObjectKeys(part.s3Objects.value) else {})
  }

  /** Everything a manifest references. */
  function CollectedKeys(m: Manifest): set<string> {
    set table, disk, i, key |
      table in m.tables && disk in m.tables[table] && 0 <= i < |m.tables[table][disk]|
      && key in NamedKeys(m.tables[table][disk][i]) :: key
  }

  ghost predicate Names(m: Manifest, table: string, disk: string, i: int, key: string) {
    At(m, table, disk, i) && key in NamedKeys(PartAt(m, table, disk, i))
  }

  lemma CollectedIffNamed(m: Manifest)
    ensures forall key :: key in CollectedKeys(m) <==> exists t, d, i :: Names(m, t, d, i, key)
  {
    forall key | key in CollectedKeys(m)
      ensures exists t, d, i :: Names(m, t, d, i, key)
    {
      var t, d, i :| t in m.tables && d in m.tables[t] && 0 <= i < |m.tables[t][d]| && key in NamedKeys(m.tables[t][d][i]);
      assert Names(m, t, d, i, key);
    }
    forall key, t, d, i | Names(m, t, d, i, key)
      ensures key in CollectedKeys(m)
    {
      assert key in NamedKeys(m.tables[t][d][i]);
    }
  }

  function PartsKeys(parts: seq<Part>): set<string> {
    set i, key | 0 <= i < |parts| && key in NamedKeys(parts[i]) :: key
  }

  method CollectPartsKeys(parts: seq<Part>) returns (keys: set<string>)
    ensures keys == PartsKeys(parts)
  {
    keys := {};
    for i := 0 to |parts|
      invariant keys == PartsKeys(parts[..i])
    {
      var part := parts[i];
      ghost var before := keys;
      if part.backupKey != "" {
        keys := keys + {part.backupKey};
      }
      if part.s3Objects.Some? {
        var objects := part.s3Objects.value;
        ghost var atStart := keys;
        for j := 0 to |objects|
          invariant keys == atStart + ObjectKeys(objects[..j])
        {
          assert objects[..j + 1] == objects[..j] + [objects[j]];
          if objects[j].backupKey != "" {
            keys := keys + {objects[j].backupKey};
          }
        }
        assert objects[..|objects|] == objects;
      }
      assert keys == before + NamedKeys(part);
      assert parts[..i + 1] == parts[..i] + [part];
      PartsKeysAppend(parts[..i], part);
    }
    assert parts[..|parts|] == parts;
  }

  lemma PartsKeysAppend(parts: seq<Part>, part: Part)
    ensures PartsKeys(parts + [part]) == PartsKeys(parts) + NamedKeys(part)
  {
    var all := parts + [part];
    forall key
      ensures key in PartsKeys(all) <==> key in PartsKeys(parts) + NamedKeys(part)
    {
      if key in PartsKeys(parts) {
        var i :| 0 <= i < |parts| && key in NamedKeys(parts[i]);
        assert all[i] == parts[i];
      }
      if key in NamedKeys(part) {
        assert all[|parts|] == part;
      }
    }
  }

  /** The set of key prefixes a manifest protects, gathered table by table and disk by disk. */
  method CollectKeyPrefixes(m: Manifest) returns (keys: set<string>)
    ensures keys == CollectedKeys(m)
  {
    keys := {};
    var tables := m.tables.Keys;
    while tables != {}
      invariant tables <= m.tables.Keys
      invariant forall key :: key in keys <==>
        exists table, disk, i :: table !in tables && Names(m, table, disk, i, key)
      decreases tables
    {
      var table :| table in tables;
      var disks := m.tables[table].Keys;
      ghost var before := keys;
      while disks != {}
        invariant disks <= m.tables[table].Keys
        invariant forall key :: key in keys <==>
          || key in before
          || exists disk, i :: disk !in disks && Names(m, table, disk, i, key)
        decreases disks
      {
        var disk :| disk in disks;
        var found := CollectPartsKeys(m.tables[table][disk]);
        forall key
          ensures key in found <==> exists i :: Names(m, table, disk, i, key)
        {
          if key in found {
            var i :| 0 <= i < |m.tables[table][disk]| && key in NamedKeys(m.tables[table][disk][i]);
            assert Names(m, table, disk, i, key);
          }
          if i :| Names(m, table, disk, i, key) {
            assert key in NamedKeys(m.tables[table][disk][i]);
          }
        }
        keys := keys + found;
        disks := disks - {disk};
      }
      tables := tables - {table};
    }
    CollectedIffNamed(m);
  }

  /** A key is protected by an entry equal to it, or by an entry ending in a slash that it lives under. */
  predicate IsKeyProtected(key: string, protected: set<string>) {
    || key in protected
    || exists entry :: entry in protected && Covers(entry, key)
  }

  predicate Covers(entry: string, key: string) {
    |entry| > 0 && entry[|entry| - 1] == '/' && entry <= key
  }

  // Protection spelled out: the key is an entry, or lies somewhere below a directory that is one.
  lemma ProtectedIff(key: string, entries: set<string>)
    ensures IsKeyProtected(key, entries)
       <==> key in entries || exists dir, rest :: dir + "/" in entries && key == dir + "/" + rest
  {
    if entry :| entry in entries && Covers(entry, key) {
      var dir, rest := entry[..|entry| - 1], key[|entry|..];
      assert entry == dir + "/" && key == entry + rest;
    }
    if dir, rest :| dir + "/" in entries && key == dir + "/" + rest {
      assert dir + "/" <= key;
      assert Covers(dir + "/", key);
    }
  }

  /** The object an entry names, or any object below the directory it names. */
  ghost predicate BelongsTo(key: string, entry: string) {
    key == entry || exists dir, rest :: entry == dir + "/" && key == dir + "/" + rest
  }

  /** The object is part of what the manifest's parts are restored from. */
  ghost predicate Needs(m: Manifest, key: string) {
    exists t, d, i, e :: Names(m, t, d, i, e) && BelongsTo(key, e)
  }

  // Collecting and protecting keys covers exactly the objects the manifest needs.
  lemma NeedsIff(m: Manifest, key: string)
    ensures Needs(m, key) <==> IsKeyProtected(key, CollectedKeys(m))
  {
    CollectedIffNamed(m);
    ProtectedIff(key, CollectedKeys(m));
    if IsKeyProtected(key, CollectedKeys(m)) {
      var e := if key in CollectedKeys(m) then key else
        (var dir, rest :| dir + "/" in CollectedKeys(m) && key == dir + "/" + rest; dir + "/");
      assert BelongsTo(key, e) && e in CollectedKeys(m);
      var t, d, i :| Names(m, t, d, i, e);
      assert Needs(m, key);
    }
  }

  lemma FirstSlash(p: string, q: string, x: string, y: string)
    requires '/' !in p && '/' !in q && p + "/" + x == q + "/" + y
    ensures p == q
  {
    var s, t := p + "/" + x, q + "/" + y;
    assert s[|p|] == '/' && t[|q|] == '/';
    assert forall i :: 0 <= i < |p| ==> s[i] == p[i] && p[i] in p;
    assert forall i :: 0 <= i < |q| ==> t[i] == q[i] && q[i] in q;
    assert |p| == |q| && s[..|p|] == p && t[..|q|] == q;
  }

  // The directory of one part protects nothing of a sibling, even if the name of one starts the name of the other.
  lemma SiblingPartIsNotProtected(dir: string, part: string, sibling: string, rest: string)
    requires '/' !in part && '/' !in sibling
    ensures IsKeyProtected(dir + "/" + sibling + "/" + rest, {dir + "/" + part + "/"}) <==> sibling == part
  {
    var key, entry := dir + "/" + sibling + "/" + rest, dir + "/" + part + "/";
    if sibling == part {
      assert Covers(entry, key);
    } else {
      var d := dir + "/";
      if entry <= key {
        var below := key[|entry|..];
        assert key == entry + below;
        assert key[|d|..] == sibling + "/" + rest && key[|d|..] == part + "/" + below;
        FirstSlash(sibling, part, rest, below);
      }
    }
  }

  lemma ProtectionIsMonotone(key: string, few: set<string>, many: set<string>)
    requires few <= many && IsKeyProtected(key, few)
    ensures IsKeyProtected(key, many)
  {
  }

  /** The backup a part says it was carried from. */
  function CarriedFrom(part: Part): Option<string> {
    if CARRIED <= part.source then Some(part.source[|CARRIED|..]) else None
  }

  /** The backups a manifest names as its incremental bases. */
  function IncrementalBases(m: Manifest): set<string> {
    set table, disk, i |
      table in m.tables && disk in m.tables[table] && 0 <= i < |m.tables[table][disk]|
      && CarriedFrom(m.tables[table][disk][i]).Some? :: CarriedFrom(m.tables[table][disk][i]).value
  }

  // A backup is named as a base exactly by "carried:" and its name in the source of some part.
  lemma BasesIff(m: Manifest, base: string)
    ensures base in IncrementalBases(m)
       <==> exists t, d, i :: At(m, t, d, i) && PartAt(m, t, d, i).source == "carried:" + base
  {
    if base in IncrementalBases(m) {
      var t, d, i :| t in m.tables && d in m.tables[t] && 0 <= i < |m.tables[t][d]|
                     && CarriedFrom(m.tables[t][d][i]) == Some(base);
      assert At(m, t, d, i) && PartAt(m, t, d, i).source == "carried:" + base;
    }
    if t, d, i :| At(m, t, d, i) && PartAt(m, t, d, i).source == "carried:" + base {
      var source := PartAt(m, t, d, i).source;
      assert source[|CARRIED|..] == base;
      assert CarriedFrom(m.tables[t][d][i]) == Some(base);
    }
  }

  // -- incremental chains --

  /** Entry `i` has the name, and no later one does. */
  predicate LastNamed(parts: seq<Part>, name: string, i: int) {
    0 <= i < |parts| && parts[i].name == name && forall j :: i < j < |parts| ==> parts[j].name != name
  }

  /** The part of that name the base holds; when a name is listed twice the later entry wins. */
  function FindPart(parts: seq<Part>, name: string): (found: Option<Part>)
    ensures found.Some? ==> found.value in parts && found.value.name == name
    ensures found.None? <==> forall i :: 0 <= i < |parts| ==> parts[i].name != name
  {
    if parts == [] then None
    else if parts[|parts| - 1].name == name then Some(parts[|parts| - 1])
    else FindPart(parts[..|parts| - 1], name)
  }

  lemma {:induction false} FindPartFindsLast(parts: seq<Part>, name: string) returns (i: nat)
    requires FindPart(parts, name).Some?
    ensures LastNamed(parts, name, i) && FindPart(parts, name).value == parts[i]
  {
    if parts[|parts| - 1].name == name {
      i := |parts| - 1;
    } else {
      i := FindPartFindsLast(parts[..|parts| - 1], name);
    }
  }

  function BasePart(base: Manifest, table: string, disk: string, name: string): Option<Part> {
    if table in base.tables && disk in base.tables[table] then FindPart(base.tables[table][disk], name) else None
  }

  /** A part whose name and checksum match the base takes over the base's physical keys. */
  function Carry(part: Part, base: Manifest, table: string, disk: string): Part {
    match BasePart(base, table, disk, part.name)
    case Some(b) =>
      if b.crc == part.crc then part.(source := CARRIED + base.name, backupKey := b.backupKey, s3Objects := b.s3Objects)
      else part
    case None => part
  }

  function CarryParts(parts: seq<Part>, base: Manifest, table: string, disk: string): (r: seq<Part>)
    ensures |r| == |parts| && forall i :: 0 <= i < |parts| ==> r[i] == Carry(parts[i], base, table, disk)
  {
    seq(|parts|, i requires 0 <= i < |parts| => Carry(parts[i], base, table, disk))
  }

  function DiffParts(current: Manifest, base: Manifest): Manifest {
    current.(tables := map table | table in current.tables ::
      map disk | disk in current.tables[table] :: CarryParts(current.tables[table][disk], base, table, disk))
  }

  /** Entry `j` of the base is the one an entry of this name is compared with. */
  predicate Counterpart(base: Manifest, table: string, disk: string, name: string, j: int) {
    At(base, table, disk, j) && LastNamed(base.tables[table][disk], name, j)
  }

  ghost predicate Unchanged(base: Manifest, table: string, disk: string, part: Part) {
    exists j :: Counterpart(base, table, disk, part.name, j) && PartAt(base, table, disk, j).crc == part.crc
  }

  // Exactly the parts of which the base has one of the same name and checksum, on the same disk of the same table,
  // take over its keys; every other part stays as it is, and none comes or goes.
  lemma CarriedIff(current: Manifest, base: Manifest, t: string, d: string, i: int)
    ensures At(DiffParts(current, base), t, d, i) <==> At(current, t, d, i)
    ensures At(current, t, d, i) && !Unchanged(base, t, d, PartAt(current, t, d, i)) ==>
              PartAt(DiffParts(current, base), t, d, i) == PartAt(current, t, d, i)
    ensures At(current, t, d, i) && Unchanged(base, t, d, PartAt(current, t, d, i)) ==>
              exists j :: Counterpart(base, t, d, PartAt(current, t, d, i).name, j)
                && var p, b := PartAt(current, t, d, i), PartAt(base, t, d, j);
                   PartAt(DiffParts(current, base), t, d, i) ==
                   Part(p.name, p.crc, b.backupKey, "carried:" + base.name, b.s3Objects)
  {
    if At(current, t, d, i) {
      var p := PartAt(current, t, d, i);
      assert PartAt(DiffParts(current, base), t, d, i) == Carry(p, base, t, d);
      if BasePart(base, t, d, p.name).Some? {
        var j := FindPartFindsLast(base.tables[t][d], p.name);
        assert Counterpart(base, t, d, p.name, j);
      }
    }
  }

  /** What an upload does with a diffed manifest: carried parts keep their keys, the rest get keys of their own. */
  ghost predicate UploadedFrom(diffed: Manifest, done: Manifest) {
    && done.name == diffed.name
    && done.tables.Keys == diffed.tables.Keys
    && (forall t :: t in done.tables ==> done.tables[t].Keys == diffed.tables[t].Keys)
    && (forall t, d :: t in done.tables && d in done.tables[t] ==> |done.tables[t][d]| == |diffed.tables[t][d]|)
    && forall t, d, i :: At(done, t, d, i) ==>
         var p, q := PartAt(diffed, t, d, i), PartAt(done, t, d, i);
         q.source == p.source && q.name == p.name && q.crc == p.crc && (CARRIED <= p.source ==> q == p)
  }

  ghost predicate AllUploaded(m: Manifest) {
    forall t, d, i :: At(m, t, d, i) ==> PartAt(m, t, d, i).source == UPLOADED
  }

  predicate FollowsAt(p: Part, base: Manifest, t: string, d: string) {
    || p.source == UPLOADED
    || (&& BasePart(base, t, d, p.name).Some?
        && p.crc == BasePart(base, t, d, p.name).value.crc
        && p.backupKey == BasePart(base, t, d, p.name).value.backupKey
        && p.s3Objects == BasePart(base, t, d, p.name).value.s3Objects)
  }

  /** Every part was uploaded by this backup itself or carries the keys of the base's part of the same name and checksum. */
  ghost predicate Follows(m: Manifest, base: Manifest) {
    forall t, d, i :: At(m, t, d, i) ==> FollowsAt(PartAt(m, t, d, i), base, t, d)
  }

  /** A first full backup and any number of incrementals, each taken against the one before. */
  ghost predicate IsChain(chain: seq<Manifest>) {
    && |chain| > 0
    && AllUploaded(chain[0])
    && forall i :: 0 < i < |chain| ==> IncrementOf(chain[i], chain[i - 1])
  }

  ghost predicate IncrementOf(m: Manifest, base: Manifest) {
    exists current :: AllUploaded(current) && UploadedFrom(DiffParts(current, base), m)
  }

  lemma CarriedFollows(current: Manifest, base: Manifest, m: Manifest, t: string, d: string, i: int)
    requires AllUploaded(current) && UploadedFrom(DiffParts(current, base), m) && At(m, t, d, i)
    ensures FollowsAt(PartAt(m, t, d, i), base, t, d)
  {
    var diffed := DiffParts(current, base);
    assert At(diffed, t, d, i) && At(current, t, d, i);
    assert PartAt(diffed, t, d, i) == Carry(PartAt(current, t, d, i), base, t, d);
    assert PartAt(current, t, d, i).source == UPLOADED;
    assert CARRIED <= CARRIED + base.name;
  }

  lemma IncrementFollowsBase(m: Manifest, base: Manifest)
    requires IncrementOf(m, base)
    ensures Follows(m, base)
  {
    var current :| AllUploaded(current) && UploadedFrom(DiffParts(current, base), m);
    forall t, d, i | At(m, t, d, i)
      ensures FollowsAt(PartAt(m, t, d, i), base, t, d)
    {
      CarriedFollows(current, base, m, t, d, i);
    }
  }

  /** Where a part's data really lives: the part of the backup in the chain that uploaded it. */
  ghost function Origin(chain: seq<Manifest>, k: nat, table: string, disk: string, part: Part): Part
    requires k < |chain|
    decreases k
  {
    if part.source == UPLOADED || k == 0 then part
    else match BasePart(chain[k - 1], table, disk, part.name)
      case None => part
      case Some(b) => Origin(chain, k - 1, table, disk, b)
  }

  lemma BasePartIsAt(base: Manifest, t: string, d: string, name: string) returns (i: int)
    requires BasePart(base, t, d, name).Some?
    ensures At(base, t, d, i) && PartAt(base, t, d, i) == BasePart(base, t, d, name).value
  {
    i := FindPartFindsLast(base.tables[t][d], name);
  }

  /** The part names the keys under which its data was uploaded, and has the uploaded part's name and checksum. */
  ghost predicate NamesOrigin(chain: seq<Manifest>, k: nat, t: string, d: string, p: Part)
    requires k < |chain|
  {
    var o := Origin(chain, k, t, d, p);
    o.source == UPLOADED && NamedKeys(o) == NamedKeys(p) && o.name == p.name && o.crc == p.crc
  }

  lemma UploadedNamesOrigin(chain: seq<Manifest>, k: nat, t: string, d: string, p: Part)
    requires k < |chain| && p.source == UPLOADED
    ensures NamesOrigin(chain, k, t, d, p)
  {
  }

  lemma CarriedNamesOrigin(chain: seq<Manifest>, k: nat, t: string, d: string, p: Part, b: Part)
    requires 0 < k < |chain| && FollowsAt(p, chain[k - 1], t, d) && p.source != UPLOADED
    requires BasePart(chain[k - 1], t, d, p.name) == Some(b) && NamesOrigin(chain, k - 1, t, d, b)
    ensures NamesOrigin(chain, k, t, d, p)
  {
  }

  /** The part was uploaded by its backup, or it follows the backup before in the chain. */
  predicate Grounded(chain: seq<Manifest>, k: nat, t: string, d: string, p: Part)
    requires k < |chain|
  {
    p.source == UPLOADED || (k > 0 && FollowsAt(p, chain[k - 1], t, d))
  }

  ghost predicate AllGrounded(chain: seq<Manifest>) {
    forall k, t, d, i :: 0 <= k < |chain| && At(chain[k], t, d, i) ==> Grounded(chain, k, t, d, PartAt(chain[k], t, d, i))
  }

  lemma ChainIsGrounded(chain: seq<Manifest>)
    requires IsChain(chain)
    ensures AllGrounded(chain)
  {
    forall k, t, d, i | 0 <= k < |chain| && At(chain[k], t, d, i)
      ensures Grounded(chain, k, t, d, PartAt(chain[k], t, d, i))
    {
      if k > 0 {
        IncrementFollowsBase(chain[k], chain[k - 1]);
      }
    }
  }

  lemma {:induction false} AllNameOrigin(chain: seq<Manifest>, k: nat, t: string, d: string, i: int)
    requires AllGrounded(chain) && k < |chain| && At(chain[k], t, d, i)
    ensures NamesOrigin(chain, k, t, d, PartAt(chain[k], t, d, i))
    decreases k
  {
    var p := PartAt(chain[k], t, d, i);
    assert Grounded(chain, k, t, d, p);
    if p.source == UPLOADED {
      UploadedNamesOrigin(chain, k, t, d, p);
    } else {
      var j := BasePartIsAt(chain[k - 1], t, d, p.name);
      AllNameOrigin(chain, k - 1, t, d, j);
      CarriedNamesOrigin(chain, k, t, d, p, PartAt(chain[k - 1], t, d, j));
    }
  }

  // However long the chain, a part names the keys its data was first uploaded to, under its name and checksum.
  lemma PartsNamePhysicalKeys(chain: seq<Manifest>, k: nat, t: string, d: string, i: int)
    requires IsChain(chain) && k < |chain| && At(chain[k], t, d, i)
    ensures var p := PartAt(chain[k], t, d, i);
            && Origin(chain, k, t, d, p).source == UPLOADED
            && NamedKeys(Origin(chain, k, t, d, p)) == NamedKeys(p)
            && Origin(chain, k, t, d, p).name == p.name && Origin(chain, k, t, d, p).crc == p.crc
  {
    ChainIsGrounded(chain);
    AllNameOrigin(chain, k, t, d, i);
  }

  /** The keys a restore of the k-th backup reads, found by walking every part back to its upload. */
  ghost function RestoreKeys(chain: seq<Manifest>, k: nat): iset<string>
    requires k < |chain|
  {
    iset t, d, i, key | At(chain[k], t, d, i) && key in NamedKeys(Origin(chain, k, t, d, PartAt(chain[k], t, d, i))) :: key
  }

  // A manifest on its own protects all a restore needs, whatever became of the backups in between.
  lemma ManifestAloneProtectsRestore(chain: seq<Manifest>, k: nat)
    requires IsChain(chain) && k < |chain|
    ensures forall key :: key in RestoreKeys(chain, k) <==> key in CollectedKeys(chain[k])
    ensures forall key :: key in RestoreKeys(chain, k) ==> IsKeyProtected(key, CollectedKeys(chain[k]))
    ensures forall t, d, i :: At(chain[k], t, d, i) ==>
              Origin(chain, k, t, d, PartAt(chain[k], t, d, i)).crc == PartAt(chain[k], t, d, i).crc
  {
    forall t, d, i | At(chain[k], t, d, i)
      ensures NamedKeys(Origin(chain, k, t, d, PartAt(chain[k], t, d, i))) == NamedKeys(PartAt(chain[k], t, d, i))
      ensures Origin(chain, k, t, d, PartAt(chain[k], t, d, i)).crc == PartAt(chain[k], t, d, i).crc
    {
      PartsNamePhysicalKeys(chain, k, t, d, i);
    }
    CollectedIffNamed(chain[k]);
    forall key
      ensures key in RestoreKeys(chain, k) <==> key in CollectedKeys(chain[k])
    {
      if key in RestoreKeys(chain, k) {
        var t, d, i :|
          At(chain[k], t, d, i) && key in NamedKeys(Origin(chain, k, t, d, PartAt(chain[k], t, d, i)));
        assert Names(chain[k], t, d, i, key);
      }
      if key in CollectedKeys(chain[k]) {
        var t, d, i :| Names(chain[k], t, d, i, key);
        assert key in NamedKeys(Origin(chain, k, t, d, PartAt(chain[k], t, d, i)));
      }
    }
  }
}
