/**
 Object keys on their way through a backup: stored on the source disk, recorded relative to it, copied, and
 written into the metadata of the restored part.
 */
module ObjectKeys {
  import opened Text
  import opened ObjectDisk

  /** The prefix without the slashes around it. */
  function Core(prefix: string): string {
    TrimBoth(prefix, IsSlash)
  }

  function JoinDiskKey(prefix: string, relative: string): string {
    if Core(prefix) == [] then relative else Core(prefix) + ['/'] + relative
  }

  predicate Carries(key: string, prefix: string) {
    Core(prefix) != [] && Core(prefix) + ['/'] <= key
  }

  function DiskRelativeKey(stored: string, prefix: string): string {
    if Carries(stored, prefix) then stored[|Core(prefix)| + 1..] else stored
  }

  function UploadSourceKey(relative: string, sourcePrefix: string): string {
    JoinDiskKey(sourcePrefix, relative)
  }

  /** The object ClickHouse reads: a version 5 key is complete, an earlier one is joined with the disk's prefix. */
  function ReadKey(version: nat, stored: string, diskPrefix: string): string {
    if version >= 5 then stored else JoinDiskKey(diskPrefix, stored)
  }

  // A prefix, however many slashes surround it, is put before a key and taken off again with one slash; keys that do not
  // lie under it stay as they are.
  lemma PrefixComesOff(left: string, prefix: string, right: string, key: string)
    requires Only(left, IsSlash) && Only(right, IsSlash) && Bare(prefix, IsSlash)
    ensures var written := left + prefix + right;
            if prefix == [] then JoinDiskKey(written, key) == key && DiskRelativeKey(key, written) == key
            else
              && JoinDiskKey(written, key) == prefix + ['/'] + key
              && DiskRelativeKey(prefix + ['/'] + key, written) == key
              && (!(prefix + ['/'] <= key) ==> DiskRelativeKey(key, written) == key)
  {
    TrimTakesOff(left, prefix, right, IsSlash);
    assert prefix + ['/'] <= prefix + ['/'] + key;
    assert (prefix + ['/'] + key)[|prefix| + 1..] == key;
  }

  // The key an upload copies from is the key ClickHouse reads if and only if version 5 keys lie under the disk's
  // prefix and relative keys do not themselves start with it.
  lemma SourceKeyIsReadKeyIff(version: nat, stored: string, prefix: string)
    ensures UploadSourceKey(DiskRelativeKey(stored, prefix), prefix) == ReadKey(version, stored, prefix)
            <==> Core(prefix) == [] || (Carries(stored, prefix) <==> version >= 5)
  {
    var p := Core(prefix);
    if Carries(stored, prefix) {
      assert p + ['/'] + stored[|p| + 1..] == stored;
      assert |JoinDiskKey(prefix, stored)| == |p| + 1 + |stored|;
    } else if p != [] {
      assert |JoinDiskKey(prefix, stored)| == |p| + 1 + |stored|;
    }
  }

  datatype RestoreObjectKeys = RestoreObjectKeys(copyDestRelativeKey: string, metadataKey: string)

  function RestoreKeys(version: nat, relative: string, uuidPrefix: string, destPrefix: string): RestoreObjectKeys {
    var dest := TrimEnd(uuidPrefix, IsSlash) + ['/'] + relative;
    RestoreObjectKeys(dest, if version >= 5 then JoinDiskKey(destPrefix, dest) else dest)
  }

  /** The complete key an object is copied to. */
  function CopyDestination(relative: string, uuidPrefix: string, destPrefix: string): string {
    JoinDiskKey(destPrefix, RestoreKeys(2, relative, uuidPrefix, destPrefix).copyDestRelativeKey)
  }

  /** Where the objects of one restored table lie: below its UUID directory on the destination disk. */
  function TablePrefix(uuidPrefix: string, destPrefix: string): string {
    (if Core(destPrefix) == [] then [] else Core(destPrefix) + ['/']) + (TrimEnd(uuidPrefix, IsSlash) + ['/'])
  }

  // Every object is copied below its table's prefix, under its relative key.
  lemma DestinationIsUnderTable(relative: string, uuidPrefix: string, destPrefix: string)
    ensures CopyDestination(relative, uuidPrefix, destPrefix) == TablePrefix(uuidPrefix, destPrefix) + relative
  {
    var u := TrimEnd(uuidPrefix, IsSlash) + ['/'];
    if Core(destPrefix) == [] {
      assert [] + u == u;
    } else {
      assert Core(destPrefix) + ['/'] + (u + relative) == (Core(destPrefix) + ['/'] + u) + relative;
    }
  }

  ghost predicate ShareADestination(u: string, v: string, destPrefix: string) {
    exists a, b :: CopyDestination(a, u, destPrefix) == CopyDestination(b, v, destPrefix)
  }

  lemma NestedTablesShare(u: string, v: string, destPrefix: string)
    requires TrimEnd(u, IsSlash) + ['/'] <= TrimEnd(v, IsSlash) + ['/']
    ensures ShareADestination(u, v, destPrefix) && ShareADestination(v, u, destPrefix)
  {
    var x, y := TrimEnd(u, IsSlash) + ['/'], TrimEnd(v, IsSlash) + ['/'];
    DestinationIsUnderTable(y[|x|..], u, destPrefix);
    DestinationIsUnderTable([], v, destPrefix);
    assert x + y[|x|..] == y == y + [];
    assert TablePrefix(u, destPrefix) + y[|x|..] == TablePrefix(v, destPrefix) + [];
    assert CopyDestination(y[|x|..], u, destPrefix) == CopyDestination([], v, destPrefix);
  }

  // Whatever their relative keys, objects of two tables never meet, exactly if neither table's UUID directory lies
  // within the other's.
  lemma TablesShareIff(u: string, v: string, destPrefix: string)
    ensures ShareADestination(u, v, destPrefix) <==>
            var x, y := TrimEnd(u, IsSlash) + ['/'], TrimEnd(v, IsSlash) + ['/'];
            x <= y || y <= x
  {
    var x, y := TrimEnd(u, IsSlash) + ['/'], TrimEnd(v, IsSlash) + ['/'];
    if x <= y {
      NestedTablesShare(u, v, destPrefix);
    } else if y <= x {
      NestedTablesShare(v, u, destPrefix);
    }
    if a, b :| CopyDestination(a, u, destPrefix) == CopyDestination(b, v, destPrefix) {
      DestinationIsUnderTable(a, u, destPrefix);
      DestinationIsUnderTable(b, v, destPrefix);
      var d := if Core(destPrefix) == [] then [] else Core(destPrefix) + ['/'];
      SameTail(d, x, a, y, b);
    }
  }

  lemma SameTail(d: string, x: string, a: string, y: string, b: string)
    requires d + x + a == d + y + b
    ensures x <= y || y <= x
  {
    assert (d + x + a)[|d|..] == x + a && (d + y + b)[|d|..] == y + b;
    assert x <= x + a && y <= x + a;
  }

  lemma DestinationsAreDistinct(a: string, b: string, uuidPrefix: string, destPrefix: string)
    requires a != b
    ensures CopyDestination(a, uuidPrefix, destPrefix) != CopyDestination(b, uuidPrefix, destPrefix)
  {
    var u, d := TrimEnd(uuidPrefix, IsSlash) + ['/'], Core(destPrefix) + ['/'];
    assert (u + a)[|u|..] == a && (u + b)[|u|..] == b;
    assert (d + (u + a))[|d|..] == u + a && (d + (u + b))[|d|..] == u + b;
  }

  // -- recovering disk-relative keys from the manifest --

  /** The stored key ends with the manifest key on a path-component boundary. */
  predicate EndsWithKey(stored: string, key: string) {
    || stored == key
    || (|key| < |stored| && stored[|stored| - |key|..] == key && stored[|stored| - |key| - 1] == '/')
  }

  lemma EndsWithKeyIff(stored: string, key: string)
    ensures EndsWithKey(stored, key) <==> stored == key || exists dir :: stored == dir + (['/'] + key)
  {
    if EndsWithKey(stored, key) && stored != key {
      var n := |stored| - |key| - 1;
      assert stored == stored[..n] + (['/'] + key);
    }
    if dir :| stored == dir + (['/'] + key) {
      assert stored[|dir|] == '/' && stored[|dir| + 1..] == key;
    }
  }

  function ByKey(o: ObjectRef): ObjectRef -> bool {
    (x: ObjectRef) => EndsWithKey(o.key, x.key)
  }

  function BySize(o: ObjectRef): ObjectRef -> bool {
    (x: ObjectRef) => x.size == o.size
  }

  function Select(xs: seq<ObjectRef>, p: ObjectRef -> bool): seq<ObjectRef> {
    if xs == [] then [] else (if p(xs[0]) then [xs[0]] else []) + Select(xs[1..], p)
  }

  datatype Resolution<+T> = Resolved(value: T) | NoMatch(key: string) | Ambiguous(key: string, candidates: nat)

  /** Size decides only between several candidates. */
  function Resolve(o: ObjectRef, manifest: seq<ObjectRef>): Resolution<string> {
    var byKey := Select(manifest, ByKey(o));
    var candidates := if |byKey| > 1 then Select(byKey, BySize(o)) else byKey;
    if |candidates| == 1 then Resolved(candidates[0].key)
    else if candidates == [] then NoMatch(o.key)
    else Ambiguous(o.key, |candidates|)
  }

  /** The first `n` objects with their keys resolved, or the first failure. */
  function ResolveFirst(objects: seq<ObjectRef>, manifest: seq<ObjectRef>, n: nat): (r: Resolution<seq<ObjectRef>>)
    requires n <= |objects|
    ensures r.Resolved? ==> |r.value| == n
  {
    if n == 0 then Resolved([])
    else
      match ResolveFirst(objects, manifest, n - 1)
      case Resolved(before) =>
        (match Resolve(objects[n - 1], manifest)
         case Resolved(key) => Resolved(before + [objects[n - 1].(key := key)])
         case NoMatch(key) => NoMatch(key)
         case Ambiguous(key, c) => Ambiguous(key, c))
      case failure => failure
  }

  function ToDiskRelativeKeys(m: Metadata, manifest: seq<ObjectRef>): Resolution<Metadata> {
    if m.version < 5 then Resolved(m)
    else
      match ResolveFirst(m.objects, manifest, |m.objects|)
      case Resolved(objects) => Resolved(m.(objects := objects))
      case NoMatch(key) => NoMatch(key)
      case Ambiguous(key, c) => Ambiguous(key, c)
  }

  lemma {:induction false} UnresolvedSticks(objects: seq<ObjectRef>, manifest: seq<ObjectRef>, i: nat, n: nat)
    requires i <= n <= |objects| && !ResolveFirst(objects, manifest, i).Resolved?
    ensures ResolveFirst(objects, manifest, n) == ResolveFirst(objects, manifest, i)
  {
    if i < n {
      UnresolvedSticks(objects, manifest, i, n - 1);
    }
  }

  method ResolveKey(o: ObjectRef, manifest: seq<ObjectRef>) returns (r: Resolution<string>)
    ensures r == Resolve(o, manifest)
  {
    var candidates := Select(manifest, ByKey(o));
    if |candidates| > 1 {
      candidates := Select(candidates, BySize(o));
    }
    if |candidates| == 1 {
      return Resolved(candidates[0].key);
    } else if |candidates| == 0 {
      return NoMatch(o.key);
    } else {
      return Ambiguous(o.key, |candidates|);
    }
  }

  lemma ResolveNext(objects: seq<ObjectRef>, manifest: seq<ObjectRef>, i: nat)
    requires i < |objects| && ResolveFirst(objects, manifest, i).Resolved?
    ensures var one, all := Resolve(objects[i], manifest), ResolveFirst(objects, manifest, i + 1);
            match one
            case Resolved(key) =>
              all == Resolved(ResolveFirst(objects, manifest, i).value + [objects[i].(key := key)])
            case NoMatch(key) => all == NoMatch(key)
            case Ambiguous(key, c) => all == Ambiguous(key, c)
  {
  }

  lemma UpdateNext(objects: seq<ObjectRef>, i: nat, o: ObjectRef)
    requires i < |objects|
    ensures objects[i := o][..i + 1] == objects[..i] + [o]
  {
  }

  /** Rewrites the keys one by one, and gives up at the first that cannot be resolved. */
  method RestateKeys(m: Metadata, manifest: seq<ObjectRef>) returns (r: Resolution<Metadata>)
    ensures r == ToDiskRelativeKeys(m, manifest)
  {
    if m.version < 5 {
      return Resolved(m);
    }
    var objects := m.objects;
    for i := 0 to |objects|
      invariant |objects| == |m.objects| && forall k :: i <= k < |objects| ==> objects[k] == m.objects[k]
      invariant ResolveFirst(m.objects, manifest, i) == Resolved(objects[..i])
    {
      var key := ResolveKey(objects[i], manifest);
      ResolveNext(m.objects, manifest, i);
      if !key.Resolved? {
        UnresolvedSticks(m.objects, manifest, i + 1, |m.objects|);
        return if key.NoMatch? then NoMatch(key.key) else Ambiguous(key.key, key.candidates);
      }
      UpdateNext(objects, i, objects[i].(key := key.value));
      objects := objects[i := objects[i].(key := key.value)];
    }
    assert objects[..|objects|] == objects;
    return Resolved(m.(objects := objects));
  }

  lemma {:induction false} SelectedIff(xs: seq<ObjectRef>, p: ObjectRef -> bool, x: ObjectRef)
    ensures x in Select(xs, p) <==> x in xs && p(x)
  {
    if xs != [] {
      SelectedIff(xs[1..], p, x);
    }
  }

  /** The entry at `i` is the only one that fits the stored object in key and size. */
  predicate OnlyFit(o: ObjectRef, manifest: seq<ObjectRef>, i: nat) {
    i < |manifest| && forall j :: 0 <= j < |manifest| ==> (Fits(o, manifest[j]) <==> j == i)
  }

  predicate Fits(o: ObjectRef, x: ObjectRef) {
    EndsWithKey(o.key, x.key) && x.size == o.size
  }

  function Fitting(o: ObjectRef, manifest: seq<ObjectRef>): seq<ObjectRef> {
    Select(Select(manifest, ByKey(o)), BySize(o))
  }

  lemma FittingIff(o: ObjectRef, manifest: seq<ObjectRef>, x: ObjectRef)
    ensures x in Fitting(o, manifest) <==> x in manifest && Fits(o, x)
  {
    SelectedIff(manifest, ByKey(o), x);
    SelectedIff(Select(manifest, ByKey(o)), BySize(o), x);
  }

  lemma FittingCons(o: ObjectRef, manifest: seq<ObjectRef>)
    requires manifest != []
    ensures Fitting(o, manifest) == (if Fits(o, manifest[0]) then [manifest[0]] else []) + Fitting(o, manifest[1..])
  {
    var rest := Select(manifest[1..], ByKey(o));
    if ByKey(o)(manifest[0]) {
      assert ([manifest[0]] + rest)[1..] == rest;
    } else {
      assert [] + rest == rest;
    }
  }

  lemma OnlyFitShifts(o: ObjectRef, manifest: seq<ObjectRef>, i: nat)
    requires manifest != [] && !Fits(o, manifest[0])
    ensures OnlyFit(o, manifest, i + 1) <==> OnlyFit(o, manifest[1..], i)
  {
    assert OnlyFit(o, manifest[1..], i) ==> forall j :: 0 < j < |manifest| ==> manifest[j] == manifest[1..][j - 1];
  }

  lemma {:induction false} OneFittingIff(o: ObjectRef, manifest: seq<ObjectRef>)
    ensures |Fitting(o, manifest)| == 1 <==> exists i :: OnlyFit(o, manifest, i)
  {
    if manifest != [] {
      var rest := manifest[1..];
      FittingCons(o, manifest);
      OneFittingIff(o, rest);
      if Fits(o, manifest[0]) {
        forall j | 0 < j < |manifest|
          ensures manifest[j] in Fitting(o, rest) <==> Fits(o, manifest[j])
        {
          assert manifest[j] == rest[j - 1];
          FittingIff(o, rest, manifest[j]);
        }
        if Fitting(o, rest) == [] {
          assert OnlyFit(o, manifest, 0);
        } else {
          FittingIff(o, rest, Fitting(o, rest)[0]);
        }
      } else {
        if i: nat :| OnlyFit(o, manifest, i) {
          OnlyFitShifts(o, manifest, i - 1);
        }
        if i: nat :| OnlyFit(o, rest, i) {
          OnlyFitShifts(o, manifest, i);
        }
      }
    }
  }

  /** The entry at `i` is the only one whose key the stored one ends with. */
  predicate OnlyByKey(o: ObjectRef, manifest: seq<ObjectRef>, i: nat) {
    i < |manifest| && forall j :: 0 <= j < |manifest| ==> (EndsWithKey(o.key, manifest[j].key) <==> j == i)
  }

  lemma OnlyByKeyShifts(o: ObjectRef, manifest: seq<ObjectRef>, i: nat)
    requires manifest != [] && !EndsWithKey(o.key, manifest[0].key)
    ensures OnlyByKey(o, manifest, i + 1) <==> OnlyByKey(o, manifest[1..], i)
  {
    assert OnlyByKey(o, manifest[1..], i) ==> forall j :: 0 < j < |manifest| ==> manifest[j] == manifest[1..][j - 1];
  }

  lemma {:induction false} OneByKeyIff(o: ObjectRef, manifest: seq<ObjectRef>)
    ensures |Select(manifest, ByKey(o))| == 1 <==> exists i :: OnlyByKey(o, manifest, i)
  {
    if manifest != [] {
      var rest := manifest[1..];
      OneByKeyIff(o, rest);
      if EndsWithKey(o.key, manifest[0].key) {
        forall j | 0 < j < |manifest|
          ensures manifest[j] in Select(rest, ByKey(o)) <==> EndsWithKey(o.key, manifest[j].key)
        {
          assert manifest[j] == rest[j - 1];
          SelectedIff(rest, ByKey(o), manifest[j]);
        }
        if Select(rest, ByKey(o)) == [] {
          assert OnlyByKey(o, manifest, 0);
        } else {
          SelectedIff(rest, ByKey(o), Select(rest, ByKey(o))[0]);
        }
      } else {
        if i: nat :| OnlyByKey(o, manifest, i) {
          OnlyByKeyShifts(o, manifest, i - 1);
        }
        if i: nat :| OnlyByKey(o, rest, i) {
          OnlyByKeyShifts(o, manifest, i);
        }
      }
    }
  }

  // A key is resolved exactly if one entry alone fits it, or one alone fits it together with its size: the size is
  // not looked at where the key decides.
  lemma ResolvesIff(o: ObjectRef, manifest: seq<ObjectRef>)
    ensures Resolve(o, manifest).Resolved?
       <==> (exists i :: OnlyByKey(o, manifest, i)) || (exists i :: OnlyFit(o, manifest, i))
    ensures Resolve(o, manifest).NoMatch?
       <==> !(exists i :: OnlyByKey(o, manifest, i)) && forall x :: x in manifest ==> !Fits(o, x)
    ensures Resolve(o, manifest).Resolved? ==>
              exists x :: x in manifest && x.key == Resolve(o, manifest).value && EndsWithKey(o.key, x.key)
  {
    var byKey := Select(manifest, ByKey(o));
    OneByKeyIff(o, manifest);
    OneFittingIff(o, manifest);
    forall x
      ensures x in byKey <==> x in manifest && EndsWithKey(o.key, x.key)
      ensures x in Fitting(o, manifest) <==> x in manifest && Fits(o, x)
    {
      SelectedIff(manifest, ByKey(o), x);
      FittingIff(o, manifest, x);
    }
    if |byKey| == 1 {
      assert byKey[0] in byKey;
    } else if Fitting(o, manifest) != [] {
      assert Fitting(o, manifest)[0] in Fitting(o, manifest);
    }
  }

  lemma OwnEntryFits(o: ObjectRef, sourcePrefix: string)
    ensures Fits(o, ObjectRef(DiskRelativeKey(o.key, sourcePrefix), o.size))
  {
  }

  // With the object's own entry in the manifest, a key is resolved exactly when no other entry fits it, and then
  // to the disk-relative key, although the source prefix is not known.
  lemma ResolvesToRelativeKey(o: ObjectRef, manifest: seq<ObjectRef>, sourcePrefix: string)
    requires ObjectRef(DiskRelativeKey(o.key, sourcePrefix), o.size) in manifest
    ensures Resolve(o, manifest).Resolved? <==> exists i :: OnlyFit(o, manifest, i)
    ensures Resolve(o, manifest).Resolved? ==> Resolve(o, manifest).value == DiskRelativeKey(o.key, sourcePrefix)
  {
    var own := ObjectRef(DiskRelativeKey(o.key, sourcePrefix), o.size);
    var byKey := Select(manifest, ByKey(o));
    OwnEntryFits(o, sourcePrefix);
    OneFittingIff(o, manifest);
    FittingIff(o, manifest, own);
    SelectedIff(manifest, ByKey(o), own);
    if |byKey| == 1 {
      assert byKey == [own];
      assert Select(byKey[1..], BySize(o)) == [];
      assert Fitting(o, manifest) == [own];
    }
  }

  // -- rewriting --

  function RewriteObject(version: nat, o: ObjectRef, uuidPrefix: string, destPrefix: string): ObjectRef {
    o.(key := RestoreKeys(version, o.key, uuidPrefix, destPrefix).metadataKey)
  }

  /** The restored file: new keys, no references, writable. */
  function Rewritten(m: Metadata, uuidPrefix: string, destPrefix: string): Metadata {
    m.(objects := seq(|m.objects|, i requires 0 <= i < |m.objects| =>
                        RewriteObject(m.version, m.objects[i], uuidPrefix, destPrefix)),
       refCount := 0, readOnly := false)
  }

  method RewriteMetadata(m: Metadata, uuidPrefix: string, destPrefix: string) returns (result: string)
    ensures result == Serialize(Rewritten(m, uuidPrefix, destPrefix))
  {
    ghost var t := Rewritten(m, uuidPrefix, destPrefix);
    result := Decimal(m.version) + ['\n'];
    result := result + Decimal(|m.objects|) + ['\t'] + Decimal(m.totalSize) + ['\n'];
    ghost var lines := Header(t);
    HeaderText(t);
    for i := 0 to |m.objects|
      invariant lines == Header(t) + ObjectLines(t.objects[..i])
      invariant result == Unlines(lines)
    {
      var keys := RestoreKeys(m.version, m.objects[i].key, uuidPrefix, destPrefix);
      result := result + Decimal(m.objects[i].size) + ['\t'] + keys.metadataKey + ['\n'];
      AppendLine(lines, ObjectLine(t.objects[i]), []);
      ObjectLinesAppend(t.objects[..i], t.objects[i]);
      assert t.objects[..i + 1] == t.objects[..i] + [t.objects[i]];
      lines := lines + [ObjectLine(t.objects[i])];
    }
    assert t.objects[..|t.objects|] == t.objects;
    var trailer := m.(objects := [], refCount := 0, readOnly := false);
    result := AppendTrailer(result, lines, trailer);
    assert Trailer(trailer) == Trailer(t);
  }

  /** A key prefix that survives the line format: no tab or newline, and no whitespace at its start. */
  predicate Printable(prefix: string) {
    Plain(prefix) && (prefix != [] ==> !IsWhitespace(prefix[0]))
  }

  /** The prefixes as they are written, without the slashes that are trimmed off. */
  predicate PrintablePrefixes(uuidPrefix: string, destPrefix: string) {
    Printable(TrimEnd(uuidPrefix, IsSlash)) && Printable(Core(destPrefix))
  }

  lemma RelativeKeyIsPiece(stored: string, prefix: string)
    requires Plain(stored) && Bare(stored, IsWhitespace)
    ensures var k := DiskRelativeKey(stored, prefix);
            Plain(k) && (k != [] ==> !IsWhitespace(k[|k| - 1]))
  {
  }

  lemma JoinedIsBare(prefix: string, relative: string)
    requires Printable(prefix) && Plain(relative)
    requires relative != [] ==> !IsWhitespace(relative[|relative| - 1])
    ensures Plain(prefix + ['/'] + relative) && Bare(prefix + ['/'] + relative, IsWhitespace)
  {
  }

  lemma RewrittenKeyIsWellFormed(version: nat, stored: ObjectRef, sourcePrefix: string, uuidPrefix: string,
                                 destPrefix: string)
    requires WellFormedObject(stored) && PrintablePrefixes(uuidPrefix, destPrefix)
    ensures var o := stored.(key := DiskRelativeKey(stored.key, sourcePrefix));
            WellFormedObject(RewriteObject(version, o, uuidPrefix, destPrefix))
  {
    var k, u := DiskRelativeKey(stored.key, sourcePrefix), TrimEnd(uuidPrefix, IsSlash);
    RelativeKeyIsPiece(stored.key, sourcePrefix);
    JoinedIsBare(u, k);
    JoinedIsBare(Core(destPrefix), u + ['/'] + k);
  }

  /** Each object of the file has its entry in the part's manifest, as recorded when the part was collected. */
  predicate RecordedIn(m: Metadata, manifest: seq<ObjectRef>, sourcePrefix: string) {
    forall i :: 0 <= i < |m.objects| ==>
      ObjectRef(DiskRelativeKey(m.objects[i].key, sourcePrefix), m.objects[i].size) in manifest
  }

  /** Only version 5 keys carry the prefix of the source disk. */
  predicate RelativeKeysAreRelative(m: Metadata, sourcePrefix: string) {
    m.version < 5 ==> forall i :: 0 <= i < |m.objects| ==> !Carries(m.objects[i].key, sourcePrefix)
  }

  lemma {:induction false} ResolvedFirst(m: Metadata, manifest: seq<ObjectRef>, sourcePrefix: string, n: nat, i: nat)
    requires RecordedIn(m, manifest, sourcePrefix) && i < n <= |m.objects|
    requires ResolveFirst(m.objects, manifest, n).Resolved?
    ensures ResolveFirst(m.objects, manifest, n).value[i] ==
            m.objects[i].(key := DiskRelativeKey(m.objects[i].key, sourcePrefix))
  {
    ResolvesToRelativeKey(m.objects[n - 1], manifest, sourcePrefix);
    if i < n - 1 {
      ResolvedFirst(m, manifest, sourcePrefix, n - 1, i);
    }
  }

  lemma RestatedKeys(m: Metadata, manifest: seq<ObjectRef>, sourcePrefix: string)
    requires RecordedIn(m, manifest, sourcePrefix) && RelativeKeysAreRelative(m, sourcePrefix)
    requires ToDiskRelativeKeys(m, manifest).Resolved?
    ensures var r := ToDiskRelativeKeys(m, manifest).value;
            && r == m.(objects := r.objects) && |r.objects| == |m.objects|
            && forall i :: 0 <= i < |m.objects| ==>
                 r.objects[i] == m.objects[i].(key := DiskRelativeKey(m.objects[i].key, sourcePrefix))
  {
    if m.version >= 5 {
      forall i | 0 <= i < |m.objects|
        ensures ResolveFirst(m.objects, manifest, |m.objects|).value[i] ==
                m.objects[i].(key := DiskRelativeKey(m.objects[i].key, sourcePrefix))
      {
        ResolvedFirst(m, manifest, sourcePrefix, |m.objects|, i);
      }
    }
  }

  /** `r` describes the objects of `m` after they have been copied. */
  predicate DescribesCopies(m: Metadata, r: Metadata, sourcePrefix: string, uuidPrefix: string, destPrefix: string) {
    && r.version == m.version && r.totalSize == m.totalSize && r.inlineData == m.inlineData
    && r.refCount == 0 && !r.readOnly
    && |r.objects| == |m.objects|
    && forall i :: 0 <= i < |m.objects| ==>
         && r.objects[i].size == m.objects[i].size
         && var relative := DiskRelativeKey(m.objects[i].key, sourcePrefix);
            && ReadKey(r.version, r.objects[i].key, destPrefix) == CopyDestination(relative, uuidPrefix, destPrefix)
            && CopyDestination(relative, uuidPrefix, destPrefix) == TablePrefix(uuidPrefix, destPrefix) + relative
  }

  lemma RewrittenIsWellFormed(m: Metadata, restated: Metadata, sourcePrefix: string, uuidPrefix: string,
                              destPrefix: string)
    requires WellFormed(m) && PrintablePrefixes(uuidPrefix, destPrefix)
    requires restated == m.(objects := restated.objects) && |restated.objects| == |m.objects|
    requires forall i :: 0 <= i < |m.objects| ==>
               restated.objects[i] == m.objects[i].(key := DiskRelativeKey(m.objects[i].key, sourcePrefix))
    ensures WellFormed(Rewritten(restated, uuidPrefix, destPrefix))
    ensures DescribesCopies(m, Rewritten(restated, uuidPrefix, destPrefix), sourcePrefix, uuidPrefix, destPrefix)
  {
    var r := Rewritten(restated, uuidPrefix, destPrefix);
    forall i | 0 <= i < |m.objects|
      ensures WellFormedObject(r.objects[i])
    {
      RewrittenKeyIsWellFormed(m.version, m.objects[i], sourcePrefix, uuidPrefix, destPrefix);
    }
    forall relative
      ensures CopyDestination(relative, uuidPrefix, destPrefix) == TablePrefix(uuidPrefix, destPrefix) + relative
    {
      DestinationIsUnderTable(relative, uuidPrefix, destPrefix);
    }
  }

  // The file a restore writes parses again and describes the copies: ClickHouse will read each object from
  // the very key it was copied to, in every format version.
  lemma RestoredFileDescribesCopies(m: Metadata, manifest: seq<ObjectRef>, restated: Metadata, sourcePrefix: string,
                                    uuidPrefix: string, destPrefix: string)
    requires WellFormed(m) && !EndsInCr(m)
    requires RecordedIn(m, manifest, sourcePrefix) && RelativeKeysAreRelative(m, sourcePrefix)
    requires PrintablePrefixes(uuidPrefix, destPrefix)
    requires ToDiskRelativeKeys(m, manifest) == Resolved(restated)
    ensures var r := Parse(Serialize(Rewritten(restated, uuidPrefix, destPrefix)));
            r.Ok? && DescribesCopies(m, r.value, sourcePrefix, uuidPrefix, destPrefix)
  {
    RestatedKeys(m, manifest, sourcePrefix);
    RewrittenIsWellFormed(m, restated, sourcePrefix, uuidPrefix, destPrefix);
    PrintedParsesBackIff(Rewritten(restated, uuidPrefix, destPrefix));
  }

  // From text to text: what a restore makes of any metadata file it can parse and resolve.
  lemma RestoredTextDescribesCopies(text: string, m: Metadata, manifest: seq<ObjectRef>, restated: Metadata,
                                    sourcePrefix: string, uuidPrefix: string, destPrefix: string)
    requires Parse(text) == Ok(m) && !EndsInCr(m)
    requires RecordedIn(m, manifest, sourcePrefix) && RelativeKeysAreRelative(m, sourcePrefix)
    requires PrintablePrefixes(uuidPrefix, destPrefix)
    requires ToDiskRelativeKeys(m, manifest) == Resolved(restated)
    ensures var r := Parse(Serialize(Rewritten(restated, uuidPrefix, destPrefix)));
            r.Ok? && DescribesCopies(m, r.value, sourcePrefix, uuidPrefix, destPrefix)
  {
    ParsedIsWellFormed(text);
    RestoredFileDescribesCopies(m, manifest, restated, sourcePrefix, uuidPrefix, destPrefix);
  }

  // A relative key that starts with the source disk's prefix is restored under a key nothing was copied to:
  // for versions 2 to 4 the proviso above is exact.
  lemma RestoredKeyIsCopyIff(version: nat, stored: string, sourcePrefix: string, uuidPrefix: string,
                             destPrefix: string)
    requires version < 5
    ensures ReadKey(version, RestoreKeys(version, stored, uuidPrefix, destPrefix).metadataKey, destPrefix) ==
            CopyDestination(DiskRelativeKey(stored, sourcePrefix), uuidPrefix, destPrefix)
            <==> !Carries(stored, sourcePrefix)
  {
    if Carries(stored, sourcePrefix) {
      DestinationsAreDistinct(stored, DiskRelativeKey(stored, sourcePrefix), uuidPrefix, destPrefix);
    }
  }
}
