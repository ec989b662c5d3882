/** Metadata files of ClickHouse object disks: five format versions, their parser and their printer. */
module ObjectDisk {
  import opened Options
  import opened Text

  const MAX_U32 := 0xFFFF_FFFF
  const MAX_U64 := 0xFFFF_FFFF_FFFF_FFFF

  /** One object: its key exactly as stored, and its size. */
  datatype ObjectRef = ObjectRef(key: string, size: nat)

  datatype Metadata = Metadata(
    version: nat,
    objects: seq<ObjectRef>,
    totalSize: nat,
    refCount: nat,
    readOnly: bool,
    inlineData: Option<string>)

  datatype ParseError =
    | EmptyFile
    | BadVersion
    | Unsupported(version: nat)
    | TooShort(lines: nat)
    | BadHeader
    | BadCount
    | BadTotal
    | Truncated(got: nat)
    | BadObjectLine(at: nat)
    | BadSize(at: nat)
    | BadRefCount

  datatype Result<+T> = Ok(value: T) | Err(error: ParseError) {
    predicate IsFailure() { Err? }

    function PropagateFailure<U>(): Result<U>
      requires Err?
    {
      Err(error)
    }

    function Extract(): T
      requires Ok?
    {
      value
    }
  }

  function OrElse<T>(x: Option<T>, e: ParseError): Result<T> {
    match x
    case Some(v) => Ok(v)
    case None => Err(e)
  }

  // -- parsing --

  function ParseObject(line: string, at: nat): Result<ObjectRef> {
    var fields := Split(line, '\t');
    if |fields| < 2 then Err(BadObjectLine(at))
    else
      var size :- OrElse(ParseUint(Trim(fields[0]), MAX_U64), BadSize(at));
      Ok(ObjectRef(Trim(fields[1]), size))
  }

  /** The objects on the first `n` lines after the header. */
  function ParseObjects(lines: seq<string>, n: nat): (r: Result<seq<ObjectRef>>)
    ensures r.Ok? ==> |r.value| == n && (n > 0 ==> 2 + n <= |lines|)
  {
    if n == 0 then Ok([])
    else
      var before :- ParseObjects(lines, n - 1);
      if 1 + n >= |lines| then Err(Truncated(n - 1))
      else
        var last :- ParseObject(lines[1 + n], n - 1);
        Ok(before + [last])
  }

  function ParseRefCount(lines: seq<string>, at: nat): Result<nat> {
    if at < |lines| then OrElse(ParseUint(Trim(lines[at]), MAX_U32), BadRefCount) else Ok(0)
  }

  predicate ParseReadOnly(lines: seq<string>, version: nat, at: nat) {
    version >= 3 && at < |lines| && Trim(lines[at]) == ['1']
  }

  function ParseInline(lines: seq<string>, version: nat, at: nat): Option<string> {
    if version >= 4 && at < |lines| && lines[at] != [] then Some(lines[at]) else None
  }

  function ParseLines(lines: seq<string>): Result<Metadata> {
    if lines == [] then Err(EmptyFile)
    else
      var version :- OrElse(ParseUint(Trim(lines[0]), MAX_U32), BadVersion);
      if !(1 <= version <= 5) then Err(Unsupported(version))
      else if |lines| < 3 then Err(TooShort(|lines|))
      else
        var header := Split(lines[1], '\t');
        if |header| < 2 then Err(BadHeader)
        else
          var count :- OrElse(ParseUint(Trim(header[0]), MAX_U64), BadCount);
          var total :- OrElse(ParseUint(Trim(header[1]), MAX_U64), BadTotal);
          var objects :- ParseObjects(lines, count);
          var refCount :- ParseRefCount(lines, 2 + count);
          Ok(Metadata(version, objects, total, refCount,
                      ParseReadOnly(lines, version, 3 + count), ParseInline(lines, version, 4 + count)))
  }

  function Parse(content: string): Result<Metadata> {
    ParseLines(Lines(content))
  }

  // -- printing --

  function ObjectLine(o: ObjectRef): string {
    Decimal(o.size) + ['\t'] + o.key
  }

  function ObjectLines(objects: seq<ObjectRef>): seq<string> {
    seq(|objects|, i requires 0 <= i < |objects| => ObjectLine(objects[i]))
  }

  function Header(m: Metadata): seq<string> {
    [Decimal(m.version), Decimal(|m.objects|) + ['\t'] + Decimal(m.totalSize)]
  }

  function Trailer(m: Metadata): seq<string> {
    [Decimal(m.refCount)]
    + (if m.version >= 3 then [if m.readOnly then ['1'] else ['0']] else [])
    + (if m.version >= 4 then [if m.inlineData.Some? then m.inlineData.value else []] else [])
  }

  function FileLines(m: Metadata): seq<string> {
    Header(m) + ObjectLines(m.objects) + Trailer(m)
  }

  function Serialize(m: Metadata): string {
    Unlines(FileLines(m))
  }

  // -- the two as the loops they are --

  lemma {:induction false} FailureSticks(lines: seq<string>, i: nat, n: nat)
    requires i <= n && ParseObjects(lines, i).Err?
    ensures ParseObjects(lines, n) == Err(ParseObjects(lines, i).error)
  {
    if i < n {
      FailureSticks(lines, i, n - 1);
    }
  }

  method ParseObjectLine(line: string, at: nat) returns (r: Result<ObjectRef>)
    ensures r == ParseObject(line, at)
  {
    var fields := Split(line, '\t');
    if |fields| < 2 {
      return Err(BadObjectLine(at));
    }
    var size :- OrElse(ParseUint(Trim(fields[0]), MAX_U64), BadSize(at));
    return Ok(ObjectRef(Trim(fields[1]), size));
  }

  method ParseObjectLines(lines: seq<string>, count: nat) returns (r: Result<seq<ObjectRef>>)
    ensures r == ParseObjects(lines, count)
  {
    var objects: seq<ObjectRef> := [];
    for i := 0 to count
      invariant ParseObjects(lines, i) == Ok(objects)
    {
      if 2 + i >= |lines| {
        FailureSticks(lines, i + 1, count);
        return Err(Truncated(i));
      }
      var o := ParseObjectLine(lines[2 + i], i);
      if o.Err? {
        FailureSticks(lines, i + 1, count);
        return Err(o.error);
      }
      objects := objects + [o.value];
    }
    return Ok(objects);
  }

  method ParseMetadata(content: string) returns (r: Result<Metadata>)
    ensures r == Parse(content)
  {
    var lines := Lines(content);
    if |lines| == 0 {
      return Err(EmptyFile);
    }
    var version :- OrElse(ParseUint(Trim(lines[0]), MAX_U32), BadVersion);
    if version < 1 || version > 5 {
      return Err(Unsupported(version));
    }
    if |lines| < 3 {
      return Err(TooShort(|lines|));
    }
    var header := Split(lines[1], '\t');
    if |header| < 2 {
      return Err(BadHeader);
    }
    var count :- OrElse(ParseUint(Trim(header[0]), MAX_U64), BadCount);
    var total :- OrElse(ParseUint(Trim(header[1]), MAX_U64), BadTotal);
    var objects :- ParseObjectLines(lines, count);
    var refCount := 0;
    if 2 + count < |lines| {
      refCount :- OrElse(ParseUint(Trim(lines[2 + count]), MAX_U32), BadRefCount);
    }
    var readOnly := version >= 3 && 3 + count < |lines| && Trim(lines[3 + count]) == ['1'];
    var inlineData := None;
    if version >= 4 && 4 + count < |lines| {
      if lines[4 + count] != [] {
        inlineData := Some(lines[4 + count]);
      }
    }
    return Ok(Metadata(version, objects, total, refCount, readOnly, inlineData));
  }

  lemma ObjectLinesAppend(objects: seq<ObjectRef>, o: ObjectRef)
    ensures ObjectLines(objects + [o]) == ObjectLines(objects) + [ObjectLine(o)]
  {
  }

  /** The text so far after appending one more line. */
  lemma AppendLine(lines: seq<string>, last: string, more: seq<string>)
    ensures Unlines(lines + [last]) == Unlines(lines) + last + ['\n']
    ensures lines + ([last] + more) == (lines + [last]) + more
  {
    UnlinesAppend(lines, last);
  }

  method SerializeMetadata(m: Metadata) returns (result: string)
    ensures result == Serialize(m)
  {
    result := Decimal(m.version) + ['\n'];
    result := result + Decimal(|m.objects|) + ['\t'] + Decimal(m.totalSize) + ['\n'];
    ghost var lines := Header(m);
    HeaderText(m);
    for i := 0 to |m.objects|
      invariant lines == Header(m) + ObjectLines(m.objects[..i])
      invariant result == Unlines(lines)
    {
      var o := m.objects[i];
      result := result + Decimal(o.size) + ['\t'] + o.key + ['\n'];
      AppendLine(lines, ObjectLine(o), []);
      ObjectLinesAppend(m.objects[..i], o);
      assert m.objects[..i + 1] == m.objects[..i] + [o];
      lines := lines + [ObjectLine(o)];
    }
    assert m.objects[..|m.objects|] == m.objects;
    result := AppendTrailer(result, lines, m);
  }

  lemma HeaderText(m: Metadata)
    ensures Unlines(Header(m)) ==
            Decimal(m.version) + ['\n'] + Decimal(|m.objects|) + ['\t'] + Decimal(m.totalSize) + ['\n']
    ensures Header(m) == Header(m) + ObjectLines([])
  {
    var first, second := Decimal(m.version), Decimal(|m.objects|) + ['\t'] + Decimal(m.totalSize);
    UnlinesAppend([], first);
    UnlinesAppend([first], second);
    assert [] + [first] == [first] && [first] + [second] == Header(m);
  }

  /** The last lines of the file: reference count, read-only flag from version 3, inline data from version 4. */
  method AppendTrailer(soFar: string, ghost lines: seq<string>, m: Metadata) returns (result: string)
    requires soFar == Unlines(lines)
    ensures result == Unlines(lines + Trailer(m))
  {
    ghost var done := lines + [Decimal(m.refCount)];
    result := soFar + Decimal(m.refCount) + ['\n'];
    UnlinesAppend(lines, Decimal(m.refCount));
    if m.version >= 3 {
      var flag := if m.readOnly then ['1'] else ['0'];
      result := result + flag + ['\n'];
      UnlinesAppend(done, flag);
      done := done + [flag];
    }
    if m.version >= 4 {
      var data := if m.inlineData.Some? then m.inlineData.value else [];
      result := result + data + ['\n'];
      UnlinesAppend(done, data);
      done := done + [data];
    }
    assert done == lines + Trailer(m);
  }

  // -- what the parser yields --

  predicate Plain(s: string) {
    '\t' !in s && '\n' !in s
  }

  predicate WellFormedObject(o: ObjectRef) {
    o.size <= MAX_U64 && Plain(o.key) && Bare(o.key, IsWhitespace)
  }

  predicate AllWellFormed(objects: seq<ObjectRef>) {
    forall i :: 0 <= i < |objects| ==> WellFormedObject(objects[i])
  }

  predicate WellFormedInline(version: nat, data: Option<string>) {
    data.Some? ==> version >= 4 && data.value != [] && '\n' !in data.value
  }

  /** What every parsed file satisfies. */
  predicate WellFormed(m: Metadata) {
    && 1 <= m.version <= 5
    && |m.objects| <= MAX_U64 && m.totalSize <= MAX_U64 && m.refCount <= MAX_U32
    && AllWellFormed(m.objects)
    && (m.readOnly ==> m.version >= 3)
    && WellFormedInline(m.version, m.inlineData)
  }

  lemma ParsedObjectIsWellFormed(line: string, at: nat)
    requires '\n' !in line
    ensures ParseObject(line, at).Ok? ==> WellFormedObject(ParseObject(line, at).value)
  {
    var fields := Split(line, '\t');
    if |fields| >= 2 {
      SplitFields(line, '\t', 1);
      TrimBares(fields[1], IsWhitespace);
      ParseUintBounded(Trim(fields[0]), MAX_U64);
    }
  }

  lemma {:induction false} ParsedObjectsAreWellFormed(lines: seq<string>, n: nat, i: nat)
    requires forall k :: 0 <= k < |lines| ==> '\n' !in lines[k]
    requires ParseObjects(lines, n).Ok? && i < n
    ensures WellFormedObject(ParseObjects(lines, n).value[i])
  {
    if i < n - 1 {
      ParsedObjectsAreWellFormed(lines, n - 1, i);
    } else {
      ParsedObjectIsWellFormed(lines[1 + n], n - 1);
    }
  }

  predicate HeaderFields(line: string, count: nat, total: nat) {
    var fields := Split(line, '\t');
    && |fields| >= 2
    && ParseUint(Trim(fields[0]), MAX_U64) == Some(count)
    && ParseUint(Trim(fields[1]), MAX_U64) == Some(total)
  }

  predicate HeadRead(lines: seq<string>, version: nat, count: nat, total: nat) {
    && |lines| >= 3
    && 1 <= version <= 5
    && ParseUint(Trim(lines[0]), MAX_U32) == Some(version)
    && HeaderFields(lines[1], count, total)
  }

  predicate TailRead(lines: seq<string>, at: nat, m: Metadata) {
    && ParseRefCount(lines, at) == Ok(m.refCount)
    && m.readOnly == ParseReadOnly(lines, m.version, at + 1)
    && m.inlineData == ParseInline(lines, m.version, at + 2)
  }

  /** Where each part of `m` stands in the file. */
  predicate ReadFrom(lines: seq<string>, m: Metadata) {
    && HeadRead(lines, m.version, |m.objects|, m.totalSize)
    && ParseObjects(lines, |m.objects|) == Ok(m.objects)
    && TailRead(lines, 2 + |m.objects|, m)
  }

  lemma ParsedIsRead(lines: seq<string>, m: Metadata)
    requires ParseLines(lines) == Ok(m)
    ensures ReadFrom(lines, m)
  {
  }

  lemma ReadIsParsed(lines: seq<string>, m: Metadata)
    requires ReadFrom(lines, m)
    ensures ParseLines(lines) == Ok(m)
  {
  }

  lemma ReadNumbersAreBounded(lines: seq<string>, m: Metadata)
    requires ReadFrom(lines, m)
    ensures |m.objects| <= MAX_U64 && m.totalSize <= MAX_U64 && m.refCount <= MAX_U32
  {
    var header := Split(lines[1], '\t');
    ParseUintBounded(Trim(header[0]), MAX_U64);
    ParseUintBounded(Trim(header[1]), MAX_U64);
    if 2 + |m.objects| < |lines| {
      ParseUintBounded(Trim(lines[2 + |m.objects|]), MAX_U32);
    }
  }

  lemma ReadIsWellFormed(lines: seq<string>, m: Metadata)
    requires ReadFrom(lines, m)
    requires forall k :: 0 <= k < |lines| ==> '\n' !in lines[k]
    ensures WellFormed(m)
  {
    ReadNumbersAreBounded(lines, m);
    forall i | 0 <= i < |m.objects|
      ensures WellFormedObject(m.objects[i])
    {
      ParsedObjectsAreWellFormed(lines, |m.objects|, i);
    }
  }

  // Whatever the text, a parsed file is well-formed.
  lemma ParsedIsWellFormed(s: string)
    ensures Parse(s).Ok? ==> WellFormed(Parse(s).value)
  {
    var lines := Lines(s);
    forall k | 0 <= k < |lines|
      ensures '\n' !in lines[k]
    {
      LinesHaveNoBreaks(s, k);
    }
    if Parse(s).Ok? {
      ParsedIsRead(lines, Parse(s).value);
      ReadIsWellFormed(lines, Parse(s).value);
    }
  }

  // An object line is a size and a key, each trimmed; whatever follows a second tab is not looked at.
  lemma ObjectLineReads(size: string, key: string, more: string, at: nat)
    requires '\t' !in size && '\t' !in key
    ensures ParseObject(size + ['\t'] + key, at) ==
            match ParseUint(Trim(size), MAX_U64)
            case Some(n) => Ok(ObjectRef(Trim(key), n))
            case None => Err(BadSize(at))
    ensures ParseObject(size + ['\t'] + (key + ['\t'] + more), at) == ParseObject(size + ['\t'] + key, at)
  {
    SplitPair(size, key, '\t');
    SplitFirst(size, key + ['\t'] + more, '\t');
    SplitFirst(key, more, '\t');
  }

  // The optional last lines: the read-only flag is set by a `1` alone, with any whitespace around it, and from version 3
  // on; inline data is any non-empty line, from version 4 on.
  lemma ParsedTrailer(s: string)
    requires Parse(s).Ok?
    ensures var m, lines := Parse(s).value, Lines(s);
            var at := 2 + |m.objects|;
            && (|lines| <= at ==> m.refCount == 0)
            && (m.readOnly <==> m.version >= 3 && at + 1 < |lines| && exists left, right ::
                  Only(left, IsWhitespace) && Only(right, IsWhitespace) && lines[at + 1] == left + ['1'] + right)
            && (m.inlineData.Some? <==> m.version >= 4 && at + 2 < |lines| && lines[at + 2] != [])
            && (m.inlineData.Some? ==> m.inlineData.value == lines[at + 2])
  {
    var m, lines := Parse(s).value, Lines(s);
    ParsedIsRead(lines, m);
    if 3 + |m.objects| < |lines| {
      TrimsToIff(lines[3 + |m.objects|], ['1'], IsWhitespace);
    }
  }

  // -- round trips --

  /** A carriage return at the end of the inline data is lost: it would be read as part of the line ending. */
  function Normal(m: Metadata): Metadata {
    match m.inlineData
    case None => m
    case Some(data) => m.(inlineData := if StripCr(data) == [] then None else Some(StripCr(data)))
  }

  predicate EndsInCr(m: Metadata) {
    m.inlineData.Some? && StripCr(m.inlineData.value) != m.inlineData.value
  }

  lemma BareHasNoCr(s: string)
    requires Bare(s, IsWhitespace)
    ensures StripCr(s) == s
  {
  }

  lemma ObjectLineParses(o: ObjectRef, at: nat)
    requires WellFormedObject(o)
    ensures ParseObject(StripCr(ObjectLine(o)), at) == Ok(o) && '\n' !in ObjectLine(o)
  {
    var size := Decimal(o.size);
    DecimalReadsBack(o.size, MAX_U64);
    BareHasNoCr(o.key);
    assert StripCr(ObjectLine(o)) == ObjectLine(o);
    SplitPair(size, o.key, '\t');
    TrimBares(o.key, IsWhitespace);
  }

  /** Line `2 + i` of a file reads as the `i`-th object. */
  predicate ObjectAt(lines: seq<string>, objects: seq<ObjectRef>, i: nat)
    requires i < |objects| && 2 + |objects| <= |lines|
  {
    ParseObject(lines[2 + i], i) == Ok(objects[i])
  }

  predicate ObjectsAt(lines: seq<string>, objects: seq<ObjectRef>) {
    2 + |objects| <= |lines| && forall i: nat :: i < |objects| ==> ObjectAt(lines, objects, i)
  }

  lemma {:induction false} ObjectLinesParse(objects: seq<ObjectRef>, lines: seq<string>, n: nat)
    requires n <= |objects| && ObjectsAt(lines, objects)
    ensures ParseObjects(lines, n) == Ok(objects[..n])
  {
    if n > 0 {
      ObjectLinesParse(objects, lines, n - 1);
      assert ObjectAt(lines, objects, n - 1);
      assert objects[..n] == objects[..n - 1] + [objects[n - 1]];
    }
  }

  lemma HeaderParses(m: Metadata, lines: seq<string>)
    requires WellFormed(m) && |lines| >= 3
    requires lines[0] == StripCr(Header(m)[0]) && lines[1] == StripCr(Header(m)[1])
    ensures HeadRead(lines, m.version, |m.objects|, m.totalSize)
  {
    var count, total := Decimal(|m.objects|), Decimal(m.totalSize);
    DecimalReadsBack(m.version, MAX_U32);
    DecimalReadsBack(|m.objects|, MAX_U64);
    DecimalReadsBack(m.totalSize, MAX_U64);
    assert StripCr(count + ['\t'] + total) == count + ['\t'] + total;
    SplitPair(count, total, '\t');
  }

  lemma TrailerParses(m: Metadata, lines: seq<string>, at: nat)
    requires WellFormed(m) && at <= |lines| && lines[at..] == StripCrs(Trailer(m))
    ensures TailRead(lines, at, Normal(m))
  {
    DecimalReadsBack(m.refCount, MAX_U32);
    var t := StripCrs(Trailer(m));
    assert forall i :: 0 <= i < |t| ==> lines[at + i] == t[i];
    if m.version >= 3 {
      var flag := if m.readOnly then ['1'] else ['0'];
      TrimBares(flag, IsWhitespace);
      assert StripCr(flag) == flag;
    }
  }

  predicate NoBreaks(lines: seq<string>) {
    forall i :: 0 <= i < |lines| ==> '\n' !in lines[i]
  }

  lemma HeaderHasNoBreaks(m: Metadata)
    requires WellFormed(m)
    ensures NoBreaks(Header(m)) && NoBreaks(Trailer(m))
  {
    DecimalReadsBack(m.version, MAX_U32);
    DecimalReadsBack(|m.objects|, MAX_U64);
    DecimalReadsBack(m.totalSize, MAX_U64);
    DecimalReadsBack(m.refCount, MAX_U32);
  }

  lemma ObjectLinesHaveNoBreaks(objects: seq<ObjectRef>)
    requires AllWellFormed(objects)
    ensures NoBreaks(ObjectLines(objects))
  {
    forall i | 0 <= i < |objects|
      ensures '\n' !in ObjectLines(objects)[i]
    {
      ObjectLineParses(objects[i], i);
    }
  }

  lemma FileHasNoBreaks(m: Metadata)
    requires WellFormed(m)
    ensures NoBreaks(FileLines(m))
  {
    HeaderHasNoBreaks(m);
    ObjectLinesHaveNoBreaks(m.objects);
  }

  lemma ThreePieces(a: seq<string>, b: seq<string>, c: seq<string>, lines: seq<string>)
    requires lines == StripCrs(a + b + c)
    ensures |lines| == |a| + |b| + |c|
    ensures forall i :: 0 <= i < |a| ==> lines[i] == StripCr(a[i])
    ensures forall i :: 0 <= i < |b| ==> lines[|a| + i] == StripCr(b[i])
    ensures lines[|a| + |b|..] == StripCrs(c)
  {
  }

  lemma ObjectsAreAt(lines: seq<string>, objects: seq<ObjectRef>, printed: seq<string>)
    requires AllWellFormed(objects) && 2 + |objects| <= |lines| && printed == ObjectLines(objects)
    requires forall i :: 0 <= i < |printed| ==> lines[2 + i] == StripCr(printed[i])
    ensures ObjectsAt(lines, objects)
  {
    forall i: nat | i < |objects|
      ensures ObjectAt(lines, objects, i)
    {
      ObjectLineParses(objects[i], i);
      assert lines[2 + i] == StripCr(printed[i]);
    }
  }

  lemma LinesAreRead(m: Metadata, lines: seq<string>)
    requires WellFormed(m) && lines == StripCrs(FileLines(m))
    ensures ReadFrom(lines, Normal(m))
  {
    var n := |m.objects|;
    ThreePieces(Header(m), ObjectLines(m.objects), Trailer(m), lines);
    assert HeadRead(lines, m.version, n, m.totalSize) by {
      HeaderParses(m, lines);
    }
    assert ParseObjects(lines, n) == Ok(m.objects) by {
      ObjectsAreAt(lines, m.objects, ObjectLines(m.objects));
      ObjectLinesParse(m.objects, lines, n);
      assert m.objects[..n] == m.objects;
    }
    TrailerParses(m, lines, 2 + n);
  }

  // Reading back a printed file gives the file, up to a carriage return at the end of its inline data.
  lemma PrintedParses(m: Metadata)
    requires WellFormed(m)
    ensures Parse(Serialize(m)) == Ok(Normal(m))
  {
    var lines := StripCrs(FileLines(m));
    FileHasNoBreaks(m);
    LinesOfUnlines(FileLines(m));
    LinesAreRead(m, lines);
    ReadIsParsed(lines, Normal(m));
  }

  // Printing followed by parsing is the identity on exactly the files that can be parsed at all and whose
  // inline data does not end in a carriage return.
  lemma PrintedParsesBackIff(m: Metadata)
    ensures Parse(Serialize(m)) == Ok(m) <==> WellFormed(m) && !EndsInCr(m)
  {
    ParsedIsWellFormed(Serialize(m));
    if WellFormed(m) {
      PrintedParses(m);
    }
  }

  // Parsing, printing and parsing again gives the first result for every accepted text, also one with lines
  // missing at its end, unless its inline data ends in a stray carriage return.
  lemma ReparseIff(s: string)
    requires Parse(s).Ok?
    ensures Parse(Serialize(Parse(s).value)) == Parse(s) <==> !EndsInCr(Parse(s).value)
  {
    ParsedIsWellFormed(s);
    PrintedParsesBackIff(Parse(s).value);
  }

  lemma {:induction false} LinesKeepCharacters(s: string, i: nat, c: char)
    requires i < |Lines(s)| && c in Lines(s)[i]
    ensures c in s
  {
    var k := IndexOf(s, '\n');
    if k < |s| && i > 0 {
      LinesKeepCharacters(s[k + 1..], i - 1, c);
    }
  }

  // Without carriage returns in the text, there is no exception.
  lemma ReparseWithoutCarriageReturns(s: string)
    requires Parse(s).Ok? && '\r' !in s
    ensures Parse(Serialize(Parse(s).value)) == Parse(s)
  {
    var m := Parse(s).value;
    ReparseIff(s);
    ParsedIsRead(Lines(s), m);
    if EndsInCr(m) {
      LinesKeepCharacters(s, 4 + |m.objects|, '\r');
    }
  }

  // -- files without all their last lines --

  /** What is left of the file with only `k` of the lines after its objects. */
  function Cut(m: Metadata, k: nat): Metadata {
    m.(refCount := if k >= 1 then m.refCount else 0,
       readOnly := k >= 2 && m.readOnly,
       inlineData := if k >= 3 then Normal(m).inlineData else None)
  }

  function CutLines(m: Metadata, k: nat): seq<string>
    requires k <= |Trailer(m)|
  {
    Header(m) + ObjectLines(m.objects) + Trailer(m)[..k]
  }

  lemma CutTrailerParses(m: Metadata, k: nat, lines: seq<string>, at: nat)
    requires WellFormed(m) && k <= |Trailer(m)| && at <= |lines| && lines[at..] == StripCrs(Trailer(m)[..k])
    ensures TailRead(lines, at, Cut(m, k))
  {
    DecimalReadsBack(m.refCount, MAX_U32);
    var t := StripCrs(Trailer(m)[..k]);
    assert |lines| == at + k && forall i :: 0 <= i < k ==> lines[at + i] == t[i] == StripCr(Trailer(m)[i]);
    if m.version >= 3 {
      var flag := if m.readOnly then ['1'] else ['0'];
      TrimBares(flag, IsWhitespace);
      assert StripCr(flag) == flag;
    }
  }

  lemma CutLinesAreRead(m: Metadata, k: nat, lines: seq<string>)
    requires WellFormed(m) && k <= |Trailer(m)| && |m.objects| + k > 0 && lines == StripCrs(CutLines(m, k))
    ensures ReadFrom(lines, Cut(m, k))
  {
    var n := |m.objects|;
    ThreePieces(Header(m), ObjectLines(m.objects), Trailer(m)[..k], lines);
    assert HeadRead(lines, m.version, n, m.totalSize) by {
      HeaderParses(m, lines);
    }
    assert ParseObjects(lines, n) == Ok(m.objects) by {
      ObjectsAreAt(lines, m.objects, ObjectLines(m.objects));
      ObjectLinesParse(m.objects, lines, n);
      assert m.objects[..n] == m.objects;
    }
    CutTrailerParses(m, k, lines, 2 + n);
  }

  // A file that ends early reads as one with no references, writable and without inline data, as far as it goes.
  lemma CutFileParses(m: Metadata, k: nat)
    requires WellFormed(m) && k <= |Trailer(m)|
    ensures Parse(Unlines(CutLines(m, k))) == if |m.objects| + k > 0 then Ok(Cut(m, k)) else Err(TooShort(2))
  {
    var lines := CutLines(m, k);
    FileHasNoBreaks(m);
    assert FileLines(m) == Header(m) + ObjectLines(m.objects) + Trailer(m);
    assert forall i :: 0 <= i < |lines| ==> lines[i] == FileLines(m)[i];
    LinesOfUnlines(lines);
    if |m.objects| + k > 0 {
      CutLinesAreRead(m, k, StripCrs(lines));
      ReadIsParsed(StripCrs(lines), Cut(m, k));
    } else {
      DecimalReadsBack(m.version, MAX_U32);
    }
  }
}
