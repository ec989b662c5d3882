/** Percent-encoding of path components, and the staging paths built from them. */
module PathEncoding {
  import opened Sequences
  import opened Utf8

  predicate AsciiAlphanumeric(c: char) {
    '0' <= c <= '9' || 'A' <= c <= 'Z' || 'a' <= c <= 'z'
  }

  /** `alnum` classifies ASCII as usual; which other characters are alphanumeric is left open. */
  ghost predicate Classifies(alnum: char -> bool) {
    forall c: char :: c as int < 128 ==> (alnum(c) <==> AsciiAlphanumeric(c))
  }

  predicate Safe(c: char, alnum: char -> bool) {
    alnum(c) || c == '-' || c == '_' || c == '.'
  }

  function HexDigit(d: nat): char
    requires d < 16
  {
    if d < 10 then (48 + d) as char else (55 + d) as char
  }

  function Escape(b: Byte): string {
    ['%', HexDigit(b / 16), HexDigit(b % 16)]
  }

  function EscapeAll(bytes: seq<Byte>): string {
    if bytes == [] then [] else EscapeAll(bytes[..|bytes| - 1]) + Escape(bytes[|bytes| - 1])
  }

  function EncodePiece(c: char, alnum: char -> bool): string {
    if Safe(c, alnum) then [c] else EscapeAll(EncodeChar(c))
  }

  function EncodeComponent(s: string, alnum: char -> bool): string {
    if s == [] then [] else EncodeComponent(s[..|s| - 1], alnum) + EncodePiece(s[|s| - 1], alnum)
  }

  lemma EncodeStep(s: string, i: nat, alnum: char -> bool)
    requires i < |s|
    ensures EncodeComponent(s[..i + 1], alnum) == EncodeComponent(s[..i], alnum) + EncodePiece(s[i], alnum)
  {
    assert s[..i + 1][..i] == s[..i];
  }

  lemma EscapeStep(bytes: seq<Byte>, k: nat)
    requires k < |bytes|
    ensures EscapeAll(bytes[..k + 1]) == EscapeAll(bytes[..k]) + Escape(bytes[k])
  {
    assert bytes[..k + 1][..k] == bytes[..k];
  }

  /** The escape of every byte, appended in turn. */
  method PushEscapes(encoded: string, bytes: seq<Byte>) returns (longer: string)
    ensures longer == encoded + EscapeAll(bytes)
  {
    longer := encoded;
    for k := 0 to |bytes|
      invariant longer == encoded + EscapeAll(bytes[..k])
    {
      EscapeStep(bytes, k);
      longer := longer + Escape(bytes[k]);
    }
    assert bytes[..|bytes|] == bytes;
  }

  method EncodePathComponent(s: string, alnum: char -> bool) returns (encoded: string)
    ensures encoded == EncodeComponent(s, alnum)
  {
    encoded := [];
    for i := 0 to |s|
      invariant encoded == EncodeComponent(s[..i], alnum)
    {
      var c := s[i];
      EncodeStep(s, i, alnum);
      if alnum(c) || c == '-' || c == '_' || c == '.' {
        encoded := encoded + [c];
      } else {
        encoded := PushEscapes(encoded, EncodeChar(c));
      }
    }
    assert s[..|s|] == s;
  }

  lemma {:induction false} EscapesAreLong(bytes: seq<Byte>)
    ensures |EscapeAll(bytes)| == 3 * |bytes|
    ensures bytes != [] ==> EscapeAll(bytes)[0] == '%'
  {
    if bytes != [] {
      EscapesAreLong(bytes[..|bytes| - 1]);
    }
  }

  lemma PieceSize(c: char, alnum: char -> bool)
    ensures |EncodePiece(c, alnum)| >= 1
    ensures |EncodePiece(c, alnum)| == 1 <==> Safe(c, alnum)
    ensures Safe(c, alnum) ==> EncodePiece(c, alnum) == [c]
  {
    EscapesAreLong(EncodeChar(c));
  }

  predicate AllSafe(s: string, alnum: char -> bool) {
    forall i :: 0 <= i < |s| ==> Safe(s[i], alnum)
  }

  lemma {:induction false} EncodingNeverShrinks(s: string, alnum: char -> bool)
    ensures |EncodeComponent(s, alnum)| >= |s|
    ensures |EncodeComponent(s, alnum)| == |s| <==> AllSafe(s, alnum)
    ensures AllSafe(s, alnum) ==> EncodeComponent(s, alnum) == s
  {
    if s != [] {
      var init, last := s[..|s| - 1], s[|s| - 1];
      EncodingNeverShrinks(init, alnum);
      PieceSize(last, alnum);
      assert s == init + [last];
      assert AllSafe(s, alnum) <==> AllSafe(init, alnum) && Safe(last, alnum);
    }
  }

  // Names of letters, digits, hyphens, underscores and dots are left alone, and no others.
  lemma EncodingIsIdentityIff(s: string, alnum: char -> bool)
    ensures EncodeComponent(s, alnum) == s
       <==> forall i :: 0 <= i < |s| ==> alnum(s[i]) || s[i] == '-' || s[i] == '_' || s[i] == '.'
  {
    EncodingNeverShrinks(s, alnum);
  }

  // -- decoding --

  predicate IsHex(c: char) {
    '0' <= c <= '9' || 'A' <= c <= 'F'
  }

  function HexValue(c: char): (d: nat)
    requires IsHex(c)
    ensures d < 16
  {
    if c <= '9' then c as int - 48 else c as int - 55
  }

  /** Percent-decoding to bytes, section 2.1 of RFC 3986; everything else stands for its UTF-8 form. */
  function Decode(t: string): seq<Byte> {
    if t == [] then []
    else if t[0] == '%' && |t| >= 3 && IsHex(t[1]) && IsHex(t[2]) then
      [HexValue(t[1]) * 16 + HexValue(t[2])] + Decode(t[3..])
    else EncodeChar(t[0]) + Decode(t[1..])
  }

  lemma DecodeEscape(b: Byte, t: string)
    ensures Decode(Escape(b) + t) == [b] + Decode(t)
  {
    var s := Escape(b) + t;
    assert s[3..] == t && s[0] == '%' && s[1] == HexDigit(b / 16) && s[2] == HexDigit(b % 16);
  }

  lemma {:induction false} DecodeEscapes(bytes: seq<Byte>, t: string)
    ensures Decode(EscapeAll(bytes) + t) == bytes + Decode(t)
  {
    if bytes == [] {
      assert EscapeAll(bytes) + t == t;
    } else {
      var init, last := bytes[..|bytes| - 1], bytes[|bytes| - 1];
      DecodeEscapes(init, Escape(last) + t);
      DecodeEscape(last, t);
      Regroup(EscapeAll(init), Escape(last), t);
      Regroup(init, [last], Decode(t));
      assert bytes == init + [last];
    }
  }

  lemma DecodePiece(c: char, alnum: char -> bool, t: string)
    requires Classifies(alnum)
    ensures Decode(EncodePiece(c, alnum) + t) == EncodeChar(c) + Decode(t)
  {
    if Safe(c, alnum) {
      assert '%' as int < 128 && !AsciiAlphanumeric('%');
      assert ([c] + t)[1..] == t;
    } else {
      DecodeEscapes(EncodeChar(c), t);
    }
  }

  lemma EncodeLast(s: string)
    requires s != []
    ensures Encode(s) == Encode(s[..|s| - 1]) + EncodeChar(s[|s| - 1])
  {
    var init, last := s[..|s| - 1], s[|s| - 1];
    EncodeAppend(init, [last]);
    assert init + [last] == s && [last][1..] == [];
    assert Encode([last]) == EncodeChar(last);
  }

  lemma {:induction false} DecodeAfter(s: string, alnum: char -> bool, t: string)
    requires Classifies(alnum)
    ensures Decode(EncodeComponent(s, alnum) + t) == Encode(s) + Decode(t)
  {
    if s == [] {
      assert EncodeComponent(s, alnum) + t == t;
    } else {
      var init, last := s[..|s| - 1], s[|s| - 1];
      DecodeAfter(init, alnum, EncodePiece(last, alnum) + t);
      DecodePiece(last, alnum, t);
      EncodeLast(s);
      Regroup(EncodeComponent(init, alnum), EncodePiece(last, alnum), t);
      Regroup(Encode(init), EncodeChar(last), Decode(t));
    }
  }

  // Percent-decoding an encoded component gives the UTF-8 form of the original, whatever counts as alphanumeric
  // beyond ASCII.
  lemma DecodeUndoesEncode(s: string, alnum: char -> bool)
    requires Classifies(alnum)
    ensures Decode(EncodeComponent(s, alnum)) == Encode(s)
  {
    DecodeAfter(s, alnum, []);
    assert EncodeComponent(s, alnum) + [] == EncodeComponent(s, alnum);
  }

  lemma EncodeComponentInjective(s: string, t: string, alnum: char -> bool)
    requires Classifies(alnum) && EncodeComponent(s, alnum) == EncodeComponent(t, alnum)
    ensures s == t
  {
    DecodeUndoesEncode(s, alnum);
    DecodeUndoesEncode(t, alnum);
    EncodeInjective(s, t);
  }

  lemma {:induction false} EscapesHaveNoSlash(bytes: seq<Byte>)
    ensures '/' !in EscapeAll(bytes) && |EscapeAll(bytes)| == 3 * |bytes|
  {
    if bytes != [] {
      EscapesHaveNoSlash(bytes[..|bytes| - 1]);
    }
  }

  // An encoded component is a single path component, empty only for the empty name.
  lemma {:induction false} EncodedIsOneComponent(s: string, alnum: char -> bool)
    requires Classifies(alnum)
    ensures '/' !in EncodeComponent(s, alnum)
    ensures EncodeComponent(s, alnum) == [] <==> s == []
  {
    if s != [] {
      EncodedIsOneComponent(s[..|s| - 1], alnum);
      EscapesHaveNoSlash(EncodeChar(s[|s| - 1]));
      assert '/' as int < 128 && !AsciiAlphanumeric('/');
    }
  }

  // -- staging paths --

  /** `Path::join`: an absolute component replaces the path, an empty one leaves a trailing slash. */
  function Join(path: string, component: string): string {
    if component != [] && component[0] == '/' then component
    else if path == [] || path[|path| - 1] == '/' then path + component
    else path + ['/'] + component
  }

  /** A part of a table as it is staged in a backup. */
  datatype Staged = Staged(db: string, table: string, part: string)

  function StagingPath(shadowDir: string, x: Staged, alnum: char -> bool): string {
    Join(Join(Join(shadowDir, EncodeComponent(x.db, alnum)), EncodeComponent(x.table, alnum)), x.part)
  }

  predicate SlashFree(x: Staged) {
    '/' !in x.part
  }

  predicate IsDir(shadowDir: string) {
    shadowDir != [] && shadowDir[|shadowDir| - 1] != '/'
  }

  /** The directories below the shadow directory: empty names vanish. */
  function Pieces(d: string, t: string): seq<string> {
    (if d == [] then [] else [d]) + (if t == [] then [] else [t])
  }

  function PathOf(pieces: seq<string>, last: string): string {
    if pieces == [] then last else pieces[0] + ['/'] + PathOf(pieces[1..], last)
  }

  lemma JoinDir(path: string, e: string)
    requires '/' !in e
    ensures IsDir(path) ==> Join(path, e) == path + ['/'] + e
    ensures path != [] && path[|path| - 1] == '/' ==> Join(path, e) == path + e
    ensures e != [] ==> IsDir(path + ['/'] + e)
  {
    assert e != [] ==> e[0] in e && e[|e| - 1] in e;
  }

  lemma JoinTwo(base: string, t: string, p: string)
    requires base != [] && base[|base| - 1] == '/' && '/' !in t && '/' !in p
    ensures Join(Join(base, t), p) == base + (if t == [] then p else t + ['/'] + p)
  {
    JoinDir(base, t);
    if t == [] {
      assert base + t == base;
    } else {
      assert t[|t| - 1] in t && (base + t)[|base + t| - 1] == t[|t| - 1];
    }
    JoinDir(base + t, p);
  }

  lemma PathOfPieces(d: string, t: string, p: string)
    ensures var rest := if t == [] then p else t + ['/'] + p;
            PathOf(Pieces(d, t), p) == if d == [] then rest else d + ['/'] + rest
    decreases |d|
  {
    if d == [] {
      assert t != [] ==> Pieces(d, t) == [t] && [t][1..] == [];
      assert t != [] ==> PathOf([t], p) == t + ['/'] + PathOf([], p);
    } else {
      assert Pieces(d, t)[0] == d && Pieces(d, t)[1..] == Pieces([], t);
      PathOfPieces([], t, p);
    }
  }

  // Joining to a directory is joining to the directory with a slash.
  lemma JoinNamed(dir: string, t: string, p: string)
    requires IsDir(dir) && '/' !in t && '/' !in p
    ensures Join(Join(dir, t), p) == dir + ['/'] + (if t == [] then p else t + ['/'] + p)
  {
    JoinDir(dir, t);
    JoinDir(dir + ['/'], t);
    JoinTwo(dir + ['/'], t, p);
  }

  lemma JoinThree(dir: string, d: string, t: string, p: string)
    requires IsDir(dir) && '/' !in d && '/' !in t && '/' !in p
    ensures Join(Join(Join(dir, d), t), p) == dir + ['/'] + PathOf(Pieces(d, t), p)
  {
    var rest := if t == [] then p else t + ['/'] + p;
    JoinDir(dir, d);
    PathOfPieces(d, t, p);
    if d == [] {
      assert dir + ['/'] + d == dir + ['/'];
      JoinTwo(dir + ['/'], t, p);
    } else {
      JoinNamed(dir + ['/'] + d, t, p);
      Regroup(dir + ['/'], d, ['/'] + rest);
      Regroup(dir + ['/'] + d, ['/'], rest);
      Regroup(d, ['/'], rest);
    }
  }

  function Names(x: Staged, alnum: char -> bool): seq<string> {
    Pieces(EncodeComponent(x.db, alnum), EncodeComponent(x.table, alnum))
  }

  lemma StagingPathIs(shadowDir: string, x: Staged, alnum: char -> bool)
    requires Classifies(alnum) && IsDir(shadowDir) && SlashFree(x)
    ensures StagingPath(shadowDir, x, alnum) == shadowDir + ['/'] + PathOf(Names(x, alnum), x.part)
    ensures forall s :: s in Names(x, alnum) ==> '/' !in s
  {
    EncodedIsOneComponent(x.db, alnum);
    EncodedIsOneComponent(x.table, alnum);
    JoinThree(shadowDir, EncodeComponent(x.db, alnum), EncodeComponent(x.table, alnum), x.part);
  }

  // Two paths agree in their first component and in what follows.
  lemma FirstComponent(a: string, b: string, x: string, y: string)
    requires '/' !in a && '/' !in b && a + ['/'] + x == b + ['/'] + y
    ensures a == b && x == y
  {
    var s, t := a + ['/'] + x, b + ['/'] + y;
    assert s[|a|] == '/' && t[|b|] == '/';
    assert forall i :: 0 <= i < |a| ==> s[i] == a[i] && a[i] in a;
    assert forall i :: 0 <= i < |b| ==> t[i] == b[i] && b[i] in b;
    assert |a| == |b|;
    assert s[..|a|] == a && t[..|b|] == b && s[|a| + 1..] == x && t[|b| + 1..] == y;
  }

  lemma HasSlash(pieces: seq<string>, last: string)
    ensures pieces != [] ==> '/' in PathOf(pieces, last)
  {
    assert pieces != [] ==> PathOf(pieces, last)[|pieces[0]|] == '/';
  }

  // A path determines its components.
  lemma {:induction false} SamePath(xs: seq<string>, p: string, ys: seq<string>, q: string)
    requires (forall s :: s in xs ==> '/' !in s) && (forall s :: s in ys ==> '/' !in s)
    requires '/' !in p && '/' !in q && PathOf(xs, p) == PathOf(ys, q)
    ensures xs == ys && p == q
  {
    HasSlash(xs, p);
    HasSlash(ys, q);
    if xs != [] {
      FirstComponent(xs[0], ys[0], PathOf(xs[1..], p), PathOf(ys[1..], q));
      SamePath(xs[1..], p, ys[1..], q);
    }
  }

  /** No other part with a slash-free name is staged at the same path. */
  ghost predicate Unambiguous(shadowDir: string, x: Staged, alnum: char -> bool) {
    forall y: Staged :: SlashFree(y) && StagingPath(shadowDir, y, alnum) == StagingPath(shadowDir, x, alnum) ==> y == x
  }

  lemma SamePathSameNames(shadowDir: string, x: Staged, y: Staged, alnum: char -> bool)
    requires Classifies(alnum) && IsDir(shadowDir) && SlashFree(x) && SlashFree(y)
    requires StagingPath(shadowDir, x, alnum) == StagingPath(shadowDir, y, alnum)
    ensures Names(x, alnum) == Names(y, alnum) && x.part == y.part
  {
    var base := shadowDir + ['/'];
    StagingPathIs(shadowDir, x, alnum);
    StagingPathIs(shadowDir, y, alnum);
    var p, q := PathOf(Names(x, alnum), x.part), PathOf(Names(y, alnum), y.part);
    assert (base + p)[|base|..] == p && (base + q)[|base|..] == q;
    SamePath(Names(x, alnum), x.part, Names(y, alnum), y.part);
  }

  lemma SameNames(x: Staged, y: Staged, alnum: char -> bool)
    requires Classifies(alnum) && Names(x, alnum) == Names(y, alnum)
    requires x.db == [] <==> x.table == []
    ensures x.db == y.db && x.table == y.table
  {
    EncodedIsOneComponent(x.db, alnum);
    EncodedIsOneComponent(x.table, alnum);
    EncodedIsOneComponent(y.db, alnum);
    EncodedIsOneComponent(y.table, alnum);
    if x.db != [] {
      var xs, ys := Names(x, alnum), Names(y, alnum);
      assert |xs| == 2 && xs[0] == EncodeComponent(x.db, alnum) && xs[1] == EncodeComponent(x.table, alnum);
      assert ys[0] == EncodeComponent(y.db, alnum) && ys[1] == EncodeComponent(y.table, alnum);
      EncodeComponentInjective(x.db, y.db, alnum);
      EncodeComponentInjective(x.table, y.table, alnum);
    }
  }

  lemma SwappedEmptyName(shadowDir: string, x: Staged, alnum: char -> bool)
    requires Classifies(alnum) && IsDir(shadowDir) && SlashFree(x)
    requires !(x.db == [] <==> x.table == [])
    ensures var y := Staged(x.table, x.db, x.part);
            y != x && StagingPath(shadowDir, y, alnum) == StagingPath(shadowDir, x, alnum)
  {
    var y := Staged(x.table, x.db, x.part);
    StagingPathIs(shadowDir, x, alnum);
    StagingPathIs(shadowDir, y, alnum);
    EncodedIsOneComponent(x.db, alnum);
    EncodedIsOneComponent(x.table, alnum);
    assert Names(x, alnum) == Names(y, alnum);
  }

  // Distinct parts with slash-free names are staged at distinct paths, except where exactly one of the database
  // and table names is empty: then swapping the two names gives the same path.
  lemma StagingPathIsUniqueIff(shadowDir: string, x: Staged, alnum: char -> bool)
    requires Classifies(alnum) && IsDir(shadowDir) && SlashFree(x)
    ensures Unambiguous(shadowDir, x, alnum) <==> (x.db == [] <==> x.table == [])
  {
    if x.db == [] <==> x.table == [] {
      forall y: Staged | SlashFree(y) && StagingPath(shadowDir, y, alnum) == StagingPath(shadowDir, x, alnum)
        ensures y == x
      {
        SamePathSameNames(shadowDir, x, y, alnum);
        SameNames(x, y, alnum);
      }
    } else {
      SwappedEmptyName(shadowDir, x, alnum);
    }
  }
}
