/** The text primitives the metadata format rests on: lines, fields, trimming and decimal numbers. */
module Text {
  import opened Options
  import opened Sequences

  // -- trimming --

  /** The characters with the Unicode White_Space property. */
  predicate IsWhitespace(c: char) {
    var n := c as int;
    || 9 <= n <= 13 || n == 32 || n == 0x85 || n == 0xA0 || n == 0x1680 || 0x2000 <= n <= 0x200A
    || n == 0x2028 || n == 0x2029 || n == 0x202F || n == 0x205F || n == 0x3000
  }

  predicate IsSlash(c: char) {
    c == '/'
  }

  function TrimStart(s: string, p: char -> bool): string {
    if s != [] && p(s[0]) then TrimStart(s[1..], p) else s
  }

  function TrimEnd(s: string, p: char -> bool): string {
    if s != [] && p(s[|s| - 1]) then TrimEnd(s[..|s| - 1], p) else s
  }

  function TrimBoth(s: string, p: char -> bool): string {
    TrimEnd(TrimStart(s, p), p)
  }

  function Trim(s: string): string {
    TrimBoth(s, IsWhitespace)
  }

  /** Neither end satisfies `p`. */
  predicate Bare(s: string, p: char -> bool) {
    s == [] || (!p(s[0]) && !p(s[|s| - 1]))
  }

  predicate Only(s: string, p: char -> bool) {
    forall i :: 0 <= i < |s| ==> p(s[i])
  }

  // What trimming takes away on the left ends at `k`.
  lemma {:induction false} TrimStartSplits(s: string, p: char -> bool) returns (k: nat)
    ensures k <= |s| && TrimStart(s, p) == s[k..] && (k < |s| ==> !p(s[k])) && Only(s[..k], p)
  {
    if s != [] && p(s[0]) {
      k := TrimStartSplits(s[1..], p);
      assert s[1..][k..] == s[k + 1..];
      k := k + 1;
    } else {
      k := 0;
    }
  }

  lemma {:induction false} TrimEndSplits(s: string, p: char -> bool) returns (k: nat)
    ensures k <= |s| && TrimEnd(s, p) == s[..k] && (k > 0 ==> !p(s[k - 1])) && Only(s[k..], p)
  {
    if s != [] && p(s[|s| - 1]) {
      k := TrimEndSplits(s[..|s| - 1], p);
      assert s[..|s| - 1][..k] == s[..k];
      assert s[k..] == s[..|s| - 1][k..] + [s[|s| - 1]];
    } else {
      k := |s|;
    }
  }

  // Trimming leaves a piece of the text with bare ends, and leaves bare text alone.
  lemma TrimBares(s: string, p: char -> bool)
    ensures Bare(TrimBoth(s, p), p)
    ensures forall c :: c in TrimBoth(s, p) ==> c in s
    ensures Bare(s, p) ==> TrimBoth(s, p) == s
  {
    var i := TrimStartSplits(s, p);
    var j := TrimEndSplits(TrimStart(s, p), p);
  }

  lemma {:induction false} TrimStartTakesOff(left: string, s: string, p: char -> bool)
    requires Only(left, p) && (s == [] || !p(s[0]))
    ensures TrimStart(left + s, p) == s
  {
    if left == [] {
      assert left + s == s;
    } else {
      assert (left + s)[1..] == left[1..] + s && (left + s)[0] == left[0];
      TrimStartTakesOff(left[1..], s, p);
    }
  }

  lemma {:induction false} TrimEndTakesOff(s: string, right: string, p: char -> bool)
    requires Only(right, p) && (s == [] || !p(s[|s| - 1]))
    ensures TrimEnd(s + right, p) == s
    decreases |right|
  {
    var all, n := s + right, |s + right| - 1;
    if right == [] {
      assert all == s;
    } else {
      assert all[..n] == s + right[..|right| - 1] && all[n] == right[|right| - 1];
      TrimEndTakesOff(s, right[..|right| - 1], p);
    }
  }

  // Trimming takes off exactly what stands around the bare middle.
  lemma TrimTakesOff(left: string, s: string, right: string, p: char -> bool)
    requires Only(left, p) && Only(right, p) && Bare(s, p)
    ensures TrimBoth(left + s + right, p) == s
    ensures TrimEnd(s + right, p) == s
  {
    if s == [] {
      TrimStartTakesOff(left + right, [], p);
      assert left + s + right == (left + right) + [];
    } else {
      TrimStartTakesOff(left, s + right, p);
      assert left + s + right == left + (s + right);
    }
    TrimEndTakesOff(s, right, p);
  }

  // A text trims to `core` exactly if it is `core` with whitespace, or whatever is trimmed, around it.
  lemma TrimsToIff(s: string, core: string, p: char -> bool)
    requires Bare(core, p)
    ensures TrimBoth(s, p) == core
       <==> exists left, right :: Only(left, p) && Only(right, p) && s == left + core + right
  {
    if TrimBoth(s, p) == core {
      var i := TrimStartSplits(s, p);
      var j := TrimEndSplits(s[i..], p);
      assert s == s[..i] + core + s[i..][j..];
    }
    if left, right :| Only(left, p) && Only(right, p) && s == left + core + right {
      TrimTakesOff(left, core, right, p);
    }
  }

  // -- lines and fields --

  function IndexOf(s: string, c: char): (k: nat)
    ensures k <= |s| && (forall i :: 0 <= i < k ==> s[i] != c)
    ensures k < |s| ==> s[k] == c
  {
    if s == [] || s[0] == c then 0 else IndexOf(s[1..], c) + 1
  }

  function StripCr(s: string): string {
    if s != [] && s[|s| - 1] == '\r' then s[..|s| - 1] else s
  }

  /** Lines end at a newline, which may be preceded by a carriage return; a last line may lack its newline. */
  function Lines(s: string): seq<string> {
    if s == [] then []
    else
      var k := IndexOf(s, '\n');
      if k == |s| then [s] else [StripCr(s[..k])] + Lines(s[k + 1..])
  }

  /** Every line followed by a newline. */
  function Unlines(lines: seq<string>): string {
    if lines == [] then "" else Unlines(lines[..|lines| - 1]) + lines[|lines| - 1] + ['\n']
  }

  function Split(s: string, sep: char): (fields: seq<string>)
    ensures |fields| >= 1
  {
    if s == [] then [[]]
    else
      var rest := Split(s[1..], sep);
      if s[0] == sep then [[]] + rest else [[s[0]] + rest[0]] + rest[1..]
  }

  lemma {:induction false} LinesHaveNoBreaks(s: string, i: nat)
    requires i < |Lines(s)|
    ensures '\n' !in Lines(s)[i]
  {
    var k := IndexOf(s, '\n');
    if k < |s| && i > 0 {
      LinesHaveNoBreaks(s[k + 1..], i - 1);
    }
  }

  lemma UnlinesAppend(lines: seq<string>, last: string)
    ensures Unlines(lines + [last]) == Unlines(lines) + last + ['\n']
  {
    assert (lines + [last])[..|lines|] == lines;
  }

  lemma {:induction false} UnlinesCons(first: string, rest: seq<string>)
    ensures Unlines([first] + rest) == first + ['\n'] + Unlines(rest)
    decreases |rest|
  {
    if rest == [] {
      assert [first] + rest == [] + [first];
      UnlinesAppend([], first);
    } else {
      var init, last := rest[..|rest| - 1], rest[|rest| - 1];
      UnlinesCons(first, init);
      assert [first] + rest == ([first] + init) + [last];
      UnlinesAppend([first] + init, last);
    }
  }

  // The first line of a text that starts with one.
  lemma FirstLine(line: string, rest: string)
    requires '\n' !in line
    ensures Lines(line + ['\n'] + rest) == [StripCr(line)] + Lines(rest)
  {
    var s := line + ['\n'] + rest;
    var k := IndexOf(s, '\n');
    assert s[|line|] == '\n' && forall i :: 0 <= i < |line| ==> s[i] == line[i];
    assert k == |line|;
    assert s[..k] == line && s[k + 1..] == rest;
  }

  function StripCrs(lines: seq<string>): seq<string> {
    seq(|lines|, i requires 0 <= i < |lines| => StripCr(lines[i]))
  }

  lemma StripCrsCons(lines: seq<string>)
    requires lines != []
    ensures StripCrs(lines) == [StripCr(lines[0])] + StripCrs(lines[1..])
  {
  }

  // Reading back written lines loses nothing but a carriage return at the end of each.
  lemma {:induction false} LinesOfUnlines(lines: seq<string>)
    requires forall i :: 0 <= i < |lines| ==> '\n' !in lines[i]
    ensures Lines(Unlines(lines)) == StripCrs(lines)
  {
    if lines != [] {
      var first, rest := lines[0], lines[1..];
      LinesOfUnlines(rest);
      assert Unlines(lines) == first + ['\n'] + Unlines(rest) by {
        UnlinesCons(first, rest);
        assert lines == [first] + rest;
      }
      FirstLine(first, Unlines(rest));
      StripCrsCons(lines);
    }
  }

  // A last line without its newline is a line all the same, with all its characters.
  lemma {:induction false} LinesOfUnfinished(lines: seq<string>, last: string)
    requires (forall i :: 0 <= i < |lines| ==> '\n' !in lines[i]) && '\n' !in last && last != []
    ensures Lines(Unlines(lines) + last) == StripCrs(lines) + [last]
  {
    if lines == [] {
      assert Unlines(lines) + last == last;
      assert IndexOf(last, '\n') == |last|;
    } else {
      var first, rest := lines[0], lines[1..];
      LinesOfUnfinished(rest, last);
      UnfinishedCons(first, rest, last);
      assert lines == [first] + rest;
      StripCrsCons(lines);
      Regroup([StripCr(first)], StripCrs(rest), [last]);
    }
  }

  lemma UnfinishedCons(first: string, rest: seq<string>, last: string)
    requires '\n' !in first
    ensures Lines(Unlines([first] + rest) + last) == [StripCr(first)] + Lines(Unlines(rest) + last)
  {
    UnlinesCons(first, rest);
    Regroup(first + ['\n'], Unlines(rest), last);
    FirstLine(first, Unlines(rest) + last);
  }

  lemma {:induction false} SplitFields(s: string, sep: char, i: nat)
    requires i < |Split(s, sep)|
    ensures sep !in Split(s, sep)[i] && forall c :: c in Split(s, sep)[i] ==> c in s
  {
    if s != [] {
      if s[0] == sep {
        if i > 0 {
          SplitFields(s[1..], sep, i - 1);
        }
      } else {
        SplitFields(s[1..], sep, i);
      }
    }
  }

  lemma {:induction false} SplitWhole(s: string, sep: char)
    requires sep !in s
    ensures Split(s, sep) == [s]
  {
    if s != [] {
      SplitWhole(s[1..], sep);
      assert [s[0]] + s[1..] == s;
    }
  }

  lemma {:induction false} SplitPair(a: string, b: string, sep: char)
    requires sep !in a && sep !in b
    ensures Split(a + [sep] + b, sep) == [a, b]
  {
    var s := a + [sep] + b;
    if a == [] {
      assert s[1..] == b;
      SplitWhole(b, sep);
    } else {
      SplitPair(a[1..], b, sep);
      assert s[1..] == a[1..] + [sep] + b;
      assert [a[0]] + a[1..] == a;
    }
  }

  // The first field ends at the first separator.
  lemma {:induction false} SplitFirst(a: string, b: string, sep: char)
    requires sep !in a
    ensures Split(a + [sep] + b, sep) == [a] + Split(b, sep)
  {
    var s := a + [sep] + b;
    if a == [] {
      assert s[1..] == b;
    } else {
      SplitFirst(a[1..], b, sep);
      assert s[1..] == a[1..] + [sep] + b;
      assert [a[0]] + a[1..] == a;
    }
  }

  // The last field starts after the last separator.
  lemma {:induction false} SplitLast(s: string, sep: char) returns (before: string)
    ensures var fields := Split(s, sep);
            && s == before + fields[|fields| - 1] && sep !in fields[|fields| - 1]
            && (before == [] || before[|before| - 1] == sep)
            && (sep in s ==> |fields| > 1)
  {
    if sep !in s {
      before := [];
      SplitWhole(s, sep);
    } else {
      assert s == [s[0]] + s[1..];
      if sep in s[1..] {
        var rest := Split(s[1..], sep);
        var tail := SplitLast(s[1..], sep);
        before := [s[0]] + tail;
        assert Split(s, sep)[|Split(s, sep)| - 1] == rest[|rest| - 1];
        Regroup([s[0]], tail, rest[|rest| - 1]);
      } else {
        before := [s[0]];
        SplitWhole(s[1..], sep);
      }
    }
  }

  // -- decimal numbers --

  predicate IsDigit(c: char) {
    '0' <= c <= '9'
  }

  function Digit(d: nat): char
    requires d < 10
  {
    (48 + d) as char
  }

  function Decimal(n: nat): string {
    if n < 10 then [Digit(n)] else Decimal(n / 10) + [Digit(n % 10)]
  }

  function ParseDigits(s: string, acc: nat, max: nat): Option<nat> {
    if s == [] then Some(acc)
    else if !IsDigit(s[0]) then None
    else
      var next := acc * 10 + (s[0] as int - 48);
      if next > max then None else ParseDigits(s[1..], next, max)
  }

  /** An unsigned number of at most `max`, with an optional plus sign and any number of leading zeros. */
  function ParseUint(s: string, max: nat): Option<nat> {
    if s == [] then None
    else if s[0] == '+' then if |s| == 1 then None else ParseDigits(s[1..], 0, max)
    else ParseDigits(s, 0, max)
  }

  lemma {:induction false} ParseDigitsAppend(s: string, c: char, acc: nat, max: nat)
    requires IsDigit(c)
    ensures ParseDigits(s + [c], acc, max) ==
            match ParseDigits(s, acc, max)
            case None => None
            case Some(n) => var next := n * 10 + (c as int - 48); if next > max then None else Some(next)
    decreases |s|
  {
    if s == [] {
      assert s + [c] == [c];
      assert [c][1..] == [];
    } else {
      assert (s + [c])[1..] == s[1..] + [c];
      if IsDigit(s[0]) {
        ParseDigitsAppend(s[1..], c, acc * 10 + (s[0] as int - 48), max);
      }
    }
  }

  lemma {:induction false} DecimalDigits(n: nat, max: nat)
    requires n <= max
    ensures ParseDigits(Decimal(n), 0, max) == Some(n)
    ensures Decimal(n) != [] && forall c :: c in Decimal(n) ==> IsDigit(c)
  {
    if n < 10 {
      assert Decimal(n)[1..] == [];
    } else {
      DecimalDigits(n / 10, max);
      ParseDigitsAppend(Decimal(n / 10), Digit(n % 10), 0, max);
    }
  }

  // Printed numbers read back as themselves, and never need trimming.
  lemma DecimalReadsBack(n: nat, max: nat)
    requires n <= max
    ensures ParseUint(Trim(Decimal(n)), max) == Some(n)
    ensures forall c :: c in Decimal(n) ==> IsDigit(c)
    ensures StripCr(Decimal(n)) == Decimal(n)
  {
    DecimalDigits(n, max);
    var d := Decimal(n);
    assert d[0] in d && d[|d| - 1] in d;
    TrimBares(d, IsWhitespace);
  }

  lemma {:induction false} ParseDigitsBounded(s: string, acc: nat, max: nat)
    requires acc <= max
    ensures ParseDigits(s, acc, max).Some? ==> ParseDigits(s, acc, max).value <= max
  {
    if s != [] && IsDigit(s[0]) && acc * 10 + (s[0] as int - 48) <= max {
      ParseDigitsBounded(s[1..], acc * 10 + (s[0] as int - 48), max);
    }
  }

  lemma ParseUintBounded(s: string, max: nat)
    ensures ParseUint(s, max).Some? ==> ParseUint(s, max).value <= max
  {
    ParseDigitsBounded(s, 0, max);
    if s != [] {
      ParseDigitsBounded(s[1..], 0, max);
    }
  }

  function Zeros(k: nat): string {
    if k == 0 then [] else Zeros(k - 1) + ['0']
  }

  lemma {:induction false} ZerosAreNothing(k: nat, s: string, max: nat)
    ensures ParseDigits(Zeros(k) + s, 0, max) == ParseDigits(s, 0, max)
  {
    if k == 0 {
      assert Zeros(k) + s == s;
    } else {
      ZerosAreNothing(k - 1, ['0'] + s, max);
      assert Zeros(k) + s == Zeros(k - 1) + (['0'] + s);
      assert (['0'] + s)[1..] == s;
    }
  }

  // What parses is some zeros before the digits of the number.
  lemma {:induction false} DigitsOfParsed(s: string, max: nat, n: nat) returns (k: nat)
    requires s != [] && ParseDigits(s, 0, max) == Some(n)
    ensures s == Zeros(k) + Decimal(n)
  {
    var init, c := s[..|s| - 1], s[|s| - 1];
    assert s == init + [c];
    DigitsOnly(s, 0, max);
    ParseDigitsAppend(init, c, 0, max);
    if init == [] {
      k := 0;
    } else {
      var m := ParseDigits(init, 0, max).value;
      k := DigitsOfParsed(init, max, m);
      if m == 0 {
        k := k + 1;
      } else {
        assert n / 10 == m && n % 10 == c as int - 48;
      }
    }
  }

  lemma {:induction false} DigitsOnly(s: string, acc: nat, max: nat)
    requires ParseDigits(s, acc, max).Some?
    ensures forall c :: c in s ==> IsDigit(c)
  {
    if s != [] {
      DigitsOnly(s[1..], acc * 10 + (s[0] as int - 48), max);
      assert s == [s[0]] + s[1..];
    }
  }

  lemma DecimalIsNoSign(n: nat)
    ensures Decimal(n)[0] != '+'
  {
    DecimalDigits(n, n);
    assert Decimal(n)[0] in Decimal(n);
  }

  // Exactly these texts parse as `n`: an optional plus sign, any number of zeros and the digits of `n`, if it is in range.
  lemma ParsesAsIff(s: string, max: nat, n: nat)
    ensures ParseUint(s, max) == Some(n) <==>
            n <= max && exists k: nat :: s == Zeros(k) + Decimal(n) || s == ['+'] + (Zeros(k) + Decimal(n))
  {
    if ParseUint(s, max) == Some(n) {
      ParseUintBounded(s, max);
      if s[0] == '+' {
        var k := DigitsOfParsed(s[1..], max, n);
        assert s == ['+'] + (Zeros(k) + Decimal(n));
      } else {
        var k := DigitsOfParsed(s, max, n);
        assert s == Zeros(k) + Decimal(n);
      }
    }
    if n <= max {
      if k: nat :| s == Zeros(k) + Decimal(n) || s == ['+'] + (Zeros(k) + Decimal(n)) {
        ZeroPadded(k, n, max);
        assert s[0] == '+' ==> s[1..] == Zeros(k) + Decimal(n);
      }
    }
  }

  lemma {:induction false} ZeroPadded(k: nat, n: nat, max: nat)
    requires n <= max
    ensures var d := Zeros(k) + Decimal(n); d != [] && d[0] != '+' && ParseDigits(d, 0, max) == Some(n)
  {
    ZerosAreNothing(k, Decimal(n), max);
    DecimalDigits(n, max);
    DecimalIsNoSign(n);
    ZerosStart(k);
  }

  lemma {:induction false} ZerosStart(k: nat)
    ensures k > 0 ==> Zeros(k)[0] == '0'
  {
    if k > 1 {
      ZerosStart(k - 1);
    }
  }
}
