/** Resolving `{macro}` placeholders in disk paths, one textual replacement per macro in hash-map order. */
module Macros {
  import opened Sequences
  import opened Text

  datatype Macro = Macro(key: string, value: string)

  /** Every non-overlapping occurrence from left to right. */
  function Replace(s: string, pattern: string, value: string): string
    requires pattern != []
  {
    if s == [] then []
    else if pattern <= s then value + Replace(s[|pattern|..], pattern, value)
    else [s[0]] + Replace(s[1..], pattern, value)
  }

  function Pattern(key: string): string {
    ['{'] + key + ['}']
  }

  /** One replacement after the other. */
  function ReplaceAll(s: string, macros: seq<Macro>): string
    decreases |macros|
  {
    if macros == [] then s
    else ReplaceAll(Replace(s, Pattern(macros[0].key), macros[0].value), macros[1..])
  }

  /** All placeholders at once: an inserted value is never looked at again. */
  function Substitute(s: string, values: map<string, string>): string {
    if s == [] then []
    else
      var close := IndexOf(s, '}');
      if s[0] == '{' && close < |s| && s[1..close] in values
      then values[s[1..close]] + Substitute(s[close + 1..], values)
      else [s[0]] + Substitute(s[1..], values)
  }

  predicate BraceFree(s: string) {
    '{' !in s && '}' !in s
  }

  predicate Tame(macros: seq<Macro>) {
    && (forall i :: 0 <= i < |macros| ==> BraceFree(macros[i].key) && BraceFree(macros[i].value))
    && (forall i, j :: 0 <= i < j < |macros| ==> macros[i].key != macros[j].key)
  }

  /** Every brace belongs to a placeholder without braces inside. */
  predicate Closed(s: string) {
    s == [] ||
    if s[0] == '{' then
      var close := IndexOf(s, '}');
      close < |s| && '{' !in s[1..close] && Closed(s[close + 1..])
    else s[0] != '}' && Closed(s[1..])
  }

  /** A matched pair of braces contains another one; `b` is what stands inside the smallest such pair. */
  ghost predicate Nested(s: string) {
    exists p, b, q :: NestedAt(s, p, b, q)
  }

  predicate NestedAt(s: string, p: string, b: string, q: string) {
    s == p + (['{'] + (b + (['}'] + q))) && Closed(b) && '{' in b
  }

  /** No closing brace without an opening one before it, beside `open` of them. */
  predicate NoStray(s: string, open: nat) {
    s == [] ||
    if s[0] == '{' then NoStray(s[1..], open + 1)
    else if s[0] == '}' then open > 0 && NoStray(s[1..], open - 1)
    else NoStray(s[1..], open)
  }

  /** An opening brace followed by another one before the next closing brace is never closed. */
  predicate Tidy(s: string) {
    s == [] ||
    if s[0] == '{' then
      var close := IndexOf(s, '}');
      if '{' in s[1..close] then NoStray(s[1..], 0) && Tidy(s[1..])
      else close < |s| ==> Tidy(s[close + 1..])
    else Tidy(s[1..])
  }

  function Values(macros: seq<Macro>): map<string, string> {
    if macros == [] then map[] else Values(macros[1..])[macros[0].key := macros[0].value]
  }

  lemma {:induction false} KeysOfValues(macros: seq<Macro>, key: string)
    ensures key in Values(macros) <==> exists i :: 0 <= i < |macros| && macros[i].key == key
  {
    if macros != [] {
      KeysOfValues(macros[1..], key);
      assert forall i :: 0 < i < |macros| ==> macros[i] == macros[1..][i - 1];
    }
  }

  lemma SubstituteOne(c: char, t: string, values: map<string, string>)
    requires c != '{'
    ensures Substitute([c] + t, values) == [c] + Substitute(t, values)
  {
    assert ([c] + t)[1..] == t;
  }

  // Text before the first opening brace stays.
  lemma {:induction false} SubstituteSkips(s: string, t: string, values: map<string, string>)
    requires '{' !in s
    ensures Substitute(s + t, values) == s + Substitute(t, values)
  {
    if s == [] {
      assert s + t == t;
    } else {
      var c, rest := s[0], s[1..];
      assert s == [c] + rest;
      Regroup([c], rest, t);
      SubstituteSkips(rest, t, values);
      SubstituteOne(c, rest + t, values);
      Regroup([c], rest, Substitute(t, values));
    }
  }

  lemma {:induction false} TidySkips(s: string, t: string)
    requires '{' !in s
    ensures Tidy(s + t) <==> Tidy(t)
  {
    if s == [] {
      assert s + t == t;
    } else {
      TidySkips(s[1..], t);
      assert (s + t)[1..] == s[1..] + t;
    }
  }

  lemma FirstClose(inner: string, t: string)
    requires '}' !in inner
    ensures IndexOf(['{'] + inner + ['}'] + t, '}') == |inner| + 1
  {
    var s := ['{'] + inner + ['}'] + t;
    assert s[|inner| + 1] == '}';
    assert forall i :: 0 < i < |inner| + 1 ==> s[i] == inner[i - 1];
  }

  /** What a placeholder becomes. */
  function Filled(inner: string, values: map<string, string>): string {
    if inner in values then values[inner] else Pattern(inner)
  }

  lemma PlaceholderParts(inner: string, t: string)
    requires BraceFree(inner)
    ensures var s := Pattern(inner) + t;
            && s[0] == '{' && IndexOf(s, '}') == |inner| + 1 && s[1..|inner| + 1] == inner
            && s[|inner| + 2..] == t && s[1..] == inner + ['}'] + t
  {
    FirstClose(inner, t);
    assert Pattern(inner) + t == ['{'] + inner + ['}'] + t;
  }

  // A placeholder at the start: replaced if known, else kept.
  lemma SubstitutePlaceholder(inner: string, t: string, values: map<string, string>)
    requires BraceFree(inner)
    ensures Substitute(Pattern(inner) + t, values) == Filled(inner, values) + Substitute(t, values)
  {
    PlaceholderParts(inner, t);
    if inner !in values {
      SubstituteSkips(inner + ['}'], t, values);
      assert Pattern(inner) + Substitute(t, values) == ['{'] + (inner + ['}'] + Substitute(t, values));
    }
  }

  lemma TidyPlaceholder(inner: string, t: string)
    requires BraceFree(inner)
    ensures Tidy(Pattern(inner) + t) <==> Tidy(t)
  {
    PlaceholderParts(inner, t);
  }

  lemma Unclosed(s: string, values: map<string, string>)
    requires s != [] && s[0] == '{' && '{' !in s[1..] && '}' !in s
    ensures Substitute(s, values) == s && Tidy(s)
  {
    SubstituteSkips(s[1..], [], values);
    assert s[1..] + [] == s[1..];
    assert [s[0]] + s[1..] == s;
    assert IndexOf(s, '}') == |s|;
    assert s[1..|s|] == s[1..];
  }

  // A single textual replacement is a substitution of one macro.
  lemma {:induction false} ReplaceIsSubstitute(s: string, m: Macro)
    requires BraceFree(m.key)
    ensures Replace(s, Pattern(m.key), m.value) == Substitute(s, map[m.key := m.value])
  {
    if s != [] {
      var p, close := Pattern(m.key), IndexOf(s, '}');
      if p <= s {
        assert s == p + s[|p|..] && |p| == |m.key| + 2;
        FirstClose(m.key, s[|p|..]);
        assert s == ['{'] + m.key + ['}'] + s[|p|..];
        assert s[1..close] == m.key && s[close + 1..] == s[|p|..];
        ReplaceIsSubstitute(s[|p|..], m);
      } else {
        assert 1 <= close < |s| && s[0] == '{' ==> s[..close + 1] == Pattern(s[1..close]);
        ReplaceIsSubstitute(s[1..], m);
      }
    }
  }

  // -- braces that are opened twice and never closed --

  predicate BraceFreeKeys(values: map<string, string>) {
    forall k :: k in values ==> BraceFree(k)
  }

  // Before the first closing brace there is an opening one.
  lemma {:induction false} OpenedBeforeClosed(s: string)
    requires NoStray(s, 0) && IndexOf(s, '}') < |s|
    ensures '{' in s[..IndexOf(s, '}')]
  {
    if s[0] != '{' {
      OpenedBeforeClosed(s[1..]);
      assert s[1..][..IndexOf(s[1..], '}')] == s[1..IndexOf(s, '}')];
    } else {
      assert s[..IndexOf(s, '}')][0] == '{';
    }
  }

  lemma {:induction false} NoStraySkips(s: string, t: string, open: nat)
    requires BraceFree(s)
    ensures NoStray(s + t, open) <==> NoStray(t, open)
  {
    if s == [] {
      assert s + t == t;
    } else {
      NoStraySkips(s[1..], t, open);
      assert (s + t)[1..] == s[1..] + t;
    }
  }

  lemma NoStrayPlaceholder(inner: string, t: string, open: nat)
    requires BraceFree(inner)
    ensures NoStray(Pattern(inner) + t, open) <==> NoStray(t, open)
  {
    assert (Pattern(inner) + t)[1..] == inner + (['}'] + t);
    NoStraySkips(inner, ['}'] + t, open + 1);
    assert (['}'] + t)[1..] == t;
  }

  // Substituting one macro leaves no closing brace without its opening one.
  lemma {:induction false} SubstituteKeepsNoStray(s: string, m: Macro, open: nat)
    requires NoStray(s, open) && BraceFree(m.key) && BraceFree(m.value)
    ensures NoStray(Substitute(s, map[m.key := m.value]), open)
    decreases |s|
  {
    if s != [] {
      var one, close := map[m.key := m.value], IndexOf(s, '}');
      if s[0] == '{' && close < |s| && s[1..close] == m.key {
        var rest := s[close + 1..];
        assert s == Pattern(m.key) + rest;
        NoStrayPlaceholder(m.key, rest, open);
        SubstituteKeepsNoStray(rest, m, open);
        NoStraySkips(m.value, Substitute(rest, one), open);
      } else {
        SubstituteKeepsNoStray(s[1..], m, if s[0] == '{' then open + 1 else if s[0] == '}' then open - 1 else open);
      }
    }
  }

  // A doubly opened brace stays a mere character.
  lemma NeverClosed(t: string, values: map<string, string>)
    requires NoStray(t, 0) && Tidy(t) && BraceFreeKeys(values)
    ensures Substitute(['{'] + t, values) == ['{'] + Substitute(t, values) && Tidy(['{'] + t)
  {
    var s := ['{'] + t;
    var close := IndexOf(s, '}');
    assert s[1..] == t;
    if close < |s| {
      assert IndexOf(t, '}') == close - 1;
      OpenedBeforeClosed(t);
      assert t[..close - 1] == s[1..close];
    }
  }

  lemma DoublyOpened(t: string, m: Macro, values: map<string, string>)
    requires NoStray(t, 0) && Tidy(t)
    requires BraceFree(m.key) && BraceFree(m.value) && BraceFreeKeys(values)
    requires Tidy(Substitute(t, map[m.key := m.value]))
    ensures var one, all, s := map[m.key := m.value], values[m.key := m.value], ['{'] + t;
            && Tidy(Substitute(s, one))
            && (Substitute(Substitute(t, one), values) == Substitute(t, all) ==>
                  Substitute(Substitute(s, one), values) == Substitute(s, all))
  {
    var one, all := map[m.key := m.value], values[m.key := m.value];
    NeverClosed(t, one);
    NeverClosed(t, all);
    SubstituteKeepsNoStray(t, m, 0);
    NeverClosed(Substitute(t, one), values);
  }

  lemma PlainOneThenRest(c: char, t: string, m: Macro, values: map<string, string>)
    requires c != '{'
    ensures var one, all, s := map[m.key := m.value], values[m.key := m.value], [c] + t;
            && (Tidy(Substitute(s, one)) <==> Tidy(Substitute(t, one)))
            && (Substitute(Substitute(t, one), values) == Substitute(t, all) ==>
                  Substitute(Substitute(s, one), values) == Substitute(s, all))
  {
    var one, all := map[m.key := m.value], values[m.key := m.value];
    SubstituteSkips([c], t, one);
    SubstituteSkips([c], t, all);
    SubstituteSkips([c], Substitute(t, one), values);
    TidySkips([c], Substitute(t, one));
  }

  // Substituting one macro first and the others afterwards is substituting all of them.
  lemma {:induction false} SubstituteOneThenRest(s: string, m: Macro, values: map<string, string>)
    requires Tidy(s) && BraceFree(m.key) && BraceFree(m.value) && m.key !in values && BraceFreeKeys(values)
    ensures var once := Substitute(s, map[m.key := m.value]);
            Tidy(once) && Substitute(once, values) == Substitute(s, values[m.key := m.value])
    decreases |s|
  {
    if s != [] {
      var close := IndexOf(s, '}');
      if s[0] != '{' {
        SubstituteOneThenRest(s[1..], m, values);
        PlainOneThenRest(s[0], s[1..], m, values);
        assert s == [s[0]] + s[1..];
      } else if '{' in s[1..close] {
        SubstituteOneThenRest(s[1..], m, values);
        DoublyOpened(s[1..], m, values);
        assert s == ['{'] + s[1..];
      } else if close == |s| {
        assert s[1..close] == s[1..];
        Unclosed(s, map[m.key := m.value]);
        Unclosed(s, values);
        Unclosed(s, values[m.key := m.value]);
      } else {
        var inner, rest := s[1..close], s[close + 1..];
        assert s == Pattern(inner) + rest;
        PlaceholderOneThenRest(inner, rest, m, values);
        SubstituteOneThenRest(rest, m, values);
      }
    }
  }

  lemma PlaceholderOneThenRest(inner: string, rest: string, m: Macro, values: map<string, string>)
    requires BraceFree(inner) && BraceFree(m.value) && m.key !in values
    ensures var one, all, s := map[m.key := m.value], values[m.key := m.value], Pattern(inner) + rest;
            && (Tidy(Substitute(s, one)) <==> Tidy(Substitute(rest, one)))
            && (Substitute(Substitute(rest, one), values) == Substitute(rest, all) ==>
                  Substitute(Substitute(s, one), values) == Substitute(s, all))
  {
    var one, all := map[m.key := m.value], values[m.key := m.value];
    SubstitutePlaceholder(inner, rest, one);
    SubstitutePlaceholder(inner, rest, all);
    if inner == m.key {
      SubstituteSkips(m.value, Substitute(rest, one), values);
      TidySkips(m.value, Substitute(rest, one));
    } else {
      SubstitutePlaceholder(inner, Substitute(rest, one), values);
      TidyPlaceholder(inner, Substitute(rest, one));
    }
  }

  lemma {:induction false} TameValues(macros: seq<Macro>)
    requires Tame(macros)
    ensures BraceFreeKeys(Values(macros))
  {
    forall k | k in Values(macros)
      ensures BraceFree(k)
    {
      KeysOfValues(macros, k);
    }
  }

  lemma {:induction false} TidyReplaceAll(s: string, macros: seq<Macro>)
    requires Tidy(s) && Tame(macros)
    ensures ReplaceAll(s, macros) == Substitute(s, Values(macros))
    decreases |macros|
  {
    if macros == [] {
      NothingToSubstitute(s, map[]);
    } else {
      var m, rest := macros[0], macros[1..];
      KeysOfValues(rest, m.key);
      assert forall i :: 0 <= i < |rest| ==> rest[i] == macros[i + 1];
      TameValues(rest);
      ReplaceIsSubstitute(s, m);
      SubstituteOneThenRest(s, m, Values(rest));
      TidyReplaceAll(Substitute(s, map[m.key := m.value]), rest);
    }
  }

  lemma {:induction false} NothingToSubstitute(s: string, values: map<string, string>)
    requires '{' !in s || values == map[]
    ensures Substitute(s, values) == s
  {
    if s != [] {
      NothingToSubstitute(s[1..], values);
    }
  }

  lemma {:induction false} ReplaceAllAppend(s: string, macros: seq<Macro>, m: Macro)
    ensures ReplaceAll(s, macros + [m]) == Replace(ReplaceAll(s, macros), Pattern(m.key), m.value)
    decreases |macros|
  {
    if macros == [] {
      assert macros + [m] == [m];
      assert [m][1..] == [];
    } else {
      assert (macros + [m])[1..] == macros[1..] + [m];
      ReplaceAllAppend(Replace(s, Pattern(macros[0].key), macros[0].value), macros[1..], m);
    }
  }

  // -- finding a nested pair --

  // Up to the first closing brace too many, every brace is closed.
  lemma {:induction false} ClosedUpToStray(t: string) returns (b: string, q: string)
    requires Tidy(t) && !NoStray(t, 0)
    ensures t == b + (['}'] + q) && Closed(b)
  {
    if t[0] == '}' {
      b, q := [], t[1..];
    } else if t[0] == '{' {
      var close := IndexOf(t, '}');
      if '{' in t[1..close] {
        MoreOpen(t[1..], 0);
        b, q := [], [];
      } else if close == |t| {
        NothingToClose(t, 0);
        b, q := [], [];
      } else {
        var inner, rest := t[1..close], t[close + 1..];
        assert t == Pattern(inner) + rest && BraceFree(inner);
        NoStrayPlaceholder(inner, rest, 0);
        b, q := ClosedUpToStray(rest);
        ClosedPlaceholder(inner, b);
        Regroup(Pattern(inner), b, ['}'] + q);
        b := Pattern(inner) + b;
      }
    } else {
      b, q := ClosedUpToStray(t[1..]);
      assert t == [t[0]] + t[1..] && ([t[0]] + b)[1..] == b;
      Regroup([t[0]], b, ['}'] + q);
      b := [t[0]] + b;
    }
  }

  lemma {:induction false} MoreOpen(s: string, open: nat)
    requires NoStray(s, open)
    ensures NoStray(s, open + 1)
  {
    if s != [] {
      if s[0] == '{' {
        MoreOpen(s[1..], open + 1);
      } else if s[0] == '}' {
        MoreOpen(s[1..], open - 1);
      } else {
        MoreOpen(s[1..], open);
      }
    }
  }

  lemma {:induction false} NothingToClose(s: string, open: nat)
    requires '}' !in s
    ensures NoStray(s, open)
  {
    if s != [] {
      NothingToClose(s[1..], if s[0] == '{' then open + 1 else open);
    }
  }

  lemma ClosedPlaceholder(inner: string, t: string)
    requires BraceFree(inner)
    ensures Closed(Pattern(inner) + t) <==> Closed(t)
  {
    FirstClose(inner, t);
    var s := Pattern(inner) + t;
    assert s == ['{'] + inner + ['}'] + t;
    assert s[1..|inner| + 1] == inner && s[|inner| + 2..] == t;
  }

  lemma {:induction false} UntidyIsNested(s: string) returns (p: string, b: string, q: string)
    requires !Tidy(s)
    ensures NestedAt(s, p, b, q)
    decreases |s|
  {
    var close := IndexOf(s, '}');
    if s[0] != '{' || ('{' in s[1..close] && !Tidy(s[1..])) {
      p, b, q := UntidyIsNested(s[1..]);
      p := [s[0]] + p;
    } else if '{' !in s[1..close] {
      p, b, q := UntidyIsNested(s[close + 1..]);
      p := s[..close + 1] + p;
    } else {
      b, q := ClosedUpToStray(s[1..]);
      p := [];
      assert s == ['{'] + s[1..] && p + s == s;
      FirstBraceOpens(s[1..], b, q, close - 1);
    }
  }

  lemma FirstBraceOpens(t: string, b: string, q: string, close: nat)
    requires t == b + (['}'] + q) && close <= |t| && '{' in t[..close] && '}' !in t[..close]
    ensures '{' in b
  {
    var i :| 0 <= i < close && t[i] == '{';
    assert forall j :: 0 <= j < close ==> t[j] in t[..close];
    assert t[|b|] == '}';
    assert b[i] == '{';
  }

  // -- a nested pair shows the order --

  /** The placeholders of a text in which every brace is closed. */
  function Keys(s: string): set<string>
    requires Closed(s)
  {
    if s == [] then {}
    else if s[0] == '{' then
      var close := IndexOf(s, '}');
      {s[1..close]} + Keys(s[close + 1..])
    else Keys(s[1..])
  }

  lemma {:induction false} KeysAreShort(s: string, k: string)
    requires Closed(s) && k in Keys(s)
    ensures BraceFree(k) && |k| + 2 <= |s|
  {
    if s[0] == '{' {
      var close := IndexOf(s, '}');
      if k != s[1..close] {
        KeysAreShort(s[close + 1..], k);
      }
    } else {
      KeysAreShort(s[1..], k);
    }
  }

  lemma {:induction false} ClosedWithoutKeys(s: string)
    requires Closed(s)
    ensures Keys(s) == {} <==> BraceFree(s)
    ensures Keys(s) == {} <==> '{' !in s
  {
    if s != [] && s[0] != '{' {
      ClosedWithoutKeys(s[1..]);
    }
  }

  lemma {:induction false} ClosedSkips(s: string, t: string)
    requires BraceFree(s)
    ensures Closed(s + t) <==> Closed(t)
    ensures Closed(t) ==> Keys(s + t) == Keys(t)
  {
    if s == [] {
      assert s + t == t;
    } else {
      ClosedSkips(s[1..], t);
      assert (s + t)[1..] == s[1..] + t;
    }
  }

  lemma KeysOfPlaceholder(inner: string, t: string)
    requires BraceFree(inner) && Closed(t)
    ensures Closed(Pattern(inner) + t) && Keys(Pattern(inner) + t) == {inner} + Keys(t)
  {
    var s := Pattern(inner) + t;
    ClosedPlaceholder(inner, t);
    FirstClose(inner, t);
    assert s == ['{'] + inner + ['}'] + t;
    assert s[1..|inner| + 1] == inner && s[|inner| + 2..] == t;
  }

  /** What substituting a long value does to a text in which every brace is closed. */
  predicate FilledClosed(s: string, t: string, m: Macro)
    requires Closed(s)
  {
    && Closed(t) && Keys(t) == Keys(s) - {m.key}
    && |t| >= |s| && (m.key in Keys(s) ==> |t| >= |m.value|)
  }

  lemma FillPlaceholder(inner: string, rest: string, t: string, m: Macro)
    requires BraceFree(inner) && BraceFree(m.value) && |m.key| + 2 <= |m.value|
    requires Closed(rest) && FilledClosed(rest, t, m)
    ensures Closed(Pattern(inner) + rest)
    ensures FilledClosed(Pattern(inner) + rest, (if inner == m.key then m.value else Pattern(inner)) + t, m)
  {
    KeysOfPlaceholder(inner, rest);
    if inner == m.key {
      ClosedSkips(m.value, t);
    } else {
      KeysOfPlaceholder(inner, t);
    }
  }

  // Substituting a long value takes the placeholder away and never shortens the text.
  lemma {:induction false} SubstituteClosed(s: string, m: Macro)
    requires Closed(s) && BraceFree(m.key) && BraceFree(m.value) && |m.key| + 2 <= |m.value|
    ensures FilledClosed(s, Substitute(s, map[m.key := m.value]), m)
    decreases |s|
  {
    if s != [] {
      var one := map[m.key := m.value];
      if s[0] == '{' {
        var close := IndexOf(s, '}');
        var inner, rest := s[1..close], s[close + 1..];
        assert s == Pattern(inner) + rest && BraceFree(inner);
        SubstituteClosed(rest, m);
        SubstitutePlaceholder(inner, rest, one);
        FillPlaceholder(inner, rest, Substitute(rest, one), m);
      } else {
        SubstituteClosed(s[1..], m);
        ClosedSkips([s[0]], Substitute(s[1..], one));
      }
    }
  }

  lemma AppendPlaceholder(inner: string, rest: string, t: string, values: map<string, string>)
    requires BraceFree(inner) && Substitute(rest + t, values) == Substitute(rest, values) + Substitute(t, values)
    ensures Substitute(Pattern(inner) + rest + t, values) ==
            Substitute(Pattern(inner) + rest, values) + Substitute(t, values)
  {
    var h := Filled(inner, values);
    Regroup(Pattern(inner), rest, t);
    assert Substitute(Pattern(inner) + (rest + t), values) == h + Substitute(rest + t, values) by {
      SubstitutePlaceholder(inner, rest + t, values);
    }
    assert Substitute(Pattern(inner) + rest, values) == h + Substitute(rest, values) by {
      SubstitutePlaceholder(inner, rest, values);
    }
    Regroup(h, Substitute(rest, values), Substitute(t, values));
  }

  // What follows a text with all braces closed is substituted on its own.
  lemma {:induction false} SubstituteAfterClosed(s: string, t: string, values: map<string, string>)
    requires Closed(s)
    ensures Substitute(s + t, values) == Substitute(s, values) + Substitute(t, values)
    decreases |s|
  {
    if s == [] {
      assert s + t == t;
    } else if s[0] == '{' {
      var close := IndexOf(s, '}');
      assert s == Pattern(s[1..close]) + s[close + 1..];
      SubstituteAfterClosed(s[close + 1..], t, values);
      AppendPlaceholder(s[1..close], s[close + 1..], t, values);
    } else {
      assert (s + t)[1..] == s[1..] + t;
      SubstituteAfterClosed(s[1..], t, values);
    }
  }

  /** The text does not start with a placeholder. */
  predicate StartsPlain(s: string) {
    s != [] && (s[0] == '{' && IndexOf(s, '}') < |s| ==> '{' in s[1..IndexOf(s, '}')])
  }

  lemma PlainStart(c: char, tail: string, values: map<string, string>)
    requires StartsPlain([c] + tail) && BraceFreeKeys(values)
    ensures Substitute([c] + tail, values) == [c] + Substitute(tail, values)
  {
    assert ([c] + tail)[1..] == tail;
  }

  lemma StillStartsPlain(p: string, t: string)
    requires StartsPlain(p) && t != [] && t[0] == '{'
    ensures StartsPlain(p + t)
  {
    var s := p + t;
    var here, there := IndexOf(p, '}'), IndexOf(s, '}');
    if p[0] == '{' && there < |s| {
      if here < |p| {
        FirstIn(p, t, here);
        assert s[1..there] == p[1..here];
      } else {
        FirstBeyond(p, t, there);
        assert s[1..there][|p| - 1] == '{';
      }
    }
  }

  lemma AppendPlain(c: char, tail: string, t: string, values: map<string, string>)
    requires StartsPlain([c] + tail) && t != [] && t[0] == '{' && BraceFreeKeys(values)
    requires Substitute(tail + t, values) == Substitute(tail, values) + Substitute(t, values)
    ensures Substitute([c] + tail + t, values) == Substitute([c] + tail, values) + Substitute(t, values)
  {
    StillStartsPlain([c] + tail, t);
    Regroup([c], tail, t);
    assert Substitute([c] + (tail + t), values) == [c] + Substitute(tail + t, values) by {
      PlainStart(c, tail + t, values);
    }
    assert Substitute([c] + tail, values) == [c] + Substitute(tail, values) by {
      PlainStart(c, tail, values);
    }
    Regroup([c], Substitute(tail, values), Substitute(t, values));
  }

  // A placeholder never reaches over an opening brace.
  lemma {:induction false} SubstituteBeforeOpen(p: string, t: string, values: map<string, string>)
    requires t != [] && t[0] == '{' && BraceFreeKeys(values)
    ensures Substitute(p + t, values) == Substitute(p, values) + Substitute(t, values)
    decreases |p|
  {
    if p == [] {
      assert p + t == t;
    } else if StartsPlain(p) {
      SubstituteBeforeOpen(p[1..], t, values);
      assert p == [p[0]] + p[1..];
      AppendPlain(p[0], p[1..], t, values);
    } else {
      var here := IndexOf(p, '}');
      assert p == Pattern(p[1..here]) + p[here + 1..];
      SubstituteBeforeOpen(p[here + 1..], t, values);
      AppendPlaceholder(p[1..here], p[here + 1..], t, values);
    }
  }

  lemma FirstIn(p: string, t: string, k: nat)
    requires k < |p| && IndexOf(p, '}') == k
    ensures IndexOf(p + t, '}') == k
  {
    assert (p + t)[k] == '}' && forall i :: 0 <= i < k ==> (p + t)[i] == p[i];
  }

  lemma FirstBeyond(p: string, t: string, k: nat)
    requires IndexOf(p, '}') == |p| && t != [] && t[0] == '{' && k == IndexOf(p + t, '}') < |p + t|
    ensures k > |p|
  {
    assert forall i :: 0 <= i < |p| ==> (p + t)[i] == p[i];
    assert (p + t)[|p|] == '{';
  }

  // Substituting inside a pair of braces leaves the pair, as long as the inside is not itself a placeholder.
  lemma SubstituteInside(p: string, b: string, q: string, values: map<string, string>)
    requires Closed(b) && '{' in b && BraceFreeKeys(values)
    ensures Substitute(p + (['{'] + (b + (['}'] + q))), values) ==
            Substitute(p, values) + (['{'] + (Substitute(b, values) + (['}'] + Substitute(q, values))))
  {
    SubstitutePair(b, q, values);
    SubstituteBeforeOpen(p, ['{'] + (b + (['}'] + q)), values);
  }

  lemma SubstitutePair(b: string, q: string, values: map<string, string>)
    requires Closed(b) && '{' in b && BraceFreeKeys(values)
    ensures Substitute(['{'] + (b + (['}'] + q)), values) ==
            ['{'] + (Substitute(b, values) + (['}'] + Substitute(q, values)))
  {
    var rest := ['}'] + q;
    assert Substitute(['{'] + (b + rest), values) == ['{'] + Substitute(b + rest, values) by {
      StartsWithOpen(b, rest);
      PlainStart('{', b + rest, values);
    }
    assert Substitute(b + rest, values) == Substitute(b, values) + Substitute(rest, values) by {
      SubstituteAfterClosed(b, rest, values);
    }
    assert Substitute(rest, values) == ['}'] + Substitute(q, values) by {
      PlainStart('}', q, values);
    }
  }

  lemma StartsWithOpen(b: string, t: string)
    requires Closed(b) && '{' in b
    ensures StartsPlain(['{'] + (b + t))
  {
    var rest := b + t;
    var s := ['{'] + rest;
    FirstOfClosed(b, t);
    assert s[1..] == rest && s[1..IndexOf(rest, '}') + 1] == rest[..IndexOf(rest, '}')];
  }

  lemma {:induction false} FirstOfClosed(b: string, t: string)
    requires Closed(b) && '{' in b
    ensures IndexOf(b + t, '}') < |b + t| && '{' in (b + t)[..IndexOf(b + t, '}')]
  {
    if b[0] == '{' {
      FirstIn(b, t, IndexOf(b, '}'));
      assert (b + t)[..IndexOf(b + t, '}')][0] == '{';
    } else {
      FirstOfClosed(b[1..], t);
      assert (b + t)[1..] == b[1..] + t;
      assert (b + t)[..IndexOf(b + t, '}')][1..] == (b[1..] + t)[..IndexOf(b[1..] + t, '}')];
    }
  }

  lemma PairIsPattern(w: string, q: string)
    ensures ['{'] + (w + (['}'] + q)) == Pattern(w) + q
  {
  }

  // One replacement inside a nested pair.
  lemma FillOnce(s: string, p: string, b: string, q: string, m: Macro)
    requires s == p + (['{'] + (b + (['}'] + q))) && Closed(b) && m.key in Keys(b)
    requires BraceFree(m.value) && |m.key| + 2 <= |m.value|
    ensures var one := map[m.key := m.value];
            && Replace(s, Pattern(m.key), m.value) ==
                 Substitute(p, one) + (['{'] + (Substitute(b, one) + (['}'] + Substitute(q, one))))
            && Closed(Substitute(b, one)) && Keys(Substitute(b, one)) == Keys(b) - {m.key}
            && |Substitute(b, one)| >= |b| && |Substitute(b, one)| >= |m.value|
  {
    KeysAreShort(b, m.key);
    ClosedWithoutKeys(b);
    ReplaceIsSubstitute(s, m);
    SubstituteInside(p, b, q, map[m.key := m.value]);
    SubstituteClosed(b, m);
  }

  // One replacement after the other fills the pair until no brace is left inside.
  lemma {:induction false} Fill(s: string, p: string, b: string, q: string, value: string)
    returns (inner: seq<Macro>, p': string, w: string, q': string)
    requires s == p + (['{'] + (b + (['}'] + q))) && Closed(b) && BraceFree(value)
    requires forall k :: k in Keys(b) ==> |k| + 2 <= |value|
    ensures Tame(inner) && forall i :: 0 <= i < |inner| ==> inner[i].key in Keys(b)
    ensures ReplaceAll(s, inner) == p' + (Pattern(w) + q') && BraceFree(w)
    ensures Keys(b) != {} ==> |w| >= |value|
    ensures |w| >= |b|
    decreases |Keys(b)|
  {
    if Keys(b) == {} {
      ClosedWithoutKeys(b);
      PairIsPattern(b, q);
      inner, p', w, q' := [], p, b, q;
    } else {
      var k :| k in Keys(b);
      var m := Macro(k, value);
      var one := map[k := value];
      KeysAreShort(b, k);
      FillOnce(s, p, b, q, m);
      var b' := Substitute(b, one);
      SmallerSet(Keys(b'), Keys(b));
      inner, p', w, q' := Fill(Replace(s, Pattern(k), value), Substitute(p, one), b', Substitute(q, one), value);
      inner := FirstThen(s, m, inner, Keys(b'));
    }
  }

  lemma FirstThen(s: string, m: Macro, rest: seq<Macro>, keys: set<string>) returns (all: seq<Macro>)
    requires Tame(rest) && BraceFree(m.key) && BraceFree(m.value) && m.key !in keys
    requires forall i :: 0 <= i < |rest| ==> rest[i].key in keys
    ensures Tame(all) && forall i :: 0 <= i < |all| ==> all[i].key in keys + {m.key}
    ensures ReplaceAll(s, all) == ReplaceAll(Replace(s, Pattern(m.key), m.value), rest)
  {
    all := [m] + rest;
    assert all[1..] == rest;
  }

  lemma {:induction false} SmallerSet(x: set<string>, y: set<string>)
    requires x < y
    ensures |x| < |y|
  {
    assert !(y <= x);
    var e :| e in y && e !in x;
    if x == {} {
      assert |y - {e}| == |y| - 1;
    } else {
      var f :| f in x;
      assert e in y - {f} && e !in x - {f};
      SmallerSet(x - {f}, y - {f});
    }
  }

  lemma {:induction false} NeverLonger(s: string, pattern: string)
    requires pattern != []
    ensures |Replace(s, pattern, [])| <= |s|
    decreases |s|
  {
    if s != [] {
      if pattern <= s {
        NeverLonger(s[|pattern|..], pattern);
      } else {
        NeverLonger(s[1..], pattern);
      }
    }
  }

  lemma {:induction false} ErasingShortens(p: string, pattern: string, q: string)
    requires pattern != []
    ensures |Replace(p + (pattern + q), pattern, [])| < |p + (pattern + q)|
    decreases |p|
  {
    var s := p + (pattern + q);
    if p == [] {
      assert s == pattern + q;
      NeverLonger(s[|pattern|..], pattern);
    } else if pattern <= s {
      NeverLonger(s[|pattern|..], pattern);
    } else {
      assert s[1..] == p[1..] + (pattern + q);
      ErasingShortens(p[1..], pattern, q);
    }
  }

  lemma {:induction false} TooLong(s: string, pattern: string, value: string)
    requires |pattern| > |s|
    ensures Replace(s, pattern, value) == s
  {
    if s != [] {
      TooLong(s[1..], pattern, value);
    }
  }

  lemma {:induction false} ValuesAppend(macros: seq<Macro>, m: Macro)
    requires forall i :: 0 <= i < |macros| ==> macros[i].key != m.key
    ensures Values(macros + [m]) == Values(macros)[m.key := m.value]
  {
    if macros == [] {
      assert macros + [m] == [m] && [m][1..] == [];
    } else {
      assert (macros + [m])[1..] == macros[1..] + [m];
      ValuesAppend(macros[1..], m);
    }
  }

  /** Two orders of the same macros, and what they make of the text differs. */
  ghost predicate ShowsOrder(s: string, macros: seq<Macro>, others: seq<Macro>) {
    && Tame(macros) && Tame(others) && Values(macros) == Values(others)
    && ReplaceAll(s, macros) != ReplaceAll(s, others)
  }

  lemma NestedShowsOrder(s: string, p: string, b: string, q: string) returns (macros: seq<Macro>, others: seq<Macro>)
    requires NestedAt(s, p, b, q)
    ensures ShowsOrder(s, macros, others)
  {
    var value := seq(|s| + 1, _ => 'x');
    forall k | k in Keys(b)
      ensures |k| + 2 <= |value|
    {
      KeysAreShort(b, k);
    }
    ClosedWithoutKeys(b);
    var inner, p', w, q' := Fill(s, p, b, q, value);
    var outer := Macro(w, []);
    assert [outer][0].key == w;
    forall i | 0 <= i < |inner|
      ensures inner[i].key != w
    {
      KeysAreShort(b, inner[i].key);
    }
    macros, others := inner + [outer], [outer] + inner;
    ReplaceAllAppend(s, inner, outer);
    ErasingShortens(p', Pattern(w), q');
    TooLong(s, Pattern(w), []);
    ValuesAppend(inner, outer);
    assert others[1..] == inner;
  }

  // -- the result --

  // Replacing macro after macro is one simultaneous substitution, unless a pair of braces contains another pair.
  lemma ReplaceAllIsSubstitute(s: string, macros: seq<Macro>)
    requires !Nested(s) && Tame(macros)
    ensures ReplaceAll(s, macros) == Substitute(s, Values(macros))
  {
    if !Tidy(s) {
      var p, b, q := UntidyIsNested(s);
    }
    TidyReplaceAll(s, macros);
  }

  // The hash map's iteration order is invisible on exactly the paths in which no pair of braces contains another:
  // on any other path some macros, none with braces, give different results in different orders.
  lemma OrderShowsIff(s: string)
    ensures (exists macros, others :: ShowsOrder(s, macros, others)) <==> Nested(s)
  {
    if macros, others :| ShowsOrder(s, macros, others) {
      if !Nested(s) {
        ReplaceAllIsSubstitute(s, macros);
        ReplaceAllIsSubstitute(s, others);
      }
    }
    if Nested(s) {
      var p, b, q :| NestedAt(s, p, b, q);
      var macros, others := NestedShowsOrder(s, p, b, q);
    }
  }

  lemma {:induction false} ReplaceAllSkips(s: string, macros: seq<Macro>)
    requires '{' !in s
    ensures ReplaceAll(s, macros) == s
    decreases |macros|
  {
    if macros != [] {
      ReplaceSkips(s, macros[0]);
      ReplaceAllSkips(s, macros[1..]);
    }
  }

  lemma {:induction false} ReplaceSkips(s: string, m: Macro)
    requires '{' !in s
    ensures Replace(s, Pattern(m.key), m.value) == s
  {
    if s != [] {
      assert s[0] in s && Pattern(m.key)[0] == '{';
      ReplaceSkips(s[1..], m);
    }
  }

  /** Resolves every path; paths without an opening brace are skipped. */
  method ResolveMacrosInPaths(paths: map<string, string>, macros: seq<Macro>) returns (resolved: map<string, string>)
    ensures resolved.Keys == paths.Keys
    ensures forall d :: d in paths ==> resolved[d] == ReplaceAll(paths[d], macros)
    ensures Tame(macros) ==>
              forall d :: d in paths && !Nested(paths[d]) ==> resolved[d] == Substitute(paths[d], Values(macros))
  {
    resolved := paths;
    if |macros| > 0 {
      var todo := paths.Keys;
      while todo != {}
        invariant resolved.Keys == paths.Keys && todo <= paths.Keys
        invariant forall d :: d in todo ==> resolved[d] == paths[d]
        invariant forall d :: d in paths && d !in todo ==> resolved[d] == ReplaceAll(paths[d], macros)
        decreases |todo|
      {
        var disk :| disk in todo;
        todo := todo - {disk};
        var path := paths[disk];
        if '{' !in path {
          ReplaceAllSkips(path, macros);
        } else {
          for i := 0 to |macros|
            invariant path == ReplaceAll(paths[disk], macros[..i])
          {
            ReplaceAllAppend(paths[disk], macros[..i], macros[i]);
            assert macros[..i + 1] == macros[..i] + [macros[i]];
            path := Replace(path, Pattern(macros[i].key), macros[i].value);
          }
          assert macros[..|macros|] == macros;
          resolved := resolved[disk := path];
        }
      }
    }
    if Tame(macros) {
      forall d | d in paths && !Nested(paths[d])
        ensures resolved[d] == Substitute(paths[d], Values(macros))
      {
        ReplaceAllIsSubstitute(paths[d], macros);
      }
    }
  }
}
