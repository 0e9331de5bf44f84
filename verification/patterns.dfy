/** The regular expressions that core/spec.py checks texts with, as data, and what it means
    for a whole text to match one. */
module Patterns {
  import opened Streams

  datatype Regex =
    | Text(text: string)
    | Class(ranges: seq<(char, char)>)
    | Both(first: Regex, second: Regex)
    | Times(regex: Regex, least: nat, most: Option<nat>)

  predicate InRanges(c: char, ranges: seq<(char, char)>) {
    exists i :: 0 <= i < |ranges| && ranges[i].0 <= c <= ranges[i].1
  }

  ghost predicate Matches(r: Regex, s: string)
    decreases r, 0
  {
    match r
    case Text(text) => s == text
    case Class(ranges) => |s| == 1 && InRanges(s[0], ranges)
    case Both(first, second) => exists k :: 0 <= k <= |s| && Matches(first, s[..k]) && Matches(second, s[k..])
    case Times(regex, least, most) =>
      exists n: nat :: least <= n && (most.Some? ==> n <= most.value) && Repeats(regex, s, n)
  }

  /** One after the other, n times. */
  ghost predicate Repeats(r: Regex, s: string, n: nat)
    decreases r, n + 1
  {
    if n == 0 then s == "" else exists k :: 0 <= k <= |s| && Matches(r, s[..k]) && Repeats(r, s[k..], n - 1)
  }

  function Optional(r: Regex): Regex { Times(r, 0, Some(1)) }

  ghost predicate AllIn(s: string, ranges: seq<(char, char)>) {
    forall i :: 0 <= i < |s| ==> InRanges(s[i], ranges)
  }

  lemma {:induction false} RepeatsClass(ranges: seq<(char, char)>, s: string, n: nat)
    ensures Repeats(Class(ranges), s, n) <==> |s| == n && AllIn(s, ranges)
  {
    if n > 0 {
      if k :| 0 <= k <= |s| && Matches(Class(ranges), s[..k]) && Repeats(Class(ranges), s[k..], n - 1) {
        RepeatsClass(ranges, s[k..], n - 1);
        ClassFirst(ranges, s, k);
      }
      if |s| == n && AllIn(s, ranges) {
        RepeatsClass(ranges, s[1..], n - 1);
        assert Matches(Class(ranges), s[..1]);
      }
    }
  }

  lemma ClassFirst(ranges: seq<(char, char)>, s: string, k: nat)
    requires k <= |s| && Matches(Class(ranges), s[..k]) && AllIn(s[k..], ranges)
    ensures k == 1 && AllIn(s, ranges)
  {
    assert s[..k][0] == s[0];
    forall i | 0 <= i < |s|
      ensures InRanges(s[i], ranges)
    {
      assert i > 0 ==> s[i] == s[1..][i - 1];
    }
  }

  /** [...]{least,most} */
  lemma TimesClass(ranges: seq<(char, char)>, least: nat, most: Option<nat>, s: string)
    ensures Matches(Times(Class(ranges), least, most), s)
            <==> least <= |s| && (most.Some? ==> |s| <= most.value) && AllIn(s, ranges)
  {
    forall n: nat
      ensures Repeats(Class(ranges), s, n) <==> |s| == n && AllIn(s, ranges)
    {
      RepeatsClass(ranges, s, n);
    }
    assert AllIn(s, ranges) ==> Repeats(Class(ranges), s, |s|);
  }

  /** A class and then any number of another. */
  lemma FirstAndRest(first: seq<(char, char)>, rest: seq<(char, char)>, least: nat, most: Option<nat>, s: string)
    ensures Matches(Both(Class(first), Times(Class(rest), least, most)), s)
            <==> s != "" && InRanges(s[0], first) && least <= |s| - 1 && (most.Some? ==> |s| - 1 <= most.value)
                 && forall i :: 0 < i < |s| ==> InRanges(s[i], rest)
  {
    forall k | 0 <= k <= |s|
      ensures Matches(Class(first), s[..k]) ==> k == 1
    {
    }
    if s != "" {
      TimesClass(rest, least, most, s[1..]);
      assert Matches(Class(first), s[..1]) <==> InRanges(s[0], first);
      assert AllIn(s[1..], rest) <==> forall i :: 0 < i < |s| ==> InRanges(s[i], rest) by {
        if AllIn(s[1..], rest) {
          forall i | 0 < i < |s|
            ensures InRanges(s[i], rest)
          {
            assert s[i] == s[1..][i - 1];
          }
        }
      }
    }
  }

  /** An optional part is there or not. */
  lemma OptionalIs(r: Regex, s: string)
    ensures Matches(Optional(r), s) <==> s == "" || Matches(r, s)
  {
    if n: nat :| n <= 1 && Repeats(r, s, n) {
      if n == 1 {
        RepeatsOne(r, s);
      }
    }
    assert Repeats(r, s, 0) <==> s == "";
    if Matches(r, s) {
      assert s[..|s|] == s && Repeats(r, s[|s|..], 0);
      assert Repeats(r, s, 1);
    }
  }

  lemma RepeatsOne(r: Regex, s: string)
    requires Repeats(r, s, 1)
    ensures Matches(r, s)
  {
    var k :| 0 <= k <= |s| && Matches(r, s[..k]) && Repeats(r, s[k..], 0);
    assert s[k..] == "" && s[..k] == s;
  }

  // ---- A first part that is easy to find ----

  lemma TextFirst(text: string, r: Regex, s: string)
    ensures Matches(Both(Text(text), r), s) <==> text <= s && Matches(r, s[|text|..])
  {
    if k :| 0 <= k <= |s| && Matches(Text(text), s[..k]) && Matches(r, s[k..]) {
      assert k == |text|;
    }
    if text <= s && Matches(r, s[|text|..]) {
      assert Matches(Text(text), s[..|text|]);
    }
  }

  lemma ClassThen(ranges: seq<(char, char)>, r: Regex, s: string)
    ensures Matches(Both(Class(ranges), r), s) <==> s != "" && InRanges(s[0], ranges) && Matches(r, s[1..])
  {
    if k :| 0 <= k <= |s| && Matches(Class(ranges), s[..k]) && Matches(r, s[k..]) {
      assert k == 1;
    }
    if s != "" && InRanges(s[0], ranges) && Matches(r, s[1..]) {
      assert Matches(Class(ranges), s[..1]);
    }
  }

  lemma ThenClass(r: Regex, ranges: seq<(char, char)>, s: string)
    ensures Matches(Both(r, Class(ranges)), s)
            <==> s != "" && InRanges(s[|s| - 1], ranges) && Matches(r, s[..|s| - 1])
  {
    if k :| 0 <= k <= |s| && Matches(r, s[..k]) && Matches(Class(ranges), s[k..]) {
      assert k == |s| - 1 && s[k..][0] == s[k];
    }
    if s != "" && InRanges(s[|s| - 1], ranges) && Matches(r, s[..|s| - 1]) {
      assert s[|s| - 1..][0] == s[|s| - 1];
      assert Matches(Class(ranges), s[|s| - 1..]);
    }
  }

  lemma BothMatch(a: Regex, b: Regex, s: string, k: nat)
    requires k <= |s| && Matches(a, s[..k]) && Matches(b, s[k..])
    ensures Matches(Both(a, b), s)
  {
  }

  lemma BothSplit(a: Regex, b: Regex, s: string) returns (k: nat)
    requires Matches(Both(a, b), s)
    ensures k <= |s| && Matches(a, s[..k]) && Matches(b, s[k..])
  {
    k :| 0 <= k <= |s| && Matches(a, s[..k]) && Matches(b, s[k..]);
  }

  lemma RepeatAndMore(r: Regex, first: string, rest: string, n: nat)
    requires Matches(r, first) && Repeats(r, rest, n)
    ensures Repeats(r, first + rest, n + 1)
  {
    var s := first + rest;
    assert s[..|first|] == first && s[|first|..] == rest;
  }

  lemma RepeatParts(r: Regex, s: string, n: nat) returns (first: string, rest: string)
    requires n > 0 && Repeats(r, s, n)
    ensures s == first + rest && Matches(r, first) && Repeats(r, rest, n - 1)
  {
    var k :| 0 <= k <= |s| && Matches(r, s[..k]) && Repeats(r, s[k..], n - 1);
    first, rest := s[..k], s[k..];
  }

  lemma BothJoin(a: Regex, b: Regex, first: string, rest: string)
    requires Matches(a, first) && Matches(b, rest)
    ensures Matches(Both(a, b), first + rest)
  {
    var s := first + rest;
    assert s[..|first|] == first && s[|first|..] == rest;
  }

  lemma BothParts(a: Regex, b: Regex, s: string) returns (first: string, rest: string)
    requires Matches(Both(a, b), s)
    ensures s == first + rest && Matches(a, first) && Matches(b, rest)
  {
    var k :| 0 <= k <= |s| && Matches(a, s[..k]) && Matches(b, s[k..]);
    first, rest := s[..k], s[k..];
  }

  lemma TimesJoin(r: Regex, least: nat, most: Option<nat>, s: string, n: nat)
    requires Repeats(r, s, n) && least <= n && (most.Some? ==> n <= most.value)
    ensures Matches(Times(r, least, most), s)
  {
  }

  lemma TimesCount(r: Regex, least: nat, most: Option<nat>, s: string) returns (n: nat)
    requires Matches(Times(r, least, most), s)
    ensures Repeats(r, s, n) && least <= n && (most.Some? ==> n <= most.value)
  {
    n :| least <= n && (most.Some? ==> n <= most.value) && Repeats(r, s, n);
  }
}
