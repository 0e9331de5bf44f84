/** The predicates on texts are the regular expressions of core/spec.py and
    services/splitting.py. */
module Grammars {
  import opened Streams
  import opened Patterns
  import References
  import Repositories
  import Versions
  import SplitJobs
  import Decimal
  import Text

  const LOWER: seq<(char, char)> := [('a', 'z'), ('0', '9')]
  const LETTERS: seq<(char, char)> := [('A', 'Z'), ('a', 'z'), ('0', '9')]
  const DIGITS: seq<(char, char)> := [('0', '9')]

  /** [A-Za-z0-9][A-Za-z0-9._:/@-]{0,255} */
  const REFERENCE: Regex :=
    Both(Class(LETTERS),
         Times(Class(LETTERS + [('.', '.'), ('_', '_'), (':', ':'), ('/', '/'), ('@', '@'), ('-', '-')]), 0, Some(255)))

  /** [A-Za-z0-9_][A-Za-z0-9_.-]{0,127} */
  const TAG: Regex :=
    Both(Class(LETTERS + [('_', '_')]), Times(Class(LETTERS + [('_', '_'), ('.', '.'), ('-', '-')]), 0, Some(127)))

  /** sha256:[a-f0-9]{64} */
  const DIGEST: Regex := Both(Text("sha256:"), Times(Class([('a', 'f'), ('0', '9')]), 64, Some(64)))

  /** [a-z0-9]([a-z0-9.-]*[a-z0-9])? */
  const HOST: Regex :=
    Both(Class(LOWER), Optional(Both(Times(Class(LOWER + [('.', '.'), ('-', '-')]), 0, None), Class(LOWER))))

  /** [a-z0-9]([a-z0-9.-]*[a-z0-9])?(:[0-9]{1,5})? */
  const REGISTRY: Regex := Both(HOST, Optional(Both(Text(":"), Times(Class(DIGITS), 1, Some(5)))))

  /** [a-z0-9]+(?:[._-][a-z0-9]+)* */
  const COMPONENT: Regex :=
    Both(Times(Class(LOWER), 1, None),
         Times(Both(Class([('.', '.'), ('_', '_'), ('-', '-')]), Times(Class(LOWER), 1, None)), 0, None))

  /** [a-z0-9][a-z0-9-]{0,62} */
  const NAME: Regex := Both(Class(LOWER), Times(Class(LOWER + [('-', '-')]), 0, Some(62)))

  /** a component, and up to three more after slashes */
  const REPOSITORY: Regex := Both(COMPONENT, Times(Both(Text("/"), COMPONENT), 0, Some(3)))

  /** \d{1,4}\.\d{1,4}\.\d{1,6} */
  const VERSION: Regex :=
    Both(Times(Class(DIGITS), 1, Some(4)),
         Both(Text("."),
              Both(Times(Class(DIGITS), 1, Some(4)), Both(Text("."), Times(Class(DIGITS), 1, Some(6))))))

  /** [A-Za-z0-9][A-Za-z0-9._+-]{0,200} */
  const SAFE_NAME: Regex :=
    Both(Class(LETTERS), Times(Class(LETTERS + [('.', '.'), ('_', '_'), ('+', '+'), ('-', '-')]), 0, Some(200)))

  // ---- Classes ----

  lemma InBoth(c: char, a: seq<(char, char)>, b: seq<(char, char)>)
    ensures InRanges(c, a + b) <==> InRanges(c, a) || InRanges(c, b)
  {
    var all := a + b;
    if i :| 0 <= i < |a| && a[i].0 <= c <= a[i].1 {
      assert all[i] == a[i];
    }
    if i :| 0 <= i < |b| && b[i].0 <= c <= b[i].1 {
      assert all[|a| + i] == b[i];
    }
  }

  lemma InOne(c: char, lo: char, hi: char)
    ensures InRanges(c, [(lo, hi)]) <==> lo <= c <= hi
  {
    assert [(lo, hi)][0] == (lo, hi);
  }

  lemma InLower(c: char)
    ensures InRanges(c, LOWER) <==> References.IsAlnum(c)
  {
    assert LOWER == [('a', 'z')] + [('0', '9')];
    InBoth(c, [('a', 'z')], [('0', '9')]);
    InOne(c, 'a', 'z');
    InOne(c, '0', '9');
  }

  lemma InLetters(c: char)
    ensures InRanges(c, LETTERS) <==> References.IsWord(c)
  {
    assert LETTERS == [('A', 'Z')] + LOWER;
    InBoth(c, [('A', 'Z')], LOWER);
    InOne(c, 'A', 'Z');
    InLower(c);
  }

  lemma InMarks(c: char, marks: string, ranges: seq<(char, char)>)
    requires |ranges| == |marks| && forall i :: 0 <= i < |marks| ==> ranges[i] == (marks[i], marks[i])
    ensures InRanges(c, ranges) <==> c in marks
  {
    if i :| 0 <= i < |marks| && marks[i] == c {
      assert ranges[i].0 <= c <= ranges[i].1;
    }
  }

  // ---- Patterns of one class after another ----

  lemma ReferenceIsPattern(s: string)
    ensures References.IsReference(s) <==> Matches(REFERENCE, s)
  {
    var marks := [('.', '.'), ('_', '_'), (':', ':'), ('/', '/'), ('@', '@'), ('-', '-')];
    FirstAndRest(LETTERS, LETTERS + marks, 0, Some(255), s);
    forall c: char
      ensures InRanges(c, LETTERS + marks) <==> References.InReference(c)
    {
      InBoth(c, LETTERS, marks);
      InLetters(c);
      InMarks(c, ['.', '_', ':', '/', '@', '-'], marks);
    }
    if s != "" {
      InLetters(s[0]);
    }
  }


  lemma TagIsPattern(s: string)
    ensures References.IsTag(s) <==> Matches(TAG, s)
  {
    var first, rest := LETTERS + [('_', '_')], LETTERS + [('_', '_'), ('.', '.'), ('-', '-')];
    FirstAndRest(first, rest, 0, Some(127), s);
    forall c: char
      ensures InRanges(c, rest) <==> References.InTag(c)
      ensures InRanges(c, first) <==> References.IsWord(c) || c == '_'
    {
      InLetters(c);
      InBoth(c, LETTERS, [('_', '_')]);
      InOne(c, '_', '_');
      InBoth(c, LETTERS, [('_', '_'), ('.', '.'), ('-', '-')]);
      InMarks(c, ['_', '.', '-'], [('_', '_'), ('.', '.'), ('-', '-')]);
    }
  }

  lemma NameIsPattern(s: string)
    ensures Repositories.IsName(s) <==> Matches(NAME, s)
  {
    var rest := LOWER + [('-', '-')];
    FirstAndRest(LOWER, rest, 0, Some(62), s);
    forall c: char
      ensures InRanges(c, LOWER) <==> References.IsAlnum(c)
      ensures InRanges(c, rest) <==> Repositories.InName(c)
    {
      InLower(c);
      InBoth(c, LOWER, [('-', '-')]);
      InOne(c, '-', '-');
    }
  }

  lemma SafeNameIsPattern(s: string)
    ensures SplitJobs.SafeName(s) <==> Matches(SAFE_NAME, s)
  {
    var marks := [('.', '.'), ('_', '_'), ('+', '+'), ('-', '-')];
    FirstAndRest(LETTERS, LETTERS + marks, 0, Some(200), s);
    forall c: char
      ensures InRanges(c, LETTERS + marks) <==> SplitJobs.SafeChar(c)
      ensures InRanges(c, LETTERS) <==> SplitJobs.SafeChar(c) && c !in "._+-"
    {
      InLetters(c);
      InBoth(c, LETTERS, marks);
      InMarks(c, ['.', '_', '+', '-'], marks);
      assert "._+-" == ['.', '_', '+', '-'];
    }
  }

  lemma DigestIsPattern(s: string)
    ensures References.IsDigest(s) <==> Matches(DIGEST, s)
  {
    var hex := [('a', 'f'), ('0', '9')];
    TextFirst("sha256:", Times(Class(hex), 64, Some(64)), s);
    if "sha256:" <= s {
      TimesClass(hex, 64, Some(64), s[7..]);
      forall c: char
        ensures InRanges(c, hex) <==> References.InDigest(c)
      {
        assert hex == [('a', 'f')] + [('0', '9')];
        InBoth(c, [('a', 'f')], [('0', '9')]);
        InOne(c, 'a', 'f');
        InOne(c, '0', '9');
      }
    }
  }

  lemma PortIsPattern(s: string)
    ensures References.IsPort(s) <==> Matches(Times(Class(DIGITS), 1, Some(5)), s)
  {
    TimesClass(DIGITS, 1, Some(5), s);
    forall c: char
      ensures InRanges(c, DIGITS) <==> References.IsDigit(c)
    {
      InOne(c, '0', '9');
    }
  }

  lemma InHostIs(c: char)
    ensures InRanges(c, LOWER + [('.', '.'), ('-', '-')]) <==> References.InHost(c)
  {
    InLower(c);
    InBoth(c, LOWER, [('.', '.'), ('-', '-')]);
    InMarks(c, ['.', '-'], [('.', '.'), ('-', '-')]);
  }

  lemma HostIsPattern(s: string)
    ensures References.IsHost(s) <==> Matches(HOST, s)
  {
    var middle := LOWER + [('.', '.'), ('-', '-')];
    var tail := Both(Times(Class(middle), 0, None), Class(LOWER));
    ClassThen(LOWER, Optional(tail), s);
    if s != "" {
      InLower(s[0]);
      OptionalIs(tail, s[1..]);
      ThenClass(Times(Class(middle), 0, None), LOWER, s[1..]);
      if |s| > 1 {
        InLower(s[|s| - 1]);
        TimesClass(middle, 0, None, s[1..|s| - 1]);
        assert s[1..][..|s| - 2] == s[1..|s| - 1] && s[1..][|s| - 2] == s[|s| - 1];
        if References.IsAlnum(s[0]) && References.IsAlnum(s[|s| - 1]) {
          HostMiddle(s);
        }
      }
    }
  }

  lemma HostMiddle(s: string)
    requires |s| > 1 && References.IsAlnum(s[0]) && References.IsAlnum(s[|s| - 1])
    ensures AllIn(s[1..|s| - 1], LOWER + [('.', '.'), ('-', '-')]) <==> References.All(s, References.InHost)
  {
    var middle := s[1..|s| - 1];
    forall i | 0 <= i < |s| - 2
      ensures InRanges(middle[i], LOWER + [('.', '.'), ('-', '-')]) <==> References.InHost(s[i + 1])
    {
      InHostIs(s[i + 1]);
    }
    if AllIn(middle, LOWER + [('.', '.'), ('-', '-')]) {
      forall i | 0 <= i < |s|
        ensures References.InHost(s[i])
      {
        assert 0 < i < |s| - 1 ==> InRanges(middle[i - 1], LOWER + [('.', '.'), ('-', '-')]);
      }
    }
    if References.All(s, References.InHost) {
      forall i | 0 <= i < |middle|
        ensures InRanges(middle[i], LOWER + [('.', '.'), ('-', '-')])
      {
        assert s[i + 1] in s;
      }
    }
  }

  lemma HostHasNoColon(s: string)
    requires References.IsHost(s)
    ensures ':' !in s
  {
  }

  lemma RegistryIsPattern(s: string)
    ensures References.IsRegistry(s) <==> Matches(REGISTRY, s)
  {
    var port := Both(Text(":"), Times(Class(DIGITS), 1, Some(5)));
    if Matches(REGISTRY, s) {
      var k := BothSplit(HOST, Optional(port), s);
      MatchedRegistry(s, k);
    }
    if References.IsRegistry(s) {
      var colon := Text.Find(s, ':');
      HostIsPattern(s[..colon]);
      OptionalIs(port, s[colon..]);
      TextFirst(":", Times(Class(DIGITS), 1, Some(5)), s[colon..]);
      if colon < |s| {
        assert s[colon..][1..] == s[colon + 1..];
        PortIsPattern(s[colon + 1..]);
      }
      BothMatch(HOST, Optional(port), s, colon);
    }
  }

  lemma MatchedRegistry(s: string, k: nat)
    requires k <= |s| && Matches(HOST, s[..k])
    requires Matches(Optional(Both(Text(":"), Times(Class(DIGITS), 1, Some(5)))), s[k..])
    ensures References.IsRegistry(s)
  {
    HostIsPattern(s[..k]);
    HostHasNoColon(s[..k]);
    OptionalIs(Both(Text(":"), Times(Class(DIGITS), 1, Some(5))), s[k..]);
    if k == |s| {
      assert s[..k] == s;
      Text.FindAbsent(s, ':');
    } else {
      TextFirst(":", Times(Class(DIGITS), 1, Some(5)), s[k..]);
      assert s[k..][1..] == s[k + 1..] && s[k..][0] == s[k];
      PortIsPattern(s[k + 1..]);
      Text.FindUnique(s, ':', k);
    }
  }

  // ---- Components ----

  const MARKS: seq<(char, char)> := [('.', '.'), ('_', '_'), ('-', '-')]

  const RUN: Regex := Times(Class(LOWER), 1, None)

  const MORE: Regex := Both(Class(MARKS), RUN)

  predicate IsMark(c: char) { c == '.' || c == '_' || c == '-' }

  lemma MarkIs(c: char)
    ensures InRanges(c, MARKS) <==> IsMark(c)
    ensures References.InPath(c) <==> References.IsAlnum(c) || IsMark(c)
  {
    InMarks(c, ['.', '_', '-'], MARKS);
  }

  ghost predicate IsRun(s: string) { s != "" && References.All(s, References.IsAlnum) }

  lemma RunIsPattern(s: string)
    ensures IsRun(s) <==> Matches(RUN, s)
  {
    TimesClass(LOWER, 1, None, s);
    forall i | 0 <= i < |s|
      ensures InRanges(s[i], LOWER) <==> References.IsAlnum(s[i])
    {
      InLower(s[i]);
    }
    if AllIn(s, LOWER) {
      forall c | c in s
        ensures References.IsAlnum(c)
      {
        var i :| 0 <= i < |s| && s[i] == c;
      }
    }
    if IsRun(s) {
      forall i | 0 <= i < |s|
        ensures InRanges(s[i], LOWER)
      {
        assert s[i] in s;
      }
    }
  }

  /** What may follow a run: nothing, or a mark and a component. */
  ghost predicate IsTail(s: string) { s == "" || (IsMark(s[0]) && References.IsComponent(s[1..])) }

  lemma RunAndTail(a: string, tail: string)
    requires IsRun(a) && IsTail(tail)
    ensures References.IsComponent(a + tail)
  {
    var s := a + tail;
    forall i | 0 <= i < |s|
      ensures i < |a| ==> s[i] == a[i] && References.IsAlnum(s[i])
      ensures i > |a| ==> s[i] == tail[1..][i - |a| - 1]
    {
      assert i < |a| ==> a[i] in a;
    }
    forall c | c in s
      ensures References.InPath(c)
    {
      var i :| 0 <= i < |s| && s[i] == c;
      if i > |a| {
        assert tail[1..][i - |a| - 1] in tail[1..];
      }
    }
  }

  /** A component is a run and a tail. */
  lemma {:induction false} ComponentParts(s: string) returns (k: nat)
    requires References.IsComponent(s)
    ensures 0 < k <= |s| && IsRun(s[..k]) && IsTail(s[k..])
  {
    k := 1;
    while k < |s| && References.IsAlnum(s[k])
      invariant 0 < k <= |s| && forall i :: 0 <= i < k ==> References.IsAlnum(s[i])
    {
      k := k + 1;
    }
    if k < |s| {
      RestIsComponent(s, k);
      assert s[k..][1..] == s[k + 1..];
    }
  }

  lemma RestIsComponent(s: string, k: nat)
    requires References.IsComponent(s) && 0 < k < |s| && !References.IsAlnum(s[k])
    ensures IsMark(s[k]) && References.IsComponent(s[k + 1..])
  {
    assert s[k] in s;
    var rest := s[k + 1..];
    assert k + 1 < |s| && References.IsAlnum(s[k + 1]);
    assert rest[0] == s[k + 1] && rest[|rest| - 1] == s[|s| - 1];
    forall i | 0 < i < |rest|
      ensures References.IsAlnum(rest[i - 1]) || References.IsAlnum(rest[i])
    {
      assert rest[i] == s[k + 1 + i] && rest[i - 1] == s[k + i];
    }
    forall c | c in rest
      ensures References.InPath(c)
    {
      assert c in s;
    }
  }

  lemma MoreIs(s: string)
    ensures Matches(MORE, s) <==> s != "" && IsMark(s[0]) && IsRun(s[1..])
  {
    ClassThen(MARKS, RUN, s);
    if s != "" {
      MarkIs(s[0]);
      RunIsPattern(s[1..]);
    }
  }

  lemma MoreAndTail(more: string, tail: string)
    requires Matches(MORE, more) && IsTail(tail)
    ensures IsTail(more + tail)
  {
    MoreIs(more);
    RunAndTail(more[1..], tail);
    assert (more + tail)[1..] == more[1..] + tail;
  }

  lemma {:induction false} RepeatsAreTail(s: string, n: nat)
    requires Repeats(MORE, s, n)
    ensures IsTail(s)
    decreases n
  {
    if n > 0 {
      var more, rest := RepeatParts(MORE, s, n);
      RepeatsAreTail(rest, n - 1);
      MoreAndTail(more, rest);
    }
  }

  lemma TailParts(s: string) returns (more: string, rest: string)
    requires IsTail(s) && s != ""
    ensures s == more + rest && Matches(MORE, more) && IsTail(rest) && |rest| < |s|
  {
    var run, tail := RunParts(s[1..]);
    more, rest := [s[0]] + run, tail;
    assert more[1..] == run;
    MoreIs(more);
    assert s == [s[0]] + s[1..];
  }

  lemma {:induction false} TailRepeats(s: string) returns (n: nat)
    requires IsTail(s)
    ensures Repeats(MORE, s, n)
    decreases |s|
  {
    if s == "" {
      n := 0;
    } else {
      var more, rest := TailParts(s);
      n := TailRepeats(rest);
      RepeatAndMore(MORE, more, rest, n);
      n := n + 1;
    }
  }

  lemma ComponentIsPattern(s: string)
    ensures References.IsComponent(s) <==> Matches(COMPONENT, s)
  {
    if References.IsComponent(s) {
      ComponentMatches(s);
    }
    if Matches(COMPONENT, s) {
      MatchIsComponent(s);
    }
  }

  lemma ComponentMatches(s: string)
    requires References.IsComponent(s)
    ensures Matches(COMPONENT, s)
  {
    var run, tail := RunParts(s);
    var n := TailRepeats(tail);
    RunIsPattern(run);
    TimesJoin(MORE, 0, None, tail, n);
    BothJoin(RUN, Times(MORE, 0, None), run, tail);
  }

  lemma MatchIsComponent(s: string)
    requires Matches(COMPONENT, s)
    ensures References.IsComponent(s)
  {
    var run, tail := BothParts(RUN, Times(MORE, 0, None), s);
    var n := TimesCount(MORE, 0, None, tail);
    RunIsPattern(run);
    RepeatsAreTail(tail, n);
    RunAndTail(run, tail);
  }

  lemma RunParts(s: string) returns (run: string, tail: string)
    requires References.IsComponent(s)
    ensures s == run + tail && IsRun(run) && IsTail(tail)
  {
    var k := ComponentParts(s);
    run, tail := s[..k], s[k..];
  }

  // ---- Repositories ----

  const SLASHED: Regex := Both(Text("/"), COMPONENT)

  lemma ComponentHasNoSlash(s: string)
    requires References.IsComponent(s)
    ensures '/' !in s
  {
  }

  /** What may follow the first component: n more, each after a slash. */
  ghost predicate IsSlashed(s: string, n: nat) {
    if n == 0 then s == ""
    else s != "" && s[0] == '/' && |References.Split(s[1..])| == n && References.Components(References.Split(s[1..]))
  }

  lemma SplitOfBoth(a: string, rest: string, n: nat)
    requires References.IsComponent(a) && IsSlashed(rest, n)
    ensures |References.Split(a + rest)| == n + 1 && References.Components(References.Split(a + rest))
  {
    ComponentHasNoSlash(a);
    if n == 0 {
      assert a + rest == a;
      References.SplitOfOne(a);
    } else {
      assert a + rest == a + "/" + rest[1..];
      References.SplitAfter(a, rest[1..]);
    }
  }

  lemma SlashedIs(s: string)
    ensures Matches(SLASHED, s) <==> s != "" && s[0] == '/' && References.IsComponent(s[1..])
  {
    TextFirst("/", COMPONENT, s);
    if s != "" {
      ComponentIsPattern(s[1..]);
    }
  }

  lemma SlashedAndMore(first: string, rest: string, n: nat)
    requires Matches(SLASHED, first) && IsSlashed(rest, n)
    ensures IsSlashed(first + rest, n + 1)
  {
    SlashedIs(first);
    AfterSlash(first[1..], rest, n);
    SlashOff(first, rest);
  }

  lemma SlashOff(first: string, rest: string)
    requires first != "" && first[0] == '/'
    ensures first + rest == "/" + (first[1..] + rest) && first == "/" + first[1..]
  {
  }

  lemma AfterSlash(component: string, rest: string, n: nat)
    requires References.IsComponent(component) && IsSlashed(rest, n)
    ensures IsSlashed("/" + (component + rest), n + 1)
  {
    SplitOfBoth(component, rest, n);
    assert ("/" + (component + rest))[1..] == component + rest;
  }

  lemma {:induction false} RepeatsAreSlashed(s: string, n: nat)
    requires Repeats(SLASHED, s, n)
    ensures IsSlashed(s, n)
    decreases n
  {
    if n > 0 {
      var first, rest := RepeatParts(SLASHED, s, n);
      RepeatsAreSlashed(rest, n - 1);
      SlashedAndMore(first, rest, n - 1);
    }
  }

  lemma FirstComponent(s: string) returns (k: nat)
    requires References.Components(References.Split(s))
    ensures k <= |s| && References.IsComponent(s[..k]) && IsSlashed(s[k..], |References.Split(s)| - 1)
  {
    var parts := References.Split(s);
    k := Text.Find(s, '/');
    assert References.IsComponent(parts[0]);
    if k < |s| {
      assert parts == [s[..k]] + References.Split(s[k + 1..]) && s[k..][1..] == s[k + 1..];
      assert parts[1..] == References.Split(s[k + 1..]);
      forall i | 0 <= i < |parts| - 1
        ensures References.IsComponent(parts[1..][i])
      {
        assert References.IsComponent(parts[i + 1]);
      }
    } else {
      assert s[..k] == s;
    }
  }

  lemma SlashedParts(s: string, n: nat) returns (first: string, rest: string)
    requires n > 0 && IsSlashed(s, n)
    ensures s == first + rest && Matches(SLASHED, first) && IsSlashed(rest, n - 1)
  {
    var component, tail := FirstParts(s[1..]);
    first, rest := "/" + component, tail;
    SlashThen(component, tail);
    SlashedIs(first);
    SlashOff(s, "");
  }

  lemma SlashThen(component: string, rest: string)
    ensures ("/" + component)[1..] == component && ("/" + component) + rest == "/" + (component + rest)
  {
  }

  lemma FirstParts(s: string) returns (component: string, rest: string)
    requires References.Components(References.Split(s))
    ensures s == component + rest && References.IsComponent(component)
    ensures IsSlashed(rest, |References.Split(s)| - 1)
  {
    var k := FirstComponent(s);
    component, rest := s[..k], s[k..];
  }

  lemma {:induction false} SlashedRepeats(s: string, n: nat)
    requires IsSlashed(s, n)
    ensures Repeats(SLASHED, s, n)
    decreases n
  {
    if n > 0 {
      var first, rest := SlashedParts(s, n);
      SlashedRepeats(rest, n - 1);
      RepeatAndMore(SLASHED, first, rest, n - 1);
    }
  }

  lemma RepositoryIsPattern(s: string)
    ensures Repositories.IsRepository(s) <==> Matches(REPOSITORY, s)
  {
    if Repositories.IsRepository(s) {
      RepositoryMatches(s);
    }
    if Matches(REPOSITORY, s) {
      MatchIsRepository(s);
    }
  }

  lemma RepositoryMatches(s: string)
    requires Repositories.IsRepository(s)
    ensures Matches(REPOSITORY, s)
  {
    var component, rest := FirstParts(s);
    SlashedRepeats(rest, |References.Split(s)| - 1);
    ComponentIsPattern(component);
    TimesJoin(SLASHED, 0, Some(3), rest, |References.Split(s)| - 1);
    BothJoin(COMPONENT, Times(SLASHED, 0, Some(3)), component, rest);
  }

  lemma MatchIsRepository(s: string)
    requires Matches(REPOSITORY, s)
    ensures Repositories.IsRepository(s)
  {
    var component, rest := BothParts(COMPONENT, Times(SLASHED, 0, Some(3)), s);
    var n := TimesCount(SLASHED, 0, Some(3), rest);
    RepeatsAreSlashed(rest, n);
    ComponentIsPattern(component);
    SplitOfBoth(component, rest, n);
  }

  // ---- Versions ----

  lemma NumberIsPattern(s: string, most: nat)
    ensures Versions.IsNumber(s, most) <==> Matches(Times(Class(DIGITS), 1, Some(most)), s)
  {
    TimesClass(DIGITS, 1, Some(most), s);
    forall c: char
      ensures InRanges(c, DIGITS) <==> Decimal.IsDigit(c)
    {
      InOne(c, '0', '9');
    }
  }

  const PATCH: Regex := Times(Class(DIGITS), 1, Some(6))

  const SHORT: Regex := Times(Class(DIGITS), 1, Some(4))

  lemma DotNumber(r: Regex, s: string)
    ensures Matches(Both(Text("."), r), s) <==> s != "" && s[0] == '.' && Matches(r, s[1..])
  {
    TextFirst(".", r, s);
  }

  /** A number, and then something that begins with a dot: the dot is the text's first. */
  lemma NumberThenDot(rest: Regex, s: string)
    ensures var i := Text.Find(s, '.');
            Matches(Both(SHORT, Both(Text("."), rest)), s)
            <==> i < |s| && Versions.IsNumber(s[..i], 4) && Matches(rest, s[i + 1..])
  {
    var i := Text.Find(s, '.');
    if Matches(Both(SHORT, Both(Text("."), rest)), s) {
      var k := BothSplit(SHORT, Both(Text("."), rest), s);
      NumberIsPattern(s[..k], 4);
      DotNumber(rest, s[k..]);
      assert s[k..][1..] == s[k + 1..] && s[k..][0] == s[k];
      Text.FindUnique(s, '.', k);
    }
    if i < |s| && Versions.IsNumber(s[..i], 4) && Matches(rest, s[i + 1..]) {
      NumberIsPattern(s[..i], 4);
      DotNumber(rest, s[i..]);
      assert s[i..][1..] == s[i + 1..];
      BothMatch(SHORT, Both(Text("."), rest), s, i);
    }
  }

  lemma VersionIsPattern(s: string)
    ensures Versions.Parse(s).Some? <==> Matches(VERSION, s)
  {
    MajorOff(s);
    VersionParts(s);
    if Text.Find(s, '.') < |s| {
      LastTwo(s[Text.Find(s, '.') + 1..]);
    }
  }

  lemma MajorOff(s: string)
    ensures var i := Text.Find(s, '.');
            Matches(VERSION, s)
            <==> i < |s| && Versions.IsNumber(s[..i], 4) && Matches(Both(SHORT, Both(Text("."), PATCH)), s[i + 1..])
  {
    VersionShape();
    NumberThenDot(Both(SHORT, Both(Text("."), PATCH)), s);
  }

  lemma VersionParts(s: string)
    ensures var i := Text.Find(s, '.');
            Versions.Parse(s).Some? <==> i < |s| && Versions.IsNumber(s[..i], 4) && IsMinorAndPatch(s[i + 1..])
  {
  }

  ghost predicate IsMinorAndPatch(rest: string) {
    var j := Text.Find(rest, '.');
    j < |rest| && Versions.IsNumber(rest[..j], 4) && Versions.IsNumber(rest[j + 1..], 6)
  }

  lemma VersionShape()
    ensures VERSION == Both(SHORT, Both(Text("."), Both(SHORT, Both(Text("."), PATCH))))
  {
  }

  lemma LastTwo(rest: string)
    ensures Matches(Both(SHORT, Both(Text("."), PATCH)), rest) <==> IsMinorAndPatch(rest)
  {
    var j := Text.Find(rest, '.');
    NumberThenDot(PATCH, rest);
    if j < |rest| {
      NumberIsPattern(rest[j + 1..], 6);
    }
  }
}
