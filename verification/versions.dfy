/** core/spec.py: version numbers of builds, and api.start_build's rule for the
    version it suggests next. */
module Versions {
  import opened Streams
  import opened Decimal
  import Text

  /** version_key() */
  datatype Version = Version(major: nat, minor: nat, patch: nat)

  const FIRST: Version := Version(1, 0, 0)

  /** f"{major}.{minor}.{patch}" */
  function Show(v: Version): string {
    ToString(v.major) + "." + ToString(v.minor) + "." + ToString(v.patch)
  }

  predicate IsNumber(s: string, longest: nat) {
    0 < |s| <= longest && forall c :: c in s ==> IsDigit(c)
  }

  /** The three numbers of VERSION_RE: \d{1,4}\.\d{1,4}\.\d{1,6} */
  function Parse(s: string): Option<Version> {
    var i := Text.Find(s, '.');
    if i == |s| then None
    else
      var rest := s[i + 1..];
      var j := Text.Find(rest, '.');
      if j == |rest| || !IsNumber(s[..i], 4) || !IsNumber(rest[..j], 4) || !IsNumber(rest[j + 1..], 6) then None
      else Some(Version(Value(s[..i]), Value(rest[..j]), Value(rest[j + 1..])))
  }

  /** Tuples of numbers compare lexicographically. */
  predicate Less(a: Version, b: Version) {
    || a.major < b.major
    || (a.major == b.major && a.minor < b.minor)
    || (a.major == b.major && a.minor == b.minor && a.patch < b.patch)
  }

  /** An accepted version, or the one after it. */
  predicate InRange(v: Version) { v.major < 10000 && v.minor < 10000 && v.patch <= 1000000 }

  /** Versions in range as numbers, one for each. */
  function Number(v: Version): nat { (v.major * 10000 + v.minor) * 1000001 + v.patch }

  /** The order of versions is the order of their numbers. */
  lemma LessIsLessNumber(a: Version, b: Version)
    requires InRange(a) && InRange(b)
    ensures Less(a, b) <==> Number(a) < Number(b)
    ensures a == b <==> Number(a) == Number(b)
  {
  }

  lemma NextNumber(v: Version)
    requires InRange(v)
    ensures Number(NextPatch(v)) == Number(v) + 1
  {
  }

  function NextPatch(v: Version): Version { v.(patch := v.patch + 1) }

  lemma {:induction false} NoDot(s: string)
    requires AllDigits(s)
    ensures '.' !in s
  {
  }

  lemma {:induction false} ValueBound(s: string)
    requires AllDigits(s)
    ensures Value(s) < Pow10(|s|)
  {
    if s != [] {
      ValueBound(s[..|s| - 1]);
    }
  }

  lemma {:induction false} ShortNumber(n: nat, width: nat)
    requires width > 0
    ensures |ToString(n)| <= width <==> n < Pow10(width)
  {
    LengthBound(n);
    if |ToString(n)| <= width {
      Pow10Monotone(|ToString(n)|, width);
    } else {
      Pow10Monotone(width, |ToString(n)| - 1);
    }
  }

  lemma Split(a: string, b: string, c: string)
    requires '.' !in a && '.' !in b
    ensures var s := a + "." + b + "." + c;
            Text.Find(s, '.') == |a| && s[..|a|] == a && s[|a| + 1..] == b + "." + c
    ensures Text.Find(b + "." + c, '.') == |b|
            && (b + "." + c)[..|b|] == b && (b + "." + c)[|b| + 1..] == c
  {
    var s := a + "." + b + "." + c;
    assert s[..|a|] == a && s[|a|] == '.';
    assert s[|a| + 1..] == b + "." + c;
    Text.FindUnique(s, '.', |a|);
    var rest := b + "." + c;
    assert rest[..|b|] == b && rest[|b|] == '.';
    Text.FindUnique(rest, '.', |b|);
  }

  /** A version text that LayerSmith writes is read back, unless a number has outgrown VERSION_RE. */
  lemma ParseOfShow(v: Version)
    ensures Parse(Show(v)) ==
              if v.major < 10000 && v.minor < 10000 && v.patch < 1000000 then Some(v) else None
  {
    var a, b, c := ToString(v.major), ToString(v.minor), ToString(v.patch);
    NoDot(a);
    NoDot(b);
    Split(a, b, c);
    ShortNumber(v.major, 4);
    ShortNumber(v.minor, 4);
    ShortNumber(v.patch, 6);
    assert Pow10(4) == 10000 && Pow10(6) == 1000000;
    ValueOfToString(v.major);
    ValueOfToString(v.minor);
    ValueOfToString(v.patch);
  }

  lemma ParsedIsSmall(s: string)
    requires Parse(s).Some?
    ensures Parse(s).value.major < 10000 && Parse(s).value.minor < 10000 && Parse(s).value.patch < 1000000
  {
    var i := Text.Find(s, '.');
    var rest := s[i + 1..];
    var j := Text.Find(rest, '.');
    ValueBound(s[..i]);
    ValueBound(rest[..j]);
    ValueBound(rest[j + 1..]);
    Pow10Monotone(|s[..i]|, 4);
    Pow10Monotone(|rest[..j]|, 4);
    Pow10Monotone(|rest[j + 1..]|, 6);
    assert Pow10(4) == 10000 && Pow10(6) == 1000000;
  }

  /** The suggestion after an accepted version is itself accepted, unless its patch was
      the largest VERSION_RE allows. */
  lemma NextIsAccepted(s: string)
    requires Parse(s).Some?
    ensures Parse(Show(NextPatch(Parse(s).value))).Some? <==> Parse(s).value.patch < 999999
  {
    ParsedIsSmall(s);
    ParseOfShow(NextPatch(Parse(s).value));
  }

  lemma ShowHasNoSpace(v: Version)
    ensures Text.Trim(Show(v)) == Show(v)
  {
    var s := Show(v);
    var first, last := ToString(v.major)[0], ToString(v.patch)[|ToString(v.patch)| - 1];
    assert first in ToString(v.major) && last in ToString(v.patch);
    assert s[0] == first && s[|s| - 1] == last;
    Text.TrimOfTight(s);
  }
}
