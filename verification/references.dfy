/** core/spec.py's image references and backends/cli.py's tag dropper. */
module References {
  import opened Streams
  import opened Text

  // ---- The grammars ----

  predicate IsLower(c: char) { 'a' <= c <= 'z' }

  predicate IsDigit(c: char) { '0' <= c <= '9' }

  predicate IsAlnum(c: char) { IsLower(c) || IsDigit(c) }

  predicate IsWord(c: char) { IsAlnum(c) || 'A' <= c <= 'Z' }

  predicate InReference(c: char) { IsWord(c) || c == '.' || c == '_' || c == ':' || c == '/' || c == '@' || c == '-' }

  predicate InTag(c: char) { IsWord(c) || c == '.' || c == '_' || c == '-' }

  predicate InPath(c: char) { IsAlnum(c) || c == '.' || c == '_' || c == '-' }

  predicate InHost(c: char) { IsAlnum(c) || c == '.' || c == '-' }

  predicate InDigest(c: char) { IsDigit(c) || 'a' <= c <= 'f' }

  predicate All(s: string, p: char -> bool) { forall c :: c in s ==> p(c) }

  /** [A-Za-z0-9][A-Za-z0-9._:/@-]{0,255} */
  predicate IsReference(s: string) { 0 < |s| <= 256 && IsWord(s[0]) && All(s, InReference) }

  /** sha256:[a-f0-9]{64} */
  predicate IsDigest(s: string) { "sha256:" <= s && |s| == 71 && All(s[7..], InDigest) }

  /** [A-Za-z0-9_][A-Za-z0-9_.-]{0,127} */
  predicate IsTag(s: string) { 0 < |s| <= 128 && (IsWord(s[0]) || s[0] == '_') && All(s, InTag) }

  /** [a-z0-9]([a-z0-9.-]*[a-z0-9])? */
  predicate IsHost(s: string) { 0 < |s| && IsAlnum(s[0]) && IsAlnum(s[|s| - 1]) && All(s, InHost) }

  predicate IsPort(s: string) { 1 <= |s| <= 5 && All(s, IsDigit) }

  /** a host, and a port after a colon if there is one */
  predicate IsRegistry(s: string) {
    var colon := Find(s, ':');
    IsHost(s[..colon]) && (colon < |s| ==> IsPort(s[colon + 1..]))
  }

  /** [a-z0-9]+(?:[._-][a-z0-9]+)* : separators only one at a time and only between others */
  predicate IsComponent(s: string) {
    && 0 < |s| && IsAlnum(s[0]) && IsAlnum(s[|s| - 1]) && All(s, InPath)
    && forall i :: 0 < i < |s| ==> IsAlnum(s[i - 1]) || IsAlnum(s[i])
  }

  // ---- Parsing ----

  datatype Reference = Reference(registry: Option<string>, repository: string,
                                 tag: Option<string>, digest: Option<string>, source: string)

  /** "Missing ..." for an empty value, "Invalid ..." for another. */
  datatype SpecError = Refused(what: string, value: string)

  /** s.split("/") */
  function Split(s: string): (parts: seq<string>)
    ensures parts != []
    decreases |s|
  {
    var i := Find(s, '/');
    if i == |s| then [s] else [s[..i]] + Split(s[i + 1..])
  }

  /** "/".join(parts) */
  function Join(parts: seq<string>): string
    requires parts != []
  {
    if |parts| == 1 then parts[0] else parts[0] + "/" + Join(parts[1..])
  }

  function SplitDigest(value: string): (string, Option<string>) {
    var at := Find(value, '@');
    if at < |value| then (value[..at], Some(value[at + 1..])) else (value, None)
  }

  /** A colon starts a tag unless a slash follows: then it belongs to a registry's port. */
  function SplitTag(value: string): (string, Option<string>) {
    var i := AfterLast(value, ':');
    if i > 1 && '/' !in value[i..] then (value[..i - 1], Some(value[i..])) else (value, None)
  }

  predicate LooksLikeHost(part: string) { '.' in part || ':' in part || part == "localhost" }

  function SplitHost(name: string): (r: (Option<string>, seq<string>))
    ensures r.1 != []
  {
    var parts := Split(name);
    if |parts| > 1 && LooksLikeHost(parts[0]) then (Some(parts[0]), parts[1..]) else (None, parts)
  }

  /** The first component that is not one, if any. */
  function FirstBad(parts: seq<string>): Option<string> {
    if parts == [] then None
    else if !IsComponent(parts[0]) then Some(parts[0])
    else FirstBad(parts[1..])
  }

  function Suffix(mark: string, part: Option<string>): string {
    if part.Some? then mark + part.value else ""
  }

  function Name(registry: Option<string>, repository: string): string {
    if registry.Some? then registry.value + "/" + repository else repository
  }

  /** How source is put together. */
  function Render(registry: Option<string>, repository: string, tag: Option<string>, digest: Option<string>): string {
    Name(registry, repository) + Suffix(":", tag) + Suffix("@", digest)
  }

  /** parse_reference */
  function Parse(reference: string): Result<Reference, SpecError> {
    var value := Trim(reference);
    if !IsReference(value) then Failure(Refused("image reference", value)) else
    var (named, digest) := SplitDigest(value);
    if digest.Some? && !IsDigest(digest.value) then Failure(Refused("image digest", digest.value)) else
    var (name, tag) := SplitTag(named);
    if tag.Some? && !IsTag(tag.value) then Failure(Refused("image tag", tag.value)) else
    var (registry, parts) := SplitHost(name);
    if registry.Some? && !IsRegistry(registry.value) then Failure(Refused("registry host", registry.value)) else
    var bad := FirstBad(parts);
    if bad.Some? then Failure(Refused("repository path", bad.value)) else
    var repository := Join(parts);
    if repository == "" then Failure(Refused("image reference", reference)) else
    Success(Reference(registry, repository, tag, digest, Render(registry, repository, tag, digest)))
  }

  // ---- What Parse accepts ----

  ghost predicate Components(parts: seq<string>) {
    forall i :: 0 <= i < |parts| ==> IsComponent(parts[i])
  }

  /** A record that reads back as itself: without a registry, the first of several
      components must not look like one. */
  ghost predicate WellFormed(r: Reference) {
    && Components(Split(r.repository))
    && (r.registry.Some? ==> IsRegistry(r.registry.value) && LooksLikeHost(r.registry.value))
    && (r.registry.None? && |Split(r.repository)| > 1 ==> !LooksLikeHost(Split(r.repository)[0]))
    && (r.tag.Some? ==> IsTag(r.tag.value))
    && (r.digest.Some? ==> IsDigest(r.digest.value))
    && r.source == Render(r.registry, r.repository, r.tag, r.digest)
    && |r.source| <= 256
  }

  lemma {:induction false} FirstBadNone(parts: seq<string>)
    ensures FirstBad(parts).None? <==> Components(parts)
  {
    if parts != [] {
      FirstBadNone(parts[1..]);
      if Components(parts) {
        assert forall i :: 0 <= i < |parts[1..]| ==> parts[1..][i] == parts[i + 1];
        assert FirstBad(parts) == FirstBad(parts[1..]);
      } else if IsComponent(parts[0]) && Components(parts[1..]) {
        forall i | 0 <= i < |parts|
          ensures IsComponent(parts[i])
        {
          assert i > 0 ==> parts[i] == parts[1..][i - 1];
        }
      }
    }
  }

  lemma {:induction false} JoinOfSplit(s: string)
    ensures Join(Split(s)) == s
    decreases |s|
  {
    var i := Find(s, '/');
    if i < |s| {
      JoinOfSplit(s[i + 1..]);
      JoinOf(s[..i], Split(s[i + 1..]));
      CutAt(s, i);
    }
  }

  lemma SplitAfter(a: string, b: string)
    requires '/' !in a
    ensures Split(a + "/" + b) == [a] + Split(b)
  {
    var s := a + "/" + b;
    assert s[..|a|] == a && s[|a|] == '/' && s[|a| + 1..] == b;
    FindUnique(s, '/', |a|);
  }

  lemma SlashGrouped(h: string, t: string, b: string)
    ensures (h + "/" + t) + "/" + b == h + "/" + (t + "/" + b)
  {
  }

  lemma CutAt(s: string, i: nat)
    requires i < |s| && s[i] == '/'
    ensures s == s[..i] + "/" + s[i + 1..]
  {
  }

  lemma SplitStep(h: string, t: string, b: string)
    requires '/' !in h && Split(t + "/" + b) == Split(t) + Split(b)
    ensures Split((h + "/" + t) + "/" + b) == Split(h + "/" + t) + Split(b)
  {
    SlashGrouped(h, t, b);
    SplitAfter(h, t + "/" + b);
    SplitAfter(h, t);
    Associate([h], Split(t), Split(b));
  }

  lemma JoinOf(first: string, rest: seq<string>)
    requires rest != []
    ensures Join([first] + rest) == first + "/" + Join(rest)
  {
    assert ([first] + rest)[1..] == rest;
  }

  lemma {:induction false} SplitOfJoined(a: string, b: string)
    ensures Split(a + "/" + b) == Split(a) + Split(b)
    decreases |a|
  {
    var i := Find(a, '/');
    if i == |a| {
      SplitAfter(a, b);
    } else {
      var h, t := a[..i], a[i + 1..];
      SplitOfJoined(t, b);
      SplitStep(h, t, b);
      CutAt(a, i);
    }
  }

  lemma SplitOfOne(s: string)
    requires '/' !in s
    ensures Split(s) == [s]
  {
    FindAbsent(s, '/');
  }

  lemma SplitAt(s: string)
    requires |Split(s)| > 1
    ensures s == Split(s)[0] + "/" + Join(Split(s)[1..])
    ensures Split(Join(Split(s)[1..])) == Split(s)[1..]
  {
    var i := Find(s, '/');
    assert Split(s)[1..] == Split(s[i + 1..]);
    JoinOfSplit(s[i + 1..]);
    assert s == s[..i] + "/" + s[i + 1..];
  }

  // ---- From an accepted text to its record ----

  lemma SplitDigestJoins(value: string)
    ensures SplitDigest(value).0 + Suffix("@", SplitDigest(value).1) == value
  {
    var at := Find(value, '@');
    if at < |value| {
      assert value == value[..at] + ("@" + value[at + 1..]);
    }
  }

  lemma SplitTagJoins(value: string)
    ensures SplitTag(value).0 + Suffix(":", SplitTag(value).1) == value
  {
    var i := AfterLast(value, ':');
    if SplitTag(value).1.Some? {
      assert value == value[..i - 1] + (":" + value[i..]);
    }
  }

  lemma SplitHostJoins(name: string)
    ensures Name(SplitHost(name).0, Join(SplitHost(name).1)) == name
    ensures Split(Join(SplitHost(name).1)) == SplitHost(name).1
  {
    JoinOfSplit(name);
    if |Split(name)| > 1 {
      SplitAt(name);
    }
  }

  lemma PartsJoin(value: string)
    ensures var (named, digest) := SplitDigest(value);
            var (name, tag) := SplitTag(named);
            var (registry, parts) := SplitHost(name);
            Render(registry, Join(parts), tag, digest) == value && Split(Join(parts)) == parts
  {
    var (named, digest) := SplitDigest(value);
    var (name, tag) := SplitTag(named);
    SplitDigestJoins(value);
    SplitTagJoins(named);
    SplitHostJoins(name);
  }

  lemma AcceptedParts(reference: string)
    requires Parse(reference).Success?
    ensures var value := Trim(reference);
            var (named, digest) := SplitDigest(value);
            var (name, tag) := SplitTag(named);
            var (registry, parts) := SplitHost(name);
            && IsReference(value)
            && (digest.Some? ==> IsDigest(digest.value)) && (tag.Some? ==> IsTag(tag.value))
            && (registry.Some? ==> IsRegistry(registry.value)) && FirstBad(parts).None?
            && Parse(reference).value
               == Reference(registry, Join(parts), tag, digest, Render(registry, Join(parts), tag, digest))
  {
  }

  lemma HostLooks(name: string)
    ensures var (registry, parts) := SplitHost(name);
            && (registry.Some? ==> LooksLikeHost(registry.value))
            && (registry.None? && |parts| > 1 ==> !LooksLikeHost(parts[0]))
  {
  }

  /** Whatever is accepted is the whole trimmed input, put together again. */
  lemma AcceptedIsWellFormed(reference: string)
    requires Parse(reference).Success?
    ensures WellFormed(Parse(reference).value) && Parse(reference).value.source == Trim(reference)
  {
    var value := Trim(reference);
    var named := SplitDigest(value).0;
    var name := SplitTag(named).0;
    AcceptedParts(reference);
    PartsJoin(value);
    HostLooks(name);
    FirstBadNone(SplitHost(name).1);
  }

  // ---- From a well-formed record to its text and back ----

  lemma {:induction false} ComponentsText(s: string)
    requires Components(Split(s))
    ensures s != [] && IsAlnum(s[0])
    ensures forall c :: c in s ==> InPath(c) || c == '/'
    decreases |s|
  {
    assert IsComponent(Split(s)[0]);
    var i := Find(s, '/');
    if i < |s| {
      var rest := Split(s[i + 1..]);
      forall j | 0 <= j < |rest|
        ensures IsComponent(rest[j])
      {
        assert rest[j] == Split(s)[j + 1];
      }
      ComponentsText(s[i + 1..]);
      assert s == s[..i] + "/" + s[i + 1..];
    }
  }

  lemma RegistryText(s: string)
    requires IsRegistry(s)
    ensures s != [] && IsAlnum(s[0])
    ensures forall c :: c in s ==> InHost(c) || c == ':'
  {
    var colon := Find(s, ':');
    var host := s[..colon];
    assert s[0] == host[0];
    if colon < |s| {
      assert s == host + ":" + s[colon + 1..];
    } else {
      assert s == host;
    }
  }

  lemma TagText(s: string)
    requires IsTag(s)
    ensures forall c :: c in s ==> InTag(c)
    ensures s != [] && ':' !in s && '/' !in s
  {
  }

  lemma NameText(r: Reference)
    requires WellFormed(r)
    ensures var name := Name(r.registry, r.repository);
            name != [] && IsWord(name[0]) && '@' !in name && All(name, InReference)
  {
    ComponentsText(r.repository);
    if r.registry.Some? {
      RegistryText(r.registry.value);
    }
  }

  lemma DigestText(s: string)
    requires IsDigest(s)
    ensures '@' !in s && All(s, InReference)
  {
    assert s == "sha256:" + s[7..];
  }

  lemma RenderIsReference(r: Reference)
    requires WellFormed(r)
    ensures IsReference(r.source)
  {
    NameText(r);
    if r.digest.Some? {
      DigestText(r.digest.value);
    }
    if r.tag.Some? {
      TagText(r.tag.value);
    }
    var name := Name(r.registry, r.repository);
    assert r.source[0] == name[0];
  }

  lemma DigestSplits(named: string, digest: Option<string>)
    requires '@' !in named
    ensures SplitDigest(named + Suffix("@", digest)) == (named, digest)
  {
    var value := named + Suffix("@", digest);
    if digest.Some? {
      assert value[..|named|] == named && value[|named|] == '@' && value[|named| + 1..] == digest.value;
      FindUnique(value, '@', |named|);
    } else {
      assert value == named;
      FindAbsent(value, '@');
    }
  }

  lemma TagComesOff(name: string, tag: string)
    requires name != [] && ':' !in tag && '/' !in tag
    ensures SplitTag(name + ":" + tag) == (name, Some(tag))
  {
    var value := name + ":" + tag;
    assert value[..|name|] == name && value[|name|] == ':' && value[|name| + 1..] == tag;
    AfterLastUnique(value, ':', |name| + 1);
  }

  /** Without a tag, a colon can only be followed by a slash. */
  lemma NoTagComesOff(name: string)
    requires ':' !in name || '/' in name[AfterLast(name, ':')..]
    ensures SplitTag(name) == (name, None)
  {
    var i := AfterLast(name, ':');
    if i > 0 {
      assert name[i - 1] in name;
    }
  }

  lemma SlashFollows(a: string, b: string)
    requires ':' !in b
    ensures ':' !in a + "/" + b || '/' in (a + "/" + b)[AfterLast(a + "/" + b, ':')..]
  {
    var name := a + "/" + b;
    var i := AfterLast(name, ':');
    forall j | |a| < j < |name|
      ensures name[j] != ':'
    {
      assert name[j] == b[j - 1 - |a|];
    }
    if 0 < i {
      assert name[|a|] == '/';
      assert name[i..][|a| - i] == '/';
    }
  }

  lemma TagSplits(r: Reference)
    requires WellFormed(r)
    ensures var name := Name(r.registry, r.repository); SplitTag(name + Suffix(":", r.tag)) == (name, r.tag)
  {
    var name := Name(r.registry, r.repository);
    NameText(r);
    if r.tag.Some? {
      TagText(r.tag.value);
      TagComesOff(name, r.tag.value);
      assert name + Suffix(":", r.tag) == name + ":" + r.tag.value;
    } else {
      ComponentsText(r.repository);
      if r.registry.Some? {
        SlashFollows(r.registry.value, r.repository);
      }
      NoTagComesOff(name);
      assert name + Suffix(":", r.tag) == name;
    }
  }

  lemma HostSplits(r: Reference)
    requires WellFormed(r)
    ensures SplitHost(Name(r.registry, r.repository)) == (r.registry, Split(r.repository))
  {
    if r.registry.Some? {
      RegistryText(r.registry.value);
      SplitAfter(r.registry.value, r.repository);
      assert ([r.registry.value] + Split(r.repository))[1..] == Split(r.repository);
    }
  }

  lemma WellFormedIsAccepted(r: Reference, reference: string)
    requires WellFormed(r) && Trim(reference) == r.source
    ensures Parse(reference) == Success(r)
  {
    RenderIsReference(r);
    NameText(r);
    var name := Name(r.registry, r.repository);
    var named := name + Suffix(":", r.tag);
    assert '@' !in named;
    DigestSplits(named, r.digest);
    TagSplits(r);
    HostSplits(r);
    FirstBadNone(Split(r.repository));
    JoinOfSplit(r.repository);
    ComponentsText(r.repository);
  }

  /** parse_reference accepts exactly the texts of well-formed records, and gives that record. */
  lemma ParseIsInverse(r: Reference, reference: string)
    ensures Parse(reference) == Success(r) <==> WellFormed(r) && Trim(reference) == r.source
  {
    if Parse(reference).Success? {
      AcceptedIsWellFormed(reference);
    }
    if WellFormed(r) && Trim(reference) == r.source {
      WellFormedIsAccepted(r, reference);
    }
  }

  lemma {:induction false} Reparses(reference: string)
    requires Parse(reference).Success?
    ensures Parse(Parse(reference).value.source) == Parse(reference)
  {
    AcceptedIsWellFormed(reference);
    TrimTight(reference);
    TrimOfTight(Trim(reference));
    WellFormedIsAccepted(Parse(reference).value, Trim(reference));
  }

  // ---- When the first component is the registry ----

  /** The text up to its first slash has a dot or a colon in it, or is localhost. */
  ghost predicate HostFirst(text: string, k: nat) {
    && k < |text| && text[k] == '/' && (forall i :: 0 <= i < k ==> text[i] != '/')
    && (text[..k] == "localhost" || exists i :: 0 <= i < k && (text[i] == '.' || text[i] == ':'))
  }

  lemma LooksExactly(part: string)
    ensures LooksLikeHost(part)
            <==> part == "localhost" || exists i :: 0 <= i < |part| && (part[i] == '.' || part[i] == ':')
  {
  }

  lemma HostFirstIn(name: string, tail: string, k: nat)
    requires forall i :: 0 <= i < |tail| ==> tail[i] != '/'
    ensures HostFirst(name + tail, k) <==> HostFirst(name, k)
  {
    var text := name + tail;
    if k < |name| {
      assert text[..k] == name[..k] && forall i :: 0 <= i < |name| ==> text[i] == name[i];
    } else if k < |text| {
      assert text[k] == tail[k - |name|];
    }
  }

  lemma HostFirstSplits(name: string, k: nat)
    requires HostFirst(name, k)
    ensures SplitHost(name).0 == Some(name[..k])
  {
    FindUnique(name, '/', k);
    LooksExactly(name[..k]);
    assert forall i :: 0 <= i < k ==> name[i] == name[..k][i];
  }

  lemma SplitsHostFirst(name: string)
    requires SplitHost(name).0.Some?
    ensures SplitHost(name).0 == Some(name[..Find(name, '/')]) && HostFirst(name, Find(name, '/'))
  {
    var k := Find(name, '/');
    LooksExactly(name[..k]);
    assert forall i :: 0 <= i < k ==> name[i] == name[..k][i];
  }

  lemma TailHasNoSlash(tag: Option<string>, digest: Option<string>)
    requires (tag.Some? ==> IsTag(tag.value)) && (digest.Some? ==> IsDigest(digest.value))
    ensures '/' !in Suffix(":", tag) + Suffix("@", digest)
  {
    if tag.Some? {
      TagText(tag.value);
    }
    if digest.Some? {
      DigestHasNoSlash(digest.value);
    }
  }

  lemma DigestHasNoSlash(s: string)
    requires IsDigest(s)
    ensures '/' !in s
  {
    assert s == "sha256:" + s[7..];
  }

  /** An accepted text names a registry exactly if what comes before its first slash looks
      like a host, and then that is the registry. */
  lemma RegistryIsTaken(reference: string, k: nat)
    requires Parse(reference).Success?
    ensures HostFirst(Trim(reference), k) ==> Parse(reference).value.registry == Some(Trim(reference)[..k])
  {
    var r := Parse(reference).value;
    var name, tail := Name(r.registry, r.repository), Suffix(":", r.tag) + Suffix("@", r.digest);
    RegistryParts(reference);
    HostFirstIn(name, tail, k);
    if HostFirst(name, k) {
      HostFirstSplits(name, k);
      FrontOfBoth(name, tail, k);
    }
  }

  lemma RegistryParts(reference: string)
    requires Parse(reference).Success?
    ensures var r := Parse(reference).value;
            var name, tail := Name(r.registry, r.repository), Suffix(":", r.tag) + Suffix("@", r.digest);
            && Trim(reference) == name + tail && '/' !in tail && SplitHost(name).0 == r.registry
  {
    var r := Parse(reference).value;
    AcceptedIsWellFormed(reference);
    HostSplits(r);
    TailHasNoSlash(r.tag, r.digest);
    Associate(Name(r.registry, r.repository), Suffix(":", r.tag), Suffix("@", r.digest));
  }

  lemma RegistryWasFirst(reference: string) returns (k: nat)
    requires Parse(reference).Success? && Parse(reference).value.registry.Some?
    ensures HostFirst(Trim(reference), k) && Parse(reference).value.registry == Some(Trim(reference)[..k])
  {
    var r := Parse(reference).value;
    var name, tail := Name(r.registry, r.repository), Suffix(":", r.tag) + Suffix("@", r.digest);
    RegistryParts(reference);
    SplitsHostFirst(name);
    k := Find(name, '/');
    HostFirstIn(name, tail, k);
    FrontOfBoth(name, tail, k);
  }

  lemma FrontOfBoth(a: string, b: string, k: nat)
    requires k <= |a|
    ensures (a + b)[..k] == a[..k]
  {
  }

  // ---- Dropping the tag next to a digest ----

  /** What the tag dropper does to the part before the digest. */
  function WithoutTag(name: string): string {
    var i := AfterLast(name, '/');
    var last := name[i..];
    if ':' !in last then name
    else if i > 1 then name[..i - 1] + "/" + last[..Find(last, ':')]
    else last[..Find(last, ':')]
  }

  /** _by_digest */
  function ByDigest(reference: string): string {
    var at := Find(reference, '@');
    if at == |reference| then reference else
    WithoutTag(reference[..at]) + "@" + reference[at + 1..]
  }

  lemma {:induction false} AfterLastSkips(a: string, b: string, c: char)
    requires c !in b
    ensures AfterLast(a + b, c) == AfterLast(a, c)
  {
    if b == "" {
      assert a + b == a;
    } else {
      var init := b[..|b| - 1];
      assert (a + b)[..|a + b| - 1] == a + init;
      assert b[|b| - 1] in b;
      AfterLastSkips(a, init, c);
    }
  }

  /** A registry's colon comes before its slash, so the last component has none. */
  lemma LastHasNoColon(r: Reference)
    requires WellFormed(r)
    ensures var name := Name(r.registry, r.repository); ':' !in name[AfterLast(name, '/')..]
  {
    ComponentsText(r.repository);
    if r.registry.Some? {
      LastAfterSlash(r.registry.value, r.repository);
    } else {
      SuffixLacks(r.repository, AfterLast(r.repository, '/'), ':');
    }
  }

  lemma SuffixLacks(s: string, i: nat, c: char)
    requires i <= |s| && c !in s
    ensures c !in s[i..]
  {
  }

  lemma LastAfterSlash(a: string, b: string)
    requires ':' !in b
    ensures ':' !in (a + "/" + b)[AfterLast(a + "/" + b, '/')..]
  {
    var name := a + "/" + b;
    var i := AfterLast(name, '/');
    forall j | i <= j < |name|
      ensures name[j] != '/'
    {
      assert name[j] == name[i..][j - i];
    }
    assert name[|a|] == '/';
    forall j | i <= j < |name|
      ensures name[j] != ':'
    {
      assert name[j] == b[j - 1 - |a|];
    }
  }

  lemma JoinedAt(head: string, rest: string)
    ensures (head + rest)[|head|..] == rest
    ensures head != "" ==> (head + rest)[..|head| - 1] == head[..|head| - 1]
  {
  }

  lemma LastOff(head: string)
    requires head != "" && head[|head| - 1] == '/'
    ensures head[..|head| - 1] + "/" == head
  {
  }

  lemma WithoutTagOf(head: string, rest: string)
    requires head == "" || (|head| > 1 && head[|head| - 1] == '/')
    requires '/' !in rest && ':' in rest
    ensures WithoutTag(head + rest) == head + rest[..Find(rest, ':')]
  {
    AfterLastSkips(head, rest, '/');
    JoinedAt(head, rest);
    if head != "" {
      LastOff(head);
    }
  }

  lemma TagAfter(head: string, last: string, tag: string)
    requires head == "" || (|head| > 1 && head[|head| - 1] == '/')
    requires '/' !in last && ':' !in last && '/' !in tag
    ensures WithoutTag(head + (last + ":" + tag)) == head + last
  {
    var rest := last + ":" + tag;
    assert rest[..|last|] == last && rest[|last|] == ':';
    FindUnique(rest, ':', |last|);
    WithoutTagOf(head, rest);
  }

  lemma LastComponent(name: string)
    requires name != [] && name[0] != '/'
    ensures var i := AfterLast(name, '/');
            name == name[..i] + name[i..] && (i == 0 || (i > 1 && name[..i][i - 1] == '/'))
  {
  }

  lemma TagIsDropped(name: string, tag: string)
    requires name != [] && name[0] != '/' && ':' !in name[AfterLast(name, '/')..] && '/' !in tag
    ensures WithoutTag(name + (":" + tag)) == name
  {
    var i := AfterLast(name, '/');
    LastComponent(name);
    TagAfter(name[..i], name[i..], tag);
    Regrouped(name[..i], name[i..], tag);
  }

  lemma Regrouped(head: string, last: string, tag: string)
    ensures (head + last) + (":" + tag) == head + (last + ":" + tag)
  {
  }

  lemma ByDigestKeepsName(named: string, digest: string)
    requires '@' !in named
    ensures ByDigest(named + ("@" + digest)) == WithoutTag(named) + "@" + digest
  {
    var value := named + ("@" + digest);
    assert value[..|named|] == named && value[|named|] == '@' && value[|named| + 1..] == digest;
    FindUnique(value, '@', |named|);
  }

  lemma ByDigestOf(name: string, tag: Option<string>, digest: string)
    requires name != [] && name[0] != '/' && '@' !in name && ':' !in name[AfterLast(name, '/')..]
    requires tag.Some? ==> IsTag(tag.value)
    ensures ByDigest(name + Suffix(":", tag) + ("@" + digest)) == name + ("@" + digest)
  {
    ByDigestKeepsName(name + Suffix(":", tag), digest);
    if tag.Some? {
      TagText(tag.value);
      TagIsDropped(name, tag.value);
    } else {
      assert name + Suffix(":", tag) == name;
    }
    Associate(name, "@", digest);
  }

  lemma {:induction false} ByDigestRenders(r: Reference)
    requires WellFormed(r) && r.digest.Some?
    ensures ByDigest(r.source) == Render(r.registry, r.repository, None, r.digest)
  {
    var name := Name(r.registry, r.repository);
    NameText(r);
    LastHasNoColon(r);
    ByDigestOf(name, r.tag, r.digest.value);
    assert name + Suffix(":", None) == name;
  }

  lemma ReferenceIsTrimmed(s: string)
    requires IsReference(s)
    ensures Trim(s) == s
  {
    assert s[0] in s && s[|s| - 1] in s;
    TrimOfTight(s);
  }

  /** The record of a reference once its tag is dropped. */
  function Bare(r: Reference): Reference {
    r.(tag := None, source := Render(r.registry, r.repository, None, r.digest))
  }

  lemma BareIsAccepted(r: Reference)
    requires WellFormed(r)
    ensures WellFormed(Bare(r)) && Parse(Bare(r).source) == Success(Bare(r))
  {
    assert |Suffix(":", None)| == 0;
    RenderIsReference(Bare(r));
    ReferenceIsTrimmed(Bare(r).source);
    WellFormedIsAccepted(Bare(r), Bare(r).source);
  }

  /** For every accepted reference with a digest: dropping the tag keeps registry,
      repository and digest, whatever port the registry has. */
  lemma {:induction false} ByDigestKeepsIdentity(reference: string, r: Reference)
    requires Parse(reference) == Success(r) && r.digest.Some?
    ensures Parse(ByDigest(r.source)) == Success(r.(tag := None, source := ByDigest(r.source)))
  {
    AcceptedIsWellFormed(reference);
    ByDigestRenders(r);
    BareIsAccepted(r);
  }

  /** Dropping the tag twice is dropping it once; without a digest nothing is dropped. */
  lemma ByDigestOnce(reference: string, r: Reference)
    requires Parse(reference) == Success(r)
    ensures ByDigest(ByDigest(r.source)) == ByDigest(r.source)
    ensures r.digest.None? ==> ByDigest(r.source) == Trim(reference)
  {
    AcceptedIsWellFormed(reference);
    if r.digest.Some? {
      ByDigestRenders(r);
      BareIsAccepted(r);
      ByDigestRenders(Bare(r));
    } else {
      NameText(r);
      if r.tag.Some? {
        TagText(r.tag.value);
      }
      FindAbsent(r.source, '@');
    }
  }
}
