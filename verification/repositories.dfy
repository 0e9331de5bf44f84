/** core/spec.py's patterns for project names and repositories, and the repository that
    api.clone_project makes of them. */
module Repositories {
  import opened Text
  import opened References

  predicate InName(c: char) { IsAlnum(c) || c == '-' }

  /** [a-z0-9][a-z0-9-]{0,62} */
  predicate IsName(s: string) { 0 < |s| <= 63 && IsAlnum(s[0]) && All(s, InName) }

  /** One to four components, joined by slashes. */
  ghost predicate IsRepository(s: string) { |Split(s)| <= 4 && Components(Split(s)) }

  /** A clone's repository: its name in the place of the last component. */
  function Beside(source: string, name: string): string {
    if '/' in source then source[..AfterLast(source, '/') - 1] + "/" + name else name
  }

  /** No hyphen at the end or next to another. */
  predicate IsPlain(name: string) {
    name != [] && name[|name| - 1] != '-' && forall i :: 0 < i < |name| ==> name[i - 1] != '-' || name[i] != '-'
  }

  function Init(parts: seq<string>): seq<string>
    requires parts != []
  {
    parts[..|parts| - 1]
  }

  function Last(parts: seq<string>): string
    requires parts != []
  {
    parts[|parts| - 1]
  }

  /** What a project's repository always is: a clone's last component is only a name. */
  ghost predicate IsNearly(s: string) {
    && |Split(s)| <= 4 && Components(Init(Split(s)))
    && (IsComponent(Last(Split(s))) || IsName(Last(Split(s))))
  }

  lemma NameIsComponent(name: string)
    requires IsName(name)
    ensures IsComponent(name) <==> IsPlain(name)
  {
    forall i | 0 <= i < |name|
      ensures IsAlnum(name[i]) <==> name[i] != '-'
      ensures InPath(name[i])
    {
      assert name[i] in name && InName(name[i]);
    }
  }

  lemma SplitBeside(source: string, name: string)
    requires '/' !in name
    ensures Split(Beside(source, name)) == Init(Split(source)) + [name]
  {
    SplitOfOne(name);
    if '/' in source {
      var i := AfterLast(source, '/');
      SlashIsFound(source);
      var front, last := source[..i - 1], source[i..];
      CutAt(source, i - 1);
      SplitOfOne(last);
      SplitOfJoined(front, last);
      SplitOfJoined(front, name);
      assert Init(Split(front) + [last]) == Split(front);
    } else {
      SplitOfOne(source);
    }
  }

  lemma SlashIsFound(s: string)
    requires '/' in s
    ensures AfterLast(s, '/') > 0
  {
    var i := AfterLast(s, '/');
    assert s == s[..i] + s[i..];
  }

  lemma RepositoryIsNearly(s: string)
    requires IsRepository(s)
    ensures IsNearly(s)
  {
    ComponentsAre(Split(s));
  }

  /** What a project's repository lacks for REPOSITORY_RE can only be its last component. */
  lemma NearlyRepository(s: string)
    requires IsNearly(s)
    ensures IsRepository(s) <==> IsComponent(Last(Split(s)))
  {
    ComponentsAre(Split(s));
  }

  lemma ComponentsAre(parts: seq<string>)
    requires parts != []
    ensures Components(parts) <==> Components(Init(parts)) && IsComponent(Last(parts))
  {
    forall i | 0 <= i < |parts| - 1 ensures Init(parts)[i] == parts[i] {
    }
    if Components(Init(parts)) && IsComponent(Last(parts)) {
      forall i | 0 <= i < |parts| ensures IsComponent(parts[i]) {
        assert i < |parts| - 1 ==> IsComponent(Init(parts)[i]);
      }
    }
  }

  lemma BesideIsNearly(source: string, name: string)
    requires IsNearly(source) && IsName(name)
    ensures IsNearly(Beside(source, name))
    ensures IsRepository(Beside(source, name)) <==> IsPlain(name)
  {
    NameIsComponent(name);
    SplitBeside(source, name);
    NearlyRepository(Beside(source, name));
  }

  ghost predicate Worded(parts: seq<string>) {
    forall i :: 0 <= i < |parts| ==> parts[i] != [] && All(parts[i], InPath)
  }

  lemma {:induction false} WordedText(s: string)
    requires Worded(Split(s))
    ensures s != [] && forall c :: c in s ==> InPath(c) || c == '/'
    decreases |s|
  {
    assert Split(s)[0] != [];
    var i := Find(s, '/');
    if i < |s| {
      assert Split(s)[1..] == Split(s[i + 1..]);
      WordedText(s[i + 1..]);
      assert s == s[..i] + "/" + s[i + 1..];
    }
  }

  /** Stripping a project's repository changes nothing. */
  lemma NearlyIsTight(s: string)
    requires IsNearly(s)
    ensures Trim(s) == s
  {
    var parts := Split(s);
    forall i | 0 <= i < |parts|
      ensures parts[i] != [] && All(parts[i], InPath)
    {
      assert i < |parts| - 1 ==> parts[i] == Init(parts)[i];
    }
    WordedText(s);
    assert s[0] in s && s[|s| - 1] in s;
    TrimOfTight(s);
  }

  // ---- Names of letters and hyphens ----

  ghost predicate Lettered(s: string) {
    && 0 < |s| <= 63 && IsLower(s[0]) && IsLower(s[|s| - 1])
    && forall i :: 0 <= i < |s| ==> IsLower(s[i]) || s[i] == '-'
  }

  lemma LetteredIsName(s: string)
    requires Lettered(s)
    ensures IsName(s) && Trim(s) == s && '/' !in s
  {
    TrimOfTight(s);
  }

  lemma PlainIsRepository(s: string)
    requires Lettered(s) && IsPlain(s)
    ensures IsRepository(s)
  {
    LetteredIsName(s);
    NameIsComponent(s);
    SplitOfOne(s);
  }

  lemma AppIsPlain()
    ensures Lettered("app") && IsPlain("app")
  {
  }

  lemma MyAppIsNot()
    ensures Lettered("my--app") && !IsPlain("my--app")
  {
    var s := "my--app";
    assert s[2] == '-' && s[3] == '-';
  }
}
