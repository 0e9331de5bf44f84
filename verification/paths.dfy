/** The absolute paths that pathlib makes of texts and resolves, on a file system without
    symbolic links. */
module Paths {
  import opened Streams
  import opened References
  import Text

  /** A part that a path keeps. */
  predicate IsPart(s: string) { s != "" && s != "." && '/' !in s }

  function Kept(parts: seq<string>): seq<string> {
    if parts == [] then []
    else
      var rest := Kept(parts[1..]);
      if parts[0] == "" || parts[0] == "." then rest else [parts[0]] + rest
  }

  /** Path(s).parts without the root */
  function PartsOf(s: string): seq<string> { Kept(Split(s)) }

  /** str() of such a path */
  function TextOf(parts: seq<string>): string {
    if parts == [] then "/" else "/" + Join(parts)
  }

  /** str(Path(s)) */
  function PathText(s: string): string { TextOf(PartsOf(s)) }

  /** What str() of a path can be. */
  predicate Stored(s: string) { PathText(s) == s }

  /** Path.resolve(): ".." takes back the part before it. */
  function Walk(parts: seq<string>): (w: seq<string>)
    ensures |w| <= |parts|
  {
    if parts == [] then []
    else
      var w, last := Walk(parts[..|parts| - 1]), parts[|parts| - 1];
      if last != ".." then w + [last] else if w == [] then [] else w[..|w| - 1]
  }

  /** str(Path(s).resolve()), which tells directory entries apart */
  function Entry(s: string): string { TextOf(Walk(PartsOf(s))) }

  /** Path(s).resolve().is_relative_to(Path(root).resolve()) */
  predicate Inside(s: string, root: string) { Walk(PartsOf(root)) <= Walk(PartsOf(s)) }

  ghost predicate Parts(parts: seq<string>) { forall i :: 0 <= i < |parts| ==> IsPart(parts[i]) }

  // ---- Texts and parts ----

  lemma {:induction false} KeptAreParts(parts: seq<string>)
    requires forall i :: 0 <= i < |parts| ==> '/' !in parts[i]
    ensures Parts(Kept(parts))
  {
    if parts != [] {
      KeptAreParts(parts[1..]);
    }
  }

  lemma {:induction false} SplitHasNoSlash(s: string)
    ensures forall i :: 0 <= i < |Split(s)| ==> '/' !in Split(s)[i]
    decreases |s|
  {
    var i := Text.Find(s, '/');
    if i < |s| {
      SplitHasNoSlash(s[i + 1..]);
    }
  }

  lemma PartsAreParts(s: string)
    ensures Parts(PartsOf(s))
  {
    SplitHasNoSlash(s);
    KeptAreParts(Split(s));
  }

  lemma {:induction false} KeptAll(parts: seq<string>)
    requires Parts(parts)
    ensures Kept(parts) == parts
  {
    if parts != [] {
      KeptAll(parts[1..]);
    }
  }

  lemma {:induction false} SplitOfJoin(parts: seq<string>)
    requires Parts(parts) && parts != []
    ensures Split(Join(parts)) == parts
  {
    if |parts| == 1 {
      SplitOfOne(parts[0]);
    } else {
      SplitOfJoin(parts[1..]);
      SplitAfter(parts[0], Join(parts[1..]));
    }
  }

  lemma SlashFirst(s: string)
    ensures Split("/" + s) == [""] + Split(s)
  {
    assert "" + "/" + s == "/" + s;
    SplitAfter("", s);
  }

  /** Parts read back from the text. */
  lemma PartsOfText(parts: seq<string>)
    requires Parts(parts)
    ensures PartsOf(TextOf(parts)) == parts
  {
    var rest := if parts == [] then "" else Join(parts);
    SlashFirst(rest);
    assert ([""] + Split(rest))[1..] == Split(rest);
    if parts == [] {
      SplitOfOne("");
      assert "/" + rest == "/";
      assert [""][1..] == [];
      assert Kept([""]) == [];
    } else {
      SplitOfJoin(parts);
      KeptAll(parts);
    }
  }

  /** What pathlib writes it leaves as it is. */
  lemma PathTextIsStored(s: string)
    ensures Stored(PathText(s))
  {
    PartsAreParts(s);
    PartsOfText(PartsOf(s));
  }

  lemma KeptCons(first: string, rest: seq<string>)
    ensures Kept([first] + rest) == if first == "" || first == "." then Kept(rest) else [first] + Kept(rest)
  {
    assert ([first] + rest)[1..] == rest;
  }

  lemma KeptStep(first: string, a: seq<string>, b: seq<string>)
    requires Kept(a + b) == Kept(a) + Kept(b)
    ensures Kept(([first] + a) + b) == Kept([first] + a) + Kept(b)
  {
    KeptCons(first, a);
    KeptCons(first, a + b);
    Associate([first], a, b);
    Associate([first], Kept(a), Kept(b));
  }

  lemma {:induction false} KeptJoins(a: seq<string>, b: seq<string>)
    ensures Kept(a + b) == Kept(a) + Kept(b)
  {
    if a == [] {
      assert a + b == b;
    } else {
      KeptJoins(a[1..], b);
      KeptStep(a[0], a[1..], b);
      assert a == [a[0]] + a[1..];
    }
  }

  /** str(Path(directory) / name) */
  lemma FileIn(directory: string, name: string)
    requires IsPart(name)
    ensures PartsOf(directory + "/" + name) == PartsOf(directory) + [name]
  {
    SplitOfJoined(directory, name);
    SplitOfOne(name);
    KeptJoins(Split(directory), [name]);
  }

  // ---- Spellings ----

  lemma {:induction false} WalkIsWhole(parts: seq<string>)
    ensures Walk(parts) == parts <==> ".." !in parts
  {
    if parts != [] {
      WalkIsWhole(parts[..|parts| - 1]);
      assert parts == parts[..|parts| - 1] + [parts[|parts| - 1]];
    }
  }

  lemma {:induction false} WalkKeepsParts(parts: seq<string>)
    requires Parts(parts)
    ensures Parts(Walk(parts))
  {
    if parts != [] {
      WalkKeepsParts(parts[..|parts| - 1]);
    }
  }

  /** A stored path is the spelling of its own entry exactly if it has no "..". */
  lemma EntryIsItself(s: string)
    requires Stored(s)
    ensures Entry(s) == s <==> ".." !in PartsOf(s)
  {
    var parts := PartsOf(s);
    PartsAreParts(s);
    WalkKeepsParts(parts);
    PartsOfText(Walk(parts));
    WalkIsWhole(parts);
  }

  /** Two paths that begin with different directories and end alike. */
  lemma TwoSpellings(top: string, rest: seq<string>)
    requires IsPart(top) && top != ".." && Parts(rest) && ".." !in rest && rest != []
    ensures var p, q := TextOf([top, ".."] + rest), TextOf(rest);
            Stored(p) && Stored(q) && p != q && Entry(p) == q && Walk(PartsOf(p)) == rest
  {
    var parts := [top, ".."] + rest;
    assert Parts(parts);
    PartsOfText(parts);
    PartsOfText(rest);
    WalkIsWhole(rest);
    WalkAfter(top, rest);
  }

  lemma {:induction false} WalkAfter(top: string, rest: seq<string>)
    requires top != ".." && ".." !in rest
    ensures Walk([top, ".."] + rest) == rest
  {
    var parts := [top, ".."] + rest;
    if rest == [] {
      assert parts[..1] == [top] && [top][..0] == [];
      assert Walk([top]) == [top];
    } else {
      var init := rest[..|rest| - 1];
      WalkAfter(top, init);
      assert parts[..|parts| - 1] == [top, ".."] + init;
      assert rest == init + [rest[|rest| - 1]];
    }
  }

  // ---- Resolving, by its laws ----

  lemma WalkSnoc(parts: seq<string>, last: string)
    ensures last != ".." ==> Walk(parts + [last]) == Walk(parts) + [last]
    ensures last == ".." && Walk(parts) != [] ==> Walk(parts + [last]) == Walk(parts)[..|Walk(parts)| - 1]
    ensures last == ".." && Walk(parts) == [] ==> Walk(parts + [last]) == []
  {
    assert (parts + [last])[..|parts|] == parts;
  }

  lemma {:induction false} WalkGoesOn(a: seq<string>, b: seq<string>, rest: seq<string>)
    requires Walk(a) == Walk(b)
    ensures Walk(a + rest) == Walk(b + rest)
  {
    if rest == [] {
      assert a + rest == a && b + rest == b;
    } else {
      var init, last := rest[..|rest| - 1], rest[|rest| - 1];
      WalkGoesOn(a, b, init);
      WalkSnoc(a + init, last);
      WalkSnoc(b + init, last);
      assert rest == init + [last];
      Associate(a, init, [last]);
      Associate(b, init, [last]);
    }
  }

  /** A part and the ".." after it cancel, wherever they are; at the root ".." is nothing. */
  lemma WalkCancels(before: seq<string>, part: string, rest: seq<string>)
    requires part != ".."
    ensures Walk(before + [part] + [".."] + rest) == Walk(before + rest)
    ensures Walk([".."] + rest) == Walk(rest)
  {
    WalkSnoc(before, part);
    WalkSnoc(before + [part], "..");
    WalkGoesOn(before + [part] + [".."], before, rest);
    WalkSnoc([], "..");
    assert [] + [".."] == [".."] && [] + rest == rest;
    WalkGoesOn([".."], [], rest);
  }

  /** A directory is inside itself, and so is whatever is below it. */
  lemma InsideItself(directory: string, name: string)
    requires IsPart(name) && name != ".."
    ensures Inside(directory, directory) && Inside(directory + "/" + name, directory)
  {
    FileIn(directory, name);
    WalkSnoc(PartsOf(directory), name);
  }
}
