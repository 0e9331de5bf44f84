/** backend/scripts/lock_training.py: reading a lock file into blocks, one per package,
    and writing blocks out as a lock file again. */
module LockFile {
  import opened Streams
  import opened Text

  // ---- Lines ----

  /** What str.splitlines() breaks a line at; "\r\n" is one break. */
  predicate IsBreak(c: char) {
    '\n' <= c <= '\r' || '\U{1C}' <= c <= '\U{1E}' || c == '\U{85}' || c == '\U{2028}' || c == '\U{2029}'
  }

  /** The ten characters one by one: line feed, vertical tab, form feed, carriage return,
      three separators, next line, line and paragraph separator. */
  lemma BreaksAre(c: char)
    ensures IsBreak(c)
            <==> c in ['\n', '\U{0B}', '\U{0C}', '\r', '\U{1C}', '\U{1D}', '\U{1E}', '\U{85}', '\U{2028}', '\U{2029}']
  {
  }

  function FirstBreak(s: string): (i: nat)
    ensures i <= |s| && (i < |s| ==> IsBreak(s[i]))
    ensures forall j :: 0 <= j < i ==> !IsBreak(s[j])
  {
    if s == "" || IsBreak(s[0]) then 0 else 1 + FirstBreak(s[1..])
  }

  /** s.splitlines() */
  function Lines(s: string): seq<string>
    decreases |s|
  {
    var i := FirstBreak(s);
    if i == |s| then (if s == "" then [] else [s])
    else [s[..i]] + Lines(s[if s[i] == '\r' && i + 1 < |s| && s[i + 1] == '\n' then i + 2 else i + 1..])
  }

  /** Every line with a newline after it. */
  function Ended(lines: seq<string>): string {
    if lines == [] then "" else lines[0] + "\n" + Ended(lines[1..])
  }

  /** "\n".join(lines) */
  function Joined(lines: seq<string>): string
    requires lines != []
  {
    if |lines| == 1 then lines[0] else lines[0] + "\n" + Joined(lines[1..])
  }

  ghost predicate Unbroken(line: string) {
    forall i :: 0 <= i < |line| ==> !IsBreak(line[i])
  }

  ghost predicate AllUnbroken(lines: seq<string>) {
    forall k :: 0 <= k < |lines| ==> Unbroken(lines[k])
  }

  lemma FirstBreakAt(line: string, rest: string)
    requires Unbroken(line)
    ensures FirstBreak(line + "\n" + rest) == |line|
  {
    var s := line + "\n" + rest;
    assert s[|line|] == '\n' && forall j :: 0 <= j < |line| ==> s[j] == line[j];
    assert FirstBreak(s) <= |line|;
  }

  lemma {:induction false} LinesOfEnded(lines: seq<string>)
    requires AllUnbroken(lines)
    ensures Lines(Ended(lines)) == lines
  {
    if lines != [] {
      assert Unbroken(lines[0]);
      LinesFront(lines[0], Ended(lines[1..]));
      LinesOfEnded(lines[1..]);
    }
  }

  lemma LinesFront(line: string, rest: string)
    requires Unbroken(line)
    ensures Lines(line + "\n" + rest) == [line] + Lines(rest)
  {
    var s := line + "\n" + rest;
    FirstBreakAt(line, rest);
    assert s[..|line|] == line && s[|line| + 1..] == rest;
  }

  /** A line ends at any break; "\r\n" is one. */
  lemma LinesAtBreak(line: string, mark: string, rest: string)
    requires Unbroken(line)
    requires (|mark| == 1 && IsBreak(mark[0]) && !(mark == "\r" && "\n" <= rest)) || mark == "\r\n"
    ensures Lines(line + (mark + rest)) == [line] + Lines(rest)
  {
    FirstBreakFrom(line, mark + rest);
    AfterMark(line, mark, rest);
  }

  lemma FirstBreakFrom(line: string, tail: string)
    requires Unbroken(line) && tail != "" && IsBreak(tail[0])
    ensures FirstBreak(line + tail) == |line|
  {
    assert (line + tail)[|line|] == tail[0] && forall j :: 0 <= j < |line| ==> (line + tail)[j] == line[j];
    assert FirstBreak(line + tail) <= |line|;
  }

  lemma AfterMark(line: string, mark: string, rest: string)
    ensures var s := line + (mark + rest);
            s[..|line|] == line && s[|line| + |mark|..] == rest
    ensures forall k :: 0 <= k < |mark + rest| ==> (line + (mark + rest))[|line| + k] == (mark + rest)[k]
  {
  }

  lemma {:induction false} LinesAfter(header: seq<string>, text: string)
    requires AllUnbroken(header)
    ensures Lines(Ended(header) + text) == header + Lines(text)
  {
    if header == [] {
      assert Ended(header) + text == text;
    } else {
      var tail := header[1..];
      Associate(header[0] + "\n", Ended(tail), text);
      assert Unbroken(header[0]);
      LinesFront(header[0], Ended(tail) + text);
      LinesAfter(tail, text);
      Associate([header[0]], tail, Lines(text));
      assert header == [header[0]] + tail;
    }
  }

  lemma {:induction false} JoinedIsEnded(lines: seq<string>)
    requires lines != []
    ensures Joined(lines) + "\n" == Ended(lines)
  {
    if |lines| > 1 {
      JoinedIsEnded(lines[1..]);
      Associate(lines[0] + "\n", Joined(lines[1..]), "\n");
    }
  }

  lemma {:induction false} EndedBoth(a: seq<string>, b: seq<string>)
    ensures Ended(a + b) == Ended(a) + Ended(b)
  {
    if a == [] {
      assert a + b == b;
    } else {
      assert (a + b)[1..] == a[1..] + b;
      EndedBoth(a[1..], b);
      Associate(a[0] + "\n", Ended(a[1..]), Ended(b));
    }
  }

  lemma {:induction false} LinesAreUnbroken(s: string)
    ensures AllUnbroken(Lines(s))
    decreases |s|
  {
    var i := FirstBreak(s);
    if i < |s| {
      LinesAreUnbroken(s[if s[i] == '\r' && i + 1 < |s| && s[i + 1] == '\n' then i + 2 else i + 1..]);
    }
  }

  // ---- Package names ----

  predicate IsNameStart(c: char) { 'a' <= c <= 'z' || 'A' <= c <= 'Z' || '0' <= c <= '9' }

  predicate IsSeparator(c: char) { c == '-' || c == '_' || c == '.' }

  predicate InName(c: char) { IsNameStart(c) || IsSeparator(c) }

  /** How far a package name goes at the front of a line. */
  function NameLength(s: string): (n: nat)
    ensures n <= |s| && (n < |s| ==> !InName(s[n]))
    ensures forall j :: 0 <= j < n ==> InName(s[j])
  {
    if s == "" || !InName(s[0]) then 0 else 1 + NameLength(s[1..])
  }

  /** An optional extras list in brackets is skipped. */
  function AfterExtras(s: string): string {
    if s != "" && s[0] == '[' && ']' in s then s[Find(s, ']') + 1..] else s
  }

  /** The pin a requirement must go on with: "==" or "@". */
  predicate Pinned(s: string) { "==" <= TrimLeft(s) || "@" <= TrimLeft(s) }

  /** NAME_RE: the package a requirement line is for. */
  function PackageOf(line: string): Option<string> {
    var n := NameLength(line);
    if n > 0 && IsNameStart(line[0]) && Pinned(AfterExtras(line[n..])) then Some(Normalise(line[..n])) else None
  }

  function Lower(c: char): char {
    if 'A' <= c <= 'Z' then c - 'A' + 'a' else c
  }

  /** normalise: runs of separators become one dash, letters lower case. */
  function Normalise(name: string): string {
    if name == "" then ""
    else if !IsSeparator(name[0]) then [Lower(name[0])] + Normalise(name[1..])
    else if |name| > 1 && IsSeparator(name[1]) then Normalise(name[1..])
    else "-" + Normalise(name[1..])
  }

  /** Normal names are their own normal form. */
  lemma {:induction false} NormaliseOnce(name: string)
    ensures Normalise(Normalise(name)) == Normalise(name)
    ensures name != "" ==> Normalise(name) != "" && (IsSeparator(Normalise(name)[0]) <==> IsSeparator(name[0]))
  {
    if name != "" {
      NormaliseOnce(name[1..]);
      var n := Normalise(name);
      if IsSeparator(name[0]) && |name| > 1 && IsSeparator(name[1]) {
      } else {
        assert n[1..] == Normalise(name[1..]);
      }
    }
  }

  /** Lower case, with one dash for whatever separated two parts. */
  ghost predicate IsNormal(name: string) {
    && (forall i :: 0 <= i < |name| ==> !('A' <= name[i] <= 'Z') && name[i] != '_' && name[i] != '.')
    && (forall i :: 0 <= i < |name| - 1 ==> name[i] != '-' || name[i + 1] != '-')
  }

  lemma NormalCons(c: char, name: string)
    requires IsNormal(name) && !('A' <= c <= 'Z') && c != '_' && c != '.'
    requires c == '-' && name != "" ==> name[0] != '-'
    ensures IsNormal([c] + name)
  {
  }

  lemma {:induction false} NormaliseIsNormal(name: string)
    ensures IsNormal(Normalise(name))
  {
    if name != "" {
      NormaliseIsNormal(name[1..]);
      NormaliseOnce(name[1..]);
      if !IsSeparator(name[0]) {
        NormalCons(Lower(name[0]), Normalise(name[1..]));
      } else if |name| == 1 || !IsSeparator(name[1]) {
        NormalCons('-', Normalise(name[1..]));
      }
    }
  }

  lemma {:induction false} NormaliseKeepsNormal(name: string)
    requires IsNormal(name)
    ensures Normalise(name) == name
  {
    if name != "" {
      assert IsNormal(name[1..]) by {
        assert forall i :: 0 <= i < |name| - 1 ==> name[1..][i] == name[i + 1];
      }
      NormaliseKeepsNormal(name[1..]);
      assert name == [name[0]] + name[1..];
    }
  }

  lemma {:induction false} SameBehind(front: string, a: string, b: string)
    requires Normalise(a) == Normalise(b) && a != "" && b != "" && (IsSeparator(a[0]) <==> IsSeparator(b[0]))
    ensures Normalise(front + a) == Normalise(front + b)
  {
    if front == "" {
      assert front + a == a && front + b == b;
    } else {
      SameBehind(front[1..], a, b);
      assert (front + a)[1..] == front[1..] + a && (front + b)[1..] == front[1..] + b;
    }
  }

  /** Names that differ in case, or in what separates two parts, have one normal form;
      with NormaliseIsNormal and NormaliseKeepsNormal that says what it is. */
  lemma NormaliseIgnores(front: string, c: char, rest: string)
    ensures 'A' <= c <= 'Z' ==> Normalise(front + ([c] + rest)) == Normalise(front + ([c - 'A' + 'a'] + rest))
    ensures c == '_' || c == '.' ==> Normalise(front + ([c] + rest)) == Normalise(front + (['-'] + rest))
    ensures Normalise(front + (['-'] + (['-'] + rest))) == Normalise(front + (['-'] + rest))
  {
    if 'A' <= c <= 'Z' {
      SameBehind(front, [c] + rest, [c - 'A' + 'a'] + rest);
    }
    if c == '_' || c == '.' {
      SameBehind(front, [c] + rest, ['-'] + rest);
    }
    assert (['-'] + (['-'] + rest))[1..] == ['-'] + rest;
    SameBehind(front, ['-'] + (['-'] + rest), ['-'] + rest);
  }

  // ---- What a requirement is, by its characters ----

  /** [A-Za-z0-9][A-Za-z0-9._-]* */
  ghost predicate IsPackageName(name: string) {
    && name != ""
    && (forall i :: 0 <= i < |name| ==>
          'a' <= name[i] <= 'z' || 'A' <= name[i] <= 'Z' || '0' <= name[i] <= '9'
          || (i > 0 && (name[i] == '.' || name[i] == '_' || name[i] == '-')))
  }

  /** (?:\[[^\]]*\])? */
  ghost predicate IsExtras(extras: string) {
    extras == "" || (|extras| >= 2 && extras[0] == '[' && extras[|extras| - 1] == ']' && ']' !in extras[..|extras| - 1])
  }

  /** \s* and then == or @ */
  ghost predicate GoesOn(s: string) {
    exists k :: 0 <= k < |s| && (forall i :: 0 <= i < k ==> IsSpace(s[i]))
                && (s[k] == '@' || (k + 1 < |s| && s[k] == '=' && s[k + 1] == '='))
  }

  lemma {:induction false} PinnedExactly(s: string)
    ensures Pinned(s) <==> GoesOn(s)
  {
    if s != "" && IsSpace(s[0]) {
      PinnedExactly(s[1..]);
      GoesOnRest(s);
    } else {
      assert TrimLeft(s) == s;
      if GoesOn(s) {
        var k :| 0 <= k < |s| && (forall i :: 0 <= i < k ==> IsSpace(s[i]))
                 && (s[k] == '@' || (k + 1 < |s| && s[k] == '=' && s[k + 1] == '='));
        assert k == 0;
      }
      if s != "" && s[0] == '@' {
        assert "@" <= s;
      }
      if |s| > 1 && s[0] == '=' && s[1] == '=' {
        assert "==" <= s;
      }
    }
  }

  lemma GoesOnRest(s: string)
    requires s != "" && IsSpace(s[0])
    ensures GoesOn(s[1..]) <==> GoesOn(s)
  {
    var t := s[1..];
    if k :| 0 <= k < |t| && (forall i :: 0 <= i < k ==> IsSpace(t[i]))
            && (t[k] == '@' || (k + 1 < |t| && t[k] == '=' && t[k + 1] == '=')) {
      forall i | 0 <= i < k + 1
        ensures IsSpace(s[i])
      {
        assert i > 0 ==> s[i] == t[i - 1];
      }
      assert s[k + 1] == t[k];
    }
    if k :| 0 <= k < |s| && (forall i :: 0 <= i < k ==> IsSpace(s[i]))
            && (s[k] == '@' || (k + 1 < |s| && s[k] == '=' && s[k + 1] == '=')) {
      assert k > 0;
      forall i | 0 <= i < k - 1
        ensures IsSpace(t[i])
      {
        assert t[i] == s[i + 1];
      }
      assert t[k - 1] == s[k];
    }
  }

  lemma NameEnds(name: string, tail: string)
    requires IsPackageName(name) && (tail == "" || !InName(tail[0]))
    ensures NameLength(name + tail) == |name| && (name + tail)[..|name|] == name && (name + tail)[|name|..] == tail
  {
    var line := name + tail;
    forall j | 0 <= j < |name|
      ensures InName(line[j])
    {
      assert line[j] == name[j];
    }
    NameLengthIs(line, |name|);
  }

  lemma NameLengthIs(s: string, n: nat)
    requires n <= |s| && (forall j :: 0 <= j < n ==> InName(s[j])) && (n < |s| ==> !InName(s[n]))
    ensures NameLength(s) == n
  {
  }

  lemma ExtrasOff(extras: string, s: string)
    requires IsExtras(extras) && GoesOn(s)
    ensures AfterExtras(extras + s) == s
  {
    if extras == "" {
      assert extras + s == s;
      NoBracket(s);
    } else {
      var last := |extras| - 1;
      assert (extras + s)[..last] == extras[..last] && (extras + s)[last] == ']' && (extras + s)[last + 1..] == s;
      FindUnique(extras + s, ']', last);
    }
  }

  lemma NoBracket(s: string)
    requires GoesOn(s)
    ensures s != "" && s[0] != '[' && !InName(s[0])
  {
  }

  /** A line is a requirement exactly if it is a name, extras or none, and a pin; then it
      is for the package with the name's normal form. */
  lemma RequirementIs(name: string, extras: string, s: string)
    requires IsPackageName(name) && IsExtras(extras) && GoesOn(s)
    ensures PackageOf(name + (extras + s)) == Some(Normalise(name))
  {
    NoBracket(s);
    NameEnds(name, extras + s);
    ExtrasOff(extras, s);
    PinnedExactly(s);
    assert IsNameStart((name + (extras + s))[0]);
  }

  lemma RequirementParts(line: string) returns (name: string, extras: string, s: string)
    requires PackageOf(line).Some?
    ensures IsPackageName(name) && IsExtras(extras) && GoesOn(s) && line == name + (extras + s)
  {
    var n := NameLength(line);
    NameAtFront(line);
    name := line[..n];
    SplitAtLength(line, n);
    NameIsPackageName(line, name);
    extras, s := ExtrasParts(line[n..]);
    PinnedExactly(s);
  }

  lemma NameAtFront(line: string)
    requires PackageOf(line).Some?
    ensures NameLength(line) > 0 && IsNameStart(line[0]) && Pinned(AfterExtras(line[NameLength(line)..]))
  {
  }

  lemma SplitAtLength(line: string, n: nat)
    requires n <= |line|
    ensures line == line[..n] + line[n..] && line[..n] <= line
  {
  }

  lemma NameIsPackageName(line: string, name: string)
    requires name <= line && |name| == NameLength(line) && name != "" && IsNameStart(line[0])
    ensures IsPackageName(name)
  {
  }

  lemma ExtrasParts(tail: string) returns (extras: string, s: string)
    ensures IsExtras(extras) && s == AfterExtras(tail) && tail == extras + s
  {
    if tail != "" && tail[0] == '[' && ']' in tail {
      var i := Find(tail, ']');
      FindIn(tail);
      extras, s := tail[..i + 1], tail[i + 1..];
      assert extras[..i] == tail[..i];
    } else {
      extras, s := "", tail;
    }
  }

  lemma FindIn(s: string)
    requires ']' in s
    ensures Find(s, ']') < |s|
  {
    TakeAll(s);
  }

  // ---- Blocks ----

  predicate Blank(line: string) { TrimLeft(line) == "" }

  predicate Comment(line: string) { "#" <= TrimLeft(line) }

  predicate Counts(line: string) { !Blank(line) && !Comment(line) }

  predicate Indented(line: string) { " " <= line || "\t" <= line }

  function Counting(lines: seq<string>): seq<string> {
    if lines == [] then [] else
    var last := lines[|lines| - 1];
    Counting(lines[..|lines| - 1]) + if Counts(last) then [last] else []
  }

  /** A line that is not indented starts a block; an indented one belongs to the last
      block, and before the first block to none. */
  function Groups(lines: seq<string>): seq<seq<string>> {
    if lines == [] then [] else
    var before, line := Groups(lines[..|lines| - 1]), lines[|lines| - 1];
    if !Indented(line) then before + [[line]]
    else if before == [] then []
    else before[..|before| - 1] + [before[|before| - 1] + [line]]
  }

  /** An insertion-ordered dictionary: assigning again keeps a key's place. */
  type Dict = seq<(string, string)>

  function Assign(d: Dict, key: string, value: string): Dict {
    if d == [] then [(key, value)]
    else if d[0].0 == key then [(key, value)] + d[1..]
    else [d[0]] + Assign(d[1..], key, value)
  }

  /** The dictionary of blocks, or the first block line that is no requirement. */
  function Dictionary(groups: seq<seq<string>>): Result<Dict, string> {
    if groups == [] then Success([]) else
    var before, group := Dictionary(groups[..|groups| - 1]), groups[|groups| - 1];
    if before.Failure? || group == [] then before
    else if PackageOf(group[0]).None? then Failure(group[0])
    else Success(Assign(before.value, PackageOf(group[0]).value, Joined(group)))
  }

  /** blocks, by what it computes */
  function BlocksOf(text: string): Result<Dict, string> {
    Dictionary(Groups(Counting(Lines(text))))
  }

  /** What the loop of blocks knows after some lines: the finished blocks, and the open one. */
  ghost predicate Reading(lines: seq<string>, found: Dict, current: Option<string>, open: seq<string>) {
    var groups := Groups(Counting(lines));
    if current.None? then groups == [] && found == []
    else
      && groups != [] && open == groups[|groups| - 1] != []
      && PackageOf(open[0]) == current
      && Dictionary(groups[..|groups| - 1]) == Success(found)
  }

  lemma GroupsAfter(lines: seq<string>, line: string)
    ensures Groups(lines + [line]) ==
            var before := Groups(lines);
            if !Indented(line) then before + [[line]]
            else if before == [] then []
            else before[..|before| - 1] + [before[|before| - 1] + [line]]
  {
    assert (lines + [line])[..|lines|] == lines;
  }

  lemma CountingAfter(lines: seq<string>, line: string)
    ensures Counting(lines + [line]) == if Counts(line) then Counting(lines) + [line] else Counting(lines)
  {
    assert (lines + [line])[..|lines|] == lines;
  }

  lemma Closing(lines: seq<string>, found: Dict, current: Option<string>, open: seq<string>)
    requires Reading(lines, found, current, open)
    ensures Dictionary(Groups(Counting(lines)))
            == Success(if current.Some? then Assign(found, current.value, Joined(open)) else found)
  {
  }

  lemma HeaderRead(lines: seq<string>, line: string, found: Dict, current: Option<string>, open: seq<string>)
    requires Reading(lines, found, current, open) && Counts(line) && !Indented(line)
    ensures var closed := if current.Some? then Assign(found, current.value, Joined(open)) else found;
            var name := PackageOf(line);
            if name.None? then Dictionary(Groups(Counting(lines + [line]))) == Failure(line)
            else Reading(lines + [line], closed, name, [line])
  {
    Closing(lines, found, current, open);
    CountingAfter(lines, line);
    GroupsAfter(Counting(lines), line);
    var groups := Groups(Counting(lines));
    assert (groups + [[line]])[..|groups|] == groups;
  }

  lemma ContinuationRead(lines: seq<string>, line: string, found: Dict, current: Option<string>, open: seq<string>)
    requires Reading(lines, found, current, open) && Counts(line) && Indented(line)
    ensures Reading(lines + [line], found, current, open + [line])
  {
    CountingAfter(lines, line);
    GroupsAfter(Counting(lines), line);
    if current.Some? {
      var before := Groups(Counting(lines));
      var after := Groups(Counting(lines + [line]));
      assert after[..|after| - 1] == before[..|before| - 1];
    }
  }

  /** Once a requirement is unrecognised, no later line can change that. */
  lemma {:induction false} FailureStays(groups: seq<seq<string>>, more: seq<seq<string>>)
    requires Dictionary(groups).Failure?
    ensures Dictionary(groups + more) == Dictionary(groups)
  {
    if more == [] {
      assert groups + more == groups;
    } else {
      assert (groups + more)[..|groups + more| - 1] == groups + more[..|more| - 1];
      FailureStays(groups, more[..|more| - 1]);
    }
  }

  lemma HeaderDecides(groups: seq<seq<string>>, a: seq<string>, b: seq<string>)
    requires a != [] && b != [] && a[0] == b[0] && Dictionary(groups + [a]).Failure?
    ensures Dictionary(groups + [b]) == Dictionary(groups + [a])
  {
    assert (groups + [a])[..|groups|] == groups && (groups + [b])[..|groups|] == groups;
  }

  lemma {:induction false} GroupsNonempty(lines: seq<string>)
    ensures [] !in Groups(lines)
  {
    if lines != [] {
      GroupsNonempty(lines[..|lines| - 1]);
    }
  }

  lemma FailureStaysOneLine(lines: seq<string>, line: string)
    requires Dictionary(Groups(lines)).Failure?
    ensures Dictionary(Groups(lines + [line])) == Dictionary(Groups(lines))
  {
    var before := Groups(lines);
    GroupsAfter(lines, line);
    if !Indented(line) {
      FailureStays(before, [[line]]);
    } else {
      var init, last := before[..|before| - 1], before[|before| - 1];
      GroupsNonempty(lines);
      assert last in before && before == init + [last];
      HeaderDecides(init, last, last + [line]);
    }
  }

  lemma TakeOne<T>(s: seq<T>, n: nat)
    requires n < |s|
    ensures s[..n + 1] == s[..n] + [s[n]]
  {
  }

  lemma FailureStaysOneMore(lines: seq<string>, line: string)
    requires Dictionary(Groups(Counting(lines))).Failure?
    ensures Dictionary(Groups(Counting(lines + [line]))) == Dictionary(Groups(Counting(lines)))
  {
    CountingAfter(lines, line);
    FailureStaysOneLine(Counting(lines), line);
  }

  lemma {:induction false} FailureIsFinal(lines: seq<string>, i: nat)
    requires i <= |lines| && Dictionary(Groups(Counting(lines[..i]))).Failure?
    ensures Dictionary(Groups(Counting(lines))) == Dictionary(Groups(Counting(lines[..i])))
    decreases |lines| - i
  {
    if i == |lines| {
      TakeAll(lines);
    } else {
      TakeOne(lines, i);
      FailureStaysOneMore(lines[..i], lines[i]);
      FailureIsFinal(lines, i + 1);
    }
  }

  lemma LineSkipped(lines: seq<string>, line: string, found: Dict, current: Option<string>, open: seq<string>)
    requires Reading(lines, found, current, open) && !Counts(line)
    ensures Reading(lines + [line], found, current, open)
  {
    CountingAfter(lines, line);
  }

  lemma ReadSkipped(lines: seq<string>, i: nat, found: Dict, current: Option<string>, open: seq<string>)
    requires i < |lines| && Reading(lines[..i], found, current, open) && !Counts(lines[i])
    ensures Reading(lines[..i + 1], found, current, open)
  {
    TakeOne(lines, i);
    LineSkipped(lines[..i], lines[i], found, current, open);
  }

  lemma ReadHeader(lines: seq<string>, i: nat, found: Dict, current: Option<string>, open: seq<string>)
    requires i < |lines| && Reading(lines[..i], found, current, open) && Counts(lines[i]) && !Indented(lines[i])
    ensures var closed := if current.Some? then Assign(found, current.value, Joined(open)) else found;
            var name := PackageOf(lines[i]);
            if name.None? then Dictionary(Groups(Counting(lines))) == Failure(lines[i])
            else Reading(lines[..i + 1], closed, name, [lines[i]])
  {
    TakeOne(lines, i);
    HeaderRead(lines[..i], lines[i], found, current, open);
    if PackageOf(lines[i]).None? {
      FailureIsFinal(lines, i + 1);
    }
  }

  lemma ReadContinuation(lines: seq<string>, i: nat, found: Dict, current: Option<string>, open: seq<string>)
    requires i < |lines| && Reading(lines[..i], found, current, open) && Counts(lines[i]) && Indented(lines[i])
    ensures Reading(lines[..i + 1], found, current, open + [lines[i]])
  {
    TakeOne(lines, i);
    ContinuationRead(lines[..i], lines[i], found, current, open);
  }

  /** blocks: one pass over the lines, with one block open at a time. */
  method Blocks(text: string) returns (r: Result<Dict, string>)
    ensures r == BlocksOf(text)
  {
    var lines := Lines(text);
    var found: Dict, current: Option<string>, open: seq<string> := [], None, [];
    for i := 0 to |lines|
      invariant Reading(lines[..i], found, current, open)
    {
      var line := lines[i];
      if Blank(line) || Comment(line) {
        ReadSkipped(lines, i, found, current, open);
        continue;
      }
      if !Indented(line) {
        ReadHeader(lines, i, found, current, open);
        if current.Some? {
          found := Assign(found, current.value, Joined(open));
        }
        var name := PackageOf(line);
        if name.None? {
          return Failure(line);
        }
        current, open := name, [line];
      } else {
        ReadContinuation(lines, i, found, current, open);
        open := open + [line];
      }
    }
    TakeAll(lines);
    Closing(lines, found, current, open);
    if current.Some? {
      found := Assign(found, current.value, Joined(open));
    }
    return Success(found);
  }

  // ---- What a dictionary of blocks looks like ----

  ghost predicate Grouped(group: seq<string>) {
    && group != [] && !Indented(group[0])
    && (forall k :: 0 <= k < |group| ==> Counts(group[k]) && Unbroken(group[k]))
    && (forall k :: 0 < k < |group| ==> Indented(group[k]))
  }

  /** A value that splits into one block's lines, for the package it is filed under. */
  ghost predicate IsBlock(entry: (string, string)) {
    var group := Lines(entry.1);
    Grouped(group) && Joined(group) == entry.1 && PackageOf(group[0]) == Some(entry.0)
  }

  ghost predicate WellFormed(d: Dict) {
    && (forall i :: 0 <= i < |d| ==> IsBlock(d[i]))
    && (forall i, j :: 0 <= i < j < |d| ==> d[i].0 != d[j].0)
  }

  lemma {:induction false} LinesOfJoined(group: seq<string>)
    requires group != [] && AllUnbroken(group) && "" !in group
    ensures Lines(Joined(group)) == group
  {
    assert Unbroken(group[0]) && group[0] in group;
    if |group| == 1 {
      LinesOfOne(group[0]);
    } else {
      LinesFront(group[0], Joined(group[1..]));
      LinesOfJoined(group[1..]);
    }
  }

  lemma LinesOfOne(line: string)
    requires Unbroken(line) && line != ""
    ensures Lines(line) == [line]
  {
    assert FirstBreak(line) == |line|;
  }

  lemma GroupedJoins(group: seq<string>, name: string)
    requires Grouped(group) && PackageOf(group[0]) == Some(name)
    ensures IsBlock((name, Joined(group)))
  {
    GroupedLines(group);
  }

  lemma {:induction false} AssignHas(d: Dict, key: string, value: string, i: nat)
    requires i < |Assign(d, key, value)|
    ensures Assign(d, key, value)[i] == (key, value) || Assign(d, key, value)[i] in d
  {
    if d != [] && d[0].0 != key && i > 0 {
      AssignHas(d[1..], key, value, i - 1);
    }
  }

  lemma {:induction false} AssignNew(d: Dict, key: string, value: string)
    requires key !in Names(d)
    ensures Assign(d, key, value) == d + [(key, value)]
  {
    if d != [] {
      NamesCons(d);
      AssignNew(d[1..], key, value);
    }
  }

  lemma {:induction false} AssignOld(d: Dict, key: string, value: string)
    requires key in Names(d)
    ensures |Assign(d, key, value)| == |d|
    ensures forall i :: 0 <= i < |d| ==> Assign(d, key, value)[i].0 == d[i].0
  {
    if d[0].0 != key {
      NamesCons(d);
      AssignOld(d[1..], key, value);
    }
  }

  lemma NamesCons(d: Dict)
    requires d != []
    ensures Names(d) == {d[0].0} + Names(d[1..])
  {
    assert d == [d[0]] + d[1..];
  }

  function Names(d: Dict): set<string> {
    set entry | entry in d :: entry.0
  }

  lemma AssignWellFormed(d: Dict, key: string, value: string)
    requires WellFormed(d) && IsBlock((key, value))
    ensures WellFormed(Assign(d, key, value))
  {
    var after := Assign(d, key, value);
    forall i: nat | i < |after|
      ensures IsBlock(after[i])
    {
      AssignHas(d, key, value, i);
    }
    if key in Names(d) {
      AssignOld(d, key, value);
    } else {
      AssignNew(d, key, value);
      forall i | 0 <= i < |d|
        ensures d[i].0 != key
      {
        assert d[i] in d;
      }
    }
  }

  ghost predicate AllGrouped(groups: seq<seq<string>>) {
    forall k :: 0 <= k < |groups| ==> Grouped(groups[k])
  }

  lemma {:induction false} GroupsGrouped(lines: seq<string>)
    requires forall k :: 0 <= k < |lines| ==> Counts(lines[k]) && Unbroken(lines[k])
    ensures AllGrouped(Groups(lines))
  {
    if lines != [] {
      GroupsGrouped(lines[..|lines| - 1]);
    }
  }

  lemma {:induction false} DictionaryWellFormed(groups: seq<seq<string>>)
    requires AllGrouped(groups) && Dictionary(groups).Success?
    ensures WellFormed(Dictionary(groups).value)
  {
    if groups != [] {
      var init, group := groups[..|groups| - 1], groups[|groups| - 1];
      assert Grouped(group);
      DictionaryWellFormed(init);
      GroupedJoins(group, PackageOf(group[0]).value);
      AssignWellFormed(Dictionary(init).value, PackageOf(group[0]).value, Joined(group));
    }
  }

  lemma {:induction false} CountingCounts(lines: seq<string>)
    requires AllUnbroken(lines)
    ensures forall k :: 0 <= k < |Counting(lines)| ==> Counts(Counting(lines)[k]) && Unbroken(Counting(lines)[k])
  {
    if lines != [] {
      CountingCounts(lines[..|lines| - 1]);
    }
  }

  lemma {:induction false} BlocksAreWellFormed(text: string)
    requires BlocksOf(text).Success?
    ensures WellFormed(BlocksOf(text).value)
  {
    LinesAreUnbroken(text);
    CountingCounts(Lines(text));
    GroupsGrouped(Counting(Lines(text)));
    DictionaryWellFormed(Groups(Counting(Lines(text))));
  }

  // ---- Which lines the blocks are ----

  /** A line with something on it that is no comment. */
  ghost predicate Says(line: string) {
    exists i :: 0 <= i < |line| && !IsSpace(line[i]) && line[i] != '#' && forall j :: 0 <= j < i ==> IsSpace(line[j])
  }

  /** Such a line that starts a block. */
  ghost predicate Starts(line: string) { Says(line) && line[0] != ' ' && line[0] != '\t' }

  lemma {:induction false} CountsExactly(line: string)
    ensures Counts(line) <==> Says(line)
  {
    if line != "" && IsSpace(line[0]) {
      CountsExactly(line[1..]);
      SaysRest(line);
    } else {
      assert line != "" ==> TrimLeft(line) == line;
    }
  }

  lemma SaysRest(line: string)
    requires line != "" && IsSpace(line[0])
    ensures Says(line[1..]) <==> Says(line)
  {
    var rest := line[1..];
    if i :| 0 <= i < |rest| && !IsSpace(rest[i]) && rest[i] != '#' && forall j :: 0 <= j < i ==> IsSpace(rest[j]) {
      forall j | 0 <= j < i + 1
        ensures IsSpace(line[j])
      {
        assert j > 0 ==> line[j] == rest[j - 1];
      }
      assert !IsSpace(line[i + 1]) && line[i + 1] != '#';
    }
    if i :| 0 <= i < |line| && !IsSpace(line[i]) && line[i] != '#' && forall j :: 0 <= j < i ==> IsSpace(line[j]) {
      forall j | 0 <= j < i - 1
        ensures IsSpace(rest[j])
      {
        assert rest[j] == line[j + 1];
      }
      assert !IsSpace(rest[i - 1]) && rest[i - 1] != '#';
    }
  }

  /** Some of the first n lines starts a block. */
  ghost predicate Begun(lines: seq<string>, n: nat)
    requires n <= |lines|
  {
    exists h :: 0 <= h < n && Starts(lines[h])
  }

  /** Line i is part of a block: it says something, and a block has begun by then. */
  ghost predicate InBlock(lines: seq<string>, i: nat)
    requires i < |lines|
  {
    Says(lines[i]) && Begun(lines, i + 1)
  }

  /** The chosen lines are the lines at `places`, in order, and no others are in a block. */
  ghost predicate Selected(chosen: seq<string>, lines: seq<string>, n: nat, places: seq<nat>)
    requires n <= |lines|
  {
    && |places| == |chosen|
    && (forall k :: 0 <= k < |places| ==> places[k] < n && chosen[k] == lines[places[k]])
    && (forall k, m :: 0 <= k < m < |places| ==> places[k] < places[m])
    && (forall i: nat :: i < n ==> (i in places <==> InBlock(lines, i)))
  }

  lemma SelectedNext(chosen: seq<string>, lines: seq<string>, n: nat, places: seq<nat>)
    requires n < |lines| && Selected(chosen, lines, n, places) && InBlock(lines, n)
    ensures Selected(chosen + [lines[n]], lines, n + 1, places + [n])
  {
    var after := places + [n];
    forall i: nat | i < n + 1
      ensures i in after <==> InBlock(lines, i)
    {
    }
  }

  lemma ConcatOfGroups(lines: seq<string>, line: string)
    ensures Concat(Groups(lines + [line]))
         == if Indented(line) && Groups(lines) == [] then [] else Concat(Groups(lines)) + [line]
  {
    var before := Groups(lines);
    GroupsAfter(lines, line);
    if !Indented(line) {
      ConcatSnoc(before, [line]);
    } else if before != [] {
      var init, last := before[..|before| - 1], before[|before| - 1];
      assert before == init + [last];
      ConcatSnoc(init, last);
      ConcatSnoc(init, last + [line]);
      Associate(Concat(init), last, [line]);
    }
  }

  lemma StartsExactly(line: string)
    requires Counts(line)
    ensures Starts(line) <==> !Indented(line)
  {
    CountsExactly(line);
  }

  lemma BegunNext(lines: seq<string>, n: nat)
    requires n < |lines|
    ensures Begun(lines, n + 1) <==> Begun(lines, n) || Starts(lines[n])
  {
  }

  /** The groups hold the lines of the first n that are in a block. */
  ghost predicate Tracks(groups: seq<seq<string>>, lines: seq<string>, n: nat, places: seq<nat>)
    requires n <= |lines|
  {
    Selected(Concat(groups), lines, n, places) && (groups != [] <==> Begun(lines, n))
  }

  lemma TracksOn(groups: seq<seq<string>>, lines: seq<string>, n: nat, places: seq<nat>)
    requires n < |lines| && Tracks(groups, lines, n, places)
    requires !Says(lines[n]) || (groups == [] && !Starts(lines[n]))
    ensures Tracks(groups, lines, n + 1, places)
  {
    BegunNext(lines, n);
  }

  lemma TracksOne(groups: seq<seq<string>>, after: seq<seq<string>>, lines: seq<string>, n: nat, places: seq<nat>)
    requires n < |lines| && Tracks(groups, lines, n, places)
    requires Starts(lines[n]) || (groups != [] && Says(lines[n]))
    requires after != [] && Concat(after) == Concat(groups) + [lines[n]]
    ensures Tracks(after, lines, n + 1, places + [n])
  {
    BegunNext(lines, n);
    SelectedNext(Concat(groups), lines, n, places);
  }

  lemma GroupsTrack(before: seq<string>, line: string, lines: seq<string>, n: nat, places: seq<nat>)
    returns (after: seq<nat>)
    requires n < |lines| && line == lines[n] && Counts(line) && Tracks(Groups(before), lines, n, places)
    ensures Tracks(Groups(before + [line]), lines, n + 1, after)
  {
    CountsExactly(line);
    StartsExactly(line);
    ConcatOfGroups(before, line);
    GroupsAfter(before, line);
    if Indented(line) && Groups(before) == [] {
      TracksOn([], lines, n, places);
      after := places;
    } else {
      TracksOne(Groups(before), Groups(before + [line]), lines, n, places);
      after := places + [n];
    }
  }

  lemma SelectOne(before: seq<string>, lines: seq<string>, n: nat, places: seq<nat>) returns (after: seq<nat>)
    requires n < |lines| && Tracks(Groups(Counting(before)), lines, n, places)
    ensures Tracks(Groups(Counting(before + [lines[n]])), lines, n + 1, after)
  {
    CountingAfter(before, lines[n]);
    if Counts(lines[n]) {
      after := GroupsTrack(Counting(before), lines[n], lines, n, places);
    } else {
      CountsExactly(lines[n]);
      TracksOn(Groups(Counting(before)), lines, n, places);
      after := places;
    }
  }

  /** The groups hold exactly the lines in blocks. */
  lemma {:induction false} GroupsSelect(lines: seq<string>, n: nat) returns (places: seq<nat>)
    requires n <= |lines|
    ensures Tracks(Groups(Counting(lines[..n])), lines, n, places)
  {
    if n == 0 {
      places := [];
    } else {
      places := GroupsSelect(lines, n - 1);
      places := SelectOne(lines[..n - 1], lines, n - 1, places);
      TakeOne(lines, n - 1);
    }
  }

  /** No package has two blocks. */
  ghost predicate OneBlockEach(groups: seq<seq<string>>) {
    forall i, j :: 0 <= i < j < |groups| && groups[i] != [] && groups[j] != []
                   ==> PackageOf(groups[i][0]) != PackageOf(groups[j][0])
  }

  /** Some block is for this package. */
  ghost predicate HasBlock(groups: seq<seq<string>>, name: string) {
    exists i :: 0 <= i < |groups| && groups[i] != [] && PackageOf(groups[i][0]) == Some(name)
  }

  lemma HasBlockSnoc(groups: seq<seq<string>>, group: seq<string>, name: string)
    ensures HasBlock(groups + [group], name)
            <==> HasBlock(groups, name) || (group != [] && PackageOf(group[0]) == Some(name))
  {
    var all := groups + [group];
    if i :| 0 <= i < |groups| && groups[i] != [] && PackageOf(groups[i][0]) == Some(name) {
      assert all[i] == groups[i];
    }
    assert all[|groups|] == group;
  }

  lemma {:induction false} DictionaryNames(groups: seq<seq<string>>, name: string)
    requires AllGrouped(groups) && Dictionary(groups).Success?
    ensures name in Names(Dictionary(groups).value) <==> HasBlock(groups, name)
  {
    if groups != [] {
      var init, group := groups[..|groups| - 1], groups[|groups| - 1];
      assert Grouped(group);
      DictionaryNames(init, name);
      AssignNames(Dictionary(init).value, PackageOf(group[0]).value, Joined(group));
      HasBlockSnoc(init, group, name);
      assert groups == init + [group];
    }
  }

  lemma LastBlockIsNew(groups: seq<seq<string>>)
    requires groups != [] && OneBlockEach(groups) && AllGrouped(groups)
    ensures var group := groups[|groups| - 1];
            group != [] && (PackageOf(group[0]).Some? ==>
                              !HasBlock(groups[..|groups| - 1], PackageOf(group[0]).value))
  {
    assert Grouped(groups[|groups| - 1]);
  }

  lemma {:induction false} AssignNames(d: Dict, key: string, value: string)
    ensures Names(Assign(d, key, value)) == Names(d) + {key}
  {
    if d != [] {
      NamesCons(d);
      if d[0].0 == key {
        NamesCons(Assign(d, key, value));
      } else {
        AssignNames(d[1..], key, value);
        NamesCons(Assign(d, key, value));
      }
    }
  }

  /** Then the dictionary has the blocks one for one, in order. */
  lemma {:induction false} DictionaryHasAll(groups: seq<seq<string>>)
    requires AllGrouped(groups) && Dictionary(groups).Success? && OneBlockEach(groups)
    ensures GroupsIn(Dictionary(groups).value) == groups
  {
    if groups != [] {
      var init, group := groups[..|groups| - 1], groups[|groups| - 1];
      InitHolds(groups);
      DictionaryHasAll(init);
      LastBlockIsNew(groups);
      DictionaryNames(init, PackageOf(group[0]).value);
      HasOneMore(init, group, Dictionary(init).value);
    }
  }

  lemma InitHolds(groups: seq<seq<string>>)
    requires groups != [] && AllGrouped(groups) && Dictionary(groups).Success? && OneBlockEach(groups)
    ensures var init, group := groups[..|groups| - 1], groups[|groups| - 1];
            && groups == init + [group] && AllGrouped(init) && OneBlockEach(init) && Dictionary(init).Success?
            && Grouped(group) && PackageOf(group[0]).Some?
  {
    InitGrouped(groups);
    DictionaryInit(groups);
  }

  lemma InitGrouped(groups: seq<seq<string>>)
    requires groups != [] && AllGrouped(groups)
    ensures AllGrouped(groups[..|groups| - 1]) && Grouped(groups[|groups| - 1])
    ensures groups == groups[..|groups| - 1] + [groups[|groups| - 1]]
  {
  }

  lemma DictionaryInit(groups: seq<seq<string>>)
    requires groups != [] && groups[|groups| - 1] != [] && Dictionary(groups).Success?
    ensures Dictionary(groups[..|groups| - 1]).Success? && PackageOf(groups[|groups| - 1][0]).Some?
  {
  }

  lemma HasOneMore(init: seq<seq<string>>, group: seq<string>, d: Dict)
    requires Dictionary(init) == Success(d) && GroupsIn(d) == init && Grouped(group)
    requires PackageOf(group[0]).Some? && PackageOf(group[0]).value !in Names(d)
    ensures Dictionary(init + [group]).Success? && GroupsIn(Dictionary(init + [group]).value) == init + [group]
  {
    var name := PackageOf(group[0]).value;
    DictionarySnoc(init, group, d);
    AssignNew(d, name, Joined(group));
    GroupedLines(group);
    GroupsInSnoc(d, (name, Joined(group)));
  }

  lemma GroupsInSnoc(d: Dict, entry: (string, string))
    ensures GroupsIn(d + [entry]) == GroupsIn(d) + [Lines(entry.1)]
  {
    assert (d + [entry])[..|d|] == d;
  }

  lemma GroupedLines(group: seq<string>)
    requires Grouped(group)
    ensures Lines(Joined(group)) == group
  {
    forall k | 0 <= k < |group|
      ensures group[k] != ""
    {
      assert Counts(group[k]);
    }
    LinesOfJoined(group);
  }

  /** Two of the lines start blocks for one package. */
  ghost predicate Repeats(lines: seq<string>, i: nat, j: nat)
    requires i < |lines| && j < |lines|
  {
    i != j && Starts(lines[i]) && Starts(lines[j]) && PackageOf(lines[i]) == PackageOf(lines[j])
  }

  ghost predicate BeginsWith(group: seq<string>, line: string) { group != [] && group[0] == line }

  /** Where the blocks start. */
  ghost predicate Heads(groups: seq<seq<string>>, lines: seq<string>, n: nat, heads: seq<nat>)
    requires n <= |lines|
  {
    && |heads| == |groups|
    && (forall k :: 0 <= k < |heads| ==> heads[k] < n && Starts(lines[heads[k]]))
    && (forall k :: 0 <= k < |heads| ==> BeginsWith(groups[k], lines[heads[k]]))
    && (forall k, m :: 0 <= k < m < |heads| ==> heads[k] < heads[m])
    && (forall i: nat :: i < n && Starts(lines[i]) ==> i in heads)
  }

  lemma HeadsGrow(before: seq<string>, lines: seq<string>, n: nat, heads: seq<nat>) returns (after: seq<nat>)
    requires n < |lines| && Counts(lines[n]) && Heads(Groups(before), lines, n, heads)
    ensures Heads(Groups(before + [lines[n]]), lines, n + 1, after)
  {
    StartsExactly(lines[n]);
    GroupsAfter(before, lines[n]);
    if !Indented(lines[n]) {
      HeadsNew(Groups(before), lines, n, heads);
      after := heads + [n];
    } else {
      if Groups(before) != [] {
        HeadsSame(Groups(before), lines, n, heads, lines[n]);
      }
      after := heads;
    }
  }

  lemma HeadsNew(groups: seq<seq<string>>, lines: seq<string>, n: nat, heads: seq<nat>)
    requires n < |lines| && Heads(groups, lines, n, heads) && Starts(lines[n])
    ensures Heads(groups + [[lines[n]]], lines, n + 1, heads + [n])
  {
    forall i: nat | i < n + 1 && Starts(lines[i])
      ensures i in heads + [n]
    {
    }
  }

  lemma HeadsSame(groups: seq<seq<string>>, lines: seq<string>, n: nat, heads: seq<nat>, line: string)
    requires n < |lines| && Heads(groups, lines, n, heads) && groups != [] && !Starts(lines[n])
    ensures Heads(groups[..|groups| - 1] + [groups[|groups| - 1] + [line]], lines, n + 1, heads)
  {
    var last := |groups| - 1;
    assert BeginsWith(groups[last], lines[heads[last]]);
    assert (groups[last] + [line])[0] == groups[last][0];
  }

  lemma HeadsOne(before: seq<string>, lines: seq<string>, n: nat, heads: seq<nat>) returns (after: seq<nat>)
    requires n < |lines| && Heads(Groups(Counting(before)), lines, n, heads)
    ensures Heads(Groups(Counting(before + [lines[n]])), lines, n + 1, after)
  {
    CountingAfter(before, lines[n]);
    if Counts(lines[n]) {
      after := HeadsGrow(Counting(before), lines, n, heads);
    } else {
      CountsExactly(lines[n]);
      after := heads;
    }
  }

  lemma {:induction false} GroupsHaveHeads(lines: seq<string>, n: nat) returns (heads: seq<nat>)
    requires n <= |lines|
    ensures Heads(Groups(Counting(lines[..n])), lines, n, heads)
  {
    if n == 0 {
      heads := [];
    } else {
      heads := GroupsHaveHeads(lines, n - 1);
      heads := HeadsOne(lines[..n - 1], lines, n - 1, heads);
      TakeOne(lines, n - 1);
    }
  }

  /** The dictionary fails at the first block that is for no package. */
  lemma {:induction false} DictionaryFails(groups: seq<seq<string>>, k: nat)
    requires k < |groups| && groups[k] != [] && PackageOf(groups[k][0]).None?
    requires forall m :: 0 <= m < k ==> groups[m] != [] && PackageOf(groups[m][0]).Some?
    ensures Dictionary(groups) == Failure(groups[k][0])
    decreases |groups|
  {
    if k < |groups| - 1 {
      DictionaryFails(groups[..|groups| - 1], k);
    } else {
      DictionarySucceeds(groups[..k]);
      TakeOne(groups, k);
      TakeAll(groups);
      DictionaryStops(groups[..k], groups[k]);
    }
  }

  lemma DictionaryStops(groups: seq<seq<string>>, group: seq<string>)
    requires Dictionary(groups).Success? && group != [] && PackageOf(group[0]).None?
    ensures Dictionary(groups + [group]) == Failure(group[0])
  {
    assert (groups + [group])[..|groups|] == groups;
  }

  lemma {:induction false} DictionarySucceeds(groups: seq<seq<string>>)
    requires forall m :: 0 <= m < |groups| ==> groups[m] != [] && PackageOf(groups[m][0]).Some?
    ensures Dictionary(groups).Success?
  {
    if groups != [] {
      DictionarySucceeds(groups[..|groups| - 1]);
    }
  }

  /** Line i starts a block and is no requirement, and no line before it is so. */
  ghost predicate FirstUnrecognised(lines: seq<string>, i: nat)
    requires i < |lines|
  {
    && Starts(lines[i]) && PackageOf(lines[i]).None?
    && forall j :: 0 <= j < i && Starts(lines[j]) ==> PackageOf(lines[j]).Some?
  }

  ghost predicate NoneUnrecognised(lines: seq<string>) {
    forall i: nat :: i < |lines| ==> !FirstUnrecognised(lines, i)
  }

  /** Reading fails exactly at the first line that starts a block and is no requirement. */
  lemma {:induction false} FailsAtFirst(text: string, i: nat)
    requires i < |Lines(text)| && FirstUnrecognised(Lines(text), i)
    ensures BlocksOf(text) == Failure(Lines(text)[i])
  {
    var heads := AllHeads(Lines(text));
    HeadFails(Groups(Counting(Lines(text))), Lines(text), heads, i);
  }

  lemma HeadFails(groups: seq<seq<string>>, lines: seq<string>, heads: seq<nat>, i: nat)
    requires Heads(groups, lines, |lines|, heads) && i < |lines| && FirstUnrecognised(lines, i)
    ensures Dictionary(groups) == Failure(lines[i])
  {
    var k: nat :| k < |heads| && heads[k] == i;
    assert BeginsWith(groups[k], lines[heads[k]]);
    forall m | 0 <= m < k
      ensures groups[m] != [] && PackageOf(groups[m][0]).Some?
    {
      assert BeginsWith(groups[m], lines[heads[m]]) && heads[m] < heads[k];
    }
    DictionaryFails(groups, k);
  }

  lemma {:induction false} OtherwiseSucceeds(text: string)
    requires NoneUnrecognised(Lines(text))
    ensures BlocksOf(text).Success?
  {
    var heads := AllHeads(Lines(text));
    AllRecognised(Lines(text), |Lines(text)|);
    HeadsSucceed(Groups(Counting(Lines(text))), Lines(text), heads);
  }

  lemma {:induction false} AllRecognised(lines: seq<string>, n: nat)
    requires n <= |lines| && NoneUnrecognised(lines)
    ensures forall i :: 0 <= i < n && Starts(lines[i]) ==> PackageOf(lines[i]).Some?
  {
    if n > 0 {
      AllRecognised(lines, n - 1);
      assert !FirstUnrecognised(lines, n - 1);
    }
  }

  lemma HeadsSucceed(groups: seq<seq<string>>, lines: seq<string>, heads: seq<nat>)
    requires Heads(groups, lines, |lines|, heads)
    requires forall i :: 0 <= i < |lines| && Starts(lines[i]) ==> PackageOf(lines[i]).Some?
    ensures Dictionary(groups).Success?
  {
    forall m | 0 <= m < |groups|
      ensures groups[m] != [] && PackageOf(groups[m][0]).Some?
    {
      assert BeginsWith(groups[m], lines[heads[m]]);
    }
    DictionarySucceeds(groups);
  }

  lemma {:induction false} AssignPuts(d: Dict, key: string, value: string, entry: (string, string))
    ensures (key, value) in Assign(d, key, value)
    ensures entry in d && entry.0 != key ==> entry in Assign(d, key, value)
  {
    if d != [] {
      assert d == [d[0]] + d[1..];
      if d[0].0 != key {
        AssignPuts(d[1..], key, value, entry);
      }
    }
  }

  /** Of several blocks for a package the last is kept. */
  lemma {:induction false} LastBlockIsKept(groups: seq<seq<string>>, i: nat)
    requires Dictionary(groups).Success? && i < |groups| && AllGrouped(groups)
    requires forall j :: i < j < |groups| ==> PackageOf(groups[j][0]) != PackageOf(groups[i][0])
    ensures PackageOf(groups[i][0]).Some?
    ensures (PackageOf(groups[i][0]).value, Joined(groups[i])) in Dictionary(groups).value
  {
    var init, group := groups[..|groups| - 1], groups[|groups| - 1];
    InitGrouped(groups);
    DictionaryInit(groups);
    if i < |init| {
      LastBlockIsKept(init, i);
      AssignPuts(Dictionary(init).value, PackageOf(group[0]).value, Joined(group),
                 (PackageOf(groups[i][0]).value, Joined(groups[i])));
    } else {
      AssignPuts(Dictionary(init).value, PackageOf(group[0]).value, Joined(group), ("", ""));
    }
  }

  lemma HeadsDiffer(groups: seq<seq<string>>, lines: seq<string>, heads: seq<nat>)
    requires Heads(groups, lines, |lines|, heads)
    requires NoRepeats(lines)
    ensures OneBlockEach(groups)
  {
    forall i, j | 0 <= i < j < |groups|
      ensures groups[i] != [] && groups[j] != [] && PackageOf(groups[i][0]) != PackageOf(groups[j][0])
    {
      assert BeginsWith(groups[i], lines[heads[i]]) && BeginsWith(groups[j], lines[heads[j]]);
      assert !Repeats(lines, heads[i], heads[j]);
    }
  }

  /** No package has two requirements. */
  ghost predicate NoRepeats(lines: seq<string>) {
    forall i: nat, j: nat :: i < |lines| && j < |lines| ==> !Repeats(lines, i, j)
  }

  lemma AllSelected(lines: seq<string>) returns (places: seq<nat>)
    ensures Selected(Concat(Groups(Counting(lines))), lines, |lines|, places)
  {
    places := GroupsSelect(lines, |lines|);
    TakeAll(lines);
  }

  lemma AllHeads(lines: seq<string>) returns (heads: seq<nat>)
    ensures Heads(Groups(Counting(lines)), lines, |lines|, heads)
  {
    heads := GroupsHaveHeads(lines, |lines|);
    TakeAll(lines);
  }

  lemma BlocksSelect(lines: seq<string>) returns (places: seq<nat>)
    requires AllUnbroken(lines) && NoRepeats(lines) && Dictionary(Groups(Counting(lines))).Success?
    ensures Selected(Concat(GroupsIn(Dictionary(Groups(Counting(lines))).value)), lines, |lines|, places)
  {
    var heads := AllHeads(lines);
    CountingCounts(lines);
    GroupsGrouped(Counting(lines));
    AllBlocks(Groups(Counting(lines)), lines, heads);
    places := AllSelected(lines);
  }

  /** The blocks that are read are, line by line and in order, the lines of the text from
      the first requirement on, without blank lines and comments: no hash is lost. */
  lemma {:induction false} BlocksAreTheLines(text: string) returns (places: seq<nat>)
    requires BlocksOf(text).Success? && NoRepeats(Lines(text))
    ensures Selected(Concat(GroupsIn(BlocksOf(text).value)), Lines(text), |Lines(text)|, places)
  {
    LinesAreUnbroken(text);
    places := BlocksSelect(Lines(text));
  }

  lemma AllBlocks(groups: seq<seq<string>>, lines: seq<string>, heads: seq<nat>)
    requires Heads(groups, lines, |lines|, heads) && AllGrouped(groups) && Dictionary(groups).Success?
    requires NoRepeats(lines)
    ensures GroupsIn(Dictionary(groups).value) == groups
  {
    HeadsDiffer(groups, lines, heads);
    DictionaryHasAll(groups);
  }

  // ---- Writing blocks out ----

  function Values(d: Dict): seq<string> {
    if d == [] then [] else Values(d[..|d| - 1]) + [d[|d| - 1].1]
  }

  /** A generated lock file: comment lines, then the blocks. */
  function Render(header: seq<string>, d: Dict): string {
    Ended(header) + (if Values(d) == [] then "" else Joined(Values(d))) + "\n"
  }

  function GroupsIn(d: Dict): seq<seq<string>> {
    if d == [] then [] else GroupsIn(d[..|d| - 1]) + [Lines(d[|d| - 1].1)]
  }

  ghost predicate Comments(header: seq<string>) {
    forall k :: 0 <= k < |header| ==> Comment(header[k]) && Unbroken(header[k])
  }

  lemma InitWellFormed(d: Dict)
    requires d != [] && WellFormed(d)
    ensures WellFormed(d[..|d| - 1])
  {
  }

  lemma {:induction false} ValuesAreLines(d: Dict)
    requires WellFormed(d)
    ensures Ended(Values(d)) == Ended(Concat(GroupsIn(d)))
  {
    if d != [] {
      var init, value := d[..|d| - 1], d[|d| - 1].1;
      assert IsBlock(d[|d| - 1]);
      InitWellFormed(d);
      ValuesAreLines(init);
      EndedBoth(Values(init), [value]);
      EndedBoth(Concat(GroupsIn(init)), Lines(value));
      ConcatSnoc(GroupsIn(init), Lines(value));
      JoinedIsEnded(Lines(value));
      assert Ended([value]) == value + "\n";
    }
  }

  lemma {:induction false} AllCount(lines: seq<string>)
    requires forall k :: 0 <= k < |lines| ==> Counts(lines[k])
    ensures Counting(lines) == lines
  {
    if lines != [] {
      AllCount(lines[..|lines| - 1]);
    }
  }

  lemma {:induction false} CommentsDoNotCount(header: seq<string>)
    requires Comments(header)
    ensures Counting(header) == []
  {
    if header != [] {
      CommentsDoNotCount(header[..|header| - 1]);
    }
  }

  lemma CountingBehind(header: seq<string>, lines: seq<string>, line: string)
    requires Counting(header + lines) == Counting(lines)
    ensures Counting(header + (lines + [line])) == Counting(lines + [line])
  {
    CountingAfter(header + lines, line);
    CountingAfter(lines, line);
    Associate(header, lines, [line]);
  }

  lemma {:induction false} HeaderIsSkipped(header: seq<string>, lines: seq<string>)
    requires Comments(header)
    ensures Counting(header + lines) == Counting(lines)
  {
    if lines == [] {
      CommentsDoNotCount(header);
      assert header + lines == header;
    } else {
      HeaderIsSkipped(header, lines[..|lines| - 1]);
      CountingBehind(header, lines[..|lines| - 1], lines[|lines| - 1]);
      assert lines == lines[..|lines| - 1] + [lines[|lines| - 1]];
    }
  }

  lemma OneMore<T>(before: seq<T>, s: seq<T>, n: nat)
    requires n < |s|
    ensures s[..n + 1] == s[..n] + [s[n]]
    ensures before + s[..n + 1] == (before + s[..n]) + [s[n]]
  {
  }

  lemma GroupGrows(groups: seq<seq<string>>, lines: seq<string>, open: seq<string>, line: string)
    requires Groups(lines) == groups + [open] && Indented(line)
    ensures Groups(lines + [line]) == groups + [open + [line]]
  {
    GroupsAfter(lines, line);
    assert (groups + [open])[..|groups|] == groups;
  }

  lemma {:induction false} GroupContinues(groups: seq<seq<string>>, lines: seq<string>, group: seq<string>, n: nat)
    requires Groups(lines) == groups && Grouped(group) && 0 < n <= |group|
    ensures Groups(lines + group[..n]) == groups + [group[..n]]
  {
    OneMore(lines, group, n - 1);
    if n == 1 {
      assert lines + group[..0] == lines && group[..1] == [group[0]];
      GroupsAfter(lines, group[0]);
    } else {
      GroupContinues(groups, lines, group, n - 1);
      GroupGrows(groups, lines + group[..n - 1], group[..n - 1], group[n - 1]);
    }
  }

  lemma {:induction false} GroupsOfConcat(groups: seq<seq<string>>)
    requires AllGrouped(groups)
    ensures Groups(Concat(groups)) == groups
  {
    if groups != [] {
      InitGrouped(groups);
      GroupsOfConcat(groups[..|groups| - 1]);
      OneGroupMore(groups[..|groups| - 1], groups[|groups| - 1]);
    }
  }

  lemma OneGroupMore(groups: seq<seq<string>>, group: seq<string>)
    requires Groups(Concat(groups)) == groups && Grouped(group)
    ensures Groups(Concat(groups + [group])) == groups + [group]
  {
    GroupContinues(groups, Concat(groups), group, |group|);
    TakeAll(group);
    ConcatSnoc(groups, group);
  }

  lemma {:induction false} GroupsInGrouped(d: Dict)
    requires WellFormed(d)
    ensures AllGrouped(GroupsIn(d))
  {
    if d != [] {
      assert IsBlock(d[|d| - 1]);
      InitWellFormed(d);
      GroupsInGrouped(d[..|d| - 1]);
    }
  }

  lemma DictionarySnoc(groups: seq<seq<string>>, group: seq<string>, d: Dict)
    requires Dictionary(groups) == Success(d) && group != [] && PackageOf(group[0]).Some?
    ensures Dictionary(groups + [group]) == Success(Assign(d, PackageOf(group[0]).value, Joined(group)))
  {
    assert (groups + [group])[..|groups|] == groups;
  }

  lemma LastNameIsNew(d: Dict)
    requires d != [] && WellFormed(d)
    ensures d[|d| - 1].0 !in Names(d[..|d| - 1])
  {
    forall entry | entry in d[..|d| - 1]
      ensures entry.0 != d[|d| - 1].0
    {
      NewName(d, entry);
    }
  }

  lemma NewName(d: Dict, entry: (string, string))
    requires d != [] && WellFormed(d) && entry in d[..|d| - 1]
    ensures entry.0 != d[|d| - 1].0
  {
    var j: nat :| j < |d| - 1 && d[..|d| - 1][j] == entry;
    assert d[j].0 != d[|d| - 1].0;
  }

  lemma {:induction false} DictionaryOfGroupsIn(d: Dict)
    requires WellFormed(d)
    ensures Dictionary(GroupsIn(d)) == Success(d)
  {
    if d != [] {
      var init, entry := d[..|d| - 1], d[|d| - 1];
      assert IsBlock(entry);
      InitWellFormed(d);
      DictionaryOfGroupsIn(init);
      LastNameIsNew(d);
      AssignNew(init, entry.0, entry.1);
      DictionarySnoc(GroupsIn(init), Lines(entry.1), init);
      assert d == init + [entry];
    }
  }

  lemma {:induction false} ConcatLines(groups: seq<seq<string>>)
    requires AllGrouped(groups)
    ensures forall k :: 0 <= k < |Concat(groups)| ==> Counts(Concat(groups)[k]) && Unbroken(Concat(groups)[k])
  {
    if groups != [] {
      var init, group := groups[..|groups| - 1], groups[|groups| - 1];
      ConcatLines(init);
      assert Grouped(group);
    }
  }

  /** The lines of a generated file are the header and the lines of its blocks. */
  lemma RenderedLines(header: seq<string>, d: Dict)
    requires Comments(header) && WellFormed(d) && d != []
    ensures Lines(Render(header, d)) == header + Concat(GroupsIn(d))
  {
    var lines := Concat(GroupsIn(d));
    GroupsInGrouped(d);
    ConcatLines(GroupsIn(d));
    JoinedIsEnded(Values(d));
    ValuesAreLines(d);
    Associate(Ended(header), Joined(Values(d)), "\n");
    EndedBoth(header, lines);
    LinesOfEnded(header + lines);
  }

  /** A comment header in front of a lock file changes nothing of what is read from it. */
  lemma HeaderChangesNothing(header: seq<string>, text: string)
    requires Comments(header)
    ensures BlocksOf(Ended(header) + text) == BlocksOf(text)
  {
    LinesAfter(header, text);
    HeaderIsSkipped(header, Lines(text));
  }

  lemma RenderedEmpty(header: seq<string>)
    requires Comments(header)
    ensures BlocksOf(Render(header, [])) == Success([])
  {
    HeaderChangesNothing(header, "\n");
    LinesFront("", "");
    assert Ended(header) + "" + "\n" == Ended(header) + "\n" && "" + "\n" + "" == "\n";
    NothingCounts();
  }

  lemma NothingCounts()
    ensures Counting([""]) == [] && Counting([""] + []) == []
  {
  }

  /** Any well-formed dictionary reads back exactly, in order, from the file written for it. */
  lemma RenderReadsBack(header: seq<string>, d: Dict)
    requires Comments(header) && WellFormed(d)
    ensures BlocksOf(Render(header, d)) == Success(d)
  {
    if d == [] {
      RenderedEmpty(header);
    } else {
      var lines := Concat(GroupsIn(d));
      RenderedLines(header, d);
      HeaderIsSkipped(header, lines);
      GroupsInGrouped(d);
      ConcatLines(GroupsIn(d));
      AllCount(lines);
      GroupsOfConcat(GroupsIn(d));
      DictionaryOfGroupsIn(d);
    }
  }

  /** Parsing, writing and parsing again gives the same packages and blocks in the same order. */
  lemma RoundTrip(text: string, header: seq<string>)
    requires Comments(header) && BlocksOf(text).Success?
    ensures BlocksOf(Render(header, BlocksOf(text).value)) == BlocksOf(text)
  {
    BlocksAreWellFormed(text);
    RenderReadsBack(header, BlocksOf(text).value);
  }
}
