/** backend/scripts/lock_training.py: lock_stack resolves everything together, then the base
    and each add-on constrained to those pins, so that any combination agrees. */
module LockStack {
  import opened Streams
  import opened Text
  import opened LockFile

  // ---- Pins ----

  /** line.rstrip(" \\") */
  function StripEnd(s: string): string {
    if s != "" && (s[|s| - 1] == ' ' || s[|s| - 1] == '\\') then StripEnd(s[..|s| - 1]) else s
  }

  /** A block's requirement without its hashes. */
  function Pin(block: string): string {
    if Lines(block) == [] then "" else StripEnd(Lines(block)[0])
  }

  function PinsIn(d: Dict): Dict {
    if d == [] then [] else PinsIn(d[..|d| - 1]) + [(d[|d| - 1].0, Pin(d[|d| - 1].1))]
  }

  /** pins: the constraints file of a lock's blocks. */
  function Pins(d: Dict): string {
    Render([], PinsIn(d))
  }

  function Lookup(d: Dict, name: string): Option<string> {
    if d == [] then None else if d[0].0 == name then Some(d[0].1) else Lookup(d[1..], name)
  }

  function PinOf(d: Dict, name: string): Option<string> {
    var block := Lookup(d, name);
    if block.Some? then Some(Pin(block.value)) else None
  }

  /** The pin a lock file has for a package, if it can be read and names it. */
  function PinIn(text: string, name: string): Option<string> {
    if BlocksOf(text).Success? then PinOf(BlocksOf(text).value, name) else None
  }

  lemma NothingPinned(c: char)
    requires c == ' ' || c == '\\'
    ensures !Pinned([c])
  {
    assert [c][1..] == "" && [c][0] == c && "@"[0] == '@';
    assert TrimLeft([c]) == if c == ' ' then "" else [c];
  }

  lemma PinAtFront(q: string, c: char)
    requires q != "" && (c == ' ' || c == '\\') && ("==" <= q + [c] || "@" <= q + [c])
    ensures "==" <= q || "@" <= q
  {
    var s := q + [c];
    assert s[|q|] == c && s[0] == q[0];
    assert "==" <= s ==> s[1] == '=';
  }

  lemma {:induction false} PinnedShorter(q: string, c: char)
    requires c == ' ' || c == '\\'
    requires Pinned(q + [c])
    ensures Pinned(q)
  {
    if q == "" {
      assert q + [c] == [c];
      NothingPinned(c);
    } else {
      assert (q + [c])[0] == q[0] && (q + [c])[1..] == q[1..] + [c];
      if IsSpace(q[0]) {
        PinnedShorter(q[1..], c);
        assert TrimLeft(q) == TrimLeft(q[1..]);
      } else {
        PinAtFront(q, c);
        assert TrimLeft(q) == q;
      }
    }
  }

  lemma SnocAt(q: string, c: char, k: nat)
    requires k <= |q|
    ensures (q + [c])[..k] == q[..k] && (q + [c])[k..] == q[k..] + [c]
  {
  }

  lemma ExtrasEnd(q: string, c: char)
    requires ']' in q
    ensures Find(q, ']') < |q| && Find(q + [c], ']') == Find(q, ']')
  {
    var i := Find(q, ']');
    SnocAt(q, c, i);
    TakeAll(q);
    FindUnique(q + [c], ']', i);
  }

  lemma ExtrasShorter(q: string, c: char)
    requires (c == ' ' || c == '\\') && Pinned(AfterExtras(q + [c]))
    ensures Pinned(AfterExtras(q))
  {
    if q != "" && q[0] == '[' && ']' in q {
      ExtrasEnd(q, c);
      SnocAt(q, c, Find(q, ']') + 1);
      PinnedShorter(q[Find(q, ']') + 1..], c);
    } else {
      NoExtras(q, c);
      PinnedShorter(q, c);
    }
  }

  lemma NoExtras(q: string, c: char)
    requires q == "" || q[0] != '[' || ']' !in q
    requires c != '[' && c != ']'
    ensures AfterExtras(q + [c]) == q + [c] && AfterExtras(q) == q
  {
  }

  lemma NameLengthOfSnoc(p: string, c: char)
    requires !InName(c)
    ensures NameLength(p + [c]) == NameLength(p)
  {
    var n := NameLength(p);
    forall j | 0 <= j < n
      ensures InName((p + [c])[j])
    {
      assert (p + [c])[j] == p[j];
    }
    NameLengthIs(p + [c], n);
  }

  lemma PackageOfSnoc(p: string, c: char)
    requires (c == ' ' || c == '\\') && PackageOf(p + [c]).Some?
    ensures PackageOf(p) == PackageOf(p + [c])
  {
    var n := NameLength(p);
    NameLengthOfSnoc(p, c);
    SnocAt(p, c, n);
    ExtrasShorter(p[n..], c);
  }

  lemma InitAndLast(line: string)
    requires line != ""
    ensures line[..|line| - 1] + [line[|line| - 1]] == line
  {
  }

  lemma PackageOfInit(line: string)
    requires line != "" && (line[|line| - 1] == ' ' || line[|line| - 1] == '\\') && PackageOf(line).Some?
    ensures PackageOf(line[..|line| - 1]) == PackageOf(line)
  {
    InitAndLast(line);
    PackageOfSnoc(line[..|line| - 1], line[|line| - 1]);
  }

  lemma {:induction false} StripKeepsPackage(line: string)
    requires PackageOf(line).Some?
    ensures PackageOf(StripEnd(line)) == PackageOf(line)
  {
    if line != "" && (line[|line| - 1] == ' ' || line[|line| - 1] == '\\') {
      PackageOfInit(line);
      StripKeepsPackage(line[..|line| - 1]);
    }
  }

  lemma {:induction false} StripOnce(line: string)
    ensures StripEnd(line) <= line && StripEnd(StripEnd(line)) == StripEnd(line)
  {
    if line != "" && (line[|line| - 1] == ' ' || line[|line| - 1] == '\\') {
      StripOnce(line[..|line| - 1]);
    }
  }

  /** What is stripped are the spaces and backslashes at the end, all of them. */
  lemma {:induction false} StripExactly(line: string)
    ensures var s := StripEnd(line);
            && s <= line && (forall i :: |s| <= i < |line| ==> line[i] == ' ' || line[i] == '\\')
            && (s != "" ==> s[|s| - 1] != ' ' && s[|s| - 1] != '\\')
  {
    if line != "" && (line[|line| - 1] == ' ' || line[|line| - 1] == '\\') {
      StripExactly(line[..|line| - 1]);
    }
  }

  lemma RequirementStands(line: string)
    requires PackageOf(line).Some?
    ensures line != "" && Counts(line) && !Indented(line)
  {
    assert IsNameStart(line[0]);
  }

  lemma PinIsBlock(entry: (string, string))
    requires IsBlock(entry)
    ensures IsBlock((entry.0, Pin(entry.1))) && Pin(Pin(entry.1)) == Pin(entry.1)
  {
    var line := Lines(entry.1)[0];
    var pin := StripEnd(line);
    StripKeepsPackage(line);
    StripOnce(line);
    RequirementStands(pin);
    assert Unbroken(line);
    assert Grouped([pin]);
    GroupedJoins([pin], entry.0);
    LinesOfJoined([pin]);
  }

  lemma {:induction false} PinsCount(d: Dict)
    ensures |PinsIn(d)| == |d|
  {
    if d != [] {
      PinsCount(d[..|d| - 1]);
    }
  }

  lemma {:induction false} PinAt(d: Dict, i: nat)
    requires i < |d|
    ensures |PinsIn(d)| == |d| && PinsIn(d)[i] == (d[i].0, Pin(d[i].1))
  {
    PinsCount(d);
    PinsCount(d[..|d| - 1]);
    if i < |d| - 1 {
      PinAt(d[..|d| - 1], i);
    }
  }

  lemma PinsAt(d: Dict)
    ensures |PinsIn(d)| == |d| && forall i :: 0 <= i < |d| ==> PinsIn(d)[i] == (d[i].0, Pin(d[i].1))
  {
    PinsCount(d);
    forall i: nat | i < |d|
      ensures PinsIn(d)[i] == (d[i].0, Pin(d[i].1))
    {
      PinAt(d, i);
    }
  }

  lemma PinsAreWellFormed(d: Dict)
    requires WellFormed(d)
    ensures WellFormed(PinsIn(d))
  {
    PinsAt(d);
    forall i | 0 <= i < |d|
      ensures IsBlock(PinsIn(d)[i])
    {
      assert IsBlock(d[i]);
      PinIsBlock(d[i]);
    }
  }

  lemma {:induction false} LookupIs(d: Dict, i: nat)
    requires WellFormed(d) && i < |d|
    ensures Lookup(d, d[i].0) == Some(d[i].1)
  {
    if i > 0 {
      assert d[0].0 != d[i].0;
      assert WellFormed(d[1..]) by {
        assert forall k :: 0 <= k < |d[1..]| ==> d[1..][k] == d[k + 1];
      }
      LookupIs(d[1..], i - 1);
    }
  }

  lemma {:induction false} LookupAbsent(d: Dict, name: string)
    ensures Lookup(d, name).None? <==> forall i :: 0 <= i < |d| ==> d[i].0 != name
  {
    if d != [] && d[0].0 != name {
      LookupAbsent(d[1..], name);
      assert forall i :: 0 < i < |d| ==> d[i] == d[1..][i - 1];
    }
  }

  lemma PinOfPins(d: Dict, name: string)
    requires WellFormed(d)
    ensures PinOf(PinsIn(d), name) == PinOf(d, name)
  {
    PinsAt(d);
    PinsAreWellFormed(d);
    LookupAbsent(d, name);
    LookupAbsent(PinsIn(d), name);
    if i: nat :| i < |d| && d[i].0 == name {
      LookupIs(d, i);
      assert PinsIn(d)[i].0 == name;
      LookupIs(PinsIn(d), i);
      assert IsBlock(d[i]);
      PinIsBlock(d[i]);
    }
  }

  /** The constraints file reads back with every package of the lock at the same pin, in the same order. */
  lemma {:induction false} PinsReadBack(text: string)
    requires BlocksOf(text).Success?
    ensures BlocksOf(Pins(BlocksOf(text).value)) == Success(PinsIn(BlocksOf(text).value))
    ensures forall name :: PinIn(Pins(BlocksOf(text).value), name) == PinIn(text, name)
  {
    var d := BlocksOf(text).value;
    BlocksAreWellFormed(text);
    PinsAreWellFormed(d);
    RenderReadsBack([], PinsIn(d));
    forall name
      ensures PinOf(PinsIn(d), name) == PinOf(d, name)
    {
      PinOfPins(d, name);
    }
  }

  // ---- The base and the add-ons ----

  /** The packages of a combined lock that the base does not have. */
  function Beyond(combined: Dict, base: Dict): Dict {
    if combined == [] then [] else
    var init, entry := combined[..|combined| - 1], combined[|combined| - 1];
    Beyond(init, base) + if Lookup(base, entry.0).None? then [entry] else []
  }

  lemma {:induction false} BeyondHas(combined: Dict, base: Dict)
    ensures forall entry :: entry in Beyond(combined, base) <==> entry in combined && Lookup(base, entry.0).None?
  {
    if combined != [] {
      BeyondHas(combined[..|combined| - 1], base);
      assert combined == combined[..|combined| - 1] + [combined[|combined| - 1]];
    }
  }

  lemma {:induction false} BeyondWellFormed(combined: Dict, base: Dict)
    requires WellFormed(combined)
    ensures WellFormed(Beyond(combined, base))
  {
    if combined != [] {
      var init := combined[..|combined| - 1];
      InitWellFormed(combined);
      BeyondWellFormed(init, base);
      BeyondHas(init, base);
      BeyondJoins(combined, Beyond(init, base));
    }
  }

  lemma BeyondJoins(combined: Dict, part: Dict)
    requires combined != [] && WellFormed(combined) && WellFormed(part)
    requires forall entry :: entry in part ==> entry in combined[..|combined| - 1]
    ensures WellFormed(part + [combined[|combined| - 1]])
  {
    var last := |combined| - 1;
    assert IsBlock(combined[last]);
    forall i | 0 <= i < |part|
      ensures part[i].0 != combined[last].0
    {
      assert part[i] in part;
      NewName(combined, part[i]);
    }
    OneMoreBlock(part, combined[last]);
  }

  lemma OneMoreBlock(part: Dict, entry: (string, string))
    requires WellFormed(part) && IsBlock(entry) && forall i :: 0 <= i < |part| ==> part[i].0 != entry.0
    ensures WellFormed(part + [entry])
  {
    forall i | 0 <= i < |part + [entry]|
      ensures IsBlock((part + [entry])[i])
    {
      assert i < |part| ==> (part + [entry])[i] == part[i];
    }
  }

  /** An add-on keeps a package's block exactly when the base does not have the package. */
  lemma {:induction false} LookupBeyond(combined: Dict, base: Dict, name: string)
    requires WellFormed(combined)
    ensures Lookup(Beyond(combined, base), name)
            == if Lookup(base, name).Some? then None else Lookup(combined, name)
  {
    var part := Beyond(combined, base);
    BeyondHas(combined, base);
    BeyondWellFormed(combined, base);
    LookupAbsent(part, name);
    LookupAbsent(combined, name);
    if i: nat :| i < |part| && part[i].0 == name {
      assert part[i] in part;
      LookupIs(part, i);
      var j: nat :| j < |combined| && combined[j] == part[i];
      LookupIs(combined, j);
    } else if i: nat :| i < |combined| && combined[i].0 == name {
      assert combined[i] in combined && combined[i] !in part;
    }
  }

  // ---- lock_stack ----

  /** uv: the lock of some inputs under an optional constraints file, or why there is none. */
  type Resolver = (seq<string>, Option<string>) -> Result<string, string>

  /** What both of two locks name, they pin the same. */
  ghost predicate Agrees(lock: string, joint: string) {
    forall name :: PinIn(lock, name).Some? && PinIn(joint, name).Some? ==> PinIn(lock, name) == PinIn(joint, name)
  }

  /** Under these constraints the resolver keeps to them: what both name, it pins the same. */
  ghost predicate Honours(resolve: Resolver, constraints: string) {
    forall inputs :: Keeps(resolve(inputs, Some(constraints)), constraints)
  }

  ghost predicate Keeps(lock: Result<string, string>, constraints: string) {
    lock.Success? ==> Agrees(lock.value, constraints)
  }

  // ---- Reading one lock ----

  lemma ConstrainedAgrees(resolve: Resolver, inputs: seq<string>, joint: string, lock: string)
    requires BlocksOf(joint).Success? && Honours(resolve, Pins(BlocksOf(joint).value))
    requires resolve(inputs, Some(Pins(BlocksOf(joint).value))) == Success(lock)
    ensures Agrees(lock, joint)
  {
    PinsReadBack(joint);
    var constraints := Pins(BlocksOf(joint).value);
    assert Keeps(resolve(inputs, Some(constraints)), constraints);
  }

  /** Filtering the base's packages out of an add-on's lock changes no pin of those left. */
  lemma {:induction false} AddonFile(header: seq<string>, combined: string, base: string, name: string)
    requires Comments(header) && BlocksOf(combined).Success? && BlocksOf(base).Success?
    ensures var file := Render(header, Beyond(BlocksOf(combined).value, BlocksOf(base).value));
            PinIn(file, name) == if PinIn(base, name).Some? then None else PinIn(combined, name)
  {
    BlocksAreWellFormed(combined);
    BeyondWellFormed(BlocksOf(combined).value, BlocksOf(base).value);
    RenderReadsBack(header, Beyond(BlocksOf(combined).value, BlocksOf(base).value));
    LookupBeyond(BlocksOf(combined).value, BlocksOf(base).value, name);
  }

  /** base.lock: what the resolver gives for the base alone under the constraints. */
  ghost predicate BaseMade(resolve: Resolver, constraints: string, file: string) {
    var lock := resolve(["base"], Some(constraints));
    lock.Success? && BlocksOf(lock.value).Success? && BlocksOf(file) == BlocksOf(lock.value)
  }

  /** An add-on's lock: what the resolver gives for base and add-on together, less the
      packages of the base. */
  ghost predicate AddonMade(resolve: Resolver, constraints: string, addon: string, file: string, base: string) {
    var combined := resolve(["base", addon], Some(constraints));
    && combined.Success? && BlocksOf(combined.value).Success?
    && forall name :: PinIn(file, name) == if PinIn(base, name).Some? then None else PinIn(combined.value, name)
  }

  method LockAddon(resolve: Resolver, constraints: string, addon: string, header: seq<string>, base: string)
    returns (r: Result<string, string>)
    requires Comments(header) && BlocksOf(base).Success?
    ensures r.Success? ==> AddonMade(resolve, constraints, addon, r.value, base)
  {
    var combined := resolve(["base", addon], Some(constraints));
    if combined.Failure? {
      return Failure(combined.error);
    }
    var blocks := Blocks(combined.value);
    if blocks.Failure? {
      return Failure(blocks.error);
    }
    var file := Render(header, Beyond(blocks.value, BlocksOf(base).value));
    forall name
      ensures PinIn(file, name) == if PinIn(base, name).Some? then None else PinIn(combined.value, name)
    {
      AddonFile(header, combined.value, base, name);
    }
    r := Success(file);
  }

  datatype Stack = Stack(joint: string, base: string, addons: map<string, string>)

  ghost predicate StackMade(resolve: Resolver, names: seq<string>, s: Stack) {
    && resolve(["base"] + names, None) == Success(s.joint) && BlocksOf(s.joint).Success?
    && var constraints := Pins(BlocksOf(s.joint).value);
       && BaseMade(resolve, constraints, s.base)
       && (forall name :: name in s.addons <==> name in names)
       && forall name :: name in s.addons ==> AddonMade(resolve, constraints, name, s.addons[name], s.base)
  }

  method LockAddons(resolve: Resolver, constraints: string, names: seq<string>, header: string -> seq<string>,
                    base: string)
    returns (r: Result<map<string, string>, string>)
    requires BlocksOf(base).Success? && forall name :: name in names ==> Comments(header(name))
    ensures r.Success? ==> forall name :: name in r.value <==> name in names
    ensures r.Success? ==> forall name :: name in r.value ==> AddonMade(resolve, constraints, name, r.value[name], base)
  {
    var files: map<string, string> := map[];
    for i := 0 to |names|
      invariant forall name :: name in files <==> name in names[..i]
      invariant forall name :: name in files ==> AddonMade(resolve, constraints, name, files[name], base)
    {
      TakeOne(names, i);
      var file := LockAddon(resolve, constraints, names[i], header(names[i]), base);
      if file.Failure? {
        return Failure(file.error);
      }
      files := files[names[i] := file.value];
    }
    TakeAll(names);
    r := Success(files);
  }

  /** lock_stack, with the comment headers as given. */
  method LockStack(names: seq<string>, resolve: Resolver, baseHeader: seq<string>, header: string -> seq<string>)
    returns (r: Result<Stack, string>)
    requires Comments(baseHeader) && forall name :: name in names ==> Comments(header(name))
    ensures r.Success? ==> StackMade(resolve, names, r.value)
  {
    var all := resolve(["base"] + names, None);
    if all.Failure? {
      return Failure(all.error);
    }
    var joint := Blocks(all.value);
    if joint.Failure? {
      return Failure(joint.error);
    }
    var constraints := Pins(joint.value);
    var baseLock := resolve(["base"], Some(constraints));
    if baseLock.Failure? {
      return Failure(baseLock.error);
    }
    var baseBlocks := Blocks(baseLock.value);
    if baseBlocks.Failure? {
      return Failure(baseBlocks.error);
    }
    var base := Ended(baseHeader) + baseLock.value;
    HeaderChangesNothing(baseHeader, baseLock.value);
    var addons := LockAddons(resolve, constraints, names, header, base);
    if addons.Failure? {
      return Failure(addons.error);
    }
    r := Success(Stack(all.value, base, addons.value));
  }

  // ---- Any combination ----

  /** The files one build merges: the base and some of the add-ons. */
  function Files(s: Stack): set<string> {
    {s.base} + s.addons.Values
  }

  ghost predicate HonoursStack(resolve: Resolver, s: Stack) {
    BlocksOf(s.joint).Success? && Honours(resolve, Pins(BlocksOf(s.joint).value))
  }

  /** The lock a file of the stack was made from. */
  ghost predicate MadeFrom(file: string, lock: string) {
    forall name :: PinIn(file, name).Some? ==> PinIn(file, name) == PinIn(lock, name)
  }

  lemma FileHasLock(resolve: Resolver, names: seq<string>, s: Stack, file: string)
    returns (inputs: seq<string>, lock: string)
    requires StackMade(resolve, names, s) && file in Files(s)
    ensures resolve(inputs, Some(Pins(BlocksOf(s.joint).value))) == Success(lock) && MadeFrom(file, lock)
    ensures forall i :: 0 <= i < |inputs| ==> inputs[i] in ["base"] + names
  {
    var constraints := Pins(BlocksOf(s.joint).value);
    if file == s.base {
      inputs, lock := ["base"], resolve(["base"], Some(constraints)).value;
    } else {
      var addon :| addon in s.addons && s.addons[addon] == file;
      assert AddonMade(resolve, constraints, addon, file, s.base);
      inputs, lock := ["base", addon], resolve(["base", addon], Some(constraints)).value;
    }
  }

  lemma FilesAgree(resolve: Resolver, names: seq<string>, s: Stack, file: string)
    requires StackMade(resolve, names, s) && HonoursStack(resolve, s) && file in Files(s)
    ensures Agrees(file, s.joint)
  {
    var inputs, lock := FileHasLock(resolve, names, s, file);
    ConstrainedAgrees(resolve, inputs, s.joint, lock);
  }

  /** No two files of a stack pin a package differently, as long as the joint lock
      names it; and then the pin is the joint lock's. */
  lemma AnyCombinationAgrees(resolve: Resolver, names: seq<string>, s: Stack, a: string, b: string, name: string)
    requires StackMade(resolve, names, s) && HonoursStack(resolve, s) && a in Files(s) && b in Files(s)
    requires PinIn(a, name).Some? && PinIn(b, name).Some? && PinIn(s.joint, name).Some?
    ensures PinIn(a, name) == PinIn(b, name) == PinIn(s.joint, name)
  {
    FilesAgree(resolve, names, s, a);
    FilesAgree(resolve, names, s, b);
  }

  /** Add-ons never repeat a package of the base, and lose none of their own: base and
      add-on together have exactly the packages of the two and of their combined lock. */
  lemma AddonsCompleteTheBase(resolve: Resolver, names: seq<string>, s: Stack, addon: string, name: string)
    requires StackMade(resolve, names, s) && addon in names
    ensures PinIn(s.addons[addon], name).Some? ==> PinIn(s.base, name).None?
    ensures var combined := resolve(["base", addon], Some(Pins(BlocksOf(s.joint).value))).value;
            PinIn(combined, name).Some?
            ==> PinIn(s.base, name).Some? || PinIn(s.addons[addon], name) == PinIn(combined, name)
  {
    assert AddonMade(resolve, Pins(BlocksOf(s.joint).value), addon, s.addons[addon], s.base);
  }

  // ---- What a dependency resolver pins ----

  /** What an input asks for, and what a package requires at a pin. */
  datatype Index = Index(roots: string -> set<string>, needs: (string, string) -> set<string>)

  /** A lock, as the pin it has for each package. */
  type PinMap = string -> Option<string>

  function PinsOf(lock: string): PinMap {
    (name: string) => PinIn(lock, name)
  }

  ghost predicate Wants(index: Index, inputs: seq<string>, name: string) {
    exists i :: 0 <= i < |inputs| && name in index.roots(inputs[i])
  }

  ghost predicate Needs(index: Index, pins: PinMap, user: string, name: string) {
    pins(user).Some? && name in index.needs(user, pins(user).value)
  }

  /** An input asks for the package, or a package that is reached requires it. */
  ghost predicate Reached(index: Index, inputs: seq<string>, pins: PinMap, name: string, depth: nat)
    decreases depth
  {
    if depth == 0 then Wants(index, inputs, name)
    else exists user :: Reached(index, inputs, pins, user, depth - 1) && Needs(index, pins, user, name)
  }

  /** Everything asked for or required is pinned. */
  ghost predicate Complete(index: Index, inputs: seq<string>, pins: PinMap) {
    && (forall name :: Wants(index, inputs, name) ==> pins(name).Some?)
    && (forall user, name :: Needs(index, pins, user, name) ==> pins(name).Some?)
  }

  /** A lock of some inputs: complete, and nothing is pinned without a reason. */
  ghost predicate Resolution(index: Index, inputs: seq<string>, pins: PinMap) {
    && Complete(index, inputs, pins)
    && forall name :: pins(name).Some? ==> exists depth :: Reached(index, inputs, pins, name, depth)
  }

  ghost predicate Resolves(resolve: Resolver, index: Index, constraints: Option<string>) {
    forall inputs :: Resolved(index, inputs, resolve(inputs, constraints))
  }

  ghost predicate Resolved(index: Index, inputs: seq<string>, lock: Result<string, string>) {
    lock.Success? ==> Resolution(index, inputs, PinsOf(lock.value))
  }

  /** For the joint lock and for the locks under its pins, the resolver is a dependency resolver. */
  ghost predicate Dependable(resolve: Resolver, index: Index, s: Stack) {
    && Resolves(resolve, index, None)
    && BlocksOf(s.joint).Success? && Resolves(resolve, index, Some(Pins(BlocksOf(s.joint).value)))
  }

  ghost predicate AgreeOn(pins: PinMap, joint: PinMap) {
    forall name :: pins(name).Some? && joint(name).Some? ==> pins(name) == joint(name)
  }

  lemma {:induction false} ReachedIsJoint(index: Index, inputs: seq<string>, pins: PinMap, all: seq<string>,
                                          joint: PinMap, name: string, depth: nat)
    requires forall i :: 0 <= i < |inputs| ==> inputs[i] in all
    requires AgreeOn(pins, joint) && Complete(index, all, joint)
    requires Reached(index, inputs, pins, name, depth)
    ensures joint(name).Some?
    decreases depth
  {
    if depth == 0 {
      var i :| 0 <= i < |inputs| && name in index.roots(inputs[i]);
      var j :| 0 <= j < |all| && all[j] == inputs[i];
      assert Wants(index, all, name);
    } else {
      var user :| Reached(index, inputs, pins, user, depth - 1) && Needs(index, pins, user, name);
      ReachedIsJoint(index, inputs, pins, all, joint, user, depth - 1);
      assert Needs(index, joint, user, name);
    }
  }

  /** A lock of fewer inputs that keeps to the joint pins is part of the joint lock: each
      package has a reason, and at the joint pins the reasons lead to joint packages only. */
  lemma LockIsPart(index: Index, inputs: seq<string>, pins: PinMap, all: seq<string>, joint: PinMap)
    requires forall i :: 0 <= i < |inputs| ==> inputs[i] in all
    requires AgreeOn(pins, joint) && Resolution(index, inputs, pins) && Resolution(index, all, joint)
    ensures forall name :: pins(name).Some? ==> joint(name) == pins(name)
  {
    forall name | pins(name).Some?
      ensures joint(name) == pins(name)
    {
      var depth :| Reached(index, inputs, pins, name, depth);
      ReachedIsJoint(index, inputs, pins, all, joint, name, depth);
    }
  }

  /** A lock file is part of another: every pin of it is a pin of that one. */
  ghost predicate Within(lock: string, joint: string) {
    forall name :: PinIn(lock, name).Some? ==> PinIn(joint, name) == PinIn(lock, name)
  }

  /** Every file of a stack is part of the one joint resolution. */
  lemma FilesAreWithin(resolve: Resolver, index: Index, names: seq<string>, s: Stack, file: string)
    requires StackMade(resolve, names, s) && HonoursStack(resolve, s) && Dependable(resolve, index, s)
    requires file in Files(s)
    ensures Within(file, s.joint)
  {
    var inputs, lock := FileHasLock(resolve, names, s, file);
    ConstrainedAgrees(resolve, inputs, s.joint, lock);
    JointIsResolution(resolve, index, names, s);
    LockIsResolution(resolve, index, s, inputs, lock);
    AgreesAsMaps(lock, s.joint);
    LockIsPart(index, inputs, PinsOf(lock), ["base"] + names, PinsOf(s.joint));
    WithinThrough(file, lock, s.joint);
  }

  lemma JointIsResolution(resolve: Resolver, index: Index, names: seq<string>, s: Stack)
    requires resolve(["base"] + names, None) == Success(s.joint) && Resolves(resolve, index, None)
    ensures Resolution(index, ["base"] + names, PinsOf(s.joint))
  {
    assert Resolved(index, ["base"] + names, resolve(["base"] + names, None));
  }

  lemma LockIsResolution(resolve: Resolver, index: Index, s: Stack, inputs: seq<string>, lock: string)
    requires Dependable(resolve, index, s)
    requires resolve(inputs, Some(Pins(BlocksOf(s.joint).value))) == Success(lock)
    ensures Resolution(index, inputs, PinsOf(lock))
  {
    assert Resolved(index, inputs, resolve(inputs, Some(Pins(BlocksOf(s.joint).value))));
  }

  lemma AgreesAsMaps(lock: string, joint: string)
    requires Agrees(lock, joint)
    ensures AgreeOn(PinsOf(lock), PinsOf(joint))
  {
  }

  lemma WithinThrough(file: string, lock: string, joint: string)
    requires MadeFrom(file, lock)
    requires forall name :: PinsOf(lock)(name).Some? ==> PinsOf(joint)(name) == PinsOf(lock)(name)
    ensures Within(file, joint)
  {
    forall name | PinIn(file, name).Some?
      ensures PinIn(joint, name) == PinIn(file, name)
    {
      assert PinsOf(lock)(name) == PinIn(lock, name);
    }
  }

  /** The versions of a package that some files together pin. */
  ghost function Versions(files: set<string>, name: string): set<string> {
    set file | file in files && PinIn(file, name).Some? :: PinIn(file, name).value
  }

  /** Merging any files of a stack never gives two versions of a package, and what it
      gives is the joint lock's. */
  lemma AnySubsetHasOneVersion(resolve: Resolver, index: Index, names: seq<string>, s: Stack, files: set<string>,
                               name: string)
    requires StackMade(resolve, names, s) && HonoursStack(resolve, s) && Dependable(resolve, index, s)
    requires files <= Files(s)
    ensures || Versions(files, name) == {}
            || (PinIn(s.joint, name).Some? && Versions(files, name) == {PinIn(s.joint, name).value})
  {
    forall version | version in Versions(files, name)
      ensures PinIn(s.joint, name) == Some(version)
    {
      var file :| file in files && PinIn(file, name).Some? && PinIn(file, name).value == version;
      FilesAreWithin(resolve, index, names, s, file);
    }
  }

  /** One of the merged files pins the package. */
  ghost predicate Has(s: Stack, picked: set<string>, name: string) {
    || PinIn(s.base, name).Some?
    || exists addon :: addon in picked && addon in s.addons && PinIn(s.addons[addon], name).Some?
  }

  lemma CompleteAsLock(index: Index, inputs: seq<string>, file: PinMap, lock: PinMap)
    requires Complete(index, inputs, lock) && forall name :: file(name) == lock(name)
    ensures Complete(index, inputs, file)
  {
    forall user, name | Needs(index, file, user, name)
      ensures file(name).Some?
    {
      assert Needs(index, lock, user, name);
    }
  }

  lemma BaseIsComplete(resolve: Resolver, index: Index, names: seq<string>, s: Stack)
    requires StackMade(resolve, names, s) && Dependable(resolve, index, s)
    ensures Complete(index, ["base"], PinsOf(s.base))
  {
    var lock := resolve(["base"], Some(Pins(BlocksOf(s.joint).value))).value;
    LockIsResolution(resolve, index, s, ["base"], lock);
    forall name
      ensures PinsOf(s.base)(name) == PinsOf(lock)(name)
    {
    }
    CompleteAsLock(index, ["base"], PinsOf(s.base), PinsOf(lock));
  }

  /** What is left of a combined lock without the base is complete together with it. */
  lemma CompleteBeside(index: Index, inputs: seq<string>, combined: PinMap, base: PinMap, file: PinMap, name: string)
    requires Complete(index, inputs, combined)
    requires forall n :: file(n) == if base(n).Some? then None else combined(n)
    requires Wants(index, inputs, name) || exists user :: Needs(index, file, user, name)
    ensures base(name).Some? || file(name).Some?
  {
    if user :| Needs(index, file, user, name) {
      assert file(user) == combined(user);
      assert Needs(index, combined, user, name);
    }
  }

  lemma AddonIsComplete(resolve: Resolver, index: Index, names: seq<string>, s: Stack, addon: string, name: string)
    requires StackMade(resolve, names, s) && Dependable(resolve, index, s) && addon in s.addons
    requires Wants(index, ["base", addon], name)
             || exists user :: Needs(index, PinsOf(s.addons[addon]), user, name)
    ensures PinIn(s.base, name).Some? || PinIn(s.addons[addon], name).Some?
  {
    var constraints := Pins(BlocksOf(s.joint).value);
    var combined := resolve(["base", addon], Some(constraints)).value;
    assert AddonMade(resolve, constraints, addon, s.addons[addon], s.base);
    LockIsResolution(resolve, index, s, ["base", addon], combined);
    forall n
      ensures PinsOf(s.addons[addon])(n) == if PinsOf(s.base)(n).Some? then None else PinsOf(combined)(n)
    {
    }
    CompleteBeside(index, ["base", addon], PinsOf(combined), PinsOf(s.base), PinsOf(s.addons[addon]), name);
  }

  /** The base and any add-ons together are complete: whatever they ask for or require is
      among them, so a build that merges their files misses nothing. */
  lemma MergeIsComplete(resolve: Resolver, index: Index, names: seq<string>, s: Stack, picked: set<string>,
                        name: string)
    requires StackMade(resolve, names, s) && Dependable(resolve, index, s) && picked <= s.addons.Keys
    requires || Wants(index, ["base"], name)
             || (exists addon :: addon in picked && Wants(index, ["base", addon], name))
             || (exists user :: Needs(index, PinsOf(s.base), user, name))
             || (exists addon, user :: addon in picked && Needs(index, PinsOf(s.addons[addon]), user, name))
    ensures Has(s, picked, name)
  {
    BaseIsComplete(resolve, index, names, s);
    if addon :| addon in picked && Wants(index, ["base", addon], name) {
      AddonIsComplete(resolve, index, names, s, addon, name);
    } else if addon, user :| addon in picked && Needs(index, PinsOf(s.addons[addon]), user, name) {
      AddonIsComplete(resolve, index, names, s, addon, name);
    } else {
      assert PinsOf(s.base)(name).Some?;
    }
  }

  // ---- Without reasons, versions can clash ----

  /** A lock file with one package only. */
  ghost predicate Only(text: string, name: string, pin: string) {
    && BlocksOf(text).Success? && PinIn(text, name) == Some(pin)
    && forall other :: other != name ==> PinIn(text, other).None?
  }

  lemma OnlyOne(text: string, name: string, line: string)
    requires BlocksOf(text) == Success([(name, line)]) && Pin(line) == line
    ensures Only(text, name, line)
  {
    var d := [(name, line)];
    assert Lookup(d, name) == Some(line) && d[1..] == [];
    forall other | other != name
      ensures PinIn(text, other).None?
    {
      assert Lookup(d, other) == Lookup(d[1..], other);
    }
  }

  lemma OneBlock(line: string, name: string)
    requires PackageOf(line) == Some(name) && Unbroken(line) && StripEnd(line) == line
    ensures BlocksOf(Render([], [(name, line)])) == Success([(name, line)]) && Pin(line) == line
  {
    RequirementStands(line);
    GroupedJoins([line], name);
    assert Joined([line]) == line;
    RenderReadsBack([], [(name, line)]);
    LinesOfJoined([line]);
  }

  lemma OnePackage(version: char)
    requires IsNameStart(version)
    ensures PackageOf("x==" + [version]) == Some("x")
  {
    var line := "x==" + [version];
    assert line == ['x', '=', '=', version];
    NameLengthIs(line, 1);
    assert line[..1] == ['x'] && line[1..] == ['=', '=', version];
    OneLetter();
    assert TrimLeft(line[1..]) == line[1..] && line[1..][0] == '=' && line[1..][1] == '=';
  }

  lemma OneLetter()
    ensures Normalise(['x']) == "x"
  {
    assert ['x'][1..] == [] && Normalise([]) == "";
  }

  /** A lock file pinning x to a version, and nothing else. */
  lemma OneVersion(version: char, line: string) returns (file: string)
    requires '0' <= version <= '9' && line == "x==" + [version]
    ensures Only(file, "x", line)
  {
    OnePackage(version);
    assert line == ['x', '=', '=', version];
    OneBlock(line, "x");
    file := Render([], [("x", line)]);
    OnlyOne(file, "x", line);
  }

  /** A resolver that keeps to its constraints, but pins a package nothing asks for. */
  function Careless(one: string, two: string): Resolver {
    (inputs: seq<string>, constraints: Option<string>) =>
      if constraints.None? then Success("")
      else if inputs == ["base", "p"] then Success(one)
      else if inputs == ["base", "q"] then Success(two)
      else Success("")
  }

  lemma NothingInEmpty()
    ensures BlocksOf("") == Success([]) && forall name :: PinIn("", name).None?
  {
  }

  lemma OnlyKeeps(text: string, pin: string, constraints: string)
    requires Only(text, "x", pin) && PinIn(constraints, "x").None?
    ensures Agrees(text, constraints)
  {
  }

  lemma CarelessHonours(one: string, two: string, a: string, b: string, constraints: string)
    requires Only(one, "x", a) && Only(two, "x", b) && PinIn(constraints, "x").None?
    ensures Honours(Careless(one, two), constraints)
  {
    OnlyKeeps(one, a, constraints);
    OnlyKeeps(two, b, constraints);
    EmptyKeeps(constraints);
    CarelessKeeps(one, two, constraints);
  }

  lemma EmptyKeeps(constraints: string)
    ensures Agrees("", constraints)
  {
    NothingInEmpty();
  }

  lemma CarelessKeeps(one: string, two: string, constraints: string)
    requires Agrees(one, constraints) && Agrees(two, constraints) && Agrees("", constraints)
    ensures Honours(Careless(one, two), constraints)
  {
    forall inputs
      ensures Keeps(Careless(one, two)(inputs, Some(constraints)), constraints)
    {
      assert Careless(one, two)(inputs, Some(constraints)).value in {one, two, ""};
    }
  }

  lemma CarelessAddon(resolve: Resolver, constraints: string, addon: string, file: string)
    requires resolve(["base", addon], Some(constraints)) == Success(file) && BlocksOf(file).Success?
    ensures AddonMade(resolve, constraints, addon, file, "")
  {
    NothingInEmpty();
  }

  lemma NoConstraints()
    ensures BlocksOf("") == Success([]) && PinIn(Pins([]), "x").None?
  {
    NothingInEmpty();
    PinsReadBack("");
  }

  lemma CarelessAnswers(one: string, two: string)
    ensures Careless(one, two)(["base"] + ["p", "q"], None) == Success("")
    ensures var c := Some(Pins([]));
            && Careless(one, two)(["base"], c) == Success("")
            && Careless(one, two)(["base", "p"], c) == Success(one)
            && Careless(one, two)(["base", "q"], c) == Success(two)
  {
    NoConstraints();
    assert ["base", "p"][1] != ["base", "q"][1];
  }

  lemma CarelessStack(one: string, two: string, s: Stack)
    requires BlocksOf(one).Success? && BlocksOf(two).Success?
    requires s == Stack("", "", map["p" := one, "q" := two])
    ensures StackMade(Careless(one, two), ["p", "q"], s)
  {
    var resolve, constraints := Careless(one, two), Pins([]);
    NoConstraints();
    CarelessAnswers(one, two);
    CarelessAddon(resolve, constraints, "p", one);
    CarelessAddon(resolve, constraints, "q", two);
    assert BaseMade(resolve, constraints, "");
    assert s.addons.Keys == {"p", "q"};
  }

  /** Keeping to the constraints is not enough: this resolver does, and two add-ons pin a
      package differently. It is no dependency resolver, whatever the packages require:
      the clash needs a package that leads out of the joint lock. */
  lemma OutsideTheJointLockVersionsCanClash() returns (resolve: Resolver, s: Stack)
    ensures StackMade(resolve, ["p", "q"], s) && HonoursStack(resolve, s) && s.addons.Keys == {"p", "q"}
    ensures PinIn(s.addons["p"], "x") == Some("x==1") && PinIn(s.addons["q"], "x") == Some("x==2")
    ensures forall index :: !Dependable(resolve, index, s)
  {
    var one := OneVersion('1', "x==1");
    var two := OneVersion('2', "x==2");
    resolve, s := Careless(one, two), Stack("", "", map["p" := one, "q" := two]);
    ClashingFiles(one, two, s);
    CarelessClash(one, two, s);
  }

  lemma ClashingFiles(one: string, two: string, s: Stack)
    requires s == Stack("", "", map["p" := one, "q" := two])
    ensures s.addons.Keys == {"p", "q"} && s.addons["p"] == one && s.addons["q"] == two
    ensures one in Files(s) && s.joint == ""
  {
    assert s.addons["p"] in s.addons.Values;
  }

  lemma CarelessClash(one: string, two: string, s: Stack)
    requires Only(one, "x", "x==1") && Only(two, "x", "x==2")
    requires s == Stack("", "", map["p" := one, "q" := two])
    ensures StackMade(Careless(one, two), ["p", "q"], s) && HonoursStack(Careless(one, two), s)
    ensures forall index :: !Dependable(Careless(one, two), index, s)
  {
    ClashingFiles(one, two, s);
    CarelessStack(one, two, s);
    CarelessIsHonest(one, two, s);
    NothingInEmpty();
    NeverDependable(Careless(one, two), s, one);
  }

  lemma CarelessIsHonest(one: string, two: string, s: Stack)
    requires Only(one, "x", "x==1") && Only(two, "x", "x==2") && s.joint == ""
    ensures HonoursStack(Careless(one, two), s)
  {
    NoConstraints();
    CarelessHonours(one, two, "x==1", "x==2", Pins([]));
  }

  lemma NeverDependable(resolve: Resolver, s: Stack, one: string)
    requires StackMade(resolve, ["p", "q"], s) && HonoursStack(resolve, s) && one in Files(s)
    requires PinIn(one, "x").Some? && PinIn(s.joint, "x").None?
    ensures forall index :: !Dependable(resolve, index, s)
  {
    forall index
      ensures !Dependable(resolve, index, s)
    {
      NotDependable(resolve, index, ["p", "q"], s, one, "x");
    }
  }

  lemma NotDependable(resolve: Resolver, index: Index, names: seq<string>, s: Stack, file: string, name: string)
    requires StackMade(resolve, names, s) && HonoursStack(resolve, s) && file in Files(s)
    requires PinIn(file, name).Some? && PinIn(s.joint, name).None?
    ensures !Dependable(resolve, index, s)
  {
    if Dependable(resolve, index, s) {
      FilesAreWithin(resolve, index, names, s, file);
    }
  }
}
