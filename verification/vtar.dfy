/** services/vtar.py: a tar archive described as segments instead of written to
    disk, and the bytes any range of it yields. */
module Vtar {
  import opened Streams
  import Splitting

  const BLOCK: nat := 512

  /** The files on disk, by path. */
  type Files = map<string, Bytes>

  datatype Kind = Directory | Regular

  /** What tarfile's TarInfo.tobuf gives for one member. */
  type Header = (Kind, string, nat) -> Bytes

  datatype Entry = Entry(name: string, size: nat)

  datatype Source = Inline(data: Bytes) | FromFile(path: string)

  datatype Segment = Segment(offset: nat, size: nat, source: Source)

  function End(s: Segment): nat { s.offset + s.size }

  function Zeros(n: nat): (zeros: Bytes)
    ensures |zeros| == n
  {
    if n == 0 then [] else [0] + Zeros(n - 1)
  }

  /** A file's bytes at its recorded size; what it lacks stands as zeros here and
      is never served: Read fails instead. */
  function Fit(content: Bytes, size: nat): (fitted: Bytes)
    ensures |fitted| == size
    ensures size <= |content| ==> fitted == content[..size]
  {
    if size <= |content| then content[..size] else content + Zeros(size - |content|)
  }

  function OnDisk(files: Files, path: string): Bytes { if path in files then files[path] else [] }

  function SegmentBytes(s: Segment, files: Files): (bytes: Bytes)
    requires s.source.Inline? ==> |s.source.data| == s.size
    ensures |bytes| == s.size
  {
    match s.source
    case Inline(data) => data
    case FromFile(path) => Fit(OnDisk(files, path), s.size)
  }

  lemma Reassociate(a: Bytes, b: Bytes, c: Bytes, d: Bytes)
    ensures a + b + c + d == a + (b + c + d)
    ensures d == [] ==> a + b + c == a + (b + c + d)
  {
  }

  // ---------------------------------------------------- the segment list

  ghost predicate Placed(segments: seq<Segment>, i: nat)
    requires i < |segments|
  {
    && segments[i].offset == (if i == 0 then 0 else End(segments[i - 1]))
    && (segments[i].source.Inline? ==> |segments[i].source.data| == segments[i].size)
  }

  /** Each segment starts where the one before it ends, and inline data has the recorded size. */
  ghost predicate Contiguous(segments: seq<Segment>) {
    forall i: nat :: i < |segments| ==> Placed(segments, i)
  }

  function TotalSize(segments: seq<Segment>): nat {
    if segments == [] then 0 else End(segments[|segments| - 1])
  }

  /** Where segment i starts, or the archive ends. */
  function Position(segments: seq<Segment>, i: nat): nat
    requires i <= |segments|
  {
    if i == |segments| then TotalSize(segments) else segments[i].offset
  }

  ghost predicate AreBlocks(blocks: seq<Bytes>, segments: seq<Segment>, files: Files)
    requires Contiguous(segments)
  {
    |blocks| == |segments| && forall i: nat :: i < |segments| ==> IsBlock(blocks[i], segments, i, files)
  }

  ghost predicate IsBlock(block: Bytes, segments: seq<Segment>, i: nat, files: Files)
    requires Contiguous(segments) && i < |segments|
  {
    Placed(segments, i) && block == SegmentBytes(segments[i], files)
  }

  /** The bytes of each segment. */
  ghost function Blocks(segments: seq<Segment>, files: Files): (blocks: seq<Bytes>)
    requires Contiguous(segments)
    ensures AreBlocks(blocks, segments, files)
  {
    seq(|segments|, i requires 0 <= i < |segments| => assert Placed(segments, i); SegmentBytes(segments[i], files))
  }

  lemma PositionNext(segments: seq<Segment>, i: nat)
    requires Contiguous(segments) && i <= |segments|
    ensures Position(segments, 0) == 0
    ensures i < |segments| ==> Position(segments, i) == segments[i].offset
                               && Position(segments, i + 1) == End(segments[i])
  {
    assert segments != [] ==> Placed(segments, 0);
    assert i + 1 < |segments| ==> Placed(segments, i + 1);
  }

  lemma BlockLength(segments: seq<Segment>, files: Files, blocks: seq<Bytes>, i: nat)
    requires Contiguous(segments) && AreBlocks(blocks, segments, files) && i < |segments|
    ensures |blocks[i]| == segments[i].size
  {
    assert IsBlock(blocks[i], segments, i, files);
  }

  /** Contiguity is what makes a segment's recorded offset its true position. */
  lemma {:induction false} PositionIsLength(segments: seq<Segment>, files: Files, blocks: seq<Bytes>, k: nat)
    requires Contiguous(segments) && AreBlocks(blocks, segments, files) && k <= |segments|
    ensures |Concat(blocks[..k])| == Position(segments, k)
  {
    if k > 0 {
      PositionIsLength(segments, files, blocks, k - 1);
      ConcatPrefix(blocks, k - 1);
      BlockLength(segments, files, blocks, k - 1);
      PositionNext(segments, k - 1);
    } else {
      PositionNext(segments, 0);
    }
  }

  lemma {:induction false} OffsetsGrow(segments: seq<Segment>, i: nat, j: nat)
    requires Contiguous(segments) && i <= j < |segments|
    ensures segments[i].offset <= segments[j].offset
  {
    if i < j {
      OffsetsGrow(segments, i, j - 1);
      assert Placed(segments, j);
    }
  }

  // ------------------------------------------------------------------ read

  /** The part of a segment inside [offset, end), as positions in the segment. */
  function StartIn(s: Segment, offset: nat): nat { Max(offset, s.offset) - s.offset }

  function StopIn(s: Segment, end: nat): nat { Max(0, Min(end, End(s)) - s.offset) }

  ghost predicate Touched(s: Segment, offset: nat, end: nat) {
    s.size > 0 && offset < End(s) && s.offset < end
  }

  /** The file behind a touched segment still has the bytes the range asks for. */
  ghost predicate Available(s: Segment, files: Files, offset: nat, end: nat) {
    Touched(s, offset, end) && s.source.FromFile? ==>
      s.source.path in files
      && (StartIn(s, offset) < StopIn(s, end) ==> StopIn(s, end) <= |files[s.source.path]|)
  }

  /** What one touched segment [p, q) of an archive adds to the range [offset, end). */
  lemma TouchedAdds(archive: Bytes, p: nat, q: nat, offset: nat, end: nat)
    requires p < q <= |archive| && offset < q && p < end <= |archive|
    ensures Window(archive, offset, Min(end, q))
         == Window(archive, offset, Min(end, p))
            + Window(archive[p..q], Max(offset, p) - p, Min(end, q) - p)
  {
    var stop := Min(end, q);
    if offset >= p && offset < stop {
      SliceOfSlice(archive, p, q, offset - p, stop - p);
    } else if offset < p {
      SliceOfSlice(archive, p, q, 0, stop - p);
      WindowSplit(archive, offset, p, stop);
    }
  }

  lemma UntouchedAdds(archive: Bytes, p: nat, q: nat, offset: nat, end: nat)
    requires p <= q && (q <= offset || p == q)
    ensures Window(archive, offset, Min(end, q)) == Window(archive, offset, Min(end, p))
  {
  }

  lemma FitServes(content: Bytes, size: nat, start: nat, stop: nat)
    requires stop <= size && (start < stop ==> stop <= |content|)
    ensures Window(content, start, stop) == Window(Fit(content, size), start, stop)
  {
  }

  lemma FitFallsShort(content: Bytes, size: nat, start: nat, stop: nat)
    requires stop <= size && |content| < stop
    ensures Window(content, start, stop) <= Window(Fit(content, size), start, stop)
  {
  }

  /** One segment of Layout.read that the range touches. */
  method ReadSegment(s: Segment, files: Files, offset: nat, end: nat) returns (chunks: seq<Bytes>, ok: bool)
    requires s.source.Inline? ==> |s.source.data| == s.size
    requires Touched(s, offset, end)
    ensures ok <==> Available(s, files, offset, end)
    ensures ok ==> Concat(chunks) == Window(SegmentBytes(s, files), StartIn(s, offset), StopIn(s, end))
    ensures !ok ==> Concat(chunks) <= Window(SegmentBytes(s, files), StartIn(s, offset), StopIn(s, end))
  {
    var start, stop := StartIn(s, offset), StopIn(s, end);
    match s.source
    case Inline(data) =>
      chunks, ok := [Window(data, start, stop)], true;
      ConcatSnoc([], Window(data, start, stop));
    case FromFile(path) =>
      if path !in files {
        return [], false;
      }
      chunks, ok := Splitting.ReadChunks(files[path], start, if start < stop then stop - start else 0);
      if ok {
        FitServes(files[path], s.size, start, stop);
      } else {
        FitFallsShort(files[path], s.size, start, stop);
      }
  }

  datatype Layout = Layout(segments: seq<Segment>, size: nat)

  ghost predicate ValidLayout(lay: Layout) {
    Contiguous(lay.segments) && lay.size == TotalSize(lay.segments)
  }

  /** Every byte of the archive a layout describes. */
  ghost function Archive(lay: Layout, files: Files): Bytes
    requires ValidLayout(lay)
  {
    Concat(Blocks(lay.segments, files))
  }

  lemma ArchiveLength(lay: Layout, files: Files)
    requires ValidLayout(lay)
    ensures |Archive(lay, files)| == lay.size
  {
    var blocks := Blocks(lay.segments, files);
    PositionIsLength(lay.segments, files, blocks, |blocks|);
    TakeAll(blocks);
  }

  function ReadEnd(lay: Layout, offset: nat, length: Option<nat>): nat {
    if length.None? then lay.size else Min(lay.size, offset + length.value)
  }

  /** A range past the end is cut off at the end. */
  lemma ReadEndWindow(lay: Layout, files: Files, offset: nat, length: nat)
    requires ValidLayout(lay)
    ensures Window(Archive(lay, files), offset, ReadEnd(lay, offset, Some(length)))
         == Window(Archive(lay, files), offset, offset + length)
  {
    ArchiveLength(lay, files);
    WindowClip(Archive(lay, files), offset, offset + length);
  }

  /** The chunks are what the range [offset, end) takes from the first `position` bytes. */
  ghost predicate Covers(chunks: seq<Bytes>, archive: Bytes, offset: nat, end: nat, position: nat) {
    Concat(chunks) == Window(archive, offset, Min(end, position))
  }

  lemma AtSegment(lay: Layout, files: Files, i: nat)
    requires ValidLayout(lay) && i < |lay.segments|
    ensures Placed(lay.segments, i) && Position(lay.segments, i + 1) == End(lay.segments[i])
    ensures |Archive(lay, files)| == lay.size && End(lay.segments[i]) <= lay.size
  {
    var blocks := Blocks(lay.segments, files);
    assert IsBlock(blocks[i], lay.segments, i, files);
    assert i + 1 < |lay.segments| ==> Placed(lay.segments, i + 1);
    PositionIsLength(lay.segments, files, blocks, i);
    ConcatAt(blocks, i);
    ArchiveLength(lay, files);
  }

  lemma BytesAtSegment(lay: Layout, files: Files, i: nat, start: nat, stop: nat)
    requires ValidLayout(lay) && i < |lay.segments| && Placed(lay.segments, i)
    requires start == lay.segments[i].offset && stop == End(lay.segments[i]) <= |Archive(lay, files)|
    ensures Archive(lay, files)[start..stop] == SegmentBytes(lay.segments[i], files)
  {
    var blocks := Blocks(lay.segments, files);
    assert IsBlock(blocks[i], lay.segments, i, files);
    PositionIsLength(lay.segments, files, blocks, i);
    ConcatAt(blocks, i);
  }

  lemma SkipStep(lay: Layout, files: Files, i: nat, chunks: seq<Bytes>, offset: nat, end: nat)
    requires ValidLayout(lay) && i < |lay.segments|
    requires End(lay.segments[i]) <= offset || lay.segments[i].size == 0
    requires Covers(chunks, Archive(lay, files), offset, end, Position(lay.segments, i))
    ensures Covers(chunks, Archive(lay, files), offset, end, Position(lay.segments, i + 1))
  {
    AtSegment(lay, files, i);
    UntouchedAdds(Archive(lay, files), lay.segments[i].offset, End(lay.segments[i]), offset, end);
  }

  lemma BreakStep(lay: Layout, files: Files, i: nat, chunks: seq<Bytes>, offset: nat, end: nat)
    requires ValidLayout(lay) && i < |lay.segments| && end <= lay.segments[i].offset
    requires Covers(chunks, Archive(lay, files), offset, end, Position(lay.segments, i))
    requires end <= lay.size
    ensures Concat(chunks) == Window(Archive(lay, files), offset, end)
    ensures forall j: nat :: i <= j < |lay.segments| ==> Available(lay.segments[j], files, offset, end)
  {
    AtSegment(lay, files, i);
    forall j: nat | i <= j < |lay.segments| ensures Available(lay.segments[j], files, offset, end) {
      OffsetsGrow(lay.segments, i, j);
    }
  }

  lemma CoversMore(chunks: seq<Bytes>, more: seq<Bytes>, archive: Bytes, offset: nat, end: nat, p: nat, q: nat)
    requires p < q <= |archive| && offset < q && p < end <= |archive|
    requires Covers(chunks, archive, offset, end, p)
    requires Concat(more) == Window(archive[p..q], Max(offset, p) - p, Min(end, q) - p)
    ensures Covers(chunks + more, archive, offset, end, q)
  {
    ConcatBoth(chunks, more);
    TouchedAdds(archive, p, q, offset, end);
  }

  lemma TouchStep(lay: Layout, files: Files, i: nat, chunks: seq<Bytes>, more: seq<Bytes>, offset: nat, end: nat)
    requires ValidLayout(lay) && i < |lay.segments| && end <= lay.size
    requires Touched(lay.segments[i], offset, end) && Placed(lay.segments, i)
    requires Covers(chunks, Archive(lay, files), offset, end, Position(lay.segments, i))
    requires Concat(more) == Window(SegmentBytes(lay.segments[i], files),
                                    StartIn(lay.segments[i], offset), StopIn(lay.segments[i], end))
    ensures Covers(chunks + more, Archive(lay, files), offset, end, Position(lay.segments, i + 1))
  {
    SegmentPlace(lay, files, i);
    CoversSegment(chunks, more, Archive(lay, files), lay.segments[i], SegmentBytes(lay.segments[i], files), offset,
                  end);
  }

  /** Where a segment is in the archive, and what is there. */
  lemma SegmentPlace(lay: Layout, files: Files, i: nat)
    requires ValidLayout(lay) && i < |lay.segments| && Placed(lay.segments, i)
    ensures var s := lay.segments[i];
            && Position(lay.segments, i) == s.offset && Position(lay.segments, i + 1) == End(s)
            && End(s) <= |Archive(lay, files)| == lay.size
            && Archive(lay, files)[s.offset..End(s)] == SegmentBytes(s, files)
  {
    AtSegment(lay, files, i);
    BytesAtSegment(lay, files, i, lay.segments[i].offset, End(lay.segments[i]));
  }

  lemma CoversSegment(chunks: seq<Bytes>, more: seq<Bytes>, archive: Bytes, s: Segment, bytes: Bytes,
                      offset: nat, end: nat)
    requires End(s) <= |archive| && archive[s.offset..End(s)] == bytes
    requires Touched(s, offset, end) && end <= |archive|
    requires Covers(chunks, archive, offset, end, s.offset)
    requires Concat(more) == Window(bytes, StartIn(s, offset), StopIn(s, end))
    ensures Covers(chunks + more, archive, offset, end, End(s))
  {
    CoversMore(chunks, more, archive, offset, end, s.offset, End(s));
  }

  lemma FailStep(lay: Layout, files: Files, i: nat, chunks: seq<Bytes>, more: seq<Bytes>, offset: nat, end: nat)
    requires ValidLayout(lay) && i < |lay.segments| && end <= lay.size
    requires Touched(lay.segments[i], offset, end) && Placed(lay.segments, i)
    requires Covers(chunks, Archive(lay, files), offset, end, Position(lay.segments, i))
    requires Concat(more) <= Window(SegmentBytes(lay.segments[i], files),
                                    StartIn(lay.segments[i], offset), StopIn(lay.segments[i], end))
    ensures Concat(chunks + more) <= Window(Archive(lay, files), offset, end)
  {
    var s, archive := lay.segments[i], Archive(lay, files);
    var full := Window(SegmentBytes(s, files), StartIn(s, offset), StopIn(s, end));
    ConcatSnoc([], full);
    TouchStep(lay, files, i, chunks, [full], offset, end);
    ConcatBoth(chunks, [full]);
    ConcatBoth(chunks, more);
    AtSegment(lay, files, i);
    WindowStarts(archive, offset, Min(end, End(s)), end);
    PrefixWithin(Concat(chunks), Concat(more), full, Window(archive, offset, end));
  }

  lemma WindowStarts(s: Bytes, lo: nat, mid: nat, hi: nat)
    requires mid <= hi
    ensures Window(s, lo, mid) <= Window(s, lo, hi)
  {
  }

  /** What the loop has read, and that it could, before segment i. */
  ghost predicate ReadUpTo(lay: Layout, files: Files, i: nat, chunks: seq<Bytes>, offset: nat, end: nat)
    requires ValidLayout(lay)
  {
    && i <= |lay.segments| && Covers(chunks, Archive(lay, files), offset, end, Position(lay.segments, i))
    && forall j: nat :: j < i ==> Available(lay.segments[j], files, offset, end)
  }

  lemma ReadSkips(lay: Layout, files: Files, i: nat, chunks: seq<Bytes>, offset: nat, end: nat)
    requires ValidLayout(lay) && i < |lay.segments| && ReadUpTo(lay, files, i, chunks, offset, end)
    requires End(lay.segments[i]) <= offset || lay.segments[i].size == 0
    ensures ReadUpTo(lay, files, i + 1, chunks, offset, end)
  {
    SkipStep(lay, files, i, chunks, offset, end);
  }

  lemma ReadTouches(lay: Layout, files: Files, i: nat, chunks: seq<Bytes>, more: seq<Bytes>, offset: nat, end: nat)
    requires ValidLayout(lay) && i < |lay.segments| && ReadUpTo(lay, files, i, chunks, offset, end)
    requires end <= lay.size && Touched(lay.segments[i], offset, end) && Placed(lay.segments, i)
    requires Available(lay.segments[i], files, offset, end)
    requires Concat(more) == Window(SegmentBytes(lay.segments[i], files),
                                    StartIn(lay.segments[i], offset), StopIn(lay.segments[i], end))
    ensures ReadUpTo(lay, files, i + 1, chunks + more, offset, end)
  {
    TouchStep(lay, files, i, chunks, more, offset, end);
  }

  lemma ReadEnds(lay: Layout, files: Files, chunks: seq<Bytes>, offset: nat, end: nat)
    requires ValidLayout(lay) && end <= lay.size
    requires ReadUpTo(lay, files, |lay.segments|, chunks, offset, end)
    ensures Concat(chunks) == Window(Archive(lay, files), offset, end)
    ensures forall i: nat :: i < |lay.segments| ==> Available(lay.segments[i], files, offset, end)
  {
  }

  /** Layout.read: the chunks of [offset, offset + length), or an error after a
      prefix of them when a file the range needs is gone or too short. */
  method Read(lay: Layout, files: Files, offset: nat, length: Option<nat>) returns (chunks: seq<Bytes>, ok: bool)
    requires ValidLayout(lay)
    ensures ok <==> forall i: nat :: i < |lay.segments| ==>
                      Available(lay.segments[i], files, offset, ReadEnd(lay, offset, length))
    ensures ok ==> Concat(chunks) == Window(Archive(lay, files), offset, ReadEnd(lay, offset, length))
    ensures !ok ==> Concat(chunks) <= Window(Archive(lay, files), offset, ReadEnd(lay, offset, length))
  {
    var end := ReadEnd(lay, offset, length);
    chunks := [];
    PositionNext(lay.segments, 0);
    var i := 0;
    while i < |lay.segments|
      invariant ReadUpTo(lay, files, i, chunks, offset, end)
    {
      var s := lay.segments[i];
      assert Placed(lay.segments, i);
      if End(s) <= offset || s.size == 0 {
        ReadSkips(lay, files, i, chunks, offset, end);
        i := i + 1;
        continue;
      }
      if s.offset >= end {
        BreakStep(lay, files, i, chunks, offset, end);
        return chunks, true;
      }
      var more, good := ReadSegment(s, files, offset, end);
      if !good {
        FailStep(lay, files, i, chunks, more, offset, end);
        return chunks + more, false;
      }
      ReadTouches(lay, files, i, chunks, more, offset, end);
      chunks := chunks + more;
      i := i + 1;
    }
    ReadEnds(lay, files, chunks, offset, end);
    ok := true;
  }

  lemma PrefixWithin(a: Bytes, b: Bytes, c: Bytes, whole: Bytes)
    requires b <= c && a + c <= whole
    ensures a + b <= whole
  {
    assert whole[..|a| + |c|] == a + c;
  }

  // ---------------------------------------------------------------- layout

  /** (-size) % BLOCK */
  function Padding(size: nat): (pad: nat)
    ensures pad < BLOCK && (size + pad) % BLOCK == 0
  {
    var over := size % BLOCK;
    assert size == BLOCK * (size / BLOCK) + over;
    if over == 0 then 0
    else
      assert size + (BLOCK - over) == BLOCK * (size / BLOCK + 1);
      BLOCK - over
  }

  function Join(folder: string, name: string): string { folder + "/" + name }

  /** Files of one folder have one path each. */
  lemma JoinTellsApart(folder: string, a: string, b: string)
    ensures Join(folder, a)[..|folder|] == folder && Join(folder, a)[|folder|] == '/'
    ensures Join(folder, a)[|folder| + 1..] == a
    ensures Join(folder, a) == Join(folder, b) ==> a == b
  {
    assert Join(folder, b)[|folder| + 1..] == b;
  }

  /** One regular file of the archive: header, contents at the recorded size, zeros up to a block. */
  function Member(header: Header, files: Files, folder: string, top: string, e: Entry): Bytes {
    header(Regular, Join(top, e.name), e.size) + Fit(OnDisk(files, Join(folder, e.name)), e.size)
      + Zeros(Padding(e.size))
  }

  function Members(header: Header, files: Files, folder: string, top: string, entries: seq<Entry>): Bytes {
    if entries == [] then []
    else Member(header, files, folder, top, entries[0]) + Members(header, files, folder, top, entries[1..])
  }

  /** The archive of `top/` and the entries, as POSIX describes one: members, then two zero blocks. */
  function TarStream(header: Header, files: Files, folder: string, top: string, entries: seq<Entry>): Bytes {
    header(Directory, top + "/", 0) + Members(header, files, folder, top, entries) + Zeros(2 * BLOCK)
  }

  lemma {:induction false} MembersSnoc(header: Header, files: Files, folder: string, top: string,
                                       entries: seq<Entry>, k: nat)
    requires k < |entries|
    ensures Members(header, files, folder, top, entries[..k + 1])
         == Members(header, files, folder, top, entries[..k]) + Member(header, files, folder, top, entries[k])
  {
    var first, rest := entries[0], entries[1..];
    if k == 0 {
      assert entries[..0] == [] && entries[..1] == [first] + [];
      MembersCons(header, files, folder, top, first, []);
    } else {
      MembersSnoc(header, files, folder, top, rest, k - 1);
      TakeRest(entries, k);
      TakeRest(entries, k + 1);
      MembersCons(header, files, folder, top, first, rest[..k - 1]);
      MembersCons(header, files, folder, top, first, rest[..k]);
      Associate(Member(header, files, folder, top, first), Members(header, files, folder, top, rest[..k - 1]),
                Member(header, files, folder, top, rest[k - 1]));
    }
  }

  lemma TakeRest(entries: seq<Entry>, k: nat)
    requires 0 < k <= |entries|
    ensures entries[..k] == [entries[0]] + entries[1..][..k - 1]
  {
  }

  lemma MembersCons(header: Header, files: Files, folder: string, top: string, first: Entry, rest: seq<Entry>)
    ensures Members(header, files, folder, top, [first] + rest)
         == Member(header, files, folder, top, first) + Members(header, files, folder, top, rest)
  {
    assert ([first] + rest)[1..] == rest;
  }

  /** What the segments describe when they describe `image`. */
  ghost predicate Describes(segments: seq<Segment>, position: nat, files: Files, image: Bytes) {
    Contiguous(segments) && position == TotalSize(segments) && Concat(Blocks(segments, files)) == image
  }

  /** Every file segment is backed by a file that has the recorded bytes. */
  ghost predicate Backed(segments: seq<Segment>, files: Files) {
    forall i: nat :: i < |segments| ==> BackedBy(segments[i].source, segments[i].size, files)
  }

  ghost predicate BackedBy(source: Source, size: nat, files: Files) {
    source.FromFile? ==> source.path in files && size <= |files[source.path]|
  }

  /** The recorded files are on disk with at least their recorded sizes. */
  ghost predicate Present(files: Files, folder: string, entries: seq<Entry>) {
    forall i: nat :: i < |entries| ==>
      BackedBy(FromFile(Join(folder, entries[i].name)), entries[i].size, files)
  }

  lemma BackedIsAvailable(segments: seq<Segment>, files: Files, offset: nat, end: nat)
    requires Backed(segments, files)
    ensures forall i: nat :: i < |segments| ==> Available(segments[i], files, offset, end)
  {
    forall i: nat | i < |segments| ensures Available(segments[i], files, offset, end) {
      assert BackedBy(segments[i].source, segments[i].size, files);
    }
  }

  lemma AddKeepsContiguous(segments: seq<Segment>, s: Segment)
    requires Contiguous(segments) && s.offset == TotalSize(segments)
    requires s.source.Inline? ==> |s.source.data| == s.size
    ensures Contiguous(segments + [s])
  {
    var longer := segments + [s];
    forall i: nat | i < |longer| ensures Placed(longer, i) {
      if i < |segments| {
        assert Placed(segments, i);
      }
    }
  }

  lemma AddBlock(segments: seq<Segment>, s: Segment, files: Files)
    requires Contiguous(segments) && Contiguous(segments + [s])
    requires s.source.Inline? ==> |s.source.data| == s.size
    ensures Concat(Blocks(segments + [s], files)) == Concat(Blocks(segments, files)) + SegmentBytes(s, files)
  {
    var longer, blocks := Blocks(segments + [s], files), Blocks(segments, files);
    forall i: nat | i < |longer| ensures longer[i] == (blocks + [SegmentBytes(s, files)])[i] {
      assert IsBlock(longer[i], segments + [s], i, files);
      if i < |segments| {
        assert IsBlock(blocks[i], segments, i, files);
      }
    }
    assert longer == blocks + [SegmentBytes(s, files)];
    ConcatSnoc(blocks, SegmentBytes(s, files));
  }

  /** layout's local add() */
  method Add(segments: seq<Segment>, position: nat, size: nat, source: Source,
             ghost files: Files, ghost image: Bytes)
    returns (longer: seq<Segment>, next: nat)
    requires Describes(segments, position, files, image)
    requires source.Inline? ==> |source.data| == size
    ensures Describes(longer, next, files, image + SegmentBytes(Segment(position, size, source), files))
    ensures Backed(segments, files) && BackedBy(source, size, files) ==> Backed(longer, files)
  {
    var s := Segment(position, size, source);
    AddKeepsContiguous(segments, s);
    longer, next := segments + [s], position + size;
    AddBlock(segments, s, files);
  }

  /** layout: the directory, each file with its header and padding, the end of the
      archive. What it describes is the tar stream, whatever is on disk. */
  method MakeLayout(header: Header, folder: string, top: string, entries: seq<Entry>, ghost files: Files)
    returns (lay: Layout)
    ensures ValidLayout(lay)
    ensures Archive(lay, files) == TarStream(header, files, folder, top, entries)
    ensures Present(files, folder, entries) ==> Backed(lay.segments, files)
  {
    var head := header(Directory, top + "/", 0);
    var segments, position := Add([], 0, |head|, Inline(head), files, []);
    ghost var image := head;
    assert Describes(segments, position, files, image);
    for k := 0 to |entries|
      invariant Describes(segments, position, files, head + Members(header, files, folder, top, entries[..k]))
      invariant Present(files, folder, entries) ==> Backed(segments, files)
    {
      segments, position := AddMember(header, folder, top, entries[k], segments, position, files,
                                      head + Members(header, files, folder, top, entries[..k]));
      MembersSnoc(header, files, folder, top, entries, k);
      Associate(head, Members(header, files, folder, top, entries[..k]),
                Member(header, files, folder, top, entries[k]));
    }
    assert entries[..|entries|] == entries;
    segments, position := Add(segments, position, 2 * BLOCK, Inline(Zeros(2 * BLOCK)), files,
                              head + Members(header, files, folder, top, entries));
    lay := Layout(segments, TotalSize(segments));
  }

  method AddMember(header: Header, folder: string, top: string, e: Entry,
                   before: seq<Segment>, start: nat, ghost files: Files, ghost image: Bytes)
    returns (segments: seq<Segment>, position: nat)
    requires Describes(before, start, files, image)
    ensures Describes(segments, position, files, image + Member(header, files, folder, top, e))
    ensures Backed(before, files) && BackedBy(FromFile(Join(folder, e.name)), e.size, files) ==> Backed(segments, files)
  {
    var head := header(Regular, Join(top, e.name), e.size);
    segments, position := Add(before, start, |head|, Inline(head), files, image);
    segments, position := Add(segments, position, e.size, FromFile(Join(folder, e.name)), files, image + head);
    ghost var body := Fit(OnDisk(files, Join(folder, e.name)), e.size);
    var padding := Padding(e.size);
    if padding != 0 {
      segments, position := Add(segments, position, padding, Inline(Zeros(padding)), files, image + head + body);
    }
    Reassociate(image, head, body, Zeros(padding));
  }

  // ------------------------------------------------------------- unpacking

  /** What a reader finds in a header: the member and how long its header is. */
  datatype Found = Found(kind: Kind, name: string, size: nat, headerLength: nat)

  type Decode = Bytes -> Option<Found>

  /** One header of a stream: whole blocks, never taken for the end of the archive, and
      read back whatever follows. A reader may name the member its own way. */
  ghost predicate HeaderOk(head: Bytes, decode: Decode, kind: Kind, readAs: string, size: nat) {
    && |head| > 0 && |head| % BLOCK == 0 && head[..BLOCK] != Zeros(BLOCK)
    && forall rest :: decode(head + rest) == Some(Found(kind, readAs, size, |head|))
  }

  ghost predicate MemberHeaderOk(header: Header, decode: Decode, top: string, e: Entry) {
    HeaderOk(header(Regular, Join(top, e.name), e.size), decode, Regular, Join(top, e.name), e.size)
  }

  /** What tarfile's headers keep with a reader of the format, for the members of one
      stream; the folder's name is read with or without its slash. */
  ghost predicate HeadersOk(header: Header, decode: Decode, top: string, readAs: string, entries: seq<Entry>) {
    && HeaderOk(header(Directory, top + "/", 0), decode, Directory, readAs, 0)
    && forall i: nat :: i < |entries| ==> MemberHeaderOk(header, decode, top, entries[i])
  }

  datatype Unpacked = Unpacked(kind: Kind, name: string, content: Bytes)

  /** A tar reader: a zero block ends the archive; anything else must be a header
      followed by its contents and padding. */
  function Unpack(decode: Decode, archive: Bytes): Option<seq<Unpacked>>
    decreases |archive|
  {
    if |archive| < BLOCK then None
    else if archive[..BLOCK] == Zeros(BLOCK) then Some([])
    else match decode(archive)
      case None => None
      case Some(found) =>
        var next := found.headerLength + found.size + Padding(found.size);
        if found.headerLength == 0 || next > |archive| then None
        else match Unpack(decode, archive[next..])
          case None => None
          case Some(rest) =>
            Some([Unpacked(found.kind, found.name,
                           archive[found.headerLength..found.headerLength + found.size])] + rest)
  }

  lemma MemberPieces(head: Bytes, content: Bytes, pad: Bytes, tail: Bytes, archive: Bytes, n: nat)
    requires archive == head + content + pad + tail && n <= |head|
    ensures archive[..n] == head[..n]
    ensures archive[|head| + |content| + |pad|..] == tail
  {
    Reassociate(head, content, pad, tail);
  }

  lemma MemberContent(head: Bytes, content: Bytes, pad: Bytes, tail: Bytes, archive: Bytes)
    requires archive == head + content + pad + tail
    ensures archive[|head|..|head| + |content|] == content
  {
    SliceOfPrefix(head, content, archive);
  }

  /** Reading one member off the front of an archive. */
  lemma UnpackMember(decode: Decode, kind: Kind, name: string, head: Bytes, content: Bytes, pad: Bytes, tail: Bytes,
                     archive: Bytes, rest: seq<Unpacked>)
    requires archive == head + content + pad + tail && |pad| == Padding(|content|)
    requires |head| >= BLOCK && head[..BLOCK] != Zeros(BLOCK)
    requires decode(archive) == Some(Found(kind, name, |content|, |head|))
    requires Unpack(decode, tail) == Some(rest)
    ensures Unpack(decode, archive) == Some([Unpacked(kind, name, content)] + rest)
  {
    MemberPieces(head, content, pad, tail, archive, BLOCK);
    MemberContent(head, content, pad, tail, archive);
    UnpackOne(decode, archive, Found(kind, name, |content|, |head|), |head| + |content| + |pad|, content, tail, rest);
  }

  lemma UnpackOne(decode: Decode, archive: Bytes, found: Found, next: nat, content: Bytes, tail: Bytes,
                  rest: seq<Unpacked>)
    requires |archive| >= BLOCK && archive[..BLOCK] != Zeros(BLOCK) && decode(archive) == Some(found)
    requires 0 < found.headerLength && next == found.headerLength + found.size + Padding(found.size) <= |archive|
    requires archive[next..] == tail && Unpack(decode, tail) == Some(rest)
    requires archive[found.headerLength..found.headerLength + found.size] == content
    ensures Unpack(decode, archive) == Some([Unpacked(found.kind, found.name, content)] + rest)
  {
  }

  lemma UnpackHeader(decode: Decode, kind: Kind, name: string, head: Bytes, content: Bytes, tail: Bytes,
                     rest: seq<Unpacked>, archive: Bytes)
    requires HeaderOk(head, decode, kind, name, |content|) && Unpack(decode, tail) == Some(rest)
    requires archive == head + content + Zeros(Padding(|content|)) + tail
    ensures Unpack(decode, archive) == Some([Unpacked(kind, name, content)] + rest)
  {
    var pad := Zeros(Padding(|content|));
    Reassociate(head, content, pad, tail);
    assert decode(head + (content + pad + tail)) == Some(Found(kind, name, |content|, |head|));
    UnpackMember(decode, kind, name, head, content, pad, tail, archive, rest);
  }

  /** The listed names and contents, in the listed order. */
  function Listing(files: Files, folder: string, top: string, entries: seq<Entry>): seq<Unpacked> {
    if entries == [] then []
    else [Unpacked(Regular, Join(top, entries[0].name),
                   Fit(OnDisk(files, Join(folder, entries[0].name)), entries[0].size))]
         + Listing(files, folder, top, entries[1..])
  }

  lemma {:induction false} UnpackMembers(header: Header, decode: Decode, files: Files, folder: string, top: string,
                                         entries: seq<Entry>)
    requires forall i: nat :: i < |entries| ==> MemberHeaderOk(header, decode, top, entries[i])
    ensures Unpack(decode, Members(header, files, folder, top, entries) + Zeros(2 * BLOCK))
         == Some(Listing(files, folder, top, entries))
  {
    if entries == [] {
      ZeroBlocks(BLOCK);
      assert [] + Zeros(2 * BLOCK) == Zeros(2 * BLOCK);
    } else {
      var e, rest := entries[0], entries[1..];
      UnpackMembers(header, decode, files, folder, top, rest);
      Associate(Member(header, files, folder, top, e), Members(header, files, folder, top, rest), Zeros(2 * BLOCK));
      var content := Fit(OnDisk(files, Join(folder, e.name)), e.size);
      assert MemberHeaderOk(header, decode, top, entries[0]);
      UnpackHeader(decode, Regular, Join(top, e.name), header(Regular, Join(top, e.name), e.size), content,
                   Members(header, files, folder, top, rest) + Zeros(2 * BLOCK),
                   Listing(files, folder, top, rest),
                   Members(header, files, folder, top, entries) + Zeros(2 * BLOCK));
    }
  }

  lemma {:induction false} ZeroBlocks(n: nat)
    ensures Zeros(2 * n)[..n] == Zeros(n)
  {
    ZerosAre(2 * n);
    ZerosAre(n);
  }

  lemma {:induction false} ZerosAre(n: nat)
    ensures forall i :: 0 <= i < n ==> Zeros(n)[i] == 0
  {
    if n > 0 {
      ZerosAre(n - 1);
    }
  }

  lemma NoPadding()
    ensures Padding(0) == 0
  {
  }

  lemma EmptyBody(head: Bytes, tail: Bytes)
    ensures head + tail == head + [] + [] + tail
  {
  }

  /** The folder entry at the front: no contents, no padding. */
  lemma UnpackFolder(decode: Decode, name: string, head: Bytes, tail: Bytes, rest: seq<Unpacked>, archive: Bytes)
    requires HeaderOk(head, decode, Directory, name, 0) && Unpack(decode, tail) == Some(rest)
    requires archive == head + tail
    ensures Unpack(decode, archive) == Some([Unpacked(Directory, name, [])] + rest)
  {
    NoPadding();
    EmptyBody(head, tail);
    UnpackMember(decode, Directory, name, head, [], [], tail, archive, rest);
  }

  /** Unpacking the tar stream gives the folder and exactly the listed files. */
  lemma TarStreamUnpacks(header: Header, decode: Decode, files: Files, folder: string, top: string, readAs: string,
                         entries: seq<Entry>)
    requires HeadersOk(header, decode, top, readAs, entries)
    ensures Unpack(decode, TarStream(header, files, folder, top, entries))
         == Some([Unpacked(Directory, readAs, [])] + Listing(files, folder, top, entries))
  {
    var members := Members(header, files, folder, top, entries);
    UnpackMembers(header, decode, files, folder, top, entries);
    Associate(header(Directory, top + "/", 0), members, Zeros(2 * BLOCK));
    UnpackFolder(decode, readAs, header(Directory, top + "/", 0), members + Zeros(2 * BLOCK),
                 Listing(files, folder, top, entries), TarStream(header, files, folder, top, entries));
  }

  // ---- The contract can be met ----

  /** A reader that knows some headers and what they say. */
  function Recognise(known: seq<(Bytes, Found)>, archive: Bytes): Option<Found> {
    if known == [] then None
    else if known[0].0 <= archive then Some(known[0].1)
    else Recognise(known[1..], archive)
  }

  /** No header goes on as another one. */
  ghost predicate SelfDelimiting(known: seq<(Bytes, Found)>) {
    forall i: nat, j: nat :: i < |known| && j < |known| && known[i].0 <= known[j].0 ==> known[i] == known[j]
  }

  lemma OnePrefixOfTheOther(a: Bytes, b: Bytes, rest: Bytes)
    requires a <= b + rest
    ensures a <= b || b <= a
  {
    var whole := b + rest;
    assert whole[..|b|] == b;
    if |a| <= |b| {
      assert b[..|a|] == whole[..|a|];
    } else {
      assert a[..|b|] == whole[..|b|];
    }
  }

  lemma {:induction false} Recognises(known: seq<(Bytes, Found)>, i: nat, rest: Bytes)
    requires SelfDelimiting(known) && i < |known|
    ensures Recognise(known, known[i].0 + rest) == Some(known[i].1)
  {
    if known[0].0 <= known[i].0 + rest {
      OnePrefixOfTheOther(known[0].0, known[i].0, rest);
    } else {
      assert i > 0 && known[1..][i - 1] == known[i];
      assert SelfDelimiting(known[1..]) by {
        assert forall k: nat :: k < |known| - 1 ==> known[1..][k] == known[k + 1];
      }
      Recognises(known[1..], i - 1, rest);
    }
  }

  /** Headers in whole non-zero blocks that end where they say have a reader: one for
      which each of them, whatever follows, is read as what it stands for. */
  lemma SomeReaderReads(known: seq<(Bytes, Found)>) returns (decode: Decode)
    requires SelfDelimiting(known)
    requires forall i: nat :: i < |known| ==>
               && |known[i].0| > 0 && |known[i].0| % BLOCK == 0 && known[i].0[..BLOCK] != Zeros(BLOCK)
               && known[i].1.headerLength == |known[i].0|
    ensures forall i: nat :: i < |known| ==>
              HeaderOk(known[i].0, decode, known[i].1.kind, known[i].1.name, known[i].1.size)
  {
    decode := (archive: Bytes) => Recognise(known, archive);
    forall i: nat | i < |known|
      ensures HeaderOk(known[i].0, decode, known[i].1.kind, known[i].1.name, known[i].1.size)
    {
      forall rest: Bytes
        ensures decode(known[i].0 + rest) == Some(known[i].1)
      {
        Recognises(known, i, rest);
      }
    }
  }

  // ---- Whole blocks ----

  lemma BlocksAdd(a: nat, b: nat)
    requires a % BLOCK == 0 && b % BLOCK == 0
    ensures (a + b) % BLOCK == 0
  {
  }

  ghost predicate HeaderIsBlocks(header: Header, top: string, e: Entry) {
    |header(Regular, Join(top, e.name), e.size)| % BLOCK == 0
  }

  lemma MemberIsBlocks(header: Header, files: Files, folder: string, top: string, e: Entry)
    requires HeaderIsBlocks(header, top, e)
    ensures |Member(header, files, folder, top, e)| % BLOCK == 0
  {
    BlocksAdd(|header(Regular, Join(top, e.name), e.size)|, e.size + Padding(e.size));
  }

  lemma {:induction false} MembersAreBlocks(header: Header, files: Files, folder: string, top: string,
                                            entries: seq<Entry>)
    requires forall i: nat :: i < |entries| ==> HeaderIsBlocks(header, top, entries[i])
    ensures |Members(header, files, folder, top, entries)| % BLOCK == 0
  {
    if entries != [] {
      var first := Member(header, files, folder, top, entries[0]);
      var rest := Members(header, files, folder, top, entries[1..]);
      MembersAreBlocks(header, files, folder, top, entries[1..]);
      MemberIsBlocks(header, files, folder, top, entries[0]);
      BlocksAdd(|first|, |rest|);
    }
  }

  lemma StreamLength(head: Bytes, members: Bytes, end: Bytes)
    requires |head| % BLOCK == 0 && |members| % BLOCK == 0 && |end| == 2 * BLOCK
    ensures |head + members + end| % BLOCK == 0
  {
    BlocksAdd(|head|, |members|);
    BlocksAdd(|head| + |members|, 2 * BLOCK);
  }

  /** Headers of whole blocks make a stream of whole blocks. */
  lemma TarStreamIsBlocks(header: Header, files: Files, folder: string, top: string, entries: seq<Entry>)
    requires |header(Directory, top + "/", 0)| % BLOCK == 0
    requires forall i: nat :: i < |entries| ==> HeaderIsBlocks(header, top, entries[i])
    ensures |TarStream(header, files, folder, top, entries)| % BLOCK == 0
  {
    MembersAreBlocks(header, files, folder, top, entries);
    StreamLength(header(Directory, top + "/", 0), Members(header, files, folder, top, entries), Zeros(2 * BLOCK));
  }

  lemma HeadersAreBlocks(header: Header, decode: Decode, top: string, readAs: string, entries: seq<Entry>)
    requires HeadersOk(header, decode, top, readAs, entries)
    ensures |header(Directory, top + "/", 0)| % BLOCK == 0
    ensures forall i: nat :: i < |entries| ==> HeaderIsBlocks(header, top, entries[i])
  {
    forall i: nat | i < |entries|
      ensures HeaderIsBlocks(header, top, entries[i])
    {
      assert MemberHeaderOk(header, decode, top, entries[i]);
    }
  }
}
