/** services/splitting.py: parts of an archive as byte ranges of it, their names
    and their checksums, computed in one pass over a chunked stream. */
module Splitting {
  import opened Streams
  import Decimal

  type Digest = string
  type Hash = Bytes -> Digest

  const PART_SIZE: nat := 900_000_000
  const MIN_PART_SIZE: nat := 1_000_000
  const READ_CHUNK: nat := 4 * 1024 * 1024

  datatype Range = Range(offset: nat, length: nat)

  datatype Part = Part(index: nat, name: string, offset: nat, size: nat, sha256: Digest)

  datatype SplitError =
    | WrongLength(read: nat, expected: nat)
    | ArchiveShrank
    | PartCutShort

  function PartSize(configured: Option<int>): (size: nat)
    ensures MIN_PART_SIZE <= size <= PART_SIZE
    ensures configured.Some? && MIN_PART_SIZE <= configured.value <= PART_SIZE ==> size == configured.value
    ensures configured.None? || configured.value == 0 || configured.value > PART_SIZE ==> size == PART_SIZE
    ensures configured.Some? && configured.value != 0 && configured.value < MIN_PART_SIZE ==> size == MIN_PART_SIZE
  {
    var wanted := if configured.None? || configured.value == 0 then PART_SIZE else configured.value;
    Max(MIN_PART_SIZE, Min(PART_SIZE, wanted))
  }

  // ------------------------------------------------------------- the plan

  function PlanFrom(offset: nat, total: nat, size: nat): seq<Range>
    requires size > 0
    decreases total - offset
  {
    if offset >= total then []
    else [Range(offset, Min(size, total - offset))] + PlanFrom(offset + size, total, size)
  }

  function Plan(total: nat, size: nat): seq<Range>
    requires size > 0
  {
    if total == 0 then [Range(0, 0)] else PlanFrom(0, total, size)
  }

  /** Range i is full and range i + 1 starts where it ends. */
  ghost predicate Follows(ranges: seq<Range>, i: nat, size: nat) {
    i + 1 < |ranges| ==> ranges[i].length == size && ranges[i + 1].offset == ranges[i].offset + size
  }

  ghost predicate Fits(range: Range, size: nat, empty: bool) {
    range.length <= size && (range.length == 0 <==> empty)
  }

  /** The ranges follow each other without a gap from lo to hi, all of them full
      but possibly the last, and none empty unless there is nothing to cover. */
  ghost predicate Tiles(ranges: seq<Range>, lo: nat, hi: nat, size: nat) {
    && ranges != []
    && ranges[0].offset == lo
    && ranges[|ranges| - 1].offset + ranges[|ranges| - 1].length == hi
    && (forall i: nat :: i < |ranges| ==> Fits(ranges[i], size, lo == hi))
    && (forall i: nat :: i < |ranges| ==> Follows(ranges, i, size))
  }

  lemma {:induction false} PlanFromTiles(offset: nat, total: nat, size: nat)
    requires size > 0 && offset < total
    ensures Tiles(PlanFrom(offset, total, size), offset, total, size)
    decreases total - offset
  {
    var rest := PlanFrom(offset + size, total, size);
    var ranges := PlanFrom(offset, total, size);
    if offset + size < total {
      PlanFromTiles(offset + size, total, size);
      forall i: nat | i < |ranges|
        ensures Fits(ranges[i], size, false) && Follows(ranges, i, size)
      {
        if i > 0 {
          assert ranges[i] == rest[i - 1] && Fits(rest[i - 1], size, false) && Follows(rest, i - 1, size);
        }
      }
    } else {
      assert rest == [];
    }
  }

  lemma PlanTiles(total: nat, size: nat)
    requires size > 0
    ensures Tiles(Plan(total, size), 0, total, size)
  {
    if total > 0 {
      PlanFromTiles(0, total, size);
    }
  }

  lemma {:induction false} TilesFrom(ranges: seq<Range>, lo: nat, hi: nat, size: nat, i: nat)
    requires Tiles(ranges, lo, hi, size) && i < |ranges|
    ensures lo <= ranges[i].offset
  {
    if i > 0 {
      TilesFrom(ranges, lo, hi, size, i - 1);
      assert Follows(ranges, i - 1, size);
    }
  }

  lemma {:induction false} TilesInside(ranges: seq<Range>, lo: nat, hi: nat, size: nat, i: nat)
    requires Tiles(ranges, lo, hi, size) && i < |ranges|
    ensures lo <= ranges[i].offset && ranges[i].offset + ranges[i].length <= hi
    ensures Fits(ranges[i], size, lo == hi) && Follows(ranges, i, size)
    ensures i + 1 < |ranges| ==> ranges[i].offset + ranges[i].length < hi || lo == hi
    decreases |ranges| - i
  {
    TilesFrom(ranges, lo, hi, size, i);
    assert Follows(ranges, i, size) && Fits(ranges[i], size, lo == hi);
    if i + 1 < |ranges| {
      TilesInside(ranges, lo, hi, size, i + 1);
    }
  }

  function End(range: Range): nat { range.offset + range.length }

  function Slice(s: Bytes, range: Range): Bytes { Window(s, range.offset, End(range)) }

  /** The pieces are the slices of s that the ranges name. */
  ghost predicate AreSlices(pieces: seq<Bytes>, s: Bytes, ranges: seq<Range>) {
    |pieces| == |ranges| && forall i: nat :: i < |ranges| ==> pieces[i] == Slice(s, ranges[i])
  }

  lemma RangeStarts(ranges: seq<Range>, hi: nat, size: nat, k: nat)
    requires Tiles(ranges, 0, hi, size) && k < |ranges|
    ensures ranges[k].offset == if k == 0 then 0 else End(ranges[k - 1])
  {
    if k > 0 {
      TilesInside(ranges, 0, hi, size, k - 1);
    }
  }

  lemma PieceEnds(s: Bytes, ranges: seq<Range>, hi: nat, size: nat, pieces: seq<Bytes>, k: nat)
    requires Tiles(ranges, 0, hi, size) && k < |ranges| && AreSlices(pieces, s, ranges)
    ensures pieces[k] == Window(s, if k == 0 then 0 else End(ranges[k - 1]), End(ranges[k]))
    ensures k > 0 ==> End(ranges[k - 1]) <= End(ranges[k])
  {
    RangeStarts(ranges, hi, size, k);
  }

  /** Concatenating the first ranges of a tiling in order gives back what they cover. */
  lemma {:induction false} SlicesCover(s: Bytes, ranges: seq<Range>, hi: nat, size: nat, pieces: seq<Bytes>, k: nat)
    requires Tiles(ranges, 0, hi, size) && 0 < k <= |ranges| && AreSlices(pieces, s, ranges)
    ensures Concat(pieces[..k]) == Window(s, 0, End(ranges[k - 1]))
  {
    PieceEnds(s, ranges, hi, size, pieces, k - 1);
    if k == 1 {
      ConcatOne(pieces);
    } else {
      SlicesCover(s, ranges, hi, size, pieces, k - 1);
      OneSliceMore(s, pieces, k - 1, End(ranges[k - 2]), End(ranges[k - 1]));
    }
  }

  lemma ConcatOne(pieces: seq<Bytes>)
    requires pieces != []
    ensures Concat(pieces[..1]) == pieces[0]
  {
    ConcatPrefix(pieces, 0);
  }

  lemma OneSliceMore(s: Bytes, pieces: seq<Bytes>, k: nat, mid: nat, hi: nat)
    requires k < |pieces| && mid <= hi
    requires Concat(pieces[..k]) == Window(s, 0, mid) && pieces[k] == Window(s, mid, hi)
    ensures Concat(pieces[..k + 1]) == Window(s, 0, hi)
  {
    ConcatPrefix(pieces, k);
    WindowSplit(s, 0, mid, hi);
  }

  /** cat of every part, in order, is the archive. */
  lemma PlanRejoins(s: Bytes, size: nat, pieces: seq<Bytes>)
    requires size > 0 && AreSlices(pieces, s, Plan(|s|, size))
    ensures Concat(pieces) == s
  {
    var ranges := Plan(|s|, size);
    PlanTiles(|s|, size);
    SlicesCover(s, ranges, |s|, size, pieces, |pieces|);
    ConcatAll(pieces);
    WholeWindow(s);
  }

  // ------------------------------------------------------------ part names

  function PartName(archive: string, index: nat, count: nat): string
    requires count > 0
  {
    archive + ".part-" + Decimal.Padded(index, Max(3, |Decimal.ToString(count - 1)|))
  }

  /** A part's name is the archive's, a mark, and its index in decimal, at least three digits. */
  lemma PartNameSays(archive: string, index: nat, count: nat)
    requires index < count
    ensures var name := PartName(archive, index, count);
            && archive + ".part-" <= name && |name| >= |archive + ".part-"| + 3
            && Decimal.AllDigits(name[|archive + ".part-"|..])
            && Decimal.Value(name[|archive + ".part-"|..]) == index
  {
    var width := Max(3, |Decimal.ToString(count - 1)|);
    Decimal.LengthMonotone(index, count - 1);
    Decimal.PaddedSays(index, width);
    var digits := Decimal.Padded(index, width);
    assert (archive + ".part-" + digits)[|archive + ".part-"|..] == digits;
  }

  /** Sorting the names sorts the parts, for every count: also past 1000. */
  lemma PartNamesSort(archive: string, i: nat, j: nat, count: nat)
    requires i < j < count
    ensures Decimal.LexLess(PartName(archive, i, count), PartName(archive, j, count))
    ensures PartName(archive, i, count) != PartName(archive, j, count)
  {
    var width := Max(3, |Decimal.ToString(count - 1)|);
    Decimal.LengthMonotone(i, count - 1);
    Decimal.LengthMonotone(j, count - 1);
    Decimal.PaddedIsFixed(i, width);
    Decimal.PaddedIsFixed(j, width);
    Decimal.LengthBound(j);
    Decimal.Pow10Monotone(|Decimal.ToString(j)|, width);
    Decimal.FixedOrder(i, j, width);
    Decimal.LexPrefix(archive + ".part-", Decimal.Fixed(i, width), Decimal.Fixed(j, width));
    Decimal.LexIrreflexive(PartName(archive, i, count));
  }

  // ------------------------------------------------------------- checksums

  /** What the manifest must say about part i of a stream. */
  function PartOf(stream: Bytes, archive: string, ranges: seq<Range>, i: nat, sha: Hash): Part
    requires i < |ranges|
  {
    var r := ranges[i];
    Part(i, PartName(archive, i, |ranges|), r.offset, r.length,
         sha(Window(stream, r.offset, r.offset + r.length)))
  }

  /** Slice, then hash: the reference the one-pass cutter is held to. */
  function PartsOf(stream: Bytes, archive: string, size: nat, sha: Hash): seq<Part>
    requires size > 0
  {
    var ranges := Plan(|stream|, size);
    seq(|ranges|, i requires 0 <= i < |ranges| => PartOf(stream, archive, ranges, i, sha))
  }

  lemma PartsOfAt(stream: Bytes, archive: string, size: nat, sha: Hash, i: nat)
    requires size > 0 && i < |Plan(|stream|, size)|
    ensures |PartsOf(stream, archive, size, sha)| == |Plan(|stream|, size)|
    ensures PartsOf(stream, archive, size, sha)[i] == PartOf(stream, archive, Plan(|stream|, size), i, sha)
  {
  }

  /** The cutter, after n bytes of the stream: it is inside range `index`, has fed
      `digest` with what the stream holds of it so far, and leaves a full range at
      once unless it is the last. */
  ghost predicate Cutting(stream: Bytes, ranges: seq<Range>, index: nat, digest: Bytes, n: nat) {
    && index < |ranges| && n <= |stream|
    && ranges[index].offset <= n && digest == stream[ranges[index].offset..n]
    && (n < End(ranges[index]) || (n == End(ranges[index]) && index == |ranges| - 1))
  }

  ghost predicate PartsDone(parts: seq<Part>, stream: Bytes, archive: string, ranges: seq<Range>, sha: Hash) {
    |parts| <= |ranges| && forall i: nat :: i < |parts| ==> parts[i] == PartOf(stream, archive, ranges, i, sha)
  }

  /** One piece: the cutter advances, and moves to the next range exactly when this one is full. */
  lemma FeedPiece(stream: Bytes, ranges: seq<Range>, total: nat, size: nat, index: nat, digest: Bytes,
                  n: nat, m: nat, take: nat)
    requires Tiles(ranges, 0, total, size) && Cutting(stream, ranges, index, digest, n)
    requires n < m <= |stream| <= total
    requires take == Min(m - n, ranges[index].length - |digest|)
    ensures 0 < take && digest + stream[n..n + take] == stream[ranges[index].offset..n + take]
    ensures |digest| + take == ranges[index].length <==> n + take == End(ranges[index])
    ensures n + take < End(ranges[index]) || index == |ranges| - 1 ==>
              Cutting(stream, ranges, index, digest + stream[n..n + take], n + take)
    ensures n + take == End(ranges[index]) ==>
              digest + stream[n..n + take] == Slice(stream, ranges[index])
              && (index + 1 < |ranges| ==> Cutting(stream, ranges, index + 1, [], n + take))
  {
    TilesInside(ranges, 0, total, size, index);
    if index + 1 < |ranges| {
      TilesInside(ranges, 0, total, size, index + 1);
    }
  }

  lemma PartFinished(parts: seq<Part>, stream: Bytes, archive: string, ranges: seq<Range>, sha: Hash,
                     part: Part, digest: Bytes)
    requires PartsDone(parts, stream, archive, ranges, sha) && |parts| < |ranges|
    requires digest == Slice(stream, ranges[|parts|])
    requires part == Part(|parts|, PartName(archive, |parts|, |ranges|), ranges[|parts|].offset,
                          ranges[|parts|].length, sha(digest))
    ensures PartsDone(parts + [part], stream, archive, ranges, sha)
  {
  }

  /** What hash_parts keeps between chunks. A hash object is represented by the
      bytes it has been fed. */
  datatype Cutter = Cutter(index: nat, digest: Bytes, filled: nat, whole: Bytes, parts: seq<Part>)

  ghost predicate Good(c: Cutter, n: nat, stream: Bytes, archive: string, ranges: seq<Range>, sha: Hash) {
    && Cutting(stream, ranges, c.index, c.digest, n) && c.filled == |c.digest| && c.whole == stream[..n]
    && |c.parts| == c.index && PartsDone(c.parts, stream, archive, ranges, sha)
  }

  /** What the cutter is after a piece, which may finish a part. */
  function Fed(c: Cutter, piece: Bytes, archive: string, ranges: seq<Range>, sha: Hash): Cutter
    requires c.index < |ranges|
  {
    var fed := c.(digest := c.digest + piece, whole := c.whole + piece, filled := c.filled + |piece|);
    if fed.filled == ranges[c.index].length && c.index < |ranges| - 1
    then Cutter(c.index + 1, [], 0, fed.whole,
                c.parts + [Part(c.index, PartName(archive, c.index, |ranges|), ranges[c.index].offset,
                                fed.filled, sha(fed.digest))])
    else fed
  }

  /** One turn of the inner loop; past the end of the chunk there is none. */
  function Turn(c: Cutter, view: Bytes, archive: string, ranges: seq<Range>, sha: Hash): (Cutter, Bytes) {
    if view == [] || c.index >= |ranges| || c.filled > ranges[c.index].length then (c, view) else
    var take := Min(|view|, ranges[c.index].length - c.filled);
    (Fed(c, view[..take], archive, ranges, sha), view[take..])
  }

  lemma GoodStep(c: Cutter, n: nat, piece: Bytes, m: nat, stream: Bytes, archive: string, ranges: seq<Range>,
                 sha: Hash, total: nat, size: nat)
    requires Tiles(ranges, 0, total, size) && Good(c, n, stream, archive, ranges, sha)
    requires n < m <= |stream| <= total
    requires |piece| == Min(m - n, ranges[c.index].length - c.filled) && piece == stream[n..n + |piece|]
    ensures piece != []
    ensures Good(Fed(c, piece, archive, ranges, sha), n + |piece|, stream, archive, ranges, sha)
  {
    FeedPiece(stream, ranges, total, size, c.index, c.digest, n, m, |piece|);
    if n + |piece| == End(ranges[c.index]) && c.index < |ranges| - 1 {
      var part := Part(c.index, PartName(archive, c.index, |ranges|), ranges[c.index].offset,
                       ranges[c.index].length, sha(c.digest + piece));
      PartFinished(c.parts, stream, archive, ranges, sha, part, c.digest + piece);
    }
  }

  lemma SameStart(view: Bytes, stream: Bytes, n: nat, m: nat, taken: nat)
    requires n <= m <= |stream| && taken <= m - n <= |view| && view[..m - n] == stream[n..m]
    ensures view[..taken] == stream[n..n + taken]
  {
    assert view[..taken] == view[..m - n][..taken];
    assert stream[n..n + taken] == stream[n..m][..taken];
  }

  lemma RoomLeft(c: Cutter, n: nat, stream: Bytes, archive: string, ranges: seq<Range>, sha: Hash, total: nat,
                 size: nat)
    requires Tiles(ranges, 0, total, size) && Good(c, n, stream, archive, ranges, sha) && n < total
    ensures c.index < |ranges| && 0 < ranges[c.index].length - c.filled <= total - n
  {
    TilesInside(ranges, 0, total, size, c.index);
  }

  /** While bytes are planned for, a turn takes at least one and no more than the plan has. */
  lemma TurnAdvances(c: Cutter, n: nat, view: Bytes, m: nat, stream: Bytes, archive: string, ranges: seq<Range>,
                     sha: Hash, total: nat, size: nat) returns (taken: nat)
    requires Tiles(ranges, 0, total, size) && Good(c, n, stream, archive, ranges, sha)
    requires view != [] && n < total && m == Min(n + |view|, total) <= |stream| <= total
    requires view[..m - n] == stream[n..m]
    ensures c.index < |ranges| && 0 < taken <= m - n && taken == Min(|view|, ranges[c.index].length - c.filled)
    ensures var (c', left) := Turn(c, view, archive, ranges, sha);
            left == view[taken..] && Good(c', n + taken, stream, archive, ranges, sha)
  {
    RoomLeft(c, n, stream, archive, ranges, sha, total, size);
    taken := Min(|view|, ranges[c.index].length - c.filled);
    SameStart(view, stream, n, m, taken);
    TurnIs(c, view, view[..taken], archive, ranges, sha);
    GoodStep(c, n, view[..taken], m, stream, archive, ranges, sha, total, size);
  }

  lemma TurnIs(c: Cutter, view: Bytes, piece: Bytes, archive: string, ranges: seq<Range>, sha: Hash)
    requires view != [] && c.index < |ranges| && c.filled <= ranges[c.index].length
    requires piece == view[..Min(|view|, ranges[c.index].length - c.filled)]
    ensures Turn(c, view, archive, ranges, sha) == (Fed(c, piece, archive, ranges, sha), view[|piece|..])
  {
  }

  /** The bytes still in the chunk are the ones before m. */
  ghost predicate Ahead(view: Bytes, stream: Bytes, m: nat) {
    |view| <= m <= |stream| && view == stream[m - |view|..m]
  }

  lemma AheadTake(view: Bytes, stream: Bytes, m: nat, take: nat)
    requires Ahead(view, stream, m) && take <= |view|
    ensures Ahead(view[take..], stream, m)
  {
  }

  lemma TurnKeeps(c: Cutter, view: Bytes, m: nat, stream: Bytes, archive: string, ranges: seq<Range>, sha: Hash,
                  total: nat, size: nat) returns (next: Cutter, rest: Bytes)
    requires Tiles(ranges, 0, total, size) && Ahead(view, stream, m) && view != [] && |stream| <= total
    requires Good(c, m - |view|, stream, archive, ranges, sha)
    ensures c.index < |ranges| && c.filled <= ranges[c.index].length
    ensures (next, rest) == Turn(c, view, archive, ranges, sha)
    ensures |rest| < |view| && Ahead(rest, stream, m) && Good(next, m - |rest|, stream, archive, ranges, sha)
  {
    TakeAll(view);
    var taken := TurnAdvances(c, m - |view|, view, m, stream, archive, ranges, sha, total, size);
    AheadTake(view, stream, m, taken);
    next, rest := Turn(c, view, archive, ranges, sha).0, view[taken..];
  }

  /** The body of the loop over one chunk. */
  method TakePiece(before: Cutter, chunk: Bytes, archive: string, ranges: seq<Range>, sha: Hash)
    returns (c: Cutter, view: Bytes)
    requires chunk != [] && before.index < |ranges| && before.filled <= ranges[before.index].length
    ensures (c, view) == Turn(before, chunk, archive, ranges, sha)
  {
    c, view := before, chunk;
    var take := Min(|view|, ranges[c.index].length - c.filled);
    var piece := view[..take];
    c := c.(digest := c.digest + piece, whole := c.whole + piece, filled := c.filled + take);
    view := view[take..];
    if c.filled == ranges[c.index].length && c.index < |ranges| - 1 {
      var part := Part(c.index, PartName(archive, c.index, |ranges|), ranges[c.index].offset, c.filled,
                       sha(c.digest));
      c := Cutter(c.index + 1, [], 0, c.whole, c.parts + [part]);
    }
  }

  /** The loop over one chunk. It makes progress only while bytes are planned for,
      so a stream longer than `total` is excluded, as both producers guarantee. */
  method CutChunk(chunk: Bytes, archive: string, ranges: seq<Range>, sha: Hash, before: Cutter,
                  ghost n: nat, ghost stream: Bytes, ghost total: nat, ghost size: nat)
    returns (c: Cutter)
    requires Tiles(ranges, 0, total, size) && Good(before, n, stream, archive, ranges, sha)
    requires n + |chunk| <= |stream| <= total && chunk == stream[n..n + |chunk|]
    ensures Good(c, n + |chunk|, stream, archive, ranges, sha)
  {
    var view := chunk;
    c := before;
    ghost var m := n + |chunk|;
    while view != []
      invariant Ahead(view, stream, m) && Good(c, m - |view|, stream, archive, ranges, sha)
      decreases |view|
    {
      ghost var next, rest := TurnKeeps(c, view, m, stream, archive, ranges, sha, total, size);
      c, view := TakePiece(c, view, archive, ranges, sha);
    }
  }

  lemma ChunkAt(chunks: seq<Bytes>, k: nat)
    requires k < |chunks|
    ensures var n := |Concat(chunks[..k])|;
            && |Concat(chunks[..k + 1])| == n + |chunks[k]| <= |Concat(chunks)|
            && chunks[k] == Concat(chunks)[n..n + |chunks[k]|]
  {
    ConcatPrefix(chunks, k);
    ConcatAt(chunks, k);
  }

  lemma GoodStart(stream: Bytes, archive: string, ranges: seq<Range>, sha: Hash, total: nat, size: nat)
    requires Tiles(ranges, 0, total, size) && size > 0
    ensures Good(Cutter(0, [], 0, [], []), 0, stream, archive, ranges, sha)
  {
    TilesInside(ranges, 0, total, size, 0);
  }

  /** hash_parts */
  method HashParts(chunks: seq<Bytes>, total: nat, archive: string, size: nat, sha: Hash)
    returns (r: Result<(seq<Part>, Digest), SplitError>)
    requires size > 0
    requires |Concat(chunks)| <= total
    ensures |Concat(chunks)| == total ==>
              r == Success((PartsOf(Concat(chunks), archive, size, sha), sha(Concat(chunks))))
    ensures |Concat(chunks)| < total ==> r == Failure(WrongLength(|Concat(chunks)|, total))
  {
    var ranges := Plan(total, size);
    PlanTiles(total, size);
    ghost var stream := Concat(chunks);
    var c, done := Cutter(0, [], 0, [], []), 0;
    GoodStart(stream, archive, ranges, sha, total, size);
    for k := 0 to |chunks|
      invariant done == |Concat(chunks[..k])|
      invariant Good(c, done, stream, archive, ranges, sha)
    {
      ChunkAt(chunks, k);
      c := CutChunk(chunks[k], archive, ranges, sha, c, done, stream, total, size);
      done := done + |chunks[k]|;
    }
    TakeAll(chunks);
    if done != total {
      return Failure(WrongLength(done, total));
    }
    r := Success(Finish(c, stream, archive, ranges, size, sha));
  }

  /** The last part is added once the stream has ended, even when it is empty. */
  function Finish(c: Cutter, ghost stream: Bytes, archive: string, ranges: seq<Range>, ghost size: nat, sha: Hash)
    : (r: (seq<Part>, Digest))
    requires size > 0 && ranges == Plan(|stream|, size) && Good(c, |stream|, stream, archive, ranges, sha)
    ensures r == (PartsOf(stream, archive, size, sha), sha(stream))
  {
    var part := Part(c.index, PartName(archive, c.index, |ranges|), ranges[c.index].offset, c.filled,
                     sha(c.digest));
    LastPart(c, part, stream, archive, size, sha);
    TakeAll(stream);
    (c.parts + [part], sha(c.whole))
  }

  lemma AllDone(parts: seq<Part>, stream: Bytes, archive: string, size: nat, sha: Hash)
    requires size > 0 && PartsDone(parts, stream, archive, Plan(|stream|, size), sha)
    requires |parts| == |Plan(|stream|, size)|
    ensures parts == PartsOf(stream, archive, size, sha)
  {
  }

  lemma FullyCut(stream: Bytes, ranges: seq<Range>, index: nat, digest: Bytes, size: nat)
    requires Tiles(ranges, 0, |stream|, size) && Cutting(stream, ranges, index, digest, |stream|)
    ensures index == |ranges| - 1 && |digest| == ranges[index].length && digest == Slice(stream, ranges[index])
  {
    TilesInside(ranges, 0, |stream|, size, index);
    TailWindow(stream, ranges[index].offset);
  }

  lemma TailWindow(s: Bytes, lo: nat)
    requires lo <= |s|
    ensures Window(s, lo, |s|) == s[lo..|s|]
  {
  }

  lemma LastPart(c: Cutter, part: Part, stream: Bytes, archive: string, size: nat, sha: Hash)
    requires size > 0 && Good(c, |stream|, stream, archive, Plan(|stream|, size), sha)
    requires part == Part(c.index, PartName(archive, c.index, |Plan(|stream|, size)|),
                          Plan(|stream|, size)[c.index].offset, c.filled, sha(c.digest))
    ensures c.parts + [part] == PartsOf(stream, archive, size, sha)
  {
    var ranges := Plan(|stream|, size);
    PlanTiles(|stream|, size);
    FullyCut(stream, ranges, c.index, c.digest, size);
    PartFinished(c.parts, stream, archive, ranges, sha, part, c.digest);
    AllDone(c.parts + [part], stream, archive, size, sha);
  }

  // -------------------------------------------------------- file producers

  lemma ReadStep(content: Bytes, position: nat, chunk: Bytes, count: nat)
    requires count > 0 && chunk == Window(content, position, position + count)
    ensures |chunk| <= count
    ensures chunk == [] <==> |content| <= position
    ensures chunk != [] ==> position + |chunk| <= |content|
    ensures chunk == Window(content, position, position + |chunk|)
  {
  }

  lemma PastEnd(content: Bytes, lo: nat, mid: nat, hi: nat)
    requires |content| <= mid <= hi
    ensures Window(content, lo, mid) == Window(content, lo, hi)
  {
  }

  lemma Extended(chunks: seq<Bytes>, chunk: Bytes, content: Bytes, offset: nat, position: nat)
    requires offset <= position && Concat(chunks) == Window(content, offset, position)
    requires chunk == Window(content, position, position + |chunk|)
    ensures Concat(chunks + [chunk]) == Window(content, offset, position + |chunk|)
  {
    WindowSplit(content, offset, position, position + |chunk|);
    ConcatIs(chunks, chunk, Window(content, offset, position), Window(content, offset, position + |chunk|));
  }

  lemma ConcatIs(chunks: seq<Bytes>, chunk: Bytes, start: Bytes, all: Bytes)
    requires Concat(chunks) == start && all == start + chunk
    ensures Concat(chunks + [chunk]) == all
  {
    ConcatSnoc(chunks, chunk);
  }

  /** What has been read of a file from `offset` on. */
  ghost predicate ReadTo(chunks: seq<Bytes>, content: Bytes, offset: nat, position: nat) {
    && offset <= position && Concat(chunks) == Window(content, offset, position)
    && (offset < position ==> position <= |content|)
  }

  lemma ReadStarts(content: Bytes, offset: nat)
    ensures ReadTo([], content, offset, offset)
  {
  }

  /** One read more: the stream grows by it. */
  lemma ReadGrows(chunks: seq<Bytes>, chunk: Bytes, content: Bytes, offset: nat, position: nat, count: nat)
    requires ReadTo(chunks, content, offset, position) && 0 < count
    requires chunk == Window(content, position, position + count)
    ensures |chunk| <= count && (chunk == [] ==> |content| <= position)
    ensures ReadTo(chunks + [chunk], content, offset, position + |chunk|)
  {
    ReadStep(content, position, chunk, count);
    Extended(chunks, chunk, content, offset, position);
  }

  lemma ReadStops(chunks: seq<Bytes>, content: Bytes, offset: nat, position: nat, end: nat)
    requires ReadTo(chunks, content, offset, position) && (|content| <= position <= end || position == end)
    ensures Concat(chunks) == Window(content, offset, end)
  {
    if position < end {
      PastEnd(content, offset, position, end);
    }
  }

  /** The loop _file_chunks, read_range and Layout.read share: `length` bytes from
      `offset`, in chunks, or a failure after everything the file still had. A read
      returns what is left at the end of the file, then nothing. */
  method ReadChunks(content: Bytes, offset: nat, length: nat) returns (chunks: seq<Bytes>, complete: bool)
    ensures Concat(chunks) == Window(content, offset, offset + length)
    ensures complete <==> length == 0 || offset + length <= |content|
  {
    chunks := [];
    var position, remaining := offset, length;
    ReadStarts(content, offset);
    while remaining > 0
      invariant 0 <= remaining <= length && position == offset + length - remaining
      invariant ReadTo(chunks, content, offset, position)
    {
      var count := Min(READ_CHUNK, remaining);
      var chunk := Window(content, position, position + count);
      ReadGrows(chunks, chunk, content, offset, position, count);
      if chunk == [] {
        ReadStops(chunks, content, offset, position, offset + length);
        return chunks, false;
      }
      chunks := chunks + [chunk];
      position, remaining := position + |chunk|, remaining - |chunk|;
    }
    ReadStops(chunks, content, offset, position, offset + length);
    complete := true;
  }

  /** _file_chunks: at most `total` bytes, the bound HashParts needs. */
  method FileChunks(content: Bytes, total: nat) returns (chunks: seq<Bytes>, error: Option<SplitError>)
    ensures Concat(chunks) == Window(content, 0, total) && |Concat(chunks)| <= total
    ensures error == if total <= |content| then None else Some(ArchiveShrank)
  {
    var complete;
    chunks, complete := ReadChunks(content, 0, total);
    error := if complete then None else Some(ArchiveShrank);
  }

  /** read_range: one part straight from the archive. */
  method ReadRange(content: Bytes, offset: nat, length: nat) returns (chunks: seq<Bytes>, error: Option<SplitError>)
    ensures Concat(chunks) == Window(content, offset, offset + length)
    ensures error == if length == 0 || offset + length <= |content| then None else Some(PartCutShort)
  {
    var complete;
    chunks, complete := ReadChunks(content, offset, length);
    error := if complete then None else Some(PartCutShort);
  }
}
