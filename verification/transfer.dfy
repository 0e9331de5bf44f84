/** services/llm_models.py and api.py, end to end: the parts of a model's tar
    stream are described once, served by range, and rejoined with cat. */
module Transfer {
  import opened Streams
  import opened Splitting
  import Decimal
  import Ranges
  import Vtar

  datatype Model = Model(name: string, folder: string, entries: seq<Vtar.Entry>)

  datatype Manifest = Manifest(archiveSize: nat, archiveSha256: Digest, parts: seq<Part>)

  function ArchiveName(name: string): string { name + ".model.tar" }

  lemma ArchiveNameSays(name: string)
    ensures ArchiveName(name)[..|name|] == name && ArchiveName(name)[|name|..] == ".model.tar"
  {
  }

  /** The tar stream of a model's files as they are on disk. */
  function Stream(header: Vtar.Header, m: Model, files: Vtar.Files): Bytes {
    Vtar.TarStream(header, files, m.folder, m.name, m.entries)
  }

  ghost predicate Present(m: Model, files: Vtar.Files) { Vtar.Present(files, m.folder, m.entries) }

  /** lay.read() with no range: the whole stream, or an error. */
  method ReadStream(header: Vtar.Header, m: Model, files: Vtar.Files)
    returns (chunks: seq<Bytes>, size: nat, ok: bool)
    ensures size == |Stream(header, m, files)|
    ensures ok ==> Concat(chunks) == Stream(header, m, files)
    ensures Present(m, files) ==> ok
  {
    var lay := Vtar.MakeLayout(header, m.folder, m.name, m.entries, files);
    Vtar.ArchiveLength(lay, files);
    if Present(m, files) {
      Vtar.BackedIsAvailable(lay.segments, files, 0, lay.size);
    }
    WholeWindow(Stream(header, m, files));
    size := lay.size;
    chunks, ok := Vtar.Read(lay, files, 0, None);
  }

  /** compute_parts: one pass over the stream. The layout's own size is the bound
      hash_parts needs, and a file that is gone is an error, never a manifest. */
  method ComputeParts(header: Vtar.Header, m: Model, files: Vtar.Files, size: nat, sha: Hash)
    returns (r: Option<Manifest>)
    requires size > 0
    ensures r.Some? ==>
              r.value == Manifest(|Stream(header, m, files)|, sha(Stream(header, m, files)),
                                  PartsOf(Stream(header, m, files), ArchiveName(m.name), size, sha))
    ensures Present(m, files) ==> r.Some?
  {
    var chunks, total, ok := ReadStream(header, m, files);
    if !ok {
      return None;
    }
    var hashed := HashParts(chunks, total, ArchiveName(m.name), size, sha);
    match hashed
    case Failure(_) => r := None;
    case Success((parts, checksum)) => r := Some(Manifest(total, checksum, parts));
  }

  /** A file of a ready model is still the one its parts were computed from, by size and mtime. */
  predicate AsRecorded(m: Model, e: Vtar.Entry, identity: map<string, int>, files: Vtar.Files, mtime: string -> int) {
    var path := Vtar.Join(m.folder, e.name);
    && path in files && |files[path]| == e.size
    && e.name in identity && identity[e.name] == mtime(path)
  }

  /** current_parts: the stored split, while every file is as recorded; then every part
      can be served in full. */
  method CurrentParts(m: Model, ready: bool, parts: Option<Manifest>, identity: map<string, int>,
                      files: Vtar.Files, mtime: string -> int)
    returns (r: Option<Manifest>)
    ensures r.Some? <==> ready && parts.Some?
                         && forall e :: e in m.entries ==> AsRecorded(m, e, identity, files, mtime)
    ensures r.Some? ==> r == parts && Present(m, files)
  {
    if !ready || parts.None? {
      return None;
    }
    for i := 0 to |m.entries|
      invariant forall k :: 0 <= k < i ==> AsRecorded(m, m.entries[k], identity, files, mtime)
    {
      if !AsRecorded(m, m.entries[i], identity, files, mtime) {
        return None;
      }
    }
    r := parts;
  }

  /** read_part: the layout is derived again on every request, from the same record. */
  method ReadPart(header: Vtar.Header, m: Model, files: Vtar.Files, offset: nat, size: nat)
    returns (chunks: seq<Bytes>, ok: bool)
    ensures ok ==> Concat(chunks) == Window(Stream(header, m, files), offset, offset + size)
    ensures Concat(chunks) <= Window(Stream(header, m, files), offset, offset + size)
    ensures Present(m, files) ==> ok
  {
    var lay := Vtar.MakeLayout(header, m.folder, m.name, m.entries, files);
    if Present(m, files) {
      Vtar.BackedIsAvailable(lay.segments, files, offset, Vtar.ReadEnd(lay, offset, Some(size)));
    }
    Vtar.ReadEndWindow(lay, files, offset, size);
    chunks, ok := Vtar.Read(lay, files, offset, Some(size));
  }

  /** The bytes a part stands for. */
  function Piece(stream: Bytes, part: Part): Bytes {
    Window(stream, part.offset, part.offset + part.size)
  }

  /** The parts before k, as they were served. */
  ghost predicate ServedUpTo(served: seq<Bytes>, stream: Bytes, parts: seq<Part>, k: nat) {
    |served| == k <= |parts| && forall i: nat :: i < k ==> served[i] == Piece(stream, parts[i])
  }

  lemma ServedMore(served: seq<Bytes>, stream: Bytes, parts: seq<Part>, k: nat, piece: Bytes)
    requires ServedUpTo(served, stream, parts, k) && k < |parts| && piece == Piece(stream, parts[k])
    ensures ServedUpTo(served + [piece], stream, parts, k + 1)
  {
  }

  /** Every part, fetched in the order the manifest lists them. */
  method FetchParts(header: Vtar.Header, m: Model, files: Vtar.Files, parts: seq<Part>)
    returns (served: seq<Bytes>)
    requires Present(m, files)
    ensures |served| == |parts|
    ensures forall i: nat :: i < |parts| ==> served[i] == Piece(Stream(header, m, files), parts[i])
  {
    ghost var stream := Stream(header, m, files);
    served := [];
    for k := 0 to |parts|
      invariant ServedUpTo(served, stream, parts, k)
    {
      var chunks, ok := ReadPart(header, m, files, parts[k].offset, parts[k].size);
      ServedMore(served, stream, parts, k, Concat(chunks));
      served := served + [Concat(chunks)];
    }
  }

  /** Whatever the part size: the served parts, concatenated in index order, are
      the stream the manifest's checksum names. */
  lemma ServedPartsRejoin(stream: Bytes, archive: string, size: nat, sha: Hash, served: seq<Bytes>)
    requires size > 0
    requires |served| == |PartsOf(stream, archive, size, sha)|
    requires forall i: nat :: i < |served| ==> served[i] == Piece(stream, PartsOf(stream, archive, size, sha)[i])
    ensures Concat(served) == stream
  {
    var ranges := Plan(|stream|, size);
    forall i: nat | i < |ranges| ensures served[i] == Slice(stream, ranges[i]) {
      assert PartsOf(stream, archive, size, sha)[i] == PartOf(stream, archive, ranges, i, sha);
    }
    PlanRejoins(stream, size, served);
  }

  /** Each part of the manifest has the checksum of exactly what is served for it. */
  lemma ServedPartsMatchChecksums(stream: Bytes, archive: string, size: nat, sha: Hash, i: nat)
    requires size > 0 && i < |PartsOf(stream, archive, size, sha)|
    ensures var part := PartsOf(stream, archive, size, sha)[i];
            var served := Piece(stream, part);
            part.index == i && |served| == part.size <= size && part.sha256 == sha(served)
  {
    PlanTiles(|stream|, size);
    TilesInside(Plan(|stream|, size), 0, |stream|, size, i);
    PartsOfAt(stream, archive, size, sha, i);
    PieceOf(stream, archive, Plan(|stream|, size), i, sha);
  }

  lemma PieceOf(stream: Bytes, archive: string, ranges: seq<Range>, i: nat, sha: Hash)
    requires i < |ranges| && ranges[i].offset + ranges[i].length <= |stream|
    ensures var part := PartOf(stream, archive, ranges, i, sha);
            |Piece(stream, part)| == part.size == ranges[i].length && part.sha256 == sha(Piece(stream, part))
  {
  }

  /** A sorted glob of the part files lists them in index order. */
  lemma SortedGlobIsIndexOrder(stream: Bytes, archive: string, size: nat, sha: Hash, i: nat, j: nat)
    requires size > 0 && i < j < |PartsOf(stream, archive, size, sha)|
    ensures Decimal.LexLess(PartsOf(stream, archive, size, sha)[i].name, PartsOf(stream, archive, size, sha)[j].name)
  {
    PartNamesSort(archive, i, j, |Plan(|stream|, size)|);
  }

  /** The whole transfer of a model: described, served part by part, rejoined and
      unpacked, it is the folder and exactly the recorded files in order. */
  method TransferModel(header: Vtar.Header, ghost decode: Vtar.Decode, ghost folder: string, m: Model,
                       files: Vtar.Files, size: nat, sha: Hash)
    returns (received: Bytes)
    requires size > 0 && Present(m, files) && Vtar.HeadersOk(header, decode, m.name, folder, m.entries)
    ensures received == Stream(header, m, files) && |received| % Vtar.BLOCK == 0
    ensures Vtar.Unpack(decode, received)
         == Some([Vtar.Unpacked(Vtar.Directory, folder, [])]
                 + Vtar.Listing(files, m.folder, m.name, m.entries))
  {
    var manifest := ComputeParts(header, m, files, size, sha);
    var served := FetchParts(header, m, files, manifest.value.parts);
    ServedPartsRejoin(Stream(header, m, files), ArchiveName(m.name), size, sha, served);
    received := Concat(served);
    Vtar.TarStreamUnpacks(header, decode, files, m.folder, m.name, folder, m.entries);
    Vtar.HeadersAreBlocks(header, decode, m.name, folder, m.entries);
    Vtar.TarStreamIsBlocks(header, files, m.folder, m.name, m.entries);
  }

  /** llm_model_file and split_download: a range of a part is read at the part's offset. */
  function PartReader(stream: Bytes, offset: nat): (nat, nat) -> Bytes {
    (start: nat, length: nat) => Window(stream, offset + start, offset + start + length)
  }

  lemma PartReaderServes(stream: Bytes, offset: nat, size: nat)
    requires offset + size <= |stream|
    ensures Ranges.Serves(PartReader(stream, offset), Window(stream, offset, offset + size))
  {
    var part, read := Window(stream, offset, offset + size), PartReader(stream, offset);
    forall start: nat, length: nat | start + length <= |part|
      ensures read(start, length) == Window(part, start, start + length)
    {
      WindowOfWindow(stream, offset, offset + size, start, start + length);
    }
  }

  // ---- Serving a part to a client that may come back ----

  /** The bytes of the stream a cut of a part stands for. */
  function CutPiece(stream: Bytes, part: Part, cut: Ranges.Cut): Bytes {
    match cut
    case Everything => Piece(stream, part)
    case Span(first, last) => Window(stream, part.offset + first, part.offset + last + 1)
    case Missed => []
  }

  /** What a request for a part with this header asks for. */
  function Asked(stream: Bytes, part: Part, range: string): Bytes {
    CutPiece(stream, part, Ranges.CutOf(range, part.size))
  }

  method ReadCut(header: Vtar.Header, m: Model, files: Vtar.Files, part: Part, cut: Ranges.Cut)
    returns (body: seq<Bytes>, ok: bool)
    requires cut.Span? ==> cut.first <= cut.last
    ensures ok ==> Concat(body) == CutPiece(Stream(header, m, files), part, cut)
    ensures Concat(body) <= CutPiece(Stream(header, m, files), part, cut)
    ensures Present(m, files) ==> ok
  {
    match cut {
      case Everything => body, ok := ReadPart(header, m, files, part.offset, part.size);
      case Span(first, last) =>
        body, ok := ReadPart(header, m, files, part.offset + first, last - first + 1);
        SpanPiece(Stream(header, m, files), part, first, last);
      case Missed =>
        body, ok := [], true;
    }
  }

  lemma SpanPiece(stream: Bytes, part: Part, first: nat, last: nat)
    requires first <= last
    ensures CutPiece(stream, part, Ranges.Span(first, last))
         == Window(stream, part.offset + first, part.offset + first + (last - first + 1))
  {
  }

  /** llm_model_file: the range of the part, read from a layout made for this request;
      a file that lacks bytes ends the answer early, after correct ones. */
  method ServeModelPart(header: Vtar.Header, m: Model, files: Vtar.Files, part: Part, range: string)
    returns (body: seq<Bytes>, ok: bool)
    ensures ok ==> Concat(body) == Asked(Stream(header, m, files), part, range)
    ensures Concat(body) <= Asked(Stream(header, m, files), part, range)
    ensures Present(m, files) ==> ok
  {
    body, ok := ReadCut(header, m, files, part, Ranges.CutOf(range, part.size));
  }

  /** split_download: the same from an archive on disk, which may have become shorter. */
  method ServeArchivePart(archive: Bytes, part: Part, range: string) returns (body: seq<Bytes>, ok: bool)
    ensures Concat(body) == Asked(archive, part, range)
    ensures part.offset + part.size <= |archive| ==> ok
  {
    var error;
    match Ranges.CutOf(range, part.size) {
      case Everything => body, error := ReadRange(archive, part.offset, part.size);
      case Span(first, last) => body, error := ReadRange(archive, part.offset + first, last - first + 1);
      case Missed => body, error := [], None;
    }
    ok := error.None?;
  }

  /** What _ranged answers for a part is what was asked of it. */
  lemma AskedIsRanged(stream: Bytes, part: Part, range: string)
    requires part.offset + part.size <= |stream|
    ensures match Ranges.Ranged(range, part.size, PartReader(stream, part.offset))
            case Full(body, length) => body == Asked(stream, part, range) && length == |body|
            case Partial(body, _, _, _, length) => body == Asked(stream, part, range) && length == |body|
            case NotSatisfiable(_) => Asked(stream, part, range) == []
  {
  }

  lemma ResumeAsks(stream: Bytes, part: Part, k: nat)
    requires part.offset + part.size <= |stream| && k <= part.size
    ensures Asked(stream, part, Ranges.ResumeHeader(k)) == Piece(stream, part)[k..]
  {
    Ranges.MatchResume(k);
    Decimal.ValueOfToString(k);
    PieceTail(stream, part, k);
  }

  lemma PieceTail(stream: Bytes, part: Part, k: nat)
    requires part.offset + part.size <= |stream| && k <= part.size
    ensures Piece(stream, part)[k..] == Window(stream, part.offset + k, part.offset + part.size)
  {
    assert Piece(stream, part) == stream[part.offset..part.offset + part.size];
    SliceOfSlice(stream, part.offset, part.offset + part.size, k, part.size);
  }

  lemma Resumed(piece: Bytes, got: Bytes, more: Bytes)
    requires got <= piece && more <= piece[|got|..]
    ensures got + more <= piece && (more == piece[|got|..] ==> got + more == piece)
  {
    assert got == piece[..|got|];
  }

  /** A client that keeps what it has and asks for the rest, however often an answer is
      cut short by the connection or by the server: it always holds a prefix of the part,
      and one uncut answer from complete files gives it the whole part. */
  method Resume(header: Vtar.Header, m: Model, files: Vtar.Files, part: Part, cuts: seq<nat>)
    returns (got: Bytes)
    requires part.offset + part.size <= |Stream(header, m, files)|
    ensures got <= Piece(Stream(header, m, files), part)
    ensures Present(m, files) && (exists i :: 0 <= i < |cuts| && cuts[i] >= part.size)
            ==> got == Piece(Stream(header, m, files), part)
  {
    ghost var piece := Piece(Stream(header, m, files), part);
    got := [];
    for i := 0 to |cuts|
      invariant got <= piece
      invariant Present(m, files) && (exists j :: 0 <= j < i && cuts[j] >= part.size) ==> got == piece
    {
      ResumeAsks(Stream(header, m, files), part, |got|);
      var body, ok := ServeModelPart(header, m, files, part, Ranges.ResumeHeader(|got|));
      var arrived := Concat(body)[..Min(cuts[i], |Concat(body)|)];
      PrefixTrans(arrived, Concat(body), piece[|got|..]);
      Resumed(piece, got, arrived);
      got := got + arrived;
    }
  }

  /** A part interrupted after k bytes and resumed with a Range request is the part. */
  lemma PartResumes(stream: Bytes, offset: nat, size: nat, k: nat, part: Bytes)
    requires offset + size <= |stream| && part == Window(stream, offset, offset + size) && k < |part|
    ensures var answer := Ranges.Ranged(Ranges.ResumeHeader(k), |part|, PartReader(stream, offset));
            answer.Partial? && part[..k] + answer.body == part
  {
    PartReaderServes(stream, offset, size);
    Ranges.ResumeCompletes(part, k, PartReader(stream, offset));
  }
}
