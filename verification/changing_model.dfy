/** The split download of a model whose files change between requests: current_parts
    lets a request through only while every file has its recorded size and mtime. */
module ChangingModel {
  import opened Streams
  import opened Splitting
  import opened Transfer
  import Vtar
  import Ranges

  /** The disk as one request finds it. */
  datatype Moment = Moment(files: Vtar.Files, mtime: string -> int)

  /** What compute_parts notes of the files. */
  function IdentityOf(m: Model, at: Moment): map<string, int> {
    map e | e in m.entries :: e.name := at.mtime(Vtar.Join(m.folder, e.name))
  }

  ghost predicate Unchanged(m: Model, start: Moment, at: Moment) {
    forall e :: e in m.entries ==> AsRecorded(m, e, IdentityOf(m, start), at.files, at.mtime)
  }

  /** A file with the size and the mtime it had has the bytes it had. */
  ghost predicate FreshTimes(m: Model, start: Moment, at: Moment) {
    forall e :: e in m.entries ==> SameIfSame(Vtar.Join(m.folder, e.name), start, at)
  }

  ghost predicate SameIfSame(path: string, start: Moment, at: Moment) {
    (path in start.files && path in at.files
     && at.mtime(path) == start.mtime(path) && |at.files[path]| == |start.files[path]|)
    ==> at.files[path] == start.files[path]
  }

  /** The files are there with their recorded sizes, so a manifest can be computed. */
  ghost predicate Complete(m: Model, at: Moment) {
    forall e :: e in m.entries ==> HasSize(at.files, m.folder, e)
  }

  lemma CompleteIsPresent(m: Model, at: Moment)
    requires Complete(m, at)
    ensures Present(m, at.files)
  {
    forall i: nat | i < |m.entries|
      ensures Vtar.BackedBy(Vtar.FromFile(Vtar.Join(m.folder, m.entries[i].name)), m.entries[i].size, at.files)
    {
      assert m.entries[i] in m.entries && HasSize(at.files, m.folder, m.entries[i]);
    }
  }

  lemma {:induction false} SameMembers(header: Vtar.Header, folder: string, top: string, entries: seq<Vtar.Entry>,
                                       a: Vtar.Files, b: Vtar.Files)
    requires forall e :: e in entries ==>
               Vtar.OnDisk(a, Vtar.Join(folder, e.name)) == Vtar.OnDisk(b, Vtar.Join(folder, e.name))
    ensures Vtar.Members(header, a, folder, top, entries) == Vtar.Members(header, b, folder, top, entries)
  {
    if entries != [] {
      assert entries[0] in entries;
      SameMembers(header, folder, top, entries[1..], a, b);
    }
  }

  lemma SameFile(m: Model, e: Vtar.Entry, start: Moment, at: Moment)
    requires Complete(m, start) && Unchanged(m, start, at) && FreshTimes(m, start, at) && e in m.entries
    ensures var path := Vtar.Join(m.folder, e.name);
            path in start.files && path in at.files && at.files[path] == start.files[path]
  {
    assert AsRecorded(m, e, IdentityOf(m, start), at.files, at.mtime) && HasSize(start.files, m.folder, e);
    assert SameIfSame(Vtar.Join(m.folder, e.name), start, at);
  }

  lemma SplitEqual(a: Bytes, b: Bytes, c: Bytes, d: Bytes)
    requires |a| == |c| && a + b == c + d
    ensures a == c && b == d
  {
    assert (a + b)[..|a|] == a && (c + d)[..|c|] == c;
    assert (a + b)[|a|..] == b && (c + d)[|c|..] == d;
  }

  ghost predicate HasSize(files: Vtar.Files, folder: string, e: Vtar.Entry) {
    Vtar.Join(folder, e.name) in files && |files[Vtar.Join(folder, e.name)]| == e.size
  }

  ghost predicate SameBytes(a: Vtar.Files, b: Vtar.Files, path: string) {
    path in a && path in b && a[path] == b[path]
  }

  lemma SameMember(header: Vtar.Header, folder: string, top: string, e: Vtar.Entry, a: Vtar.Files, b: Vtar.Files)
    requires HasSize(a, folder, e) && HasSize(b, folder, e)
    requires Vtar.Member(header, a, folder, top, e) == Vtar.Member(header, b, folder, top, e)
    ensures SameBytes(a, b, Vtar.Join(folder, e.name))
  {
    var path, head := Vtar.Join(folder, e.name), header(Vtar.Regular, Vtar.Join(top, e.name), e.size);
    var pad := Vtar.Zeros(Vtar.Padding(e.size));
    TakeAll(a[path]);
    TakeAll(b[path]);
    SplitEqual(head + a[path], pad, head + b[path], pad);
    SplitEqual(head, a[path], head, b[path]);
  }

  lemma {:induction false} SameFiles(header: Vtar.Header, folder: string, top: string, entries: seq<Vtar.Entry>,
                                     a: Vtar.Files, b: Vtar.Files)
    requires forall e :: e in entries ==> HasSize(a, folder, e) && HasSize(b, folder, e)
    requires Vtar.Members(header, a, folder, top, entries) == Vtar.Members(header, b, folder, top, entries)
    ensures forall e :: e in entries ==> SameBytes(a, b, Vtar.Join(folder, e.name))
  {
    if entries != [] {
      var first, rest := entries[0], entries[1..];
      assert first in entries && HasSize(a, folder, first) && HasSize(b, folder, first);
      SplitEqual(Vtar.Member(header, a, folder, top, first), Vtar.Members(header, a, folder, top, rest),
                 Vtar.Member(header, b, folder, top, first), Vtar.Members(header, b, folder, top, rest));
      SameMember(header, folder, top, first, a, b);
      SameFiles(header, folder, top, rest, a, b);
      assert entries == [first] + rest;
    }
  }

  /** The test lets the described stream through, exactly if no file got other bytes of
      its old size without a new mtime. */
  lemma UnchangedIsSameStream(header: Vtar.Header, m: Model, start: Moment, at: Moment)
    requires Complete(m, start) && Unchanged(m, start, at)
    ensures Stream(header, m, at.files) == Stream(header, m, start.files) <==> FreshTimes(m, start, at)
  {
    if FreshTimes(m, start, at) {
      forall e | e in m.entries
        ensures Vtar.OnDisk(at.files, Vtar.Join(m.folder, e.name))
             == Vtar.OnDisk(start.files, Vtar.Join(m.folder, e.name))
      {
        SameFile(m, e, start, at);
      }
      SameMembers(header, m.folder, m.name, m.entries, at.files, start.files);
    }
    if Stream(header, m, at.files) == Stream(header, m, start.files) {
      SameStreamIsFresh(header, m, start, at);
    }
  }

  lemma SameStreamIsFresh(header: Vtar.Header, m: Model, start: Moment, at: Moment)
    requires Complete(m, start) && Unchanged(m, start, at)
    requires Stream(header, m, at.files) == Stream(header, m, start.files)
    ensures FreshTimes(m, start, at)
  {
    var head, end := header(Vtar.Directory, m.name + "/", 0), Vtar.Zeros(2 * Vtar.BLOCK);
    var before := Vtar.Members(header, start.files, m.folder, m.name, m.entries);
    var after := Vtar.Members(header, at.files, m.folder, m.name, m.entries);
    SplitEqual(head + after, end, head + before, end);
    SplitEqual(head, after, head, before);
    forall e | e in m.entries
      ensures HasSize(at.files, m.folder, e) && HasSize(start.files, m.folder, e)
    {
      assert AsRecorded(m, e, IdentityOf(m, start), at.files, at.mtime);
    }
    SameFiles(header, m.folder, m.name, m.entries, at.files, start.files);
    forall e | e in m.entries
      ensures SameIfSame(Vtar.Join(m.folder, e.name), start, at)
    {
      assert SameBytes(at.files, start.files, Vtar.Join(m.folder, e.name));
    }
  }

  /** llm_model_file for a part, asked for as a whole or by range: refused, or what the
      range asks of the part of the stream that was described. */
  method Request(header: Vtar.Header, m: Model, manifest: Manifest, ghost start: Moment, identity: map<string, int>,
                 at: Moment, part: Part, range: string)
    returns (body: Option<seq<Bytes>>)
    requires Complete(m, start) && identity == IdentityOf(m, start)
    ensures body.Some? <==> Unchanged(m, start, at)
    ensures body.Some? && FreshTimes(m, start, at) ==>
              Concat(body.value) == Asked(Stream(header, m, start.files), part, range)
  {
    var current := CurrentParts(m, true, Some(manifest), identity, at.files, at.mtime);
    if current.None? {
      return None;
    }
    var chunks, ok := ServeModelPart(header, m, at.files, part, range);
    if FreshTimes(m, start, at) {
      UnchangedIsSameStream(header, m, start, at);
    }
    body := Some(chunks);
  }

  /** The parts that were served so far, each as it was described. */
  ghost predicate Gathered(got: map<nat, Bytes>, stream: Bytes, parts: seq<Part>) {
    forall k :: k in got ==> k < |parts| && got[k] == Piece(stream, parts[k])
  }

  /** Some request for the part found the files unchanged. */
  ghost predicate ServedBy(m: Model, start: Moment, asks: seq<(nat, Moment)>, n: nat, k: nat)
    requires n <= |asks|
  {
    exists i: nat :: i < n && asks[i].0 == k && Unchanged(m, start, asks[i].1)
  }

  ghost predicate GotWhatWasServed(got: map<nat, Bytes>, m: Model, start: Moment, asks: seq<(nat, Moment)>, n: nat,
                                   count: nat)
    requires n <= |asks|
  {
    forall k: nat :: k in got <==> k < count && ServedBy(m, start, asks, n, k)
  }

  lemma OneMoreAsk(got: map<nat, Bytes>, got': map<nat, Bytes>, m: Model, start: Moment, asks: seq<(nat, Moment)>,
                   n: nat, count: nat)
    requires n < |asks| && GotWhatWasServed(got, m, start, asks, n, count)
    requires got'.Keys == if asks[n].0 < count && Unchanged(m, start, asks[n].1) then got.Keys + {asks[n].0}
                          else got.Keys
    ensures GotWhatWasServed(got', m, start, asks, n + 1, count)
  {
    forall k: nat
      ensures ServedBy(m, start, asks, n + 1, k)
              <==> ServedBy(m, start, asks, n, k) || (asks[n].0 == k && Unchanged(m, start, asks[n].1))
    {
    }
  }

  /** The parts in index order; what is missing is left out. */
  function InOrder(got: map<nat, Bytes>, n: nat): seq<Bytes> {
    if n == 0 then [] else InOrder(got, n - 1) + [if n - 1 in got then got[n - 1] else []]
  }

  lemma {:induction false} InOrderAt(got: map<nat, Bytes>, n: nat)
    ensures |InOrder(got, n)| == n
    ensures forall k: nat :: k < n && k in got ==> InOrder(got, n)[k] == got[k]
  {
    if n > 0 {
      InOrderAt(got, n - 1);
    }
  }

  lemma AllParts(got: map<nat, Bytes>, stream: Bytes, archive: string, size: nat, sha: Hash)
    requires size > 0 && Gathered(got, stream, PartsOf(stream, archive, size, sha))
    requires forall k: nat :: k < |PartsOf(stream, archive, size, sha)| ==> k in got
    ensures Concat(InOrder(got, |PartsOf(stream, archive, size, sha)|)) == stream
  {
    var parts := PartsOf(stream, archive, size, sha);
    InOrderAt(got, |parts|);
    ServedPartsRejoin(stream, archive, size, sha, InOrder(got, |parts|));
  }

  lemma AskedForAll(stream: Bytes, part: Part)
    ensures Asked(stream, part, "") == Piece(stream, part)
  {
  }

  /** A whole download over requests at different moments, in any order: every part that
      is served is the part that was described, and once there are all of them they are
      the stream of the manifest's checksum. */
  method Gather(header: Vtar.Header, m: Model, start: Moment, size: nat, sha: Hash, asks: seq<(nat, Moment)>)
    returns (manifest: Manifest, got: map<nat, Bytes>)
    requires size > 0 && Complete(m, start)
    requires forall i :: 0 <= i < |asks| ==> FreshTimes(m, start, asks[i].1)
    ensures manifest.archiveSha256 == sha(Stream(header, m, start.files))
    ensures Gathered(got, Stream(header, m, start.files), manifest.parts)
    ensures GotWhatWasServed(got, m, start, asks, |asks|, |manifest.parts|)
    ensures (forall k: nat :: k < |manifest.parts| ==> k in got) ==>
              Concat(InOrder(got, |manifest.parts|)) == Stream(header, m, start.files)
  {
    CompleteIsPresent(m, start);
    var computed := ComputeParts(header, m, start.files, size, sha);
    manifest := computed.value;
    got := map[];
    for i := 0 to |asks|
      invariant Gathered(got, Stream(header, m, start.files), manifest.parts)
      invariant GotWhatWasServed(got, m, start, asks, i, |manifest.parts|)
    {
      var before := got;
      got := Ask(header, m, manifest, start, asks[i].0, asks[i].1, got);
      OneMoreAsk(before, got, m, start, asks, i, |manifest.parts|);
    }
    if forall k: nat :: k < |manifest.parts| ==> k in got {
      AllParts(got, Stream(header, m, start.files), ArchiveName(m.name), size, sha);
    }
  }

  /** One request of the download, and what the client has after it. */
  method Ask(header: Vtar.Header, m: Model, manifest: Manifest, start: Moment, k: nat, at: Moment,
             before: map<nat, Bytes>)
    returns (got: map<nat, Bytes>)
    requires Complete(m, start) && FreshTimes(m, start, at)
    requires Gathered(before, Stream(header, m, start.files), manifest.parts)
    ensures Gathered(got, Stream(header, m, start.files), manifest.parts)
    ensures got.Keys == if k < |manifest.parts| && Unchanged(m, start, at) then before.Keys + {k} else before.Keys
  {
    got := before;
    if k < |manifest.parts| {
      var body := Request(header, m, manifest, start, IdentityOf(m, start), at, manifest.parts[k], "");
      if body.Some? {
        AskedForAll(Stream(header, m, start.files), manifest.parts[k]);
        got := got[k := Concat(body.value)];
      }
    }
  }
}
