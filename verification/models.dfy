/** services/llm_models.py: a model is downloaded file by file into a staging folder,
    resumed after interruptions, verified, and only then renamed and made ready. */
module Models {
  import opened Streams
  import Vtar

  type Digest = string
  type Files = map<string, Bytes>

  /** One file as the repository lists it: its size and what is published for it. */
  datatype Entry = Entry(name: string, size: nat, expectedSha256: Option<Digest>, blobId: Option<Digest>)

  datatype Recorded = Recorded(name: string, size: nat, sha256: Digest)

  datatype Status = Queued | Downloading | Verifying | Ready | Failed

  /** How a response ends: the stream closes, the connection breaks, a cancel is
      noticed before a read, or the process dies and the last bytes never reach the disk. */
  datatype Ending = Closes | Breaks | Cancels | Dies(lost: nat)

  datatype Response = Refused | Answer(partialContent: bool, chunks: seq<Bytes>, ending: Ending)

  /** A server answers a request for a file from an offset on. */
  type Server = (string, nat) -> Response

  datatype Outcome = Complete | TooLarge | Interrupted | Cancelled | Dead

  /** The hash functions, uninterpreted: SHA-256 and Git's blob id of a size and contents. */
  datatype Hashes = Hashes(sha256: Bytes -> Digest, blobId: (nat, Bytes) -> Digest)

  // ---- The server ----

  /** What a server that keeps the protocol sends is a prefix of this. */
  function Due(remote: Bytes, have: nat, partialContent: bool): Bytes {
    if partialContent && have <= |remote| then remote[have..] else remote
  }

  /** The file from where it was asked to, or from the start, as far as the answer gets. */
  ghost predicate Honest(r: Response, remote: Bytes, have: nat) {
    r.Answer? ==>
      && (r.partialContent ==> have <= |remote|)
      && Concat(r.chunks) <= Due(remote, have, r.partialContent)
  }

  /** An honest answer that is neither refused nor cut short. */
  ghost predicate Full(r: Response, remote: Bytes, have: nat) {
    && r.Answer? && r.ending.Closes? && [] !in r.chunks
    && (r.partialContent ==> have <= |remote|)
    && Concat(r.chunks) == Due(remote, have, r.partialContent)
  }

  // ---- One file ----

  /** What is on disk counts only up to the listed size: a longer file is discarded. */
  function Have(file: Option<Bytes>, size: nat): nat {
    if file.None? || |file.value| > size then 0 else |file.value|
  }

  function Kept(file: Option<Bytes>, size: nat): Option<Bytes> {
    if file.Some? && |file.value| > size then None else file
  }

  /** Where the answer's bytes go: after what is there, or over it. */
  function Base(file: Option<Bytes>, size: nat, partialContent: bool): Bytes {
    if partialContent && Kept(file, size).Some? then file.value else []
  }

  ghost predicate Prefix(file: Option<Bytes>, remote: Bytes) {
    file.Some? ==> file.value <= remote
  }

  lemma BaseJoins(file: Option<Bytes>, size: nat, remote: Bytes, partialContent: bool, sent: Bytes)
    requires Prefix(file, remote) && (partialContent ==> Have(file, size) <= |remote|)
    ensures sent <= Due(remote, Have(file, size), partialContent)
            ==> Base(file, size, partialContent) + sent <= remote
    ensures sent == Due(remote, Have(file, size), partialContent)
            ==> Base(file, size, partialContent) + sent == remote
  {
    if partialContent {
      assert remote[..Have(file, size)] + remote[Have(file, size)..] == remote;
    }
  }

  /** Writes the chunks until the stream ends or the file outgrows its listed size. */
  method Write(base: Bytes, size: nat, chunks: seq<Bytes>)
    returns (content: Bytes, ghost upTo: nat, closed: bool)
    requires |base| <= size
    ensures upTo <= |chunks| && content == base + Concat(chunks[..upTo])
    ensures upTo > 0 ==> |base + Concat(chunks[..upTo - 1])| <= size
    ensures |content| <= size ==> (closed <==> [] in chunks) && (!closed ==> upTo == |chunks|)
    ensures |base + Concat(chunks)| <= size ==> |content| <= size
  {
    content, upTo, closed := base, 0, false;
    for k := 0 to |chunks|
      invariant upTo == k && !closed && [] !in chunks[..k]
      invariant content == base + Concat(chunks[..k]) && |content| <= size
      invariant k > 0 ==> |base + Concat(chunks[..k - 1])| <= size
    {
      if chunks[k] == [] {
        closed := true;
        ConcatPrefix(chunks, k);
        return;
      }
      WriteStep(base, chunks, k);
      content, upTo := content + chunks[k], k + 1;
      if |content| > size {
        ConcatPrefix(chunks, k + 1);
        return;
      }
    }
    TakeAll(chunks);
  }

  lemma WriteStep(base: Bytes, chunks: seq<Bytes>, k: nat)
    requires k < |chunks|
    ensures base + Concat(chunks[..k + 1]) == base + Concat(chunks[..k]) + chunks[k]
  {
    assert chunks[..k + 1] == chunks[..k] + [chunks[k]];
    ConcatSnoc(chunks[..k], chunks[k]);
    Associate(base, Concat(chunks[..k]), chunks[k]);
  }

  lemma WrittenIsPrefix(file: Option<Bytes>, size: nat, r: Response, remote: Bytes, k: nat)
    requires r.Answer? && k <= |r.chunks|
    requires Prefix(file, remote) && Honest(r, remote, Have(file, size))
    ensures Base(file, size, r.partialContent) + Concat(r.chunks[..k]) <= remote
  {
    ConcatPrefix(r.chunks, k);
    PrefixTrans(Concat(r.chunks[..k]), Concat(r.chunks), Due(remote, Have(file, size), r.partialContent));
    BaseJoins(file, size, remote, r.partialContent, Concat(r.chunks[..k]));
  }

  lemma FullIsRemote(file: Option<Bytes>, size: nat, r: Response, remote: Bytes)
    requires Prefix(file, remote) && Full(r, remote, Have(file, size))
    ensures Base(file, size, r.partialContent) + Concat(r.chunks) == remote
    ensures Honest(r, remote, Have(file, size))
  {
    BaseJoins(file, size, remote, r.partialContent, Concat(r.chunks));
  }

  /** What was received, after what was there, is the remote file's as far as it goes. */
  lemma Received(file: Option<Bytes>, size: nat, r: Response, remote: Bytes, k: nat)
    requires r.Answer? && k <= |r.chunks|
    ensures Prefix(file, remote) && Honest(r, remote, Have(file, size))
            ==> Base(file, size, r.partialContent) + Concat(r.chunks[..k]) <= remote
    ensures Prefix(file, remote) && Full(r, remote, Have(file, size))
            ==> Base(file, size, r.partialContent) + Concat(r.chunks) == remote
  {
    if Prefix(file, remote) && Honest(r, remote, Have(file, size)) {
      WrittenIsPrefix(file, size, r, remote, k);
    }
    if Prefix(file, remote) && Full(r, remote, Have(file, size)) {
      FullIsRemote(file, size, r, remote);
    }
  }

  lemma SettleKeeps(content: Bytes, size: nat, ending: Ending, remote: Bytes)
    ensures content <= remote ==> Prefix(Settle(content, size, ending).0, remote)
  {
    if content <= remote && ending.Dies? {
      PrefixTrans(content[..Max(0, |content| - ending.lost)], content, remote);
    }
  }

  lemma AlreadyThere(file: Option<Bytes>, size: nat, remote: Bytes)
    requires Have(file, size) == size
    ensures Prefix(file, remote) ==> Prefix(Kept(file, size), remote)
    ensures Prefix(file, remote) && 0 < |remote| == size ==> Kept(file, size) == Some(remote)
  {
    if Prefix(file, remote) && 0 < |remote| == size {
      assert file.value == remote;
    }
  }

  /** What is on disk, and what is raised, once the last chunk has been written. */
  function Settle(content: Bytes, size: nat, ending: Ending): (r: (Option<Bytes>, Outcome)) {
    if |content| > size then (Some(content), TooLarge) else
    match ending
    case Closes => (Some(content), if |content| == size then Complete else Interrupted)
    case Breaks => (Some(content), Interrupted)
    case Cancels => (Some(content), Cancelled)
    case Dies(lost) => (Some(content[..Max(0, |content| - lost)]), Dead)
  }

  /** A file ends as it should exactly with its listed size; a larger one is never taken. */
  lemma SettleExactly(content: Bytes, size: nat, ending: Ending)
    ensures var (after, outcome) := Settle(content, size, ending);
            && (outcome.TooLarge? <==> |content| > size)
            && (outcome.Complete? <==> |content| == size && ending.Closes?)
            && (outcome.Cancelled? <==> |content| <= size && ending.Cancels?)
            && (outcome.Dead? <==> |content| <= size && ending.Dies?)
            && after.Some? && after.value <= content && (!outcome.Dead? ==> after.value == content)
  {
  }

  /** _download: one file, resuming a partial one. A file listed as empty is never
      created; every other complete file has exactly its listed size. What is on disk
      stays a prefix of the remote file, and a full answer completes it. */
  method Download(entry: Entry, file: Option<Bytes>, r: Response, ghost remote: Bytes)
    returns (after: Option<Bytes>, outcome: Outcome)
    ensures entry.size == 0 ==> outcome.Complete? && after == Kept(file, 0)
    ensures entry.size > 0 && outcome.Complete? ==> after.Some? && |after.value| == entry.size
    ensures Have(file, entry.size) < entry.size && r.Refused?
            ==> after == Kept(file, entry.size) && outcome.Interrupted?
    ensures Have(file, entry.size) < entry.size && r.Answer? && [] !in r.chunks
            && |Base(file, entry.size, r.partialContent) + Concat(r.chunks)| <= entry.size
            ==> (after, outcome)
                == Settle(Base(file, entry.size, r.partialContent) + Concat(r.chunks), entry.size, r.ending)
    ensures outcome.TooLarge? ==> after.Some? && |after.value| > entry.size
    ensures Prefix(file, remote) && Honest(r, remote, Have(file, entry.size)) ==> Prefix(after, remote)
    ensures Prefix(file, remote) && 0 < |remote| == entry.size
            && (Have(file, entry.size) < entry.size ==> Full(r, remote, Have(file, entry.size)))
            ==> outcome.Complete? && after == Some(remote)
  {
    after := Kept(file, entry.size);
    if Have(file, entry.size) == entry.size {
      AlreadyThere(file, entry.size, remote);
      return after, Complete;
    }
    if r.Refused? {
      return after, Interrupted;
    }
    var base := Base(file, entry.size, r.partialContent);
    var content, upTo, closed := Write(base, entry.size, r.chunks);
    Received(file, entry.size, r, remote, upTo);
    TakeAll(r.chunks);
    var settled := Settle(content, entry.size, if closed then Closes else r.ending);
    SettleKeeps(content, entry.size, if closed then Closes else r.ending, remote);
    after, outcome := settled.0, settled.1;
  }

  // ---- All files of a model ----

  function At(files: Files, name: string): Option<Bytes> {
    if name in files then Some(files[name]) else None
  }

  function Put(files: Files, name: string, file: Option<Bytes>): Files {
    if file.Some? then files[name := file.value] else files - {name}
  }

  /** The listing is a dictionary by file name. */
  ghost predicate Distinct(entries: seq<Entry>) {
    forall i, j :: 0 <= i < j < |entries| ==> entries[i].name != entries[j].name
  }

  function Nonempty(entries: seq<Entry>): set<string> {
    set e | e in entries && e.size > 0 :: e.name
  }

  ghost predicate Prefixes(files: Files, remote: string -> Bytes) {
    forall name :: name in files ==> files[name] <= remote(name)
  }

  ghost predicate HonestServer(server: Server, remote: string -> Bytes) {
    forall name: string, have: nat :: Honest(server(name, have), remote(name), have)
  }

  ghost predicate FullServer(server: Server, remote: string -> Bytes) {
    forall name: string, have: nat :: have < |remote(name)| ==> Full(server(name, have), remote(name), have)
  }

  ghost predicate Whole(entry: Entry, files: Files) {
    entry.size > 0 ==> entry.name in files && |files[entry.name]| == entry.size
  }

  ghost predicate WholeUpTo(entries: seq<Entry>, files: Files, n: nat)
    requires n <= |entries|
  {
    forall k :: 0 <= k < n ==> Whole(entries[k], files)
  }

  ghost predicate Got(entry: Entry, files: Files, remote: string -> Bytes) {
    entry.size > 0 ==> At(files, entry.name) == Some(remote(entry.name))
  }

  ghost predicate GotUpTo(entries: seq<Entry>, files: Files, remote: string -> Bytes, n: nat)
    requires n <= |entries|
  {
    forall k :: 0 <= k < n ==> Got(entries[k], files, remote)
  }

  /** The listing's sizes are the remote files' sizes. */
  ghost predicate RightSizes(entries: seq<Entry>, remote: string -> Bytes) {
    forall k :: 0 <= k < |entries| ==> |remote(entries[k].name)| == entries[k].size
  }

  lemma PutKeepsPrefixes(files: Files, name: string, file: Option<Bytes>, remote: string -> Bytes)
    requires Prefixes(files, remote) && Prefix(file, remote(name))
    ensures Prefixes(Put(files, name, file), remote)
  {
  }

  lemma PutMakesWhole(entries: seq<Entry>, files: Files, i: nat, file: Option<Bytes>)
    requires i < |entries| && Distinct(entries) && WholeUpTo(entries, files, i)
    requires entries[i].size > 0 ==> file.Some? && |file.value| == entries[i].size
    ensures WholeUpTo(entries, Put(files, entries[i].name, file), i + 1)
  {
    var after := Put(files, entries[i].name, file);
    forall k | 0 <= k < i
      ensures Whole(entries[k], after)
    {
      assert Whole(entries[k], files) && entries[k].name != entries[i].name;
    }
  }

  lemma PutMakesGot(entries: seq<Entry>, files: Files, i: nat, file: Option<Bytes>, remote: string -> Bytes)
    requires i < |entries| && Distinct(entries) && GotUpTo(entries, files, remote, i)
    requires entries[i].size > 0 ==> file == Some(remote(entries[i].name))
    ensures GotUpTo(entries, Put(files, entries[i].name, file), remote, i + 1)
  {
    var after := Put(files, entries[i].name, file);
    forall k | 0 <= k < i
      ensures Got(entries[k], after, remote)
    {
      assert Got(entries[k], files, remote) && entries[k].name != entries[i].name;
    }
  }

  lemma PutStaysListed(entries: seq<Entry>, files: Files, entry: Entry, file: Option<Bytes>)
    requires entry in entries && files.Keys <= Nonempty(entries) && (file.Some? ==> entry.size > 0)
    ensures Put(files, entry.name, file).Keys <= Nonempty(entries)
  {
  }

  lemma EmptyIsNotStaged(entries: seq<Entry>, files: Files, i: nat)
    requires i < |entries| && Distinct(entries) && files.Keys <= Nonempty(entries) && entries[i].size == 0
    ensures entries[i].name !in files
  {
    forall j | 0 <= j < |entries| && entries[j].size > 0
      ensures entries[j].name != entries[i].name
    {
      assert entries[Min(i, j)].name != entries[Max(i, j)].name;
    }
  }

  /** Step i of the download loop. */
  method DownloadEntry(entries: seq<Entry>, i: nat, files: Files, server: Server, ghost remote: string -> Bytes)
    returns (after: Files, outcome: Outcome)
    requires i < |entries| && Distinct(entries) && files.Keys <= Nonempty(entries)
    ensures after.Keys <= Nonempty(entries)
    ensures WholeUpTo(entries, files, i) && outcome.Complete? ==> WholeUpTo(entries, after, i + 1)
    ensures Prefixes(files, remote) && HonestServer(server, remote) ==> Prefixes(after, remote)
    ensures Prefixes(files, remote) && FullServer(server, remote) && RightSizes(entries, remote)
            ==> outcome.Complete? && Prefixes(after, remote)
                && (GotUpTo(entries, files, remote, i) ==> GotUpTo(entries, after, remote, i + 1))
  {
    var entry := entries[i];
    var file := At(files, entry.name);
    var response := server(entry.name, Have(file, entry.size));
    if entry.size == 0 {
      EmptyIsNotStaged(entries, files, i);
    }
    var got: Option<Bytes>;
    got, outcome := Download(entry, file, response, remote(entry.name));
    after := Put(files, entry.name, got);
    PutStaysListed(entries, files, entry, got);
    if WholeUpTo(entries, files, i) && outcome.Complete? {
      PutMakesWhole(entries, files, i, got);
    }
    if Prefixes(files, remote) && Prefix(got, remote(entry.name)) {
      PutKeepsPrefixes(files, entry.name, got, remote);
    }
    if GotUpTo(entries, files, remote, i) && (entry.size > 0 ==> got == Some(remote(entry.name))) {
      PutMakesGot(entries, files, i, got, remote);
    }
  }

  /** The download loop of run. */
  method DownloadAll(entries: seq<Entry>, files: Files, server: Server, ghost remote: string -> Bytes)
    returns (after: Files, outcome: Outcome)
    requires Distinct(entries) && files.Keys <= Nonempty(entries)
    ensures after.Keys <= Nonempty(entries)
    ensures outcome.Complete? ==> WholeUpTo(entries, after, |entries|)
    ensures Prefixes(files, remote) && HonestServer(server, remote) ==> Prefixes(after, remote)
    ensures Prefixes(files, remote) && FullServer(server, remote) && RightSizes(entries, remote)
            ==> outcome.Complete? && GotUpTo(entries, after, remote, |entries|) && Prefixes(after, remote)
  {
    after, outcome := files, Complete;
    ghost var full := Prefixes(files, remote) && FullServer(server, remote) && RightSizes(entries, remote);
    for i := 0 to |entries|
      invariant after.Keys <= Nonempty(entries)
      invariant outcome.Complete? && WholeUpTo(entries, after, i)
      invariant Prefixes(files, remote) && HonestServer(server, remote) ==> Prefixes(after, remote)
      invariant full ==> Prefixes(after, remote) && GotUpTo(entries, after, remote, i)
    {
      after, outcome := DownloadEntry(entries, i, after, server, remote);
      if !outcome.Complete? {
        return;
      }
    }
  }

  // ---- Verification ----

  /** An identifier the listing leaves out or leaves empty is not checked. */
  predicate Published(id: Option<Digest>) {
    id.Some? && id.value != ""
  }

  /** The published SHA-256 decides; only without one does the blob id. */
  predicate Matches(hashes: Hashes, entry: Entry, content: Bytes) {
    if Published(entry.expectedSha256) then hashes.sha256(content) == entry.expectedSha256.value
    else Published(entry.blobId) ==> hashes.blobId(entry.size, content) == entry.blobId.value
  }

  /** _verify: its SHA-256, or what is left of the staging folder when it is refused. */
  method Verify(hashes: Hashes, entry: Entry, files: Files) returns (after: Files, sum: Option<Digest>)
    ensures sum.Some? <==> entry.name in files && Matches(hashes, entry, files[entry.name])
    ensures sum.Some? && entry.expectedSha256.Some? && entry.expectedSha256.value != "" ==>
              hashes.sha256(files[entry.name]) == entry.expectedSha256.value
    ensures sum.Some? && (entry.expectedSha256.None? || entry.expectedSha256.value == "")
            && entry.blobId.Some? && entry.blobId.value != "" ==>
              hashes.blobId(entry.size, files[entry.name]) == entry.blobId.value
    ensures sum.None? && entry.name in files ==>
              || (entry.expectedSha256.Some? && entry.expectedSha256.value != ""
                  && hashes.sha256(files[entry.name]) != entry.expectedSha256.value)
              || ((entry.expectedSha256.None? || entry.expectedSha256.value == "")
                  && entry.blobId.Some? && entry.blobId.value != ""
                  && hashes.blobId(entry.size, files[entry.name]) != entry.blobId.value)
    ensures sum.Some? ==> after == files && sum.value == hashes.sha256(files[entry.name])
    ensures sum.None? ==> after == files - {entry.name}
  {
    if entry.name !in files {
      assert files - {entry.name} == files;
      return files, None;
    }
    var checksum := hashes.sha256(files[entry.name]);
    if Published(entry.expectedSha256) {
      if checksum != entry.expectedSha256.value {
        return files - {entry.name}, None;
      }
    } else if Published(entry.blobId) {
      if hashes.blobId(entry.size, files[entry.name]) != entry.blobId.value {
        return files - {entry.name}, None;
      }
    }
    return files, Some(checksum);
  }

  /** What a ready model's record says of one of its files. */
  ghost predicate SoundAt(hashes: Hashes, entry: Entry, files: Files, recorded: Recorded) {
    && entry.name in files && |files[entry.name]| == entry.size > 0
    && recorded == Recorded(entry.name, entry.size, hashes.sha256(files[entry.name]))
    && Matches(hashes, entry, files[entry.name])
  }

  ghost predicate Sound(hashes: Hashes, entries: seq<Entry>, files: Files, recorded: seq<Recorded>)
  {
    && |recorded| <= |entries|
    && forall k :: 0 <= k < |recorded| ==> SoundAt(hashes, entries[k], files, recorded[k])
  }

  ghost predicate Passes(hashes: Hashes, entry: Entry, files: Files) {
    entry.name in files && Matches(hashes, entry, files[entry.name])
  }

  /** The verification loop of run: every file passes, or the first that does not is
      removed and the others stay for the next attempt. */
  method VerifyAll(hashes: Hashes, entries: seq<Entry>, files: Files)
    returns (after: Files, recorded: seq<Recorded>, refused: bool)
    requires Distinct(entries) && files.Keys <= Nonempty(entries) && WholeUpTo(entries, files, |entries|)
    ensures refused <==> exists k :: 0 <= k < |entries| && !Passes(hashes, entries[k], files)
    ensures !refused ==> after == files && |recorded| == |entries| && Sound(hashes, entries, files, recorded)
    ensures refused ==> exists entry :: entry in entries && after == files - {entry.name}
  {
    after, recorded, refused := files, [], false;
    for i := 0 to |entries|
      invariant after == files && !refused
      invariant |recorded| == i && Sound(hashes, entries, files, recorded)
      invariant forall k :: 0 <= k < i ==> Passes(hashes, entries[k], files)
    {
      if entries[i].size == 0 {
        EmptyIsNotStaged(entries, files, i);
      }
      var sum: Option<Digest>;
      after, sum := Verify(hashes, entries[i], files);
      if sum.None? {
        refused := true;
        assert !Passes(hashes, entries[i], files);
        return;
      }
      assert Whole(entries[i], files);
      recorded := recorded + [Recorded(entries[i].name, entries[i].size, sum.value)];
    }
  }

  // ---- A model's life ----

  const HEADROOM := 2_000_000_000

  /** What of the listing is already staged, file by file up to its listed size. */
  function Already(entries: seq<Entry>, files: Files): nat {
    if entries == [] then 0 else
    var entry := entries[|entries| - 1];
    Already(entries[..|entries| - 1], files)
    + if entry.name in files then Min(|files[entry.name]|, entry.size) else 0
  }

  function Total(entries: seq<Entry>): nat {
    if entries == [] then 0 else Total(entries[..|entries| - 1]) + entries[|entries| - 1].size
  }

  /** Sizes add up, file by file and in any grouping. */
  lemma {:induction false} SizesAdd(a: seq<Entry>, b: seq<Entry>, entry: Entry, files: Files)
    ensures Total(a + b) == Total(a) + Total(b) && Already(a + b, files) == Already(a, files) + Already(b, files)
    ensures Total([entry]) == entry.size && Total([]) == 0 && Already([], files) == 0
    ensures Already([entry], files)
         == if entry.name !in files then 0
            else if |files[entry.name]| < entry.size then |files[entry.name]| else entry.size
  {
    assert [entry][..0] == [];
    if b == [] {
      assert a + b == a;
    } else {
      SizesAdd(a, b[..|b| - 1], entry, files);
      assert (a + b)[..|a + b| - 1] == a + b[..|b| - 1];
    }
  }

  /** Where the process dies after the downloads, if it does. */
  datatype Crash = NoCrash | BeforeVerifying | AfterRefusal | AfterRename

  /** What one attempt meets: the server, the free space, a late cancel, whether the
      parts can be computed, and a crash. */
  datatype Conditions = Conditions(server: Server, free: int, cancelled: bool, partsFail: bool, crash: Crash)

  predicate Undisturbed(c: Conditions, entries: seq<Entry>, files: Files) {
    && c.free >= Total(entries) - Already(entries, files) + HEADROOM
    && !c.cancelled && !c.partsFail && c.crash.NoCrash?
  }

  /** What is published for every file is right for the remote file. */
  ghost predicate RightIds(hashes: Hashes, entries: seq<Entry>, remote: string -> Bytes) {
    forall k :: 0 <= k < |entries| ==> Matches(hashes, entries[k], remote(entries[k].name))
  }

  ghost predicate NoneEmpty(entries: seq<Entry>) {
    forall k :: 0 <= k < |entries| ==> entries[k].size > 0
  }

  ghost predicate AllPass(hashes: Hashes, entries: seq<Entry>, files: Files) {
    forall k :: 0 <= k < |entries| ==> Passes(hashes, entries[k], files)
  }

  /** Everything fetched in full passes, except that a file listed as empty was never created. */
  lemma GotAllPasses(hashes: Hashes, entries: seq<Entry>, files: Files, remote: string -> Bytes)
    requires Distinct(entries) && files.Keys <= Nonempty(entries)
    requires GotUpTo(entries, files, remote, |entries|) && RightIds(hashes, entries, remote)
    ensures AllPass(hashes, entries, files) <==> NoneEmpty(entries)
  {
    forall k | 0 <= k < |entries|
      ensures Passes(hashes, entries[k], files) <==> entries[k].size > 0
    {
      assert Got(entries[k], files, remote);
      if entries[k].size == 0 {
        EmptyIsNotStaged(entries, files, k);
      }
    }
  }

  class ModelService {
    const entries: seq<Entry>
    const hashes: Hashes
    ghost const remote: string -> Bytes
    var status: Status
    var staging: Files
    var final: Option<Files>
    var recorded: seq<Recorded>

    ghost predicate Valid()
      reads this
    {
      && Distinct(entries) && staging.Keys <= Nonempty(entries)
      && (status.Ready? ==> final.Some? && |recorded| == |entries| && Sound(hashes, entries, final.value, recorded))
    }

    /** Nothing on disk that is not the remote's, as far as it goes. */
    ghost predicate Untainted()
      reads this
    {
      Prefixes(staging, remote) && (final.Some? ==> Prefixes(final.value, remote))
    }

    constructor (entries: seq<Entry>, hashes: Hashes, ghost remote: string -> Bytes, final: Option<Files>)
      requires Distinct(entries)
      ensures Valid() && status.Queued? && staging == map[] && this.final == final
      ensures this.entries == entries && this.remote == remote
    {
      this.entries, this.hashes, this.remote := entries, hashes, remote;
      status, staging, this.final, recorded := Queued, map[], final, [];
    }

    /** request on a failed model. */
    method Retry()
      requires Valid()
      modifies `status
      ensures Valid() && status == if old(status).Failed? then Queued else old(status)
    {
      if status.Failed? {
        status := Queued;
      }
    }

    /** recover: what a stop interrupted is queued again, whatever it was doing. */
    method Recover()
      requires Valid()
      modifies `status
      ensures Valid()
      ensures status == if old(status) in {Queued, Downloading, Verifying} then Queued else old(status)
    {
      if status in {Queued, Downloading, Verifying} {
        status := Queued;
      }
    }

    /** The end of run, once every file is staged: verify, move into place, make ready. */
    method Publish(c: Conditions)
      requires Valid() && status.Downloading? && WholeUpTo(entries, staging, |entries|)
      modifies this
      ensures Valid()
      ensures old(final).Some? ==> final == old(final) && !status.Ready?
      ensures old(Untainted()) ==> Untainted()
      ensures !c.cancelled && !c.partsFail && c.crash.NoCrash? ==>
                (status.Ready? <==> old(final).None?
                                    && old(AllPass(hashes, entries, staging)))
      ensures status.Ready? ==> final == Some(old(staging))
    {
      status := Verifying;
      if c.crash.BeforeVerifying? {
        return;
      }
      var sums, refused;
      staging, sums, refused := VerifyAll(hashes, entries, staging);
      if refused {
        if !c.crash.AfterRefusal? {
          status := Failed;
        }
        return;
      }
      if c.cancelled {
        staging := map[];
        return;
      }
      if final.Some? {
        status := Failed;
        return;
      }
      final, staging := Some(staging), map[];
      if c.crash.AfterRename? {
        return;
      }
      if c.partsFail {
        status := Failed;
        return;
      }
      status, recorded := Ready, sums;
    }

    /** run: one attempt. */
    method Run(c: Conditions)
      requires Valid()
      modifies this
      ensures Valid()
      ensures old(status) !in {Queued, Downloading} ==> unchanged(this)
      ensures old(status) in {Queued, Downloading}
              && c.free < Total(entries) - old(Already(entries, staging)) + HEADROOM
              ==> status.Failed? && staging == old(staging) && final == old(final) && recorded == old(recorded)
      ensures old(final).Some? ==> final == old(final) && (status.Ready? ==> old(status).Ready?)
      ensures HonestServer(c.server, remote) && old(Untainted()) ==> Untainted()
      ensures old(status) in {Queued, Downloading} && old(Untainted())
              && FullServer(c.server, remote) && RightSizes(entries, remote) && RightIds(hashes, entries, remote)
              && Undisturbed(c, entries, old(staging))
              ==> (status.Ready? <==> old(final).None? && NoneEmpty(entries))
    {
      if status !in {Queued, Downloading} {
        return;
      }
      status := Downloading;
      if c.free < Total(entries) - Already(entries, staging) + HEADROOM {
        status := Failed;
        return;
      }
      ghost var full := FullServer(c.server, remote) && RightSizes(entries, remote) && Prefixes(staging, remote);
      var outcome;
      staging, outcome := DownloadAll(entries, staging, c.server, remote);
      match outcome {
        case Dead =>
        case Cancelled => staging := map[];
        case TooLarge => status := Failed;
        case Interrupted => status := Failed;
        case Complete =>
          if full && RightIds(hashes, entries, remote) {
            GotAllPasses(hashes, entries, staging, remote);
          }
          Publish(c);
      }
    }
  }

  /** A ready model's files are the remote ones wherever the listing's sizes are right. */
  lemma ReadyIsRemote(hashes: Hashes, entries: seq<Entry>, files: Files, recorded: seq<Recorded>,
                      remote: string -> Bytes, k: nat)
    requires Sound(hashes, entries, files, recorded) && k < |recorded| && Prefixes(files, remote)
    requires |remote(entries[k].name)| == entries[k].size
    ensures files[entries[k].name] == remote(entries[k].name)
    ensures recorded[k].sha256 == hashes.sha256(remote(entries[k].name))
  {
    assert SoundAt(hashes, entries[k], files, recorded[k]);
    assert files[entries[k].name] <= remote(entries[k].name);
  }

  datatype Event = Attempt(conditions: Conditions) | Restart | Requested

  /** Any sequence of attempts, restarts and requests: from an honest server nothing
      else ever reaches the disk, and a folder that was there before is never replaced. */
  method Live(model: ModelService, events: seq<Event>)
    requires model.Valid() && model.Untainted()
    requires forall i :: 0 <= i < |events| && events[i].Attempt?
                         ==> HonestServer(events[i].conditions.server, model.remote)
    modifies model
    ensures model.Valid() && model.Untainted()
    ensures old(model.final).Some? ==> model.final == old(model.final)
    ensures old(model.final).Some? && !old(model.status).Ready? ==> !model.status.Ready?
  {
    for i := 0 to |events|
      invariant model.Valid() && model.Untainted()
      invariant old(model.final).Some? ==> model.final == old(model.final)
      invariant old(model.final).Some? && !old(model.status).Ready? ==> !model.status.Ready?
    {
      match events[i]
      case Attempt(conditions) => model.Run(conditions);
      case Restart => model.Recover();
      case Requested => model.Retry();
    }
  }

  // ---- From ready to the receiver ----

  /** The record a tar layout is made from. */
  function Members(recorded: seq<Recorded>): (entries: seq<Vtar.Entry>)
    ensures |entries| == |recorded|
    ensures forall k :: 0 <= k < |recorded| ==> entries[k] == Vtar.Entry(recorded[k].name, recorded[k].size)
  {
    if recorded == [] then [] else
    Members(recorded[..|recorded| - 1])
    + [Vtar.Entry(recorded[|recorded| - 1].name, recorded[|recorded| - 1].size)]
  }

  /** The model's folder on disk holds its files. */
  ghost predicate InFolder(files: Files, folder: string, disk: Vtar.Files) {
    forall name :: name in files ==>
      Vtar.Join(folder, name) in disk && disk[Vtar.Join(folder, name)] == files[name]
  }

  /** Every part of a ready model can be served: its files are there in full. */
  lemma ReadyIsPresent(hashes: Hashes, entries: seq<Entry>, files: Files, recorded: seq<Recorded>,
                       folder: string, disk: Vtar.Files)
    requires Sound(hashes, entries, files, recorded) && InFolder(files, folder, disk)
    ensures Vtar.Present(disk, folder, Members(recorded))
  {
    forall k | 0 <= k < |recorded|
      ensures Vtar.BackedBy(Vtar.FromFile(Vtar.Join(folder, Members(recorded)[k].name)), Members(recorded)[k].size,
                            disk)
    {
      assert SoundAt(hashes, entries[k], files, recorded[k]);
    }
  }

  lemma {:induction false} ListingAt(disk: Vtar.Files, folder: string, top: string, entries: seq<Vtar.Entry>, k: nat)
    requires k < |entries|
    ensures |Vtar.Listing(disk, folder, top, entries)| == |entries|
    ensures Vtar.Listing(disk, folder, top, entries)[k]
         == Vtar.Unpacked(Vtar.Regular, Vtar.Join(top, entries[k].name),
                          Vtar.Fit(Vtar.OnDisk(disk, Vtar.Join(folder, entries[k].name)), entries[k].size))
  {
    if k > 0 {
      ListingAt(disk, folder, top, entries[1..], k - 1);
    } else if |entries| > 1 {
      ListingAt(disk, folder, top, entries[1..], 0);
    }
  }

  /** What a receiver unpacks from a ready model's stream: every file under its recorded
      name, with the recorded SHA-256, and matching what is published for it. */
  lemma ReceivedMatchesRecord(hashes: Hashes, entries: seq<Entry>, files: Files, recorded: seq<Recorded>,
                              folder: string, top: string, disk: Vtar.Files, k: nat)
    requires Sound(hashes, entries, files, recorded) && InFolder(files, folder, disk) && k < |recorded|
    ensures |Vtar.Listing(disk, folder, top, Members(recorded))| == |recorded|
    ensures var member := Vtar.Listing(disk, folder, top, Members(recorded))[k];
            && member.kind == Vtar.Regular && member.name == Vtar.Join(top, entries[k].name)
            && member.content == files[entries[k].name]
            && hashes.sha256(member.content) == recorded[k].sha256
            && Matches(hashes, entries[k], member.content)
  {
    assert SoundAt(hashes, entries[k], files, recorded[k]);
    ListingAt(disk, folder, top, Members(recorded), k);
    TakeAll(files[entries[k].name]);
  }
}
