/** services/splitting.py, SplitService: background jobs that describe an archive
    while it may be replaced, as steps of one state machine. Every run is a
    sequence of events; an event that does not apply leaves the state as it is. */
module SplitJobs {
  import opened Streams
  import opened Splitting
  import Text

  /** st_size and st_mtime_ns */
  datatype Identity = Identity(size: nat, mtime: int)

  datatype File = File(content: Bytes, id: Identity)

  datatype Manifest = Manifest(archive: string, size: nat, mtime: int, sha256: Digest, partSize: nat, parts: seq<Part>)

  /** What the checks can tell archives apart by: file name, size and modification time. */
  datatype Key = Key(name: string, id: Identity)

  /** The columns of a build row the service reads and writes. */
  datatype Row = Row(ready: bool, path: Option<string>, sha256: Option<Digest>, parts: Option<Manifest>)

  datatype Stage =
    | Started
    | Reading(before: Identity, got: Bytes)
    | Hashed(read: Identity, parts: seq<Part>, checksum: Digest)
    | Described(manifest: Manifest)
    | Stored

  /** One start request and then one thread: what start() captured, and how far _run is. */
  datatype Job = Job(build: string, path: string, archive: string, expected: Digest, size: nat, stage: Stage)

  datatype Status = Running | Failed

  datatype State = State(
    disk: map<string, File>,
    ghost seen: map<Key, Bytes>,
    ghost had: set<(string, Identity)>,
    rows: map<string, Row>,
    statuses: map<string, Status>,
    requests: map<int, Job>,
    threads: map<int, Job>)

  datatype Event =
    | Write(file: string, content: Bytes, mtime: int)
    | Remove(file: string)
    | SetRow(build: string, ready: bool, path: Option<string>, sha256: Option<Digest>)
    | DropRow(build: string)
    | Check(t: int, build: string, size: nat)
    | Claim(t: int)
    | Stat(t: int)
    | ReadChunk(t: int, count: nat, torn: Bytes)
    | EndOfFile(t: int)
    | Restat(t: int)
    | Commit(t: int)
    | Release(t: int)
    | Crash(t: int)
    | Restart

  function BaseName(path: string): string { path[Text.AfterLast(path, '/')..] }

  predicate SafeChar(c: char) {
    'A' <= c <= 'Z' || 'a' <= c <= 'z' || '0' <= c <= '9' || c in "._+-"
  }

  /** SAFE_NAME */
  predicate SafeName(name: string) {
    0 < |name| <= 201 && name[0] !in "._+-" && forall c :: c in name ==> SafeChar(c)
  }

  /** current_manifest: the stored manifest, if it still describes the archive on disk. */
  function CurrentManifest(row: Row, disk: map<string, File>): Option<Manifest> {
    if row.parts.None? || row.path.None? || row.path.value !in disk then None
    else
      var m, id := row.parts.value, disk[row.path.value].id;
      if m.archive == BaseName(row.path.value) && Some(m.sha256) == row.sha256 && Identity(m.size, m.mtime) == id
      then Some(m) else None
  }

  // ------------------------------------------------------------- the steps

  function SetStage(s: State, t: int, stage: Stage): State
    requires t in s.threads
  {
    s.(threads := s.threads[t := s.threads[t].(stage := stage)])
  }

  /** The except branch of _run. */
  function FailJob(s: State, t: int): State
    requires t in s.threads
  {
    s.(statuses := s.statuses[s.threads[t].build := Failed], threads := s.threads - {t})
  }

  function KeyOf(path: string, id: Identity): Key { Key(BaseName(path), id) }

  /** An archive gets new contents. */
  ghost function WriteStep(s: State, file: string, content: Bytes, mtime: int): State {
    var id := Identity(|content|, mtime);
    s.(disk := s.disk[file := File(content, id)], seen := s.seen[KeyOf(file, id) := content],
       had := s.had + {(file, id)})
  }

  function SetRowStep(s: State, build: string, ready: bool, path: Option<string>, sha256: Option<Digest>): State {
    var parts := if build in s.rows then s.rows[build].parts else None;
    s.(rows := s.rows[build := Row(ready, path, sha256, parts)])
  }

  /** start(), up to the lock: everything it reads from the row and the disk. */
  function CheckStep(s: State, t: int, build: string, size: nat): State {
    if t in s.requests || t in s.threads || build !in s.rows || size == 0 then s
    else
      var row := s.rows[build];
      if !row.ready || row.path.None? || row.sha256.None? || row.path.value !in s.disk
         || !SafeName(BaseName(row.path.value)) || CurrentManifest(row, s.disk).Some? then s
      else
        var job := Job(build, row.path.value, BaseName(row.path.value), row.sha256.value, size, Started);
        s.(requests := s.requests[t := job])
  }

  /** start(), inside the lock: one running job per build. */
  function ClaimStep(s: State, t: int): State {
    if t !in s.requests || t in s.threads then s
    else
      var job, waiting := s.requests[t], s.(requests := s.requests - {t});
      if (job.build in s.statuses && s.statuses[job.build] == Running) || job.path !in s.disk then waiting
      else waiting.(statuses := s.statuses[job.build := Running], threads := s.threads[t := job])
  }

  function StatStep(s: State, t: int): State
    requires t in s.threads && s.threads[t].stage.Started?
  {
    var job := s.threads[t];
    if job.path in s.disk then SetStage(s, t, Reading(s.disk[job.path].id, [])) else FailJob(s, t)
  }

  /** The next chunk of the open archive. Once the archive is no longer the one that
      was measured, a read may return anything (old file, new file, a mix). */
  function NextChunk(s: State, job: Job, count: nat, torn: Bytes): Bytes
    requires job.stage.Reading?
  {
    var got, left := |job.stage.got|, job.stage.before.size - |job.stage.got|;
    if job.path in s.disk && s.disk[job.path].id == job.stage.before
    then Window(s.disk[job.path].content, got, got + Max(0, Min(count, left)))
    else Window(torn, 0, Max(0, Min(|torn|, left)))
  }

  function ReadStep(s: State, t: int, count: nat, torn: Bytes): State
    requires t in s.threads && s.threads[t].stage.Reading?
  {
    var job := s.threads[t];
    var chunk := NextChunk(s, job, count, torn);
    SetStage(s, t, Reading(job.stage.before, job.stage.got + chunk))
  }

  /** hash_parts returns, or _file_chunks or hash_parts found the archive too short. */
  function EndStep(s: State, t: int, sha: Hash): State
    requires t in s.threads && s.threads[t].stage.Reading?
  {
    var job := s.threads[t];
    if |job.stage.got| != job.stage.before.size || job.size == 0 then FailJob(s, t)
    else SetStage(s, t, Hashed(job.stage.before, PartsOf(job.stage.got, job.archive, job.size, sha),
                               sha(job.stage.got)))
  }

  /** compute()'s two checks after the pass. */
  function RestatStep(s: State, t: int): State
    requires t in s.threads && s.threads[t].stage.Hashed?
  {
    var job := s.threads[t];
    var st := job.stage;
    if job.path !in s.disk || s.disk[job.path].id != st.read || st.checksum != job.expected then FailJob(s, t)
    else SetStage(s, t, Described(Manifest(job.archive, st.read.size, st.read.mtime, st.checksum, job.size, st.parts)))
  }

  function CommitStep(s: State, t: int): State
    requires t in s.threads && s.threads[t].stage.Described?
  {
    var job := s.threads[t];
    if job.build !in s.rows || s.rows[job.build].sha256 != Some(job.expected)
       || s.rows[job.build].path != Some(job.path) then FailJob(s, t)
    else
      var stored := SetStage(s, t, Stored);
      stored.(rows := s.rows[job.build := s.rows[job.build].(parts := Some(job.stage.manifest))])
  }

  function ReleaseStep(s: State, t: int): State
    requires t in s.threads
  {
    s.(statuses := s.statuses - {s.threads[t].build}, threads := s.threads - {t})
  }

  ghost function Step(s: State, e: Event, sha: Hash): State {
    match e
    case Write(file, content, mtime) => WriteStep(s, file, content, mtime)
    case Remove(file) => s.(disk := s.disk - {file})
    case SetRow(build, ready, path, sha256) => SetRowStep(s, build, ready, path, sha256)
    case DropRow(build) => s.(rows := s.rows - {build})
    case Check(t, build, size) => CheckStep(s, t, build, size)
    case Claim(t) => ClaimStep(s, t)
    case Stat(t) => if t in s.threads && s.threads[t].stage.Started? then StatStep(s, t) else s
    case ReadChunk(t, count, torn) =>
      if t in s.threads && s.threads[t].stage.Reading? then ReadStep(s, t, count, torn) else s
    case EndOfFile(t) => if t in s.threads && s.threads[t].stage.Reading? then EndStep(s, t, sha) else s
    case Restat(t) => if t in s.threads && s.threads[t].stage.Hashed? then RestatStep(s, t) else s
    case Commit(t) => if t in s.threads && s.threads[t].stage.Described? then CommitStep(s, t) else s
    case Release(t) => if t in s.threads && s.threads[t].stage.Stored? then ReleaseStep(s, t) else s
    case Crash(t) => if t in s.threads && !s.threads[t].stage.Stored? then FailJob(s, t) else s
    case Restart => s.(statuses := map[], requests := map[], threads := map[])
  }

  ghost function Run(s: State, events: seq<Event>, sha: Hash): State {
    if events == [] then s else Step(Run(s, events[..|events| - 1], sha), events[|events| - 1], sha)
  }

  /** What the checks rest on: other contents under the same file name have another size
      or modification time, and a path that was rewritten does not get an earlier size and
      time back. Copies and moves of the same contents may keep theirs. */
  ghost predicate Fresh(s: State, e: Event) {
    e.Write? ==>
      var id := Identity(|e.content|, e.mtime);
      && (KeyOf(e.file, id) in s.seen ==> s.seen[KeyOf(e.file, id)] == e.content)
      && ((e.file, id) in s.had ==> e.file in s.disk && s.disk[e.file].id == id)
  }

  ghost predicate FreshRun(events: seq<Event>, sha: Hash) {
    events == [] ||
      (FreshRun(events[..|events| - 1], sha) && Fresh(Run(EMPTY, events[..|events| - 1], sha), events[|events| - 1]))
  }

  const EMPTY: State := State(map[], map[], {}, map[], map[], map[], map[])

  // -------------------------------------------------------- the invariant

  /** Identities never lie about the length, and each key names the one content written under it. */
  ghost predicate DiskOk(disk: map<string, File>, seen: map<Key, Bytes>, had: set<(string, Identity)>) {
    && (forall key :: key in seen ==> key.id.size == |seen[key]|)
    && (forall p :: p in disk ==> KeyOf(p, disk[p].id) in seen && seen[KeyOf(p, disk[p].id)] == disk[p].content)
    && (forall p :: p in disk ==> (p, disk[p].id) in had)
  }

  /** The manifest is the one of the content its name, size and time were written with. */
  ghost predicate Describes(m: Manifest, seen: map<Key, Bytes>, sha: Hash) {
    var key := Key(m.archive, Identity(m.size, m.mtime));
    && m.partSize > 0 && key in seen
    && m.parts == PartsOf(seen[key], m.archive, m.partSize, sha) && m.sha256 == sha(seen[key])
  }

  ghost predicate RowsOk(rows: map<string, Row>, seen: map<Key, Bytes>, sha: Hash) {
    forall b :: b in rows && rows[b].parts.Some? ==> Describes(rows[b].parts.value, seen, sha)
  }

  ghost predicate Unchanged(path: string, id: Identity, disk: map<string, File>) {
    path in disk && disk[path].id == id
  }

  /** As long as the archive is the one that was measured, the job has read that one. */
  ghost predicate JobOk(job: Job, disk: map<string, File>, seen: map<Key, Bytes>, had: set<(string, Identity)>,
                        sha: Hash) {
    && job.size > 0 && job.archive == BaseName(job.path)
    && match job.stage
       case Started => true
       case Stored => true
       case Reading(before, got) =>
         var key := Key(job.archive, before);
         key in seen && (job.path, before) in had && (Unchanged(job.path, before, disk) ==> got <= seen[key])
       case Hashed(read, parts, checksum) =>
         var key := Key(job.archive, read);
         key in seen && (job.path, read) in had && (Unchanged(job.path, read, disk) ==>
           parts == PartsOf(seen[key], job.archive, job.size, sha) && checksum == sha(seen[key]))
       case Described(m) => Describes(m, seen, sha)
  }

  ghost predicate ThreadsOk(threads: map<int, Job>, disk: map<string, File>, seen: map<Key, Bytes>,
                            had: set<(string, Identity)>, sha: Hash)
  {
    forall t :: t in threads ==> JobOk(threads[t], disk, seen, had, sha)
  }

  ghost predicate RequestsOk(requests: map<int, Job>) {
    forall t :: t in requests ==>
      requests[t].stage.Started? && requests[t].size > 0 && requests[t].archive == BaseName(requests[t].path)
  }

  /** A thread's build is marked running, and no two threads share a build. */
  ghost predicate ClaimsOk(statuses: map<string, Status>, threads: map<int, Job>) {
    && (forall t :: t in threads ==> threads[t].build in statuses && statuses[threads[t].build] == Running)
    && (forall t, u :: t in threads && u in threads && threads[t].build == threads[u].build ==> t == u)
  }

  ghost predicate Inv(s: State, sha: Hash) {
    && DiskOk(s.disk, s.seen, s.had)
    && RowsOk(s.rows, s.seen, sha)
    && ThreadsOk(s.threads, s.disk, s.seen, s.had, sha)
    && RequestsOk(s.requests)
    && ClaimsOk(s.statuses, s.threads)
  }

  // --------------------------------------------------- every step keeps it

  lemma StageKeepsClaims(s: State, t: int, stage: Stage)
    requires t in s.threads && ClaimsOk(s.statuses, s.threads)
    ensures ClaimsOk(s.statuses, SetStage(s, t, stage).threads)
  {
  }

  lemma StageKeeps(s: State, t: int, stage: Stage, sha: Hash)
    requires Inv(s, sha) && t in s.threads && JobOk(s.threads[t].(stage := stage), s.disk, s.seen, s.had, sha)
    ensures Inv(SetStage(s, t, stage), sha)
  {
    StageKeepsClaims(s, t, stage);
  }

  lemma FailKeeps(s: State, t: int, sha: Hash)
    requires Inv(s, sha) && t in s.threads
    ensures Inv(FailJob(s, t), sha)
  {
  }

  lemma ReleaseKeeps(s: State, t: int, sha: Hash)
    requires Inv(s, sha) && t in s.threads
    ensures Inv(ReleaseStep(s, t), sha)
  {
  }

  lemma WriteKeepsJob(s: State, file: string, content: Bytes, mtime: int, job: Job, sha: Hash)
    requires JobOk(job, s.disk, s.seen, s.had, sha) && Fresh(s, Write(file, content, mtime))
    ensures var s' := WriteStep(s, file, content, mtime); JobOk(job, s'.disk, s'.seen, s'.had, sha)
  {
  }

  lemma WriteKeeps(s: State, file: string, content: Bytes, mtime: int, sha: Hash)
    requires Inv(s, sha) && Fresh(s, Write(file, content, mtime))
    ensures Inv(WriteStep(s, file, content, mtime), sha)
  {
    var s' := WriteStep(s, file, content, mtime);
    forall t | t in s.threads ensures JobOk(s.threads[t], s'.disk, s'.seen, s'.had, sha) {
      WriteKeepsJob(s, file, content, mtime, s.threads[t], sha);
    }
  }

  lemma RemoveKeeps(s: State, file: string, sha: Hash)
    requires Inv(s, sha)
    ensures Inv(s.(disk := s.disk - {file}), sha)
  {
    var disk := s.disk - {file};
    forall t | t in s.threads ensures JobOk(s.threads[t], disk, s.seen, s.had, sha) {
      assert JobOk(s.threads[t], s.disk, s.seen, s.had, sha);
    }
  }

  lemma SetRowKeeps(s: State, build: string, ready: bool, path: Option<string>, sha256: Option<Digest>, sha: Hash)
    requires Inv(s, sha)
    ensures Inv(SetRowStep(s, build, ready, path, sha256), sha)
  {
  }

  /** The map of requests without one, and a job that takes its place among the threads. */
  lemma ClaimKeepsJobs(s: State, t: int, sha: Hash)
    requires ThreadsOk(s.threads, s.disk, s.seen, s.had, sha) && RequestsOk(s.requests)
    ensures var s' := ClaimStep(s, t);
            ThreadsOk(s'.threads, s.disk, s.seen, s.had, sha) && RequestsOk(s'.requests)
  {
    if t in s.requests && t !in s.threads {
      StartedIsOk(s.requests[t], s, sha);
    }
  }

  lemma StartedIsOk(job: Job, s: State, sha: Hash)
    requires job.stage.Started? && job.size > 0 && job.archive == BaseName(job.path)
    ensures JobOk(job, s.disk, s.seen, s.had, sha)
  {
  }

  lemma AddClaim(statuses: map<string, Status>, threads: map<int, Job>, t: int, job: Job)
    requires ClaimsOk(statuses, threads) && t !in threads
    requires !(job.build in statuses && statuses[job.build] == Running)
    ensures ClaimsOk(statuses[job.build := Running], threads[t := job])
  {
  }

  lemma ClaimKeepsClaims(s: State, t: int)
    requires ClaimsOk(s.statuses, s.threads)
    ensures ClaimsOk(ClaimStep(s, t).statuses, ClaimStep(s, t).threads)
  {
    if t in s.requests && t !in s.threads {
      var job := s.requests[t];
      if !(job.build in s.statuses && s.statuses[job.build] == Running) {
        AddClaim(s.statuses, s.threads, t, job);
      }
    }
  }

  lemma ClaimKeeps(s: State, t: int, sha: Hash)
    requires Inv(s, sha)
    ensures Inv(ClaimStep(s, t), sha)
  {
    ClaimKeepsJobs(s, t, sha);
    ClaimKeepsClaims(s, t);
  }

  lemma ReadKeeps(s: State, t: int, count: nat, torn: Bytes, sha: Hash)
    requires Inv(s, sha) && t in s.threads && s.threads[t].stage.Reading?
    ensures Inv(ReadStep(s, t, count, torn), sha)
  {
    var job := s.threads[t];
    assert JobOk(job, s.disk, s.seen, s.had, sha);
    var before, got, chunk := job.stage.before, job.stage.got, NextChunk(s, job, count, torn);
    if Unchanged(job.path, before, s.disk) {
      ChunkExtends(s.seen[Key(job.archive, before)], got, chunk, Max(0, Min(count, before.size - |got|)));
    }
    StageKeeps(s, t, Reading(before, got + chunk), sha);
  }

  lemma ChunkExtends(content: Bytes, got: Bytes, chunk: Bytes, count: nat)
    requires got <= content && chunk == Window(content, |got|, |got| + count)
    ensures got + chunk <= content
  {
  }

  lemma EndKeeps(s: State, t: int, sha: Hash)
    requires Inv(s, sha) && t in s.threads && s.threads[t].stage.Reading?
    ensures Inv(EndStep(s, t, sha), sha)
  {
    var job := s.threads[t];
    var before, got := job.stage.before, job.stage.got;
    assert JobOk(job, s.disk, s.seen, s.had, sha);
    if |got| == before.size {
      assert Unchanged(job.path, before, s.disk) ==> got == s.seen[Key(job.archive, before)];
      StageKeeps(s, t, Hashed(before, PartsOf(got, job.archive, job.size, sha), sha(got)), sha);
    } else {
      FailKeeps(s, t, sha);
    }
  }

  lemma RestatKeeps(s: State, t: int, sha: Hash)
    requires Inv(s, sha) && t in s.threads && s.threads[t].stage.Hashed?
    ensures Inv(RestatStep(s, t), sha)
  {
    var job := s.threads[t];
    var st := job.stage;
    assert JobOk(job, s.disk, s.seen, s.had, sha);
    if Unchanged(job.path, st.read, s.disk) && st.checksum == job.expected {
      var m := Manifest(job.archive, st.read.size, st.read.mtime, st.checksum, job.size, st.parts);
      assert Describes(m, s.seen, sha);
      StageKeeps(s, t, Described(m), sha);
    } else {
      FailKeeps(s, t, sha);
    }
  }

  lemma CommitKeeps(s: State, t: int, sha: Hash)
    requires Inv(s, sha) && t in s.threads && s.threads[t].stage.Described?
    ensures Inv(CommitStep(s, t), sha)
  {
    assert JobOk(s.threads[t], s.disk, s.seen, s.had, sha);
    StageKeeps(s, t, Stored, sha);
    FailKeeps(s, t, sha);
  }

  lemma StatKeeps(s: State, t: int, sha: Hash)
    requires Inv(s, sha) && t in s.threads && s.threads[t].stage.Started?
    ensures Inv(StatStep(s, t), sha)
  {
    var job := s.threads[t];
    assert JobOk(job, s.disk, s.seen, s.had, sha);
    if job.path in s.disk {
      StageKeeps(s, t, Reading(s.disk[job.path].id, []), sha);
    } else {
      FailKeeps(s, t, sha);
    }
  }

  lemma DropRowKeeps(s: State, build: string, sha: Hash)
    requires Inv(s, sha)
    ensures Inv(s.(rows := s.rows - {build}), sha)
  {
  }

  lemma CheckKeeps(s: State, t: int, build: string, size: nat, sha: Hash)
    requires Inv(s, sha)
    ensures Inv(CheckStep(s, t, build, size), sha)
  {
  }

  lemma RestartKeeps(s: State, sha: Hash)
    requires Inv(s, sha)
    ensures Inv(s.(statuses := map[], requests := map[], threads := map[]), sha)
  {
  }

  lemma JobReads(s: State, e: Event, sha: Hash)
    requires Inv(s, sha) && (e.Stat? || e.ReadChunk? || e.EndOfFile?)
    ensures Inv(Step(s, e, sha), sha)
  {
    match e
    case Stat(t) => if t in s.threads && s.threads[t].stage.Started? { StatKeeps(s, t, sha); }
    case ReadChunk(t, count, torn) =>
      if t in s.threads && s.threads[t].stage.Reading? { ReadKeeps(s, t, count, torn, sha); }
    case EndOfFile(t) => if t in s.threads && s.threads[t].stage.Reading? { EndKeeps(s, t, sha); }
  }

  lemma JobStores(s: State, e: Event, sha: Hash)
    requires Inv(s, sha) && (e.Restat? || e.Commit?)
    ensures Inv(Step(s, e, sha), sha)
  {
    match e
    case Restat(t) => if t in s.threads && s.threads[t].stage.Hashed? { RestatKeeps(s, t, sha); }
    case Commit(t) => if t in s.threads && s.threads[t].stage.Described? { CommitKeeps(s, t, sha); }
  }

  lemma JobEnds(s: State, e: Event, sha: Hash)
    requires Inv(s, sha) && (e.Release? || e.Crash?)
    ensures Inv(Step(s, e, sha), sha)
  {
    match e
    case Release(t) => if t in s.threads { ReleaseKeeps(s, t, sha); }
    case Crash(t) => if t in s.threads { FailKeeps(s, t, sha); }
  }

  lemma StepKeeps(s: State, e: Event, sha: Hash)
    requires Inv(s, sha) && Fresh(s, e)
    ensures Inv(Step(s, e, sha), sha)
  {
    match e
    case Write(file, content, mtime) => WriteKeeps(s, file, content, mtime, sha);
    case Remove(file) => RemoveKeeps(s, file, sha);
    case SetRow(build, ready, path, sha256) => SetRowKeeps(s, build, ready, path, sha256, sha);
    case DropRow(build) => DropRowKeeps(s, build, sha);
    case Check(t, build, size) => CheckKeeps(s, t, build, size, sha);
    case Claim(t) => ClaimKeeps(s, t, sha);
    case Restart => RestartKeeps(s, sha);
    case _ =>
      if e.Stat? || e.ReadChunk? || e.EndOfFile? {
        JobReads(s, e, sha);
      } else if e.Restat? || e.Commit? {
        JobStores(s, e, sha);
      } else {
        JobEnds(s, e, sha);
      }
  }

  lemma {:induction false} RunKeeps(events: seq<Event>, sha: Hash)
    requires FreshRun(events, sha)
    ensures Inv(Run(EMPTY, events, sha), sha)
  {
    if events != [] {
      RunKeeps(events[..|events| - 1], sha);
      StepKeeps(Run(EMPTY, events[..|events| - 1], sha), events[|events| - 1], sha);
    }
  }

  // ----------------------------------------------------------- main results

  /** While contents are told apart, in every reachable state a manifest that is served describes the archive on
      disk at that moment: each part's checksum is that of its range, and the
      whole is the archive's. */
  lemma {:induction false} ManifestSafety(events: seq<Event>, sha: Hash, build: string)
    requires FreshRun(events, sha)
    requires var s := Run(EMPTY, events, sha);
             build in s.rows && CurrentManifest(s.rows[build], s.disk).Some?
    ensures var s := Run(EMPTY, events, sha);
            var m, row := CurrentManifest(s.rows[build], s.disk).value, s.rows[build];
            && row.path.Some? && row.path.value in s.disk
            && var content := s.disk[row.path.value].content;
               m.partSize > 0 && m.size == |content| && m.sha256 == sha(content)
               && m.parts == PartsOf(content, m.archive, m.partSize, sha)
  {
    RunKeeps(events, sha);
    var s := Run(EMPTY, events, sha);
    assert Describes(s.rows[build].parts.value, s.seen, sha);
  }

  // ---- One job per build, and why contents must be told apart ----

  lemma ReleaseKeepsClaims(s: State, t: int)
    requires ClaimsOk(s.statuses, s.threads) && t in s.threads
    ensures ClaimsOk(ReleaseStep(s, t).statuses, ReleaseStep(s, t).threads)
    ensures ClaimsOk(FailJob(s, t).statuses, FailJob(s, t).threads)
  {
  }

  lemma StageOnly(s: State, t: int, e: Event, sha: Hash)
    requires t in s.threads && ClaimsOk(s.statuses, s.threads)
    requires e in {Stat(t), EndOfFile(t), Restat(t), Commit(t)} || (e.ReadChunk? && e.t == t)
    ensures ClaimsOk(Step(s, e, sha).statuses, Step(s, e, sha).threads)
  {
    ReleaseKeepsClaims(s, t);
    forall stage
      ensures ClaimsOk(s.statuses, SetStage(s, t, stage).threads)
    {
      StageKeepsClaims(s, t, stage);
    }
  }

  lemma StepKeepsClaims(s: State, e: Event, sha: Hash)
    requires ClaimsOk(s.statuses, s.threads)
    ensures ClaimsOk(Step(s, e, sha).statuses, Step(s, e, sha).threads)
  {
    match e
    case Claim(t) => ClaimKeepsClaims(s, t);
    case Stat(t) => if t in s.threads { StageOnly(s, t, e, sha); }
    case ReadChunk(t, _, _) => if t in s.threads { StageOnly(s, t, e, sha); }
    case EndOfFile(t) => if t in s.threads { StageOnly(s, t, e, sha); }
    case Restat(t) => if t in s.threads { StageOnly(s, t, e, sha); }
    case Commit(t) => if t in s.threads { StageOnly(s, t, e, sha); }
    case Release(t) => if t in s.threads { ReleaseKeepsClaims(s, t); }
    case Crash(t) => if t in s.threads { ReleaseKeepsClaims(s, t); }
    case _ =>
  }

  lemma {:induction false} RunKeepsClaims(events: seq<Event>, sha: Hash)
    ensures ClaimsOk(Run(EMPTY, events, sha).statuses, Run(EMPTY, events, sha).threads)
  {
    if events != [] {
      RunKeepsClaims(events[..|events| - 1], sha);
      StepKeepsClaims(Run(EMPTY, events[..|events| - 1], sha), events[|events| - 1], sha);
    }
  }

  /** At most one job per build is alive at any time, whatever happens to the archives. */
  lemma {:induction false} OneJobPerBuild(events: seq<Event>, sha: Hash, t: int, u: int)
    requires var s := Run(EMPTY, events, sha);
             t in s.threads && u in s.threads && s.threads[t].build == s.threads[u].build
    ensures t == u
  {
    RunKeepsClaims(events, sha);
  }

  lemma RunSnoc(events: seq<Event>, e: Event, sha: Hash)
    ensures Run(EMPTY, events + [e], sha) == Step(Run(EMPTY, events, sha), e, sha)
    ensures FreshRun(events + [e], sha) <==> FreshRun(events, sha) && Fresh(Run(EMPTY, events, sha), e)
  {
    assert (events + [e])[..|events|] == events;
  }

  // ---- No build is stuck, and nothing else is touched ----

  /** A build that is marked running has a live job. */
  ghost predicate AliveOk(statuses: map<string, Status>, threads: map<int, Job>) {
    forall b :: b in statuses && statuses[b] == Running ==> HasJob(threads, b)
  }

  ghost predicate HasJob(threads: map<int, Job>, build: string) {
    exists t :: t in threads && threads[t].build == build
  }

  /** No job has taken more bytes than its archive was measured to have. */
  ghost predicate MeasuredOk(threads: map<int, Job>) {
    forall t :: t in threads && threads[t].stage.Reading? ==>
                  |threads[t].stage.got| <= threads[t].stage.before.size
  }

  lemma StageKeepsAlive(s: State, t: int, stage: Stage)
    requires t in s.threads && AliveOk(s.statuses, s.threads)
    ensures AliveOk(s.statuses, SetStage(s, t, stage).threads)
  {
    forall b | b in s.statuses && s.statuses[b] == Running
      ensures HasJob(SetStage(s, t, stage).threads, b)
    {
      var u :| u in s.threads && s.threads[u].build == b;
      assert SetStage(s, t, stage).threads[u].build == b;
    }
  }

  lemma OverKeepsAlive(s: State, t: int)
    requires t in s.threads && AliveOk(s.statuses, s.threads) && ClaimsOk(s.statuses, s.threads)
    ensures AliveOk(FailJob(s, t).statuses, FailJob(s, t).threads)
    ensures AliveOk(ReleaseStep(s, t).statuses, ReleaseStep(s, t).threads)
  {
    forall b | b in s.statuses && s.statuses[b] == Running && b != s.threads[t].build
      ensures HasJob(s.threads - {t}, b)
    {
      var u :| u in s.threads && s.threads[u].build == b;
      assert u in s.threads - {t};
    }
  }

  lemma ClaimKeepsAlive(s: State, t: int)
    requires AliveOk(s.statuses, s.threads)
    ensures AliveOk(ClaimStep(s, t).statuses, ClaimStep(s, t).threads)
  {
    var after := ClaimStep(s, t);
    forall b | b in after.statuses && after.statuses[b] == Running
      ensures HasJob(after.threads, b)
    {
      if t in after.threads && after.threads[t].build == b {
      } else {
        var u :| u in s.threads && s.threads[u].build == b;
        assert after.threads[u].build == b;
      }
    }
  }

  lemma JobKeepsAlive(s: State, t: int, e: Event, sha: Hash)
    requires t in s.threads && AliveOk(s.statuses, s.threads) && ClaimsOk(s.statuses, s.threads)
    requires e in {Stat(t), EndOfFile(t), Restat(t), Commit(t)} || (e.ReadChunk? && e.t == t)
    ensures AliveOk(Step(s, e, sha).statuses, Step(s, e, sha).threads)
  {
    OverKeepsAlive(s, t);
    forall stage
      ensures AliveOk(s.statuses, SetStage(s, t, stage).threads)
    {
      StageKeepsAlive(s, t, stage);
    }
  }

  lemma StepKeepsAlive(s: State, e: Event, sha: Hash)
    requires AliveOk(s.statuses, s.threads) && ClaimsOk(s.statuses, s.threads)
    ensures AliveOk(Step(s, e, sha).statuses, Step(s, e, sha).threads)
  {
    match e
    case Claim(t) => ClaimKeepsAlive(s, t);
    case Stat(t) => if t in s.threads { JobKeepsAlive(s, t, e, sha); }
    case ReadChunk(t, _, _) => if t in s.threads { JobKeepsAlive(s, t, e, sha); }
    case EndOfFile(t) => if t in s.threads { JobKeepsAlive(s, t, e, sha); }
    case Restat(t) => if t in s.threads { JobKeepsAlive(s, t, e, sha); }
    case Commit(t) => if t in s.threads { JobKeepsAlive(s, t, e, sha); }
    case Release(t) => if t in s.threads { OverKeepsAlive(s, t); }
    case Crash(t) => if t in s.threads { OverKeepsAlive(s, t); }
    case _ =>
  }

  lemma {:induction false} RunKeepsAlive(events: seq<Event>, sha: Hash)
    ensures AliveOk(Run(EMPTY, events, sha).statuses, Run(EMPTY, events, sha).threads)
  {
    if events != [] {
      RunKeepsAlive(events[..|events| - 1], sha);
      RunKeepsClaims(events[..|events| - 1], sha);
      StepKeepsAlive(Run(EMPTY, events[..|events| - 1], sha), events[|events| - 1], sha);
    }
  }

  /** In every run a request for an archive that is there becomes a job exactly if no job
      for its build is alive: no build stays marked as running without one. */
  lemma {:induction false} ClaimedExactly(events: seq<Event>, sha: Hash, t: int)
    requires var s := Run(EMPTY, events, sha);
             t in s.requests && t !in s.threads && s.requests[t].path in s.disk
    ensures var s := Run(EMPTY, events, sha);
            t in Step(s, Claim(t), sha).threads <==> !HasJob(s.threads, s.requests[t].build)
  {
    RunKeepsAlive(events, sha);
    RunKeepsClaims(events, sha);
  }

  /** A job that is over, by success, failure or a restart, is no longer alive. */
  lemma JobsEnd(s: State, t: int, sha: Hash)
    ensures t in s.threads && s.threads[t].stage.Stored? ==>
              t !in Step(s, Release(t), sha).threads && s.threads[t].build !in Step(s, Release(t), sha).statuses
    ensures t in s.threads && !s.threads[t].stage.Stored? ==>
              && t !in Step(s, Crash(t), sha).threads
              && s.threads[t].build in Step(s, Crash(t), sha).statuses
              && Step(s, Crash(t), sha).statuses[s.threads[t].build] == Failed
    ensures t in s.threads && s.threads[t].stage.Stored? ==> Step(s, Crash(t), sha) == s
    ensures t in s.threads && !s.threads[t].stage.Stored? ==> Step(s, Release(t), sha) == s
    ensures Step(s, Restart, sha).threads == map[] && Step(s, Restart, sha).requests == map[]
            && Step(s, Restart, sha).statuses == map[]
  {
  }

  lemma NextChunkFits(s: State, job: Job, count: nat, torn: Bytes)
    requires job.stage.Reading? && |job.stage.got| <= job.stage.before.size
    ensures |job.stage.got + NextChunk(s, job, count, torn)| <= job.stage.before.size
  {
  }

  lemma StepKeepsMeasured(s: State, e: Event, sha: Hash)
    requires MeasuredOk(s.threads) && RequestsOk(s.requests)
    ensures MeasuredOk(Step(s, e, sha).threads)
  {
    if e.ReadChunk? && e.t in s.threads && s.threads[e.t].stage.Reading? {
      NextChunkFits(s, s.threads[e.t], e.count, e.torn);
      ReadKeepsMeasured(s, e.t, e.count, e.torn);
    } else {
      OthersReadNothing(s, e, sha);
    }
  }

  lemma ReadKeepsMeasured(s: State, t: int, count: nat, torn: Bytes)
    requires MeasuredOk(s.threads) && t in s.threads && s.threads[t].stage.Reading?
    requires |s.threads[t].stage.got + NextChunk(s, s.threads[t], count, torn)| <= s.threads[t].stage.before.size
    ensures MeasuredOk(ReadStep(s, t, count, torn).threads)
  {
  }

  lemma OthersReadNothing(s: State, e: Event, sha: Hash)
    requires MeasuredOk(s.threads) && RequestsOk(s.requests)
    requires !(e.ReadChunk? && e.t in s.threads && s.threads[e.t].stage.Reading?)
    ensures MeasuredOk(Step(s, e, sha).threads)
  {
    match e
    case Stat(t) =>
    case Claim(t) =>
    case _ => RestReadsNothing(s, e, sha);
  }

  lemma RestReadsNothing(s: State, e: Event, sha: Hash)
    requires !e.Stat? && !e.Claim? && !(e.ReadChunk? && e.t in s.threads && s.threads[e.t].stage.Reading?)
    ensures forall t :: t in Step(s, e, sha).threads && Step(s, e, sha).threads[t].stage.Reading? ==>
              t in s.threads && Step(s, e, sha).threads[t].stage == s.threads[t].stage
  {
  }

  lemma {:induction false} RunKeepsRequests(events: seq<Event>, sha: Hash)
    ensures RequestsOk(Run(EMPTY, events, sha).requests)
  {
    if events != [] {
      RunKeepsRequests(events[..|events| - 1], sha);
      StepKeepsRequests(Run(EMPTY, events[..|events| - 1], sha), events[|events| - 1], sha);
    }
  }

  lemma StepKeepsRequests(s: State, e: Event, sha: Hash)
    requires RequestsOk(s.requests)
    ensures RequestsOk(Step(s, e, sha).requests)
  {
    if e.Check? {
      CheckKeepsRequests(s, e.t, e.build, e.size);
    } else {
      NoNewRequests(s, e, sha);
    }
  }

  lemma CheckKeepsRequests(s: State, t: int, build: string, size: nat)
    requires RequestsOk(s.requests)
    ensures RequestsOk(CheckStep(s, t, build, size).requests)
  {
  }

  lemma NoNewRequests(s: State, e: Event, sha: Hash)
    requires !e.Check?
    ensures var requests := Step(s, e, sha).requests;
            forall t :: t in requests ==> t in s.requests && requests[t] == s.requests[t]
  {
    if !e.Claim? && !e.Restart? {
      OtherStepKeepsRequests(s, e, sha);
    }
  }

  lemma OtherStepKeepsRequests(s: State, e: Event, sha: Hash)
    requires !e.Check? && !e.Claim? && !e.Restart?
    ensures Step(s, e, sha).requests == s.requests
  {
    match e
    case Write(_, _, _) =>
    case SetRow(_, _, _, _) =>
    case _ =>
  }

  /** A job never takes more bytes than the archive had when it was measured, whatever is
      read of an archive that is replaced meanwhile. */
  lemma {:induction false} NeverTooMuch(events: seq<Event>, sha: Hash)
    ensures MeasuredOk(Run(EMPTY, events, sha).threads)
  {
    if events != [] {
      NeverTooMuch(events[..|events| - 1], sha);
      RunKeepsRequests(events[..|events| - 1], sha);
      StepKeepsMeasured(Run(EMPTY, events[..|events| - 1], sha), events[|events| - 1], sha);
    }
  }

  /** A stored manifest is served exactly while name, recorded checksum, size and time are
      those of the archive on disk. */
  lemma CurrentExactly(row: Row, disk: map<string, File>, m: Manifest)
    ensures CurrentManifest(row, disk) == Some(m)
            <==> row.parts == Some(m) && row.sha256 == Some(m.sha256)
                 && row.path.Some? && row.path.value in disk && BaseName(row.path.value) == m.archive
                 && disk[row.path.value].id.size == m.size && disk[row.path.value].id.mtime == m.mtime
  {
  }

  /** A free worker takes on a request exactly for a ready build with an archive on disk
      under a safe name and without a current manifest, and remembers what it was asked. */
  lemma CheckedExactly(s: State, t: int, build: string, size: nat, sha: Hash)
    requires t !in s.requests && t !in s.threads && size > 0
    ensures var after := Step(s, Check(t, build, size), sha).requests;
            && (t in after <==>
                  && build in s.rows && s.rows[build].ready && s.rows[build].path.Some? && s.rows[build].sha256.Some?
                  && s.rows[build].path.value in s.disk && SafeName(BaseName(s.rows[build].path.value))
                  && CurrentManifest(s.rows[build], s.disk).None?)
            && (t in after ==>
                  after[t] == Job(build, s.rows[build].path.value, BaseName(s.rows[build].path.value),
                                  s.rows[build].sha256.value, size, Started))
  {
  }

  /** A manifest is stored exactly while the row still has the path and the checksum that
      the job started with; otherwise the job fails and the row stays as it is. */
  lemma CommittedExactly(s: State, t: int, sha: Hash)
    requires t in s.threads && s.threads[t].stage.Described?
    ensures var job, after := s.threads[t], Step(s, Commit(t), sha);
            if job.build in s.rows && s.rows[job.build].path == Some(job.path)
               && s.rows[job.build].sha256 == Some(job.expected)
            then after.rows == s.rows[job.build := s.rows[job.build].(parts := Some(job.stage.manifest))]
                 && t in after.threads && after.threads[t].stage.Stored?
            else after.rows == s.rows && t !in after.threads && job.build in after.statuses
                 && after.statuses[job.build] == Failed
  {
  }

  /** Once the archive is another, a read gives any bytes at all, as many as are wanted. */
  lemma AnythingIsRead(s: State, job: Job, count: nat, torn: Bytes)
    requires job.stage.Reading? && |job.stage.got| + |torn| <= job.stage.before.size
    requires job.path !in s.disk || s.disk[job.path].id != job.stage.before
    ensures NextChunk(s, job, count, torn) == torn
  {
  }

  /** A worker that is busy takes on nothing. */
  lemma BusyTakesNothing(s: State, t: int, build: string, size: nat, sha: Hash)
    requires t in s.requests || t in s.threads || size == 0
    ensures Step(s, Check(t, build, size), sha) == s
  {
  }

  /** A row's manifest changes only when a job for its build commits one. */
  lemma ManifestsChange(s: State, e: Event, sha: Hash, build: string)
    requires build in s.rows && e != DropRow(build)
    ensures build in Step(s, e, sha).rows
    ensures Step(s, e, sha).rows[build].parts == s.rows[build].parts
            || (e.Commit? && e.t in s.threads && s.threads[e.t].build == build && s.threads[e.t].stage.Described?
                && Step(s, e, sha).rows[build].parts == Some(s.threads[e.t].stage.manifest))
  {
  }

  /** Its other fields change only as the build's own code sets them. */
  lemma RowsChange(s: State, e: Event, sha: Hash, build: string)
    requires build in s.rows && e != DropRow(build)
    ensures build in Step(s, e, sha).rows
    ensures var row := Step(s, e, sha).rows[build];
            if e.SetRow? && e.build == build
            then row.ready == e.ready && row.path == e.path && row.sha256 == e.sha256
            else row.ready == s.rows[build].ready && row.path == s.rows[build].path
                 && row.sha256 == s.rows[build].sha256
  {
    ManifestsChange(s, e, sha, build);
  }

  lemma DroppedAndRemoved(s: State, build: string, file: string, sha: Hash)
    ensures Step(s, DropRow(build), sha).rows == s.rows - {build}
    ensures Step(s, Remove(file), sha).disk == s.disk - {file}
  {
  }

  /** The archive, the build and its one job while the split is computed. */
  datatype Scene = Scene(build: string, path: string, content: Bytes, mtime: int, size: nat, sha: Hash)

  ghost predicate SceneOk(v: Scene) { SafeName(BaseName(v.path)) && v.size > 0 }

  function SceneId(v: Scene): Identity { Identity(|v.content|, v.mtime) }

  function SceneJob(v: Scene, stage: Stage): Job {
    Job(v.build, v.path, BaseName(v.path), v.sha(v.content), v.size, stage)
  }

  function SceneParts(v: Scene): seq<Part>
    requires v.size > 0
  {
    PartsOf(v.content, BaseName(v.path), v.size, v.sha)
  }

  function SceneManifest(v: Scene): Manifest
    requires v.size > 0
  {
    Manifest(BaseName(v.path), |v.content|, v.mtime, v.sha(v.content), v.size, SceneParts(v))
  }

  ghost function At(v: Scene, parts: Option<Manifest>, statuses: map<string, Status>, requests: map<int, Job>,
                    threads: map<int, Job>): State
  {
    State(map[v.path := File(v.content, SceneId(v))], map[KeyOf(v.path, SceneId(v)) := v.content],
          {(v.path, SceneId(v))},
          map[v.build := Row(true, Some(v.path), Some(v.sha(v.content)), parts)], statuses, requests, threads)
  }

  ghost function Working(v: Scene, stage: Stage): State {
    At(v, None, map[v.build := Running], map[], map[0 := SceneJob(v, stage)])
  }

  lemma Checked(v: Scene)
    requires SceneOk(v)
    ensures Step(At(v, None, map[], map[], map[]), Check(0, v.build, v.size), v.sha)
         == At(v, None, map[], map[0 := SceneJob(v, Started)], map[])
  {
  }

  lemma Claimed(v: Scene)
    ensures Step(At(v, None, map[], map[0 := SceneJob(v, Started)], map[]), Claim(0), v.sha) == Working(v, Started)
  {
    assert map[0 := SceneJob(v, Started)] - {0} == map[];
  }

  lemma Measured(v: Scene)
    ensures Step(Working(v, Started), Stat(0), v.sha) == Working(v, Reading(SceneId(v), []))
  {
  }

  lemma WasRead(v: Scene)
    ensures Step(Working(v, Reading(SceneId(v), [])), ReadChunk(0, |v.content|, []), v.sha)
         == Working(v, Reading(SceneId(v), v.content))
  {
    WholeWindow(v.content);
    assert [] + v.content == v.content;
  }

  lemma WasHashed(v: Scene)
    requires v.size > 0
    ensures Step(Working(v, Reading(SceneId(v), v.content)), EndOfFile(0), v.sha)
         == Working(v, Hashed(SceneId(v), SceneParts(v), v.sha(v.content)))
  {
  }

  lemma WasDescribed(v: Scene)
    requires v.size > 0
    ensures Step(Working(v, Hashed(SceneId(v), SceneParts(v), v.sha(v.content))), Restat(0), v.sha)
         == Working(v, Described(SceneManifest(v)))
  {
  }

  lemma WasStored(v: Scene)
    requires v.size > 0
    ensures Step(Working(v, Described(SceneManifest(v))), Commit(0), v.sha)
         == At(v, Some(SceneManifest(v)), map[v.build := Running], map[], map[0 := SceneJob(v, Stored)])
  {
  }

  /** A run that writes an archive, registers it and splits it. */
  lemma SplitOnce(v: Scene) returns (events: seq<Event>)
    requires SceneOk(v)
    ensures FreshRun(events, v.sha)
    ensures Run(EMPTY, events, v.sha)
         == At(v, Some(SceneManifest(v)), map[v.build := Running], map[], map[0 := SceneJob(v, Stored)])
  {
    var write := Write(v.path, v.content, v.mtime);
    var row := SetRow(v.build, true, Some(v.path), Some(v.sha(v.content)));
    RunSnoc([], write, v.sha);
    RunSnoc([write], row, v.sha);
    events := [write] + [row];
    assert [] + [write] == [write];
    assert Run(EMPTY, events, v.sha) == At(v, None, map[], map[], map[]);
    RunSnoc(events, Check(0, v.build, v.size), v.sha);
    events := events + [Check(0, v.build, v.size)];
    Checked(v);
    RunSnoc(events, Claim(0), v.sha);
    events := events + [Claim(0)];
    Claimed(v);
    RunSnoc(events, Stat(0), v.sha);
    events := events + [Stat(0)];
    Measured(v);
    RunSnoc(events, ReadChunk(0, |v.content|, []), v.sha);
    events := events + [ReadChunk(0, |v.content|, [])];
    WasRead(v);
    RunSnoc(events, EndOfFile(0), v.sha);
    events := events + [EndOfFile(0)];
    WasHashed(v);
    RunSnoc(events, Restat(0), v.sha);
    events := events + [Restat(0)];
    WasDescribed(v);
    RunSnoc(events, Commit(0), v.sha);
    events := events + [Commit(0)];
    WasStored(v);
  }

  /** Why contents must be told apart: for any archive, after a split a replacement of the
      same length and modification time is served under the old manifest. The run that
      shows it differs from a fresh one in that last write only. */
  lemma ReusedIdentityIsNotNoticed(v: Scene, now: Bytes) returns (events: seq<Event>)
    requires SceneOk(v) && |now| == |v.content| && v.sha(now) != v.sha(v.content)
    ensures events != [] && FreshRun(events[..|events| - 1], v.sha)
    ensures var s := Run(EMPTY, events, v.sha);
            && v.build in s.rows && v.path in s.disk && s.disk[v.path].content == now
            && CurrentManifest(s.rows[v.build], s.disk) == Some(SceneManifest(v))
            && SceneManifest(v).sha256 != v.sha(now)
  {
    var before := SplitOnce(v);
    RunSnoc(before, Write(v.path, now, v.mtime), v.sha);
    events := before + [Write(v.path, now, v.mtime)];
    assert events[..|events| - 1] == before;
  }
}
