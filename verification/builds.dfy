/** services/builds.py and api.start_build: build rows from request to final status,
    and the version each project suggests next. */
module Builds {
  import opened Streams
  import opened Versions

  datatype Status = Queued | Preparing | Pulling | Building | Testing | Exporting | Ready | Failed | Cancelled

  /** ACTIVE_STATES */
  predicate Active(s: Status) { s.Queued? || s.Preparing? || s.Pulling? || s.Building? || s.Testing? || s.Exporting? }

  datatype Archive = Archive(path: string, size: nat, sha256: string)

  datatype Row = Row(
    project: string, version: string, imageRef: string, status: Status,
    digest: Option<string>, imageId: Option<string>, archive: Option<Archive>, error: Option<string>)

  // -------------------------------------------------------------------- run

  /** How a call the worker makes turns out; an error carries its message. */
  type Call<T> = Result<T, string>

  /** What the backend and the file system will answer, in the order run() asks. */
  datatype Script = Script(
    projectFound: bool,
    preflight: Call<()>,
    digest: Call<string>,
    context: Call<()>,
    image: Call<string>,
    checks: Option<Call<()>>,     // the automatic checks, for the recipes that have any
    exportPath: string,
    size: Call<nat>,
    checksum: Call<string>)

  const NO_PROJECT: string := "The project this build belongs to no longer exists"

  function ImageError(s: Script): Option<string> {
    if s.preflight.Failure? then Some(s.preflight.error)
    else if s.digest.Failure? then Some(s.digest.error)
    else if s.context.Failure? then Some(s.context.error)
    else if s.image.Failure? then Some(s.image.error)
    else None
  }

  function ExportError(s: Script): Option<string> {
    if s.checks.Some? && s.checks.value.Failure? then Some(s.checks.value.error)
    else if s.size.Failure? then Some(s.size.error)
    else if s.checksum.Failure? then Some(s.checksum.error)
    else None
  }

  /** The first call that fails decides the build; None when every one succeeds. */
  function FirstError(s: Script): Option<string> {
    if !s.projectFound then Some(NO_PROJECT)
    else if ImageError(s).Some? then ImageError(s)
    else ExportError(s)
  }

  /** Statuses in the order a build goes through them. */
  function Rank(s: Status): nat {
    match s
    case Queued => 0
    case Preparing => 1
    case Pulling => 2
    case Building => 3
    case Testing => 4
    case Exporting => 5
    case _ => 6
  }

  /** Only one row is different. */
  ghost predicate OnlyRow(before: map<string, Row>, after: map<string, Row>, id: string) {
    after.Keys == before.Keys && forall b :: b in before && b != id ==> after[b] == before[b]
  }

  // ---- The rows run() commits, in order ----

  function LastOf(row: Row, rows: seq<Row>): Row {
    if rows == [] then row else rows[|rows| - 1]
  }

  /** From `preparing` to the built image, or to the call that fails. */
  function ImageCommits(row: Row, s: Script): seq<Row> {
    if s.preflight.Failure? then [] else
    var pulling := row.(status := Pulling);
    if s.digest.Failure? then [pulling] else
    var resolved := pulling.(digest := Some(s.digest.value));
    if s.context.Failure? then [pulling, resolved] else [pulling, resolved, resolved.(status := Building)]
  }

  /** From the built image to `ready`, or to the call that fails. */
  function ExportCommits(row: Row, s: Script): seq<Row>
    requires s.image.Success?
  {
    var tested := if s.checks.Some? then [row.(status := Testing)] else [];
    if s.checks.Some? && s.checks.value.Failure? then tested else
    var exporting := row.(status := Exporting);
    if s.size.Failure? || s.checksum.Failure? then tested + [exporting] else
    tested + [exporting, exporting.(status := Ready, imageId := Some(s.image.value),
                                    archive := Some(Archive(s.exportPath, s.size.value, s.checksum.value)))]
  }

  /** What is committed before a failure, if there is one. */
  function Progress(row: Row, s: Script): seq<Row> {
    if !s.projectFound then [] else
    var preparing := row.(status := Preparing);
    var image := ImageCommits(preparing, s);
    [preparing] + image + if ImageError(s).None? then ExportCommits(LastOf(preparing, image), s) else []
  }

  function Commits(row: Row, s: Script): seq<Row> {
    Progress(row, s) + match FirstError(s)
                       case None => []
                       case Some(message) =>
                         [LastOf(row, Progress(row, s)).(status := Failed, error := Some(Cut(message)))]
  }

  class BuildService {
    var rows: map<string, Row>
    ghost var written: seq<Row>     // what the worker has committed, in order

    constructor (rows: map<string, Row>)
      ensures this.rows == rows && written == []
    {
      this.rows := rows;
      written := [];
    }

    /** _set_status, with the fields it sets besides: nothing for a build that is gone. */
    method SetStatus(id: string, row: Row)
      modifies this
      ensures rows == if id in old(rows) then old(rows)[id := row] else old(rows)
      ensures written == if id in old(rows) then old(written) + [row] else old(written)
    {
      if id in rows {
        rows := rows[id := row];
        written := written + [row];
      }
    }

    /** _fail: whatever the status was, and nothing for a build that is gone. */
    method Fail(id: string, message: string)
      modifies this
      ensures id !in old(rows) ==> rows == old(rows) && written == old(written)
      ensures id in old(rows) ==>
                var failed := old(rows)[id].(status := Failed, error := Some(Cut(message)));
                rows == old(rows)[id := failed] && written == old(written) + [failed]
    {
      if id in rows {
        SetStatus(id, rows[id].(status := Failed, error := Some(Cut(message))));
      }
    }

    /** run()'s try block up to the finished image. */
    method MakeImage(id: string, s: Script) returns (error: Option<string>)
      requires id in rows && rows[id].status.Preparing?
      modifies this
      ensures error == ImageError(s)
      ensures written == old(written) + ImageCommits(old(rows)[id], s)
      ensures rows == old(rows)[id := LastOf(old(rows)[id], ImageCommits(old(rows)[id], s))]
    {
      if s.preflight.Failure? {
        return Some(s.preflight.error);
      }
      SetStatus(id, rows[id].(status := Pulling));
      if s.digest.Failure? {
        return Some(s.digest.error);
      }
      SetStatus(id, rows[id].(digest := Some(s.digest.value)));
      if s.context.Failure? {
        return Some(s.context.error);
      }
      SetStatus(id, rows[id].(status := Building));
      error := if s.image.Failure? then Some(s.image.error) else None;
    }

    /** run()'s try block from the checks to the commit of `ready`. */
    method ExportImage(id: string, s: Script) returns (error: Option<string>)
      requires id in rows && rows[id].status.Building? && s.image.Success?
      modifies this
      ensures error == ExportError(s)
      ensures written == old(written) + ExportCommits(old(rows)[id], s)
      ensures rows == old(rows)[id := LastOf(old(rows)[id], ExportCommits(old(rows)[id], s))]
    {
      if s.checks.Some? {
        SetStatus(id, rows[id].(status := Testing));
        if s.checks.value.Failure? {
          return Some(s.checks.value.error);
        }
      }
      SetStatus(id, rows[id].(status := Exporting));
      if s.size.Failure? {
        return Some(s.size.error);
      }
      if s.checksum.Failure? {
        return Some(s.checksum.error);
      }
      SetStatus(id, rows[id].(status := Ready, imageId := Some(s.image.value),
                              archive := Some(Archive(s.exportPath, s.size.value, s.checksum.value))));
      error := None;
    }

    /** run() up to the first call that fails, or to `ready`. */
    method Try(id: string, s: Script) returns (error: Option<string>)
      requires id in rows && rows[id].status.Queued?
      modifies this
      ensures error == FirstError(s)
      ensures written == old(written) + Progress(old(rows)[id], s)
      ensures rows == old(rows)[id := LastOf(old(rows)[id], Progress(old(rows)[id], s))]
    {
      if !s.projectFound {
        return Some(NO_PROJECT);
      }
      ghost var row := rows[id];
      ghost var preparing := row.(status := Preparing);
      SetStatus(id, rows[id].(status := Preparing));
      error := MakeImage(id, s);
      ProgressParts(row, s);
      ghost var image := ImageCommits(preparing, s);
      ghost var made := LastOf(preparing, image);
      if error.None? {
        error := ExportImage(id, s);
        Appended(old(written), [preparing], image, ExportCommits(made, s));
      } else {
        Appended(old(written), [preparing], image, []);
      }
    }

    /** run: a queued build ends ready or failed whichever call fails, by way of exactly
        these commits; any other row is left alone. */
    method Run(id: string, s: Script)
      modifies this
      ensures OnlyRow(old(rows), rows, id)
      ensures id !in old(rows) || !old(rows)[id].status.Queued? ==> rows == old(rows) && written == old(written)
      ensures id in old(rows) && old(rows)[id].status.Queued? ==>
                && written == old(written) + Commits(old(rows)[id], s)
                && rows[id] == LastOf(old(rows)[id], Commits(old(rows)[id], s))
                && match FirstError(s)
                   case None => Built(rows[id], old(rows)[id], s)
                   case Some(message) => rows[id] == Broken(old(rows)[id], s, message)
    {
      if id !in rows || !rows[id].status.Queued? {
        return;
      }
      CommitsEnd(rows[id], s);
      var error := Try(id, s);
      if error.Some? {
        Fail(id, error.value);
      }
    }

    /** recover_interrupted: at startup every active row is an orphan. */
    method RecoverInterrupted() returns (stale: nat)
      modifies this
      ensures rows == Recovered(old(rows), {})
      ensures stale == |Orphans(old(rows))|
    {
      stale := |Orphans(rows)|;
      var before, left := rows, Orphans(rows);
      RecoveredNone(before);
      while left != {}
        invariant left <= Orphans(before) && rows == Recovered(before, left)
        decreases left
      {
        var id :| id in left;
        RecoveredOne(before, left, id);
        rows := rows[id := Interrupted(rows[id])];
        left := left - {id};
      }
    }
  }

  function Cut(message: string): string { message[..Min(|message|, 4000)] }

  /** A ready row has everything a download needs, and it is what the calls returned. */
  ghost predicate Built(row: Row, before: Row, s: Script) {
    && row.status.Ready? && row.imageRef == before.imageRef && row.version == before.version
    && row.project == before.project
    && s.digest.Success? && row.digest == Some(s.digest.value)
    && s.image.Success? && row.imageId == Some(s.image.value)
    && s.size.Success? && s.checksum.Success?
    && row.archive == Some(Archive(s.exportPath, s.size.value, s.checksum.value))
  }

  function DigestAfter(before: Row, s: Script): Option<string> {
    if s.preflight.Success? && s.digest.Success? then Some(s.digest.value) else before.digest
  }

  /** A failed row has its error, the base digest if that was resolved, and nothing else. */
  function Broken(before: Row, s: Script, message: string): Row {
    before.(status := Failed, error := Some(Cut(message)),
            digest := if s.projectFound then DigestAfter(before, s) else before.digest)
  }

  /** How a run ends. */
  lemma CommitsEnd(row: Row, s: Script)
    requires row.status.Queued?
    ensures match FirstError(s)
            case None => Built(LastOf(row, Commits(row, s)), row, s)
            case Some(message) => LastOf(row, Commits(row, s)) == Broken(row, s, message)
  {
  }

  // ---- The calls, one by one ----

  function ErrorOf<T>(call: Call<T>): Option<string> {
    if call.Failure? then Some(call.error) else None
  }

  /** The error of every call in the order run() makes them. */
  function Errors(s: Script): seq<Option<string>> {
    [if s.projectFound then None else Some(NO_PROJECT), ErrorOf(s.preflight), ErrorOf(s.digest), ErrorOf(s.context),
     ErrorOf(s.image), if s.checks.Some? then ErrorOf(s.checks.value) else None, ErrorOf(s.size), ErrorOf(s.checksum)]
  }

  function StatusesOf(rows: seq<Row>): seq<Status> {
    seq(|rows|, i requires 0 <= i < |rows| => rows[i].status)
  }

  /** What a build shows on its way when every call succeeds. */
  function Way(s: Script): seq<Status> {
    [Preparing, Pulling, Pulling, Building] + (if s.checks.Some? then [Testing] else []) + [Exporting, Ready]
  }

  /** How many commits there are before each call. */
  function Before(s: Script, call: nat): nat {
    if call < 6 then call else if s.checks.Some? then 6 else 5
  }

  /** Call i is the first that fails, with this message. */
  ghost predicate FailsFirst(s: Script, i: nat, message: string) {
    i < 8 && Errors(s)[i] == Some(message) && forall j :: 0 <= j < i ==> Errors(s)[j].None?
  }

  lemma FirstErrorIs(s: Script, i: nat, message: string)
    requires FailsFirst(s, i, message)
    ensures FirstError(s) == Some(message)
    ensures i > 0 ==> s.projectFound
    ensures i > 1 ==> s.preflight.Success?
    ensures i > 2 ==> s.digest.Success?
    ensures i > 3 ==> s.context.Success?
    ensures i > 4 ==> s.image.Success?
    ensures i > 5 ==> s.checks.None? || s.checks.value.Success?
    ensures i > 6 ==> s.size.Success?
  {
    assert i > 0 ==> Errors(s)[0].None?;
    assert i > 1 ==> Errors(s)[1].None?;
    assert i > 2 ==> Errors(s)[2].None?;
    assert i > 3 ==> Errors(s)[3].None?;
    assert i > 4 ==> Errors(s)[4].None?;
    assert i > 5 ==> Errors(s)[5].None?;
    assert i > 6 ==> Errors(s)[6].None?;
  }

  /** The first call that fails gives the build its error, up to 4000 characters of it, and
      the build has shown what came before that call. */
  lemma FirstFailureDecides(row: Row, s: Script, i: nat, message: string)
    requires row.status.Queued? && FailsFirst(s, i, message)
    ensures var end := LastOf(row, Commits(row, s));
            && end.status.Failed? && end.error.Some? && end.error.value <= message
            && |end.error.value| == Min(|message|, 4000)
    ensures StatusesOf(Commits(row, s)) == Way(s)[..Before(s, i)] + [Failed]
  {
    FirstErrorIs(s, i, message);
  }

  /** When every call succeeds the build is ready, by way of all of it. */
  lemma AllSucceed(row: Row, s: Script)
    requires row.status.Queued? && forall i :: 0 <= i < 8 ==> Errors(s)[i].None?
    ensures StatusesOf(Commits(row, s)) == Way(s) && LastOf(row, Commits(row, s)).error == row.error
  {
    assert Errors(s)[0].None? && Errors(s)[1].None? && Errors(s)[2].None? && Errors(s)[3].None?;
    assert Errors(s)[4].None? && Errors(s)[5].None? && Errors(s)[6].None? && Errors(s)[7].None?;
  }

  // ---- Every commit goes forward ----

  /** A commit of the worker: on an active build, never back, on the same build, and
      `ready` only with all a download needs. */
  ghost predicate Forward(before: Row, after: Row) {
    && Active(before.status) && Rank(before.status) <= Rank(after.status)
    && after.project == before.project && after.version == before.version && after.imageRef == before.imageRef
    && (after.status.Ready? ==> after.digest.Some? && after.imageId.Some? && after.archive.Some?)
  }

  function Previous(row: Row, rows: seq<Row>, k: nat): Row
    requires k <= |rows|
  {
    if k == 0 then row else rows[k - 1]
  }

  ghost predicate Chain(row: Row, rows: seq<Row>) {
    forall k: nat :: k < |rows| ==> Forward(Previous(row, rows, k), rows[k])
  }

  lemma ChainJoins(row: Row, a: seq<Row>, b: seq<Row>)
    requires Chain(row, a) && Chain(LastOf(row, a), b)
    ensures Chain(row, a + b)
  {
    var rows := a + b;
    forall k: nat | k < |rows|
      ensures Forward(Previous(row, rows, k), rows[k])
    {
      if k < |a| {
        assert Previous(row, rows, k) == Previous(row, a, k);
      } else {
        assert Previous(row, rows, k) == Previous(LastOf(row, a), b, k - |a|);
      }
    }
  }

  lemma ImageChain(row: Row, s: Script)
    requires row.status.Preparing?
    ensures Chain(row, ImageCommits(row, s))
    ensures ImageError(s).None? ==> LastOf(row, ImageCommits(row, s)).status.Building?
                                    && LastOf(row, ImageCommits(row, s)).digest.Some?
    ensures Active(LastOf(row, ImageCommits(row, s)).status)
  {
  }

  lemma ExportChain(row: Row, s: Script)
    requires row.status.Building? && row.digest.Some? && s.image.Success?
    ensures Chain(row, ExportCommits(row, s))
    ensures ExportError(s).Some? ==> Active(LastOf(row, ExportCommits(row, s)).status)
  {
  }

  lemma LastOfBoth(row: Row, a: seq<Row>, b: seq<Row>)
    ensures LastOf(row, a + b) == LastOf(LastOf(row, a), b)
  {
  }

  lemma Appended(all: seq<Row>, a: seq<Row>, b: seq<Row>, c: seq<Row>)
    ensures all + a + b + c == all + (a + b + c)
    ensures c == [] ==> all + a + b == all + (a + b + c)
  {
  }

  /** The rows up to the image, and from there to the archive. */
  lemma ProgressParts(row: Row, s: Script)
    requires s.projectFound
    ensures var preparing := row.(status := Preparing);
            var image := ImageCommits(preparing, s);
            var made := LastOf(preparing, image);
            var rest := if ImageError(s).None? then ExportCommits(made, s) else [];
            && Progress(row, s) == [preparing] + image + rest
            && LastOf(row, Progress(row, s)) == LastOf(made, rest)
            && (ImageError(s).None? ==> made.status.Building?)
  {
    var preparing := row.(status := Preparing);
    var image := ImageCommits(preparing, s);
    ImageChain(preparing, s);
    LastOfBoth(row, [preparing], image);
    var rest := if ImageError(s).None? then ExportCommits(LastOf(preparing, image), s) else [];
    LastOfBoth(row, [preparing] + image, rest);
  }

  lemma ProgressChain(row: Row, s: Script)
    requires row.status.Queued?
    ensures Chain(row, Progress(row, s))
    ensures FirstError(s).Some? ==> Active(LastOf(row, Progress(row, s)).status)
  {
    if s.projectFound {
      var preparing := row.(status := Preparing);
      var image := ImageCommits(preparing, s);
      ImageChain(preparing, s);
      ChainJoins(row, [preparing], image);
      LastOfBoth(row, [preparing], image);
      if ImageError(s).None? {
        var rest := ExportCommits(LastOf(preparing, image), s);
        ExportChain(LastOf(preparing, image), s);
        ChainJoins(row, [preparing] + image, rest);
        LastOfBoth(row, [preparing] + image, rest);
      } else {
        assert [preparing] + image + [] == [preparing] + image;
      }
    }
  }

  /** Whatever the calls answer, every commit of a run goes forward. */
  lemma CommitsGoForward(row: Row, s: Script)
    requires row.status.Queued?
    ensures Chain(row, Commits(row, s))
  {
    ProgressChain(row, s);
    match FirstError(s)
    case None => assert Commits(row, s) == Progress(row, s);
    case Some(message) =>
      ChainJoins(row, Progress(row, s),
                 [LastOf(row, Progress(row, s)).(status := Failed, error := Some(Cut(message)))]);
  }

  const INTERRUPTED: string := "Interrupted: LayerSmith stopped while this build was running. Start the build again."

  function Interrupted(row: Row): Row { row.(status := Failed, error := Some(INTERRUPTED)) }

  function Orphans(rows: map<string, Row>): set<string> { set id | id in rows && Active(rows[id].status) }

  /** Every orphan but those still to do is marked interrupted. */
  function Recovered(rows: map<string, Row>, left: set<string>): map<string, Row> {
    map id | id in rows :: if Active(rows[id].status) && id !in left then Interrupted(rows[id]) else rows[id]
  }

  lemma RecoveredNone(rows: map<string, Row>)
    ensures Recovered(rows, Orphans(rows)) == rows
  {
  }

  lemma RecoveredOne(rows: map<string, Row>, left: set<string>, id: string)
    requires id in left && left <= Orphans(rows)
    ensures id in Recovered(rows, left) && Recovered(rows, left)[id] == rows[id]
    ensures Recovered(rows, left)[id := Interrupted(rows[id])] == Recovered(rows, left - {id})
  {
  }

  /** After recovery no row is active, and finished rows are as they were. */
  lemma NothingActiveAfterRecovery(rows: map<string, Row>, id: string)
    requires id in rows
    ensures id in Recovered(rows, {}) && !Active(Recovered(rows, {})[id].status)
    ensures !Active(rows[id].status) ==> Recovered(rows, {})[id] == rows[id]
    ensures Active(rows[id].status) ==>
              Recovered(rows, {})[id] == rows[id].(status := Failed, error := Some(INTERRUPTED))
  {
  }
}
