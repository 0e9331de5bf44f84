/** Projects and their builds over whole runs: api.create_project, update_project,
    clone_project and start_build, the worker, recovery and deletion. Requests are atomic,
    worker steps come in any order between them. */
module Lifecycle {
  import opened Streams
  import opened Versions
  import opened Builds
  import opened Repositories
  import Text

  datatype Project = Project(name: string, repository: string, next: Version, deleted: bool)

  /** `ever` remembers every version each project has started, deleted builds included. */
  datatype State = State(projects: map<string, Project>, rows: map<string, Row>, ghost ever: map<string, set<Version>>)

  datatype Event =
    | CreateProject(project: string, name: string, repository: string, namespace: string)
    | UpdateProject(project: string, repository: string)
    | CloneProject(source: string, project: string, name: string)
    | DeleteProject(project: string)
    | Start(project: string, id: string, asked: Option<string>)
    | Work(id: string, row: Row)     // one _set_status or commit of the worker
    | Recover
    | Delete(id: string)

  const EMPTY: State := State(map[], map[], map[])

  // --------------------------------------------------------------- projects

  /** _load_project finds it. */
  predicate Found(s: State, project: string) { project in s.projects && !s.projects[project].deleted }

  ghost predicate NameTaken(projects: map<string, Project>, name: string) {
    exists p :: p in projects && !projects[p].deleted && projects[p].name == name
  }

  ghost function Added(s: State, project: string, p: Project): State {
    State(s.projects[project := p], s.rows, s.ever[project := {}])
  }

  function With(s: State, project: string, p: Project): State { s.(projects := s.projects[project := p]) }

  /** create_project: name and repository are both checked. */
  ghost function CreateStep(s: State, project: string, name: string, repository: string, namespace: string): State {
    var called := Text.Trim(name);
    var stored := Text.Trim(if repository != "" then repository else namespace + "/" + called);
    if project in s.projects || !IsName(called) || !IsRepository(stored) || NameTaken(s.projects, called) then s
    else Added(s, project, Project(called, stored, FIRST, false))
  }

  /** update_project: a new repository is checked. */
  ghost function UpdateStep(s: State, project: string, repository: string): State {
    if !Found(s, project) || !IsRepository(Text.Trim(repository)) then s
    else With(s, project, s.projects[project].(repository := Text.Trim(repository)))
  }

  /** clone_project: only the name is checked. */
  ghost function CloneStep(s: State, source: string, project: string, name: string): State {
    var called := Text.Trim(name);
    if !Found(s, source) || project in s.projects || !IsName(called) || NameTaken(s.projects, called) then s
    else Added(s, project, Project(called, Beside(s.projects[source].repository, called), FIRST, false))
  }

  function DeleteStep(s: State, project: string): State {
    if Found(s, project) then With(s, project, s.projects[project].(deleted := true)) else s
  }

  // ------------------------------------------------------------ start_build

  datatype Answer =
    | NoProject | InvalidVersion | InvalidRepository | VersionTaken | AlreadyRunning | Accepted(version: string)

  /** payload.version or project.next_version, stripped */
  function Wanted(p: Project, asked: Option<string>): string {
    Text.Trim(if asked.Some? && asked.value != "" then asked.value else Show(p.next))
  }

  ghost predicate Taken(rows: map<string, Row>, project: string, version: string) {
    exists b :: b in rows && rows[b].project == project && rows[b].version == version
  }

  ghost predicate Busy(rows: map<string, Row>, project: string) {
    exists b :: b in rows && rows[b].project == project && Active(rows[b].status)
  }

  /** start_build's checks, in its order. */
  ghost function AnswerTo(s: State, project: string, asked: Option<string>): Answer {
    if !Found(s, project) then NoProject
    else
      var version := Wanted(s.projects[project], asked);
      if Parse(version).None? then InvalidVersion
      else if !IsRepository(Text.Trim(s.projects[project].repository)) then InvalidRepository
      else if Taken(s.rows, project, version) then VersionTaken
      else if Busy(s.rows, project) then AlreadyRunning
      else Accepted(version)
  }

  function NewRow(p: Project, project: string, version: string): Row {
    Row(project, version, Text.Trim(p.repository) + ":" + version, Queued, None, None, None, None)
  }

  /** The suggestion only moves forward. */
  function Bumped(next: Version, built: Version): Version {
    if Less(next, NextPatch(built)) then NextPatch(built) else next
  }

  ghost function StartStep(s: State, project: string, id: string, asked: Option<string>): State {
    match AnswerTo(s, project, asked)
    case Accepted(version) =>
      if id in s.rows || project !in s.ever then s
      else Begun(s, project, id, NewRow(s.projects[project], project, version), Parse(version).value)
    case _ => s
  }

  ghost function Begun(s: State, project: string, id: string, row: Row, built: Version): State
    requires project in s.projects && project in s.ever
  {
    State(s.projects[project := s.projects[project].(next := Bumped(s.projects[project].next, built))],
          s.rows[id := row], s.ever[project := s.ever[project] + {built}])
  }

  ghost function WorkStep(s: State, id: string, row: Row): State {
    if id in s.rows && Works(s.rows[id], row) then WithRow(s, id, row) else s
  }

  function RemoveStep(s: State, id: string): State {
    if id in s.rows && !Active(s.rows[id].status) then s.(rows := s.rows - {id}) else s
  }

  /** One commit of a run: some queued build, whatever its calls answer, gets from the
      one row to the other. */
  ghost predicate Works(before: Row, after: Row) {
    exists row: Row, s: Script, k: nat :: row.status.Queued? && CommitAt(row, s, k, before, after)
  }

  ghost predicate CommitAt(row: Row, s: Script, k: nat, before: Row, after: Row) {
    k < |Commits(row, s)| && before == Previous(row, Commits(row, s), k) && after == Commits(row, s)[k]
  }

  lemma WorkGoesForward(before: Row, after: Row)
    requires Works(before, after)
    ensures Forward(before, after)
  {
    var row: Row, s: Script, k: nat :| row.status.Queued? && CommitAt(row, s, k, before, after);
    CommitsGoForward(row, s);
  }

  ghost function Step(s: State, e: Event): State {
    match e
    case CreateProject(project, name, repository, namespace) => CreateStep(s, project, name, repository, namespace)
    case UpdateProject(project, repository) => UpdateStep(s, project, repository)
    case CloneProject(source, project, name) => CloneStep(s, source, project, name)
    case DeleteProject(project) => DeleteStep(s, project)
    case Start(project, id, asked) => StartStep(s, project, id, asked)
    case Work(id, row) => WorkStep(s, id, row)
    case Recover => s.(rows := Recovered(s.rows, {}))
    case Delete(id) => RemoveStep(s, id)
  }

  ghost function Run(s: State, events: seq<Event>): State {
    if events == [] then s else Step(Run(s, events[..|events| - 1]), events[|events| - 1])
  }

  /** The first k commits of a run, as events. */
  function WorkEvents(id: string, rows: seq<Row>, k: nat): seq<Event>
    requires k <= |rows|
  {
    if k == 0 then [] else WorkEvents(id, rows, k - 1) + [Work(id, rows[k - 1])]
  }

  ghost function WithRow(s: State, id: string, row: Row): State { s.(rows := s.rows[id := row]) }

  lemma RunSnoc(s: State, events: seq<Event>, e: Event)
    ensures Run(s, events + [e]) == Step(Run(s, events), e)
  {
    assert (events + [e])[..|events|] == events;
  }

  lemma WorkIs(s: State, id: string, row: Row)
    requires id in s.rows && Works(s.rows[id], row)
    ensures Step(s, Work(id, row)) == WithRow(s, id, row)
  {
  }

  lemma WorkSnoc(s: State, events: seq<Event>, id: string, row: Row)
    requires id in Run(s, events).rows && Works(Run(s, events).rows[id], row)
    ensures Run(s, events + [Work(id, row)]) == WithRow(Run(s, events), id, row)
  {
    RunSnoc(s, events, Work(id, row));
    WorkIs(Run(s, events), id, row);
  }

  lemma SetTwice(s: State, id: string, before: Row, row: Row)
    ensures WithRow(WithRow(s, id, before), id, row) == WithRow(s, id, row)
  {
    assert s.rows[id := before][id := row] == s.rows[id := row];
  }

  /** After an event, a run that was at one row is at the next. */
  ghost predicate Takes(run: seq<Event> -> State, s: State, id: string, before: Row, row: Row) {
    forall events :: run(events) == WithRow(s, id, before) ==> run(events + [Work(id, row)]) == WithRow(s, id, row)
  }

  ghost function RunOf(s: State): seq<Event> -> State { (events: seq<Event>) => Run(s, events) }

  lemma WorkTakes(s: State, id: string, before: Row, row: Row)
    requires Works(before, row)
    ensures Takes(RunOf(s), s, id, before, row)
  {
    forall events | Run(s, events) == WithRow(s, id, before)
      ensures Run(s, events + [Work(id, row)]) == WithRow(s, id, row)
    {
      WorkSnoc(s, events, id, row);
      SetTwice(s, id, before, row);
    }
  }

  lemma {:induction false} WorkIsDone(run: seq<Event> -> State, s: State, id: string, row: Row, rows: seq<Row>, k: nat)
    requires run([]) == WithRow(s, id, row) && k <= |rows|
    requires forall j: nat :: j < |rows| ==> Takes(run, s, id, Previous(row, rows, j), rows[j])
    ensures run(WorkEvents(id, rows, k)) == WithRow(s, id, Previous(row, rows, k))
  {
    if k > 0 {
      WorkIsDone(run, s, id, row, rows, k - 1);
      assert Takes(run, s, id, Previous(row, rows, k - 1), rows[k - 1]);
    }
  }

  lemma CommitsAreWork(s: State, id: string, row: Row, script: Script)
    requires row.status.Queued?
    ensures forall j: nat :: j < |Commits(row, script)| ==>
              Takes(RunOf(s), s, id, Previous(row, Commits(row, script), j), Commits(row, script)[j])
  {
    var rows := Commits(row, script);
    forall j: nat | j < |rows|
      ensures Takes(RunOf(s), s, id, Previous(row, rows, j), rows[j])
    {
      CommitWorks(row, script, j);
      WorkTakes(s, id, Previous(row, rows, j), rows[j]);
    }
  }

  lemma CommitWorks(row: Row, script: Script, j: nat)
    requires row.status.Queued? && j < |Commits(row, script)|
    ensures Works(Previous(row, Commits(row, script), j), Commits(row, script)[j])
  {
    assert CommitAt(row, script, j, Previous(row, Commits(row, script), j), Commits(row, script)[j]);
  }

  /** All that run() does to a queued build are steps of this machine: its commits, as
      events, leave the row where run() leaves it, and nothing else changes. */
  lemma RunIsWork(s: State, id: string, script: Script)
    requires id in s.rows && s.rows[id].status.Queued?
    ensures var commits := Commits(s.rows[id], script);
            Run(s, WorkEvents(id, commits, |commits|)) == WithRow(s, id, LastOf(s.rows[id], commits))
  {
    var row, commits := s.rows[id], Commits(s.rows[id], script);
    assert s.rows[id := row] == s.rows;
    CommitsAreWork(s, id, row, script);
    WorkIsDone(RunOf(s), s, id, row, commits, |commits|);
  }

  // --------------------------------------------------------- the invariants

  ghost predicate Rivals(rows: map<string, Row>, a: string, b: string)
    requires a in rows && b in rows
  {
    rows[a].project == rows[b].project && Active(rows[a].status) && Active(rows[b].status)
  }

  ghost predicate OneActive(rows: map<string, Row>) {
    forall a, b :: a in rows && b in rows && Rivals(rows, a, b) ==> a == b
  }

  /** The image reference is a valid repository with the version as its tag. */
  ghost predicate Named(row: Row) {
    exists repository :: IsRepository(repository) && row.imageRef == repository + ":" + row.version
  }

  /** A row's version is one its project has started, and a ready row is complete. */
  ghost predicate RowOk(row: Row, ever: map<string, set<Version>>) {
    && Named(row)
    && (row.status.Ready? ==> row.digest.Some? && row.imageId.Some? && row.archive.Some?)
    && row.project in ever && Parse(row.version).Some? && Parse(row.version).value in ever[row.project]
  }

  ghost predicate RowsOk(rows: map<string, Row>, ever: map<string, set<Version>>) {
    forall b :: b in rows ==> RowOk(rows[b], ever)
  }

  /** The suggestion is above everything ever started, and its first two numbers stay in range. */
  ghost predicate NextOk(projects: map<string, Project>, ever: map<string, set<Version>>) {
    projects.Keys == ever.Keys && forall p :: p in projects ==> NextFits(projects[p].next, ever[p])
  }

  ghost predicate NextFits(next: Version, ever: set<Version>) {
    InRange(next) && forall v :: v in ever ==> InRange(v) && Less(v, next)
  }

  ghost predicate RepositoriesOk(projects: map<string, Project>) {
    forall p :: p in projects ==> IsNearly(projects[p].repository)
  }

  ghost predicate Inv(s: State) {
    OneActive(s.rows) && RowsOk(s.rows, s.ever) && NextOk(s.projects, s.ever) && RepositoriesOk(s.projects)
  }

  lemma NewProjectKeeps(s: State, project: string, p: Project)
    requires Inv(s) && project !in s.projects && p.next == FIRST && IsNearly(p.repository)
    ensures Inv(Added(s, project, p))
  {
    NewProjectKeepsRows(s.rows, s.ever, project);
    NewProjectKeepsNext(s.projects, s.ever, project, p);
  }

  lemma NewProjectKeepsRows(rows: map<string, Row>, ever: map<string, set<Version>>, project: string)
    requires RowsOk(rows, ever) && project !in ever
    ensures RowsOk(rows, ever[project := {}])
  {
    forall b | b in rows
      ensures RowOk(rows[b], ever[project := {}])
    {
      assert RowOk(rows[b], ever);
    }
  }

  lemma NewProjectKeepsNext(projects: map<string, Project>, ever: map<string, set<Version>>, project: string,
                            p: Project)
    requires NextOk(projects, ever) && project !in projects && p.next == FIRST
    ensures NextOk(projects[project := p], ever[project := {}])
  {
  }

  lemma SameNextKeeps(s: State, project: string, p: Project)
    requires Inv(s) && project in s.projects && p.next == s.projects[project].next && IsNearly(p.repository)
    ensures Inv(With(s, project, p))
  {
  }

  lemma CreateKeeps(s: State, project: string, name: string, repository: string, namespace: string)
    requires Inv(s)
    ensures Inv(CreateStep(s, project, name, repository, namespace))
  {
    if CreateStep(s, project, name, repository, namespace) != s {
      var p := CreateStep(s, project, name, repository, namespace).projects[project];
      RepositoryIsNearly(p.repository);
      NewProjectKeeps(s, project, p);
    }
  }

  lemma UpdateKeeps(s: State, project: string, repository: string)
    requires Inv(s)
    ensures Inv(UpdateStep(s, project, repository))
  {
    if UpdateStep(s, project, repository) != s {
      RepositoryIsNearly(Text.Trim(repository));
      SameNextKeeps(s, project, s.projects[project].(repository := Text.Trim(repository)));
    }
  }

  lemma DeleteKeeps(s: State, project: string)
    requires Inv(s)
    ensures Inv(DeleteStep(s, project))
  {
    if Found(s, project) {
      SameNextKeeps(s, project, s.projects[project].(deleted := true));
    }
  }

  lemma CloneKeeps(s: State, source: string, project: string, name: string)
    requires Inv(s)
    ensures Inv(CloneStep(s, source, project, name))
  {
    var called := Text.Trim(name);
    if CloneStep(s, source, project, name) != s {
      BesideIsNearly(s.projects[source].repository, called);
      NewProjectKeeps(s, project, Project(called, Beside(s.projects[source].repository, called), FIRST, false));
    }
  }

  lemma LessBumped(v: Version, next: Version, built: Version)
    requires Less(v, next) || v == built
    ensures Less(v, Bumped(next, built)) && !Less(Bumped(next, built), next)
  {
  }

  lemma AddKeepsNext(projects: map<string, Project>, ever: map<string, set<Version>>, project: string, built: Version)
    requires NextOk(projects, ever) && project in projects && InRange(built) && built.patch < 1000000
    ensures NextOk(projects[project := projects[project].(next := Bumped(projects[project].next, built))],
                   ever[project := ever[project] + {built}])
  {
    BumpedFits(projects[project].next, ever[project], built);
  }

  lemma BumpedFits(next: Version, ever: set<Version>, built: Version)
    requires NextFits(next, ever) && InRange(built) && built.patch < 1000000
    ensures NextFits(Bumped(next, built), ever + {built})
  {
    forall v | v in ever + {built}
      ensures InRange(v) && Less(v, Bumped(next, built))
    {
      LessBumped(v, next, built);
    }
  }

  lemma AddKeepsOneActive(rows: map<string, Row>, id: string, row: Row)
    requires OneActive(rows) && id !in rows && !Busy(rows, row.project)
    ensures OneActive(rows[id := row])
  {
    forall a | a in rows && rows[a].project == row.project ensures !Active(rows[a].status) {
    }
    forall a, b | a in rows && b in rows && Rivals(rows[id := row], a, b) ensures a == b {
      assert Rivals(rows, a, b);
    }
  }

  lemma AddKeepsRows(rows: map<string, Row>, ever: map<string, set<Version>>, id: string, row: Row, built: Version)
    requires RowsOk(rows, ever) && row.project in ever
    requires RowOk(row, ever[row.project := ever[row.project] + {built}])
    ensures RowsOk(rows[id := row], ever[row.project := ever[row.project] + {built}])
  {
    forall b | b in rows ensures RowOk(rows[b], ever[row.project := ever[row.project] + {built}]) {
      assert RowOk(rows[b], ever);
    }
  }

  lemma AddKeepsRepositories(projects: map<string, Project>, project: string, next: Version)
    requires RepositoriesOk(projects) && project in projects
    ensures RepositoriesOk(projects[project := projects[project].(next := next)])
  {
  }

  lemma BegunKeeps(s: State, project: string, id: string, row: Row, built: Version)
    requires Inv(s) && project in s.projects && id !in s.rows && row.project == project && !Busy(s.rows, project)
    requires InRange(built) && built.patch < 1000000
    requires RowOk(row, s.ever[project := s.ever[project] + {built}])
    ensures Inv(Begun(s, project, id, row, built))
  {
    AddKeepsNext(s.projects, s.ever, project, built);
    AddKeepsRepositories(s.projects, project, Bumped(s.projects[project].next, built));
    AddKeepsOneActive(s.rows, id, row);
    AddKeepsRows(s.rows, s.ever, id, row, built);
  }

  lemma NewRowOk(p: Project, project: string, version: string, ever: map<string, set<Version>>)
    requires IsRepository(Text.Trim(p.repository)) && Parse(version).Some?
    requires project in ever && Parse(version).value in ever[project]
    ensures RowOk(NewRow(p, project, version), ever)
  {
    assert NewRow(p, project, version).imageRef == Text.Trim(p.repository) + ":" + version;
  }

  lemma AcceptedMeans(s: State, project: string, asked: Option<string>)
    requires AnswerTo(s, project, asked).Accepted?
    ensures var version := AnswerTo(s, project, asked).version;
            project in s.projects && Parse(version).Some? && !Busy(s.rows, project)
            && IsRepository(Text.Trim(s.projects[project].repository))
  {
  }

  lemma AcceptKeeps(s: State, project: string, id: string, version: string)
    requires Inv(s) && project in s.projects && Parse(version).Some? && !Busy(s.rows, project)
    requires IsRepository(Text.Trim(s.projects[project].repository)) && id !in s.rows
    ensures project in s.ever
    ensures Inv(Begun(s, project, id, NewRow(s.projects[project], project, version), Parse(version).value))
  {
    var built := Parse(version).value;
    ParsedIsSmall(version);
    NewRowOk(s.projects[project], project, version, s.ever[project := s.ever[project] + {built}]);
    BegunKeeps(s, project, id, NewRow(s.projects[project], project, version), built);
  }

  lemma StartKeeps(s: State, project: string, id: string, asked: Option<string>)
    requires Inv(s)
    ensures Inv(StartStep(s, project, id, asked))
  {
    var answer := AnswerTo(s, project, asked);
    if answer.Accepted? && id !in s.rows {
      AcceptedMeans(s, project, asked);
      AcceptKeeps(s, project, id, answer.version);
    }
  }

  lemma WorkKeepsOneActive(rows: map<string, Row>, id: string, row: Row)
    requires OneActive(rows) && id in rows && Forward(rows[id], row)
    ensures OneActive(rows[id := row])
  {
    forall a, b | a in rows && b in rows && Rivals(rows[id := row], a, b) ensures a == b {
      assert Rivals(rows, a, b);
    }
  }

  lemma ForwardKeeps(s: State, id: string, row: Row)
    requires Inv(s) && id in s.rows && Forward(s.rows[id], row)
    ensures Inv(WithRow(s, id, row))
  {
    WorkKeepsOneActive(s.rows, id, row);
    assert RowOk(s.rows[id], s.ever);
  }

  lemma WorkKeeps(s: State, id: string, row: Row)
    requires Inv(s)
    ensures Inv(WorkStep(s, id, row))
  {
    if id in s.rows && Works(s.rows[id], row) {
      WorkGoesForward(s.rows[id], row);
      ForwardKeeps(s, id, row);
    }
  }

  lemma RecoverKeeps(s: State)
    requires Inv(s)
    ensures Inv(s.(rows := Recovered(s.rows, {})))
  {
    forall b | b in s.rows ensures RowOk(Recovered(s.rows, {})[b], s.ever) && !Active(Recovered(s.rows, {})[b].status) {
      NothingActiveAfterRecovery(s.rows, b);
      assert RowOk(s.rows[b], s.ever);
    }
  }

  lemma RemoveKeeps(s: State, id: string)
    requires Inv(s)
    ensures Inv(RemoveStep(s, id))
  {
    var rows := s.rows - {id};
    forall a, b | a in rows && b in rows && Rivals(rows, a, b) ensures a == b {
      assert Rivals(s.rows, a, b);
    }
  }

  lemma StepKeeps(s: State, e: Event)
    requires Inv(s)
    ensures Inv(Step(s, e))
  {
    match e
    case CreateProject(project, name, repository, namespace) => CreateKeeps(s, project, name, repository, namespace);
    case UpdateProject(project, repository) => UpdateKeeps(s, project, repository);
    case CloneProject(source, project, name) => CloneKeeps(s, source, project, name);
    case DeleteProject(project) => DeleteKeeps(s, project);
    case Start(project, id, asked) => StartKeeps(s, project, id, asked);
    case Work(id, row) => WorkKeeps(s, id, row);
    case Recover => RecoverKeeps(s);
    case Delete(id) => RemoveKeeps(s, id);
  }

  lemma {:induction false} RunKeeps(events: seq<Event>)
    ensures Inv(Run(EMPTY, events))
  {
    if events != [] {
      RunKeeps(events[..|events| - 1]);
      StepKeeps(Run(EMPTY, events[..|events| - 1]), events[|events| - 1]);
    }
  }

  // ----------------------------------------------------------- main results

  /** In every reachable state a project has at most one active build, and a ready
      build has a valid repository and its version for a reference, base digest, image and archive. */
  lemma {:induction false} OneActiveBuildPerProject(events: seq<Event>, a: string, b: string)
    requires var rows := Run(EMPTY, events).rows;
             a in rows && b in rows && rows[a].project == rows[b].project
             && Active(rows[a].status) && Active(rows[b].status)
    ensures a == b
  {
    RunKeeps(events);
    assert Rivals(Run(EMPTY, events).rows, a, b);
  }

  lemma {:induction false} ReadyIsDownloadable(events: seq<Event>, b: string)
    requires var rows := Run(EMPTY, events).rows; b in rows && rows[b].status.Ready?
    ensures var row := Run(EMPTY, events).rows[b];
            Named(row) && row.digest.Some? && row.imageId.Some? && row.archive.Some?
  {
    RunKeeps(events);
    assert RowOk(Run(EMPTY, events).rows[b], Run(EMPTY, events).ever);
  }

  lemma StepMovesForward(s: State, e: Event, project: string)
    requires project in s.projects
    ensures project in Step(s, e).projects
    ensures !Less(Step(s, e).projects[project].next, s.projects[project].next)
  {
    if e.Start? && e.project == project {
      var answer := AnswerTo(s, project, e.asked);
      if answer.Accepted? {
        LessBumped(Parse(answer.version).value, s.projects[project].next, Parse(answer.version).value);
      }
    }
  }

  lemma NotLessJoins(a: Version, b: Version, c: Version)
    requires !Less(b, a) && !Less(c, b)
    ensures !Less(c, a)
  {
  }

  lemma {:induction false} NextStaysForward(events: seq<Event>, k: nat, project: string)
    requires k <= |events| && project in Run(EMPTY, events[..k]).projects
    ensures project in Run(EMPTY, events).projects
    ensures !Less(Run(EMPTY, events).projects[project].next, Run(EMPTY, events[..k]).projects[project].next)
  {
    if k == |events| {
      assert events[..k] == events;
    } else {
      var init := events[..|events| - 1];
      assert events[..k] == init[..k];
      NextStaysForward(init, k, project);
      StepMovesForward(Run(EMPTY, init), events[|events| - 1], project);
      NotLessJoins(Run(EMPTY, events[..k]).projects[project].next, Run(EMPTY, init).projects[project].next,
                   Run(EMPTY, events).projects[project].next);
    }
  }

  /** Between any two points of a run, the suggested version never goes back. */
  lemma {:induction false} SuggestionNeverDecreases(events: seq<Event>, k: nat, project: string)
    requires k <= |events| && project in Run(EMPTY, events[..k]).projects
    ensures project in Run(EMPTY, events).projects
    ensures Number(Run(EMPTY, events[..k]).projects[project].next) <= Number(Run(EMPTY, events).projects[project].next)
  {
    NextStaysForward(events, k, project);
    RunKeeps(events);
    RunKeeps(events[..k]);
    InvFits(Run(EMPTY, events), project);
    InvFits(Run(EMPTY, events[..k]), project);
    LessIsLessNumber(Run(EMPTY, events).projects[project].next, Run(EMPTY, events[..k]).projects[project].next);
  }

  /** The suggestion is above every version the project ever started. */
  lemma {:induction false} SuggestionIsAboveAll(events: seq<Event>, project: string, v: Version)
    requires var s := Run(EMPTY, events); project in s.projects && project in s.ever && v in s.ever[project]
    ensures Number(v) < Number(Run(EMPTY, events).projects[project].next)
  {
    RunKeeps(events);
    InvFits(Run(EMPTY, events), project);
    LessIsLessNumber(v, Run(EMPTY, events).projects[project].next);
  }

  lemma InvFits(s: State, project: string)
    requires Inv(s) && project in s.projects
    ensures project in s.ever && NextFits(s.projects[project].next, s.ever[project])
  {
  }

  /** The suggestion is the larger of what it was and the version after the one built. */
  ghost predicate MovesPast(before: State, after: State, project: string, version: string) {
    && project in before.projects && project in after.projects && Parse(version).Some?
    && Number(after.projects[project].next)
       == Max(Number(before.projects[project].next), Number(Parse(version).value) + 1)
  }

  lemma {:induction false} SuggestionAfterBuild(events: seq<Event>, project: string, id: string, asked: Option<string>)
    requires AnswerTo(Run(EMPTY, events), project, asked).Accepted? && id !in Run(EMPTY, events).rows
    ensures MovesPast(Run(EMPTY, events), Run(EMPTY, events + [Start(project, id, asked)]), project,
                      AnswerTo(Run(EMPTY, events), project, asked).version)
  {
    RunKeeps(events);
    StartMoves(Run(EMPTY, events), project, id, asked);
    RunSnoc(EMPTY, events, Start(project, id, asked));
  }

  lemma StartMoves(s: State, project: string, id: string, asked: Option<string>)
    requires Inv(s) && AnswerTo(s, project, asked).Accepted? && id !in s.rows
    ensures MovesPast(s, Step(s, Start(project, id, asked)), project, AnswerTo(s, project, asked).version)
  {
    var version := AnswerTo(s, project, asked).version;
    AcceptedMeans(s, project, asked);
    InvFits(s, project);
    ParsedIsSmall(version);
    BegunMoves(s, project, id, version);
    StartBegins(s, project, id, asked, version);
    StepStarts(s, project, id, asked);
  }

  lemma StartBegins(s: State, project: string, id: string, asked: Option<string>, version: string)
    requires AnswerTo(s, project, asked) == Accepted(version) && id !in s.rows
    requires project in s.projects && project in s.ever && Parse(version).Some?
    ensures StartStep(s, project, id, asked)
         == Begun(s, project, id, NewRow(s.projects[project], project, version), Parse(version).value)
  {
  }

  lemma StepStarts(s: State, project: string, id: string, asked: Option<string>)
    ensures Step(s, Start(project, id, asked)) == StartStep(s, project, id, asked)
  {
  }

  lemma BegunMoves(s: State, project: string, id: string, version: string)
    requires project in s.projects && project in s.ever && InRange(s.projects[project].next)
    requires Parse(version).Some? && InRange(Parse(version).value) && Parse(version).value.patch < 1000000
    ensures MovesPast(s, Begun(s, project, id, NewRow(s.projects[project], project, version), Parse(version).value),
                      project, version)
  {
    BumpedNumber(s.projects[project].next, Parse(version).value);
  }

  lemma BumpedNumber(next: Version, built: Version)
    requires InRange(next) && InRange(built) && built.patch < 1000000
    ensures Number(Bumped(next, built)) == Max(Number(next), Number(built) + 1)
  {
    NextNumber(built);
    LessIsLessNumber(next, NextPatch(built));
  }

  ghost predicate NotBack(before: State, after: State, project: string) {
    && project in before.projects && project in after.projects
    && Number(before.projects[project].next) <= Number(after.projects[project].next)
  }

  lemma NeverBack(before: seq<Event>, later: seq<Event>, project: string)
    requires project in Run(EMPTY, before).projects
    ensures NotBack(Run(EMPTY, before), Run(EMPTY, before + later), project)
  {
    assert (before + later)[..|before|] == before;
    SuggestionNeverDecreases(before + later, |before|, project);
  }

  ghost predicate Below(version: string, s: State, project: string) {
    project in s.projects && Parse(version).Some? && Number(Parse(version).value) < Number(s.projects[project].next)
  }

  /** A version that was started is below every later suggestion, whatever is built,
      deleted or changed in between. */
  lemma {:induction false} StartedStaysBelow(before: seq<Event>, project: string, id: string, asked: Option<string>,
                                             later: seq<Event>)
    requires AnswerTo(Run(EMPTY, before), project, asked).Accepted? && id !in Run(EMPTY, before).rows
    ensures Below(AnswerTo(Run(EMPTY, before), project, asked).version,
                  Run(EMPTY, before + [Start(project, id, asked)] + later), project)
  {
    var started := before + [Start(project, id, asked)];
    SuggestionAfterBuild(before, project, id, asked);
    NeverBack(started, later, project);
    PastIsBelow(Run(EMPTY, before), Run(EMPTY, started), Run(EMPTY, started + later), project,
                AnswerTo(Run(EMPTY, before), project, asked).version);
  }

  lemma PastIsBelow(s: State, t: State, u: State, project: string, version: string)
    requires MovesPast(s, t, project, version) && NotBack(t, u, project)
    ensures Below(version, u, project)
  {
  }

  lemma SuggestionIsNotTaken(s: State, project: string)
    requires Inv(s) && project in s.projects && Parse(Show(s.projects[project].next)) == Some(s.projects[project].next)
    ensures !Taken(s.rows, project, Show(s.projects[project].next))
  {
    var next := s.projects[project].next;
    forall b | b in s.rows && s.rows[b].project == project ensures s.rows[b].version != Show(next) {
      assert RowOk(s.rows[b], s.ever);
    }
  }

  lemma InvAnswer(s: State, project: string)
    requires Inv(s) && Found(s, project)
    ensures AnswerTo(s, project, None) == Suggested(s, project)
  {
    var p := s.projects[project];
    var readable := p.next.patch < 1000000;
    ParseOfShow(p.next);
    if readable {
      SuggestionIsNotTaken(s, project);
    }
    NearlyIsTight(p.repository);
    AnswerFrom(s, project);
  }

  /** What start_build answers when no version is asked for. */
  ghost function Suggested(s: State, project: string): Answer
    requires Found(s, project)
  {
    var p := s.projects[project];
    if p.next.patch >= 1000000 then InvalidVersion
    else if !IsRepository(p.repository) then InvalidRepository
    else if Busy(s.rows, project) then AlreadyRunning
    else Accepted(Show(p.next))
  }

  lemma AnswerFrom(s: State, project: string)
    requires Found(s, project) && Text.Trim(s.projects[project].repository) == s.projects[project].repository
    requires Parse(Show(s.projects[project].next)).Some? <==> s.projects[project].next.patch < 1000000
    requires s.projects[project].next.patch < 1000000
             ==> !Taken(s.rows, project, Show(s.projects[project].next))
    ensures AnswerTo(s, project, None) == Suggested(s, project)
  {
    ShowHasNoSpace(s.projects[project].next);
  }

  /** So a build without an explicit version never collides. It is accepted exactly if
      VERSION_RE takes the patch number, the repository is valid and no build is running. */
  lemma {:induction false} SuggestionNeverCollides(events: seq<Event>, project: string)
    requires Found(Run(EMPTY, events), project)
    ensures var s := Run(EMPTY, events);
            var p := s.projects[project];
            && AnswerTo(s, project, None) == Suggested(s, project)
            && (AnswerTo(s, project, None) == Accepted(Show(p.next))
                <==> p.next.patch < 1000000 && IsRepository(p.repository) && !Busy(s.rows, project))
  {
    RunKeeps(events);
    InvAnswer(Run(EMPTY, events), project);
  }

  // ---- Clones whose repository is none ----

  lemma NoBuildsYet(s: State, project: string)
    requires Inv(s) && project !in s.projects
    ensures !Busy(s.rows, project)
  {
    forall b | b in s.rows
      ensures s.rows[b].project != project
    {
      assert RowOk(s.rows[b], s.ever);
    }
  }

  /** The first build of a clone is accepted exactly if the clone's name has no hyphen at
      its end or next to another, whatever it is a clone of. */
  lemma {:induction false} CloneBuildsExactly(events: seq<Event>, source: string, project: string, name: string)
    requires project !in Run(EMPTY, events).projects
    requires project in Run(EMPTY, events + [CloneProject(source, project, name)]).projects
    ensures AnswerTo(Run(EMPTY, events + [CloneProject(source, project, name)]), project, None)
            == if IsPlain(Text.Trim(name)) then Accepted(Show(FIRST)) else InvalidRepository
  {
    var s := Run(EMPTY, events);
    var all := events + [CloneProject(source, project, name)];
    assert all[..|all| - 1] == events;
    RunKeeps(events);
    BesideIsNearly(s.projects[source].repository, Text.Trim(name));
    SuggestionNeverCollides(all, project);
    NoBuildsYet(s, project);
  }

  ghost predicate Repairs(e: Event, project: string) {
    e.UpdateProject? && e.project == project && IsRepository(Text.Trim(e.repository))
  }

  lemma RepositoryStays(s: State, e: Event, project: string)
    requires project in s.projects && !Repairs(e, project)
    ensures project in Step(s, e).projects
    ensures Step(s, e).projects[project].repository == s.projects[project].repository
  {
  }

  /** Such a clone refuses every build, with any version, until its repository is changed
      to a valid one. */
  lemma {:induction false} StaysRefused(s: State, events: seq<Event>, project: string, asked: Option<string>)
    requires project in s.projects && !IsRepository(Text.Trim(s.projects[project].repository))
    requires forall e :: e in events ==> !Repairs(e, project)
    ensures project in Run(s, events).projects
    ensures Run(s, events).projects[project].repository == s.projects[project].repository
    ensures !AnswerTo(Run(s, events), project, asked).Accepted?
  {
    if events != [] {
      StaysRefused(s, events[..|events| - 1], project, asked);
      RepositoryStays(Run(s, events[..|events| - 1]), events[|events| - 1], project);
    }
  }

  lemma FirstProject(name: string)
    requires IsName(name) && IsRepository(name) && Text.Trim(name) == name
    ensures Run(EMPTY, [CreateProject("p", name, name, "")]) == Added(EMPTY, "p", Project(name, name, FIRST, false))
  {
    RunSnoc(EMPTY, [], CreateProject("p", name, name, ""));
    assert [] + [CreateProject("p", name, name, "")] == [CreateProject("p", name, name, "")];
  }

  lemma FirstClone(name: string, second: string)
    requires IsName(name) && IsRepository(name) && Text.Trim(name) == name
    requires IsName(second) && Text.Trim(second) == second && second != name && !IsPlain(second)
    ensures var s := Run(EMPTY, [CreateProject("p", name, name, "")] + [CloneProject("p", "c", second)]);
            Found(s, "c") && AnswerTo(s, "c", None) == InvalidRepository
  {
    FirstProject(name);
    RunSnoc(EMPTY, [CreateProject("p", name, name, "")], CloneProject("p", "c", second));
    assert "c" != "p";
    CloneBuildsExactly([CreateProject("p", name, name, "")], "p", "c", second);
  }

  /** Creating a project and cloning it under a name with two hyphens. */
  lemma UnbuildableClone()
    ensures var s := Run(EMPTY, [CreateProject("p", "app", "app", ""), CloneProject("p", "c", "my--app")]);
            Found(s, "c") && AnswerTo(s, "c", None) == InvalidRepository
  {
    var name, second := "app", "my--app";
    AppIsPlain();
    MyAppIsNot();
    LetteredIsName(name);
    PlainIsRepository(name);
    LetteredIsName(second);
    FirstClone(name, second);
    assert [CreateProject("p", name, name, "")] + [CloneProject("p", "c", second)]
        == [CreateProject("p", name, name, ""), CloneProject("p", "c", second)];
  }

  // ---- Names and versions are there once ----

  ghost predicate VersionsOnce(rows: map<string, Row>) {
    forall a, b :: a in rows && b in rows && SameVersion(rows[a], rows[b]) ==> a == b
  }

  predicate SameVersion(a: Row, b: Row) { a.project == b.project && a.version == b.version }

  ghost predicate NamesOnce(projects: map<string, Project>) {
    forall p, q :: p in projects && q in projects && SameName(projects[p], projects[q]) ==> p == q
  }

  predicate SameName(p: Project, q: Project) { !p.deleted && !q.deleted && p.name == q.name }

  ghost predicate Once(s: State) { VersionsOnce(s.rows) && NamesOnce(s.projects) }

  lemma AddedOnce(projects: map<string, Project>, project: string, p: Project)
    requires NamesOnce(projects) && project !in projects && !NameTaken(projects, p.name)
    ensures NamesOnce(projects[project := p])
  {
    forall q | q in projects ensures !SameName(projects[q], p) {
    }
    forall a, b | a in projects && b in projects && SameName(projects[a], projects[b]) ensures a == b {
    }
  }

  lemma ChangedOnce(projects: map<string, Project>, project: string, p: Project)
    requires NamesOnce(projects) && project in projects
    requires p.name == projects[project].name && (projects[project].deleted ==> p.deleted)
    ensures NamesOnce(projects[project := p])
  {
    var after := projects[project := p];
    forall a, b | a in after && b in after && SameName(after[a], after[b]) ensures a == b {
      assert SameName(projects[a], projects[b]);
    }
  }

  lemma StartedOnce(rows: map<string, Row>, id: string, row: Row)
    requires VersionsOnce(rows) && id !in rows && !Taken(rows, row.project, row.version)
    ensures VersionsOnce(rows[id := row])
  {
    forall b | b in rows ensures !SameVersion(rows[b], row) {
    }
    forall a, b | a in rows && b in rows && SameVersion(rows[a], rows[b]) ensures a == b {
    }
  }

  lemma SameRowsOnce(rows: map<string, Row>, after: map<string, Row>)
    requires VersionsOnce(rows) && after.Keys <= rows.Keys
    requires forall b :: b in after ==> SameVersion(rows[b], after[b])
    ensures VersionsOnce(after)
  {
    forall a, b | a in after && b in after && SameVersion(after[a], after[b]) ensures a == b {
      assert SameVersion(rows[a], rows[b]);
    }
  }

  lemma WorkedOnce(s: State, id: string, row: Row)
    requires VersionsOnce(s.rows)
    ensures VersionsOnce(WorkStep(s, id, row).rows)
  {
    if id in s.rows && Works(s.rows[id], row) {
      WorkGoesForward(s.rows[id], row);
      SameRowsOnce(s.rows, WithRow(s, id, row).rows);
    }
  }

  lemma AcceptedOnce(s: State, project: string, id: string, asked: Option<string>)
    requires Once(s)
    ensures Once(StartStep(s, project, id, asked))
  {
    var answer := AnswerTo(s, project, asked);
    if answer.Accepted? && id !in s.rows && project in s.ever {
      BegunOnce(s, project, id, NewRow(s.projects[project], project, answer.version), Parse(answer.version).value);
    }
  }

  lemma BegunOnce(s: State, project: string, id: string, row: Row, built: Version)
    requires Once(s) && project in s.projects && project in s.ever && id !in s.rows
    requires !Taken(s.rows, row.project, row.version)
    ensures Once(Begun(s, project, id, row, built))
  {
    StartedOnce(s.rows, id, row);
    ChangedOnce(s.projects, project, s.projects[project].(next := Bumped(s.projects[project].next, built)));
  }

  lemma ProjectsOnce(s: State, e: Event)
    requires Once(s) && (e.CreateProject? || e.UpdateProject? || e.CloneProject? || e.DeleteProject?)
    ensures Once(Step(s, e))
  {
    match e
    case CreateProject(project, name, repository, namespace) =>
      if Step(s, e) != s {
        AddedOnce(s.projects, project, Step(s, e).projects[project]);
      }
    case UpdateProject(project, repository) =>
      if Step(s, e) != s {
        ChangedOnce(s.projects, project, s.projects[project].(repository := Text.Trim(repository)));
      }
    case CloneProject(source, project, name) =>
      if Step(s, e) != s {
        AddedOnce(s.projects, project, Step(s, e).projects[project]);
      }
    case DeleteProject(project) =>
      if Found(s, project) {
        ChangedOnce(s.projects, project, s.projects[project].(deleted := true));
      }
  }

  lemma RecoveredOnce(rows: map<string, Row>)
    requires VersionsOnce(rows)
    ensures VersionsOnce(Recovered(rows, {}))
  {
    SameRowsOnce(rows, Recovered(rows, {}));
  }

  lemma StepOnce(s: State, e: Event)
    requires Once(s)
    ensures Once(Step(s, e))
  {
    match e
    case Start(project, id, asked) => AcceptedOnce(s, project, id, asked);
    case Work(id, row) => WorkedOnce(s, id, row);
    case Recover => RecoveredOnce(s.rows);
    case Delete(id) => SameRowsOnce(s.rows, RemoveStep(s, id).rows);
    case _ => ProjectsOnce(s, e);
  }

  lemma {:induction false} RunOnce(events: seq<Event>)
    ensures Once(Run(EMPTY, events))
  {
    if events != [] {
      RunOnce(events[..|events| - 1]);
      StepOnce(Run(EMPTY, events[..|events| - 1]), events[|events| - 1]);
    }
  }

  /** No two builds of a project have the same version, and no two projects that are not
      deleted the same name. */
  lemma {:induction false} NothingTwice(events: seq<Event>, a: string, b: string)
    ensures var s := Run(EMPTY, events);
            && (a in s.rows && b in s.rows && a != b ==>
                  s.rows[a].project != s.rows[b].project || s.rows[a].version != s.rows[b].version)
            && (a in s.projects && b in s.projects && !s.projects[a].deleted && !s.projects[b].deleted && a != b ==>
                  s.projects[a].name != s.projects[b].name)
  {
    RunOnce(events);
  }

  // ---- What each request does ----

  /** A build asked for by its version is accepted exactly if there is such a project, the
      version is one, the repository is valid, the version is not there yet and no build runs. */
  lemma ExplicitVersion(s: State, project: string, id: string, asked: string)
    requires asked != "" && id !in s.rows && s.projects.Keys <= s.ever.Keys
    ensures var version := Text.Trim(asked);
            var after := Step(s, Start(project, id, Some(asked)));
            && (AnswerTo(s, project, Some(asked)) == Accepted(version)
                <==> Found(s, project) && Parse(version).Some?
                     && IsRepository(Text.Trim(s.projects[project].repository))
                     && (forall b :: b in s.rows && s.rows[b].project == project ==>
                           s.rows[b].version != version && !Active(s.rows[b].status)))
            && (AnswerTo(s, project, Some(asked)).Accepted? ==>
                  && id in after.rows && after.rows[id].version == version && after.rows[id].status.Queued?
                  && after.rows[id].project == project && after.rows == s.rows[id := after.rows[id]]
                  && after.rows[id].imageRef == Text.Trim(s.projects[project].repository) + ":" + version)
            && (!AnswerTo(s, project, Some(asked)).Accepted? ==> after == s)
  {
  }

  /** No project that is not deleted has the name. */
  ghost predicate IsFree(s: State, name: string) {
    forall p :: p in s.projects && !s.projects[p].deleted ==> s.projects[p].name != name
  }

  /** A project is created exactly under a free, valid name with a valid repository, by
      default the name in the namespace; both are stripped. */
  lemma Created(s: State, project: string, name: string, repository: string, namespace: string)
    requires project !in s.projects
    ensures var called := Text.Trim(name);
            var stored := Text.Trim(if repository == "" then namespace + "/" + called else repository);
            var after := Step(s, CreateProject(project, name, repository, namespace));
            if IsName(called) && IsFree(s, called) && IsRepository(stored)
            then Found(after, project) && after.projects[project] == Project(called, stored, FIRST, false)
            else after == s
  {
  }

  /** A clone is made exactly of a project that is found, under a free, valid name; it has
      the repository made of that and the source's. */
  lemma Cloned(s: State, source: string, project: string, name: string)
    requires project !in s.projects
    ensures var called := Text.Trim(name);
            Step(s, CloneProject(source, project, name)).projects
            == if Found(s, source) && IsName(called) && IsFree(s, called)
               then s.projects[project := Project(called, Beside(s.projects[source].repository, called), FIRST, false)]
               else s.projects
  {
  }

  /** An empty version is none. */
  lemma EmptyIsNone(s: State, project: string)
    ensures AnswerTo(s, project, Some("")) == AnswerTo(s, project, None)
  {
    if Found(s, project) {
      assert Wanted(s.projects[project], Some("")) == Wanted(s.projects[project], None);
    }
  }

  lemma Updated(s: State, project: string, repository: string)
    requires Found(s, project)
    ensures Step(s, UpdateProject(project, repository)).projects
         == if IsRepository(Text.Trim(repository))
            then s.projects[project := s.projects[project].(repository := Text.Trim(repository))] else s.projects
  {
  }

  /** A deleted project is not found any more; its builds stay. */
  lemma ProjectDeleted(s: State, project: string, asked: Option<string>)
    ensures var after := Step(s, DeleteProject(project));
            AnswerTo(after, project, asked) == NoProject && after.rows == s.rows
  {
  }

  /** Deleting takes exactly a build that has ended, and a restart ends every build. */
  lemma {:induction false} EndedAndDeleted(s: State, id: string)
    ensures Step(s, Delete(id)).rows
         == if id in s.rows && !Active(s.rows[id].status) then s.rows - {id} else s.rows
    ensures id in s.rows ==>
              var after := Step(s, Recover).rows;
              && id in after && !Active(after[id].status)
              && after[id] == if Active(s.rows[id].status)
                              then s.rows[id].(status := Failed, error := Some(INTERRUPTED)) else s.rows[id]
  {
    if id in s.rows {
      NothingActiveAfterRecovery(s.rows, id);
    }
  }
}
