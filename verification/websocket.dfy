/** api.build_logs against a working build: one socket, one worker, every order of
    their steps. */
module WebSocket {
  import opened Streams
  import opened LogBus
  import BuildLog

  /** The worker: a line goes to the file (while under the cap), then to the bus; the
      marker is the file's last line; a status is committed before it is announced. */
  datatype Worker = Worker(
    written: nat,             // lines emitted so far; the next one gets this id
    file: seq<Message>,       // the log file's lines
    published: seq<Message>,  // what the bus has been given, in order
    due: Option<Message>,     // what the worker publishes next
    status: Status,
    announced: bool)

  /** Closed: the handler has returned after a `done`. Gone: the reader disconnected. */
  datatype Phase = Waiting | Subscribed | Replayed | Draining | Closed | Gone

  /** `from` is how much had been published when the socket subscribed, `heard` what its
      queue has taken since, `drained` how many of those it has sent on. */
  datatype Socket = Socket(
    phase: Phase, from: nat, replay: seq<Message>, heard: seq<Message>, drained: nat, queue: seq<Message>,
    sent: seq<Message>, dropped: bool, checked: bool)

  datatype State = State(w: Worker, s: Socket)

  datatype Event =
    | EmitLine(kept: bool)
    | Truncate
    | Publish
    | SetStep
    | Commit(status: Status)
    | Announce
    | Subscribe
    | Replay
    | Check
    | Drain
    | Disconnect

  function WorkerStep(w: Worker, e: Event): Worker {
    match e
    case EmitLine(kept) =>
      if w.due.Some? then w
      else w.(written := w.written + 1,
              file := if kept && Truncated !in w.file then w.file + [Log(w.written)] else w.file,
              due := Some(Log(w.written)))
    case Truncate => if Truncated in w.file then w else w.(file := w.file + [Truncated])
    case Publish => if w.due.Some? then w.(published := w.published + [w.due.value], due := None) else w
    case SetStep => if w.due.None? && !w.announced then w.(due := Some(Step)) else w
    case Commit(status) => if w.due.None? && w.status.Active? then w.(status := status) else w
    case Announce =>
      if w.due.None? && !w.status.Active? && !w.announced then w.(due := Some(Done(w.status)), announced := true) else w
    case _ => w
  }

  /** The last LOG_REPLAY_LINES lines, after a note when there are more. */
  function ReplayOf(file: seq<Message>): seq<Message> {
    if |file| > LOG_REPLAY_LINES then [Note] + file[|file| - LOG_REPLAY_LINES..] else file
  }

  predicate Listening(s: Socket) { s.phase.Subscribed? || s.phase.Replayed? || s.phase.Draining? }

  /** The bus hands the socket a message; a full queue drops it. */
  function Hear(s: Socket, m: Message): Socket {
    var heard := if |s.queue| < QUEUE_SIZE then s.heard + [m] else s.heard;
    s.(queue := Put(s.queue, m), heard := heard, dropped := s.dropped || |s.queue| >= QUEUE_SIZE)
  }

  function SocketStep(s: Socket, w: Worker, e: Event): Socket {
    match e
    case Publish => if w.due.None? || !Listening(s) then s else Hear(s, w.due.value)
    case Subscribe => if s.phase.Waiting? then s.(phase := Subscribed, from := |w.published|) else s
    case Replay =>
      if s.phase.Subscribed? then s.(phase := Replayed, replay := ReplayOf(w.file), sent := ReplayOf(w.file)) else s
    case Check =>
      if !s.phase.Replayed? then s
      else if w.status.Active? then s.(phase := Draining)
      else s.(phase := Closed, sent := s.sent + [Done(w.status)], checked := true)
    case Drain =>
      if !s.phase.Draining? || s.queue == [] then s
      else s.(queue := s.queue[1..], sent := s.sent + [s.queue[0]], drained := s.drained + 1,
              phase := if s.queue[0].Done? then Closed else Draining)
    case Disconnect => if s.phase.Closed? then s else s.(phase := Gone)
    case _ => s
  }

  function StepOf(st: State, e: Event): State { State(WorkerStep(st.w, e), SocketStep(st.s, st.w, e)) }

  function RunFrom(st: State, events: seq<Event>): State {
    if events == [] then st else StepOf(RunFrom(st, events[..|events| - 1]), events[|events| - 1])
  }

  const START: State := State(Worker(0, [], [], None, BuildLog.Active, false),
                              Socket(Waiting, 0, [], [], 0, [], [], false, false))

  function Run(events: seq<Event>): State { RunFrom(START, events) }

  // -------------------------------------------------------- the invariants

  /** Lines appear at most once and in order. */
  ghost predicate Ordered(ms: seq<Message>, below: nat) {
    && (forall i: nat :: i < |ms| && ms[i].Log? ==> ms[i].id < below)
    && (forall i: nat, j: nat :: i < j < |ms| && ms[i].Log? && ms[j].Log? ==> ms[i].id < ms[j].id)
  }

  /** Ids below this have been published. */
  function Published(w: Worker): nat {
    if w.due.Some? && w.due.value.Log? then w.due.value.id else w.written
  }

  /** A line that was emitted is published or about to be. */
  ghost predicate LinesOk(w: Worker) {
    && Ordered(w.file, w.written) && Ordered(w.published, Published(w))
    && (w.due.Some? && w.due.value.Log? ==> w.due.value.id < w.written)
  }

  /** The marker comes last, and everything before it is a line. */
  ghost predicate FileOk(file: seq<Message>) {
    && (forall i: nat :: i < |file| ==> file[i].Log? || file[i].Truncated?)
    && (forall i: nat :: i + 1 < |file| ==> file[i].Log?)
  }

  ghost predicate NoDone(ms: seq<Message>) { forall i: nat :: i < |ms| ==> !ms[i].Done? }

  ghost predicate DoneDue(w: Worker) { w.due.Some? && w.due.value.Done? }

  /** `done` is announced once, with the status committed before. */
  ghost predicate DoneOk(w: Worker) {
    && NoDone(w.file)
    && (w.announced ==> !w.status.Active?)
    && (DoneDue(w) ==> w.announced && w.due.value == Done(w.status))
    && (!w.announced || DoneDue(w) ==> NoDone(w.published))
    && (forall i: nat :: i < |w.published| && w.published[i].Done? ==> w.published[i] == Done(w.status))
    && (forall i: nat, j: nat :: i < j < |w.published| ==> !w.published[i].Done? || !w.published[j].Done?)
  }

  /** What the queue has taken waits in it or has been sent on, in order. */
  ghost predicate QueueOk(s: Socket) {
    && s.drained <= |s.heard| && s.queue == s.heard[s.drained..]
    && (s.phase.Waiting? ==> s.heard == [])
    && (s.phase.Waiting? || s.phase.Subscribed? ==> s.replay == [])
    && (s.phase.Waiting? || s.phase.Subscribed? || s.phase.Replayed? ==> s.drained == 0)
  }

  /** What was sent: the replay, what was drained, and the answer of the check. */
  ghost predicate SentOk(s: Socket, w: Worker) {
    && s.drained <= |s.heard|
    && s.sent == s.replay + s.heard[..s.drained] + (if s.checked then [Done(w.status)] else [])
    && (s.checked ==> s.phase.Closed? && !w.status.Active? && s.drained == 0)
  }

  /** What the queue has taken was published since the subscription; all of it, unless
      a message met a full queue. */
  ghost predicate HeardOk(s: Socket, w: Worker) {
    && s.from <= |w.published|
    && (forall m :: m in s.heard ==> m in w.published[s.from..])
    && Ordered(s.heard, Published(w))
    && (!s.dropped ==> s.heard <= w.published[s.from..])
    && (!s.dropped && Listening(s) ==> s.heard == w.published[s.from..])
  }

  /** A socket that has sent `done` has closed, and the other way round. */
  ghost predicate ClosedOk(s: Socket, w: Worker) {
    && s.drained <= |s.heard| && NoDone(s.replay)
    && (!s.phase.Closed? ==> NoDone(s.heard[..s.drained]))
    && (s.phase.Closed? && !s.checked ==>
          s.drained > 0 && s.heard[s.drained - 1] == Done(w.status) && NoDone(s.heard[..s.drained - 1])
          && !w.status.Active?)
  }

  ghost predicate PastReplay(s: Socket) { s.phase.Replayed? || s.phase.Draining? || s.phase.Closed? }

  /** A line older than every line of a replay that is as long as a replay can be. */
  ghost predicate OlderThan(m: Message, replay: seq<Message>) {
    && m.Log? && |replay| == LOG_REPLAY_LINES + 1
    && (exists j: nat :: j < |replay| && replay[j].Log?)
    && (forall j: nat :: j < |replay| && replay[j].Log? ==> m.id < replay[j].id)
  }

  /** A line published before the subscription that went to the file is in the replay,
      or older than its window. */
  ghost predicate ReplayOk(s: Socket, w: Worker) {
    && Ordered(s.replay, w.written)
    && (PastReplay(s) ==>
          forall i: nat :: i < s.from && i < |w.published| && w.published[i].Log? && w.published[i] in w.file
            ==> w.published[i] in s.replay || OlderThan(w.published[i], s.replay))
  }

  ghost predicate Inv(st: State) {
    && LinesOk(st.w) && DoneOk(st.w) && FileOk(st.w.file)
    && QueueOk(st.s) && SentOk(st.s, st.w) && HeardOk(st.s, st.w) && ClosedOk(st.s, st.w) && ReplayOk(st.s, st.w)
  }

  // ------------------------------------------------------- every step keeps it

  lemma OrderedSnoc(ms: seq<Message>, m: Message, below: nat, above: nat)
    requires Ordered(ms, below) && below <= above && (m.Log? ==> below <= m.id < above)
    ensures Ordered(ms + [m], above)
  {
  }

  lemma LinesKept(w: Worker, e: Event)
    requires LinesOk(w)
    ensures LinesOk(WorkerStep(w, e)) && Published(w) <= Published(WorkerStep(w, e))
  {
    match e
    case EmitLine(kept) =>
      if w.due.None? && kept && Truncated !in w.file {
        OrderedSnoc(w.file, Log(w.written), w.written, w.written + 1);
      }
    case Truncate => OrderedSnoc(w.file, Truncated, w.written, w.written);
    case Publish =>
      if w.due.Some? {
        OrderedSnoc(w.published, w.due.value, Published(w), w.written);
      }
    case _ =>
  }

  lemma FileKept(w: Worker, e: Event)
    requires FileOk(w.file)
    ensures FileOk(WorkerStep(w, e).file) && w.file <= WorkerStep(w, e).file
  {
    if w.file != [] {
      assert w.file[|w.file| - 1] in w.file;
    }
  }

  lemma DoneKept(w: Worker, e: Event)
    requires DoneOk(w)
    ensures DoneOk(WorkerStep(w, e))
    ensures !w.status.Active? ==> WorkerStep(w, e).status == w.status
  {
  }

  lemma QueueKept(s: Socket, w: Worker, e: Event)
    requires QueueOk(s)
    ensures QueueOk(SocketStep(s, w, e))
  {
    if e.Publish? && w.due.Some? && Listening(s) {
      assert (s.heard + [w.due.value])[s.drained..] == s.heard[s.drained..] + [w.due.value];
    }
  }

  lemma DrainTakesNext(s: Socket)
    requires QueueOk(s) && s.queue != []
    ensures s.drained < |s.heard| && s.queue[0] == s.heard[s.drained]
    ensures s.heard[..s.drained + 1] == s.heard[..s.drained] + [s.queue[0]]
  {
  }

  lemma DrainSent(s: Socket, w: Worker)
    requires QueueOk(s) && SentOk(s, w) && s.phase.Draining? && s.queue != []
    ensures SentOk(SocketStep(s, w, Drain), w)
  {
    DrainTakesNext(s);
    Associate(s.replay, s.heard[..s.drained], [s.queue[0]]);
    assert s.replay + s.heard[..s.drained] + [] == s.replay + s.heard[..s.drained];
  }

  lemma HearSent(s: Socket, w: Worker, m: Message)
    requires SentOk(s, w)
    ensures SentOk(Hear(s, m), w)
  {
    assert (s.heard + [m])[..s.drained] == s.heard[..s.drained];
  }

  lemma SentKept(s: Socket, w: Worker, e: Event)
    requires QueueOk(s) && SentOk(s, w) && (!w.status.Active? ==> WorkerStep(w, e).status == w.status)
    ensures SentOk(SocketStep(s, w, e), WorkerStep(w, e))
  {
    match e
    case Publish => if w.due.Some? && Listening(s) { HearSent(s, w, w.due.value); }
    case Drain => if s.phase.Draining? && s.queue != [] { DrainSent(s, w); }
    case Replay => assert ReplayOf(w.file) + s.heard[..0] + [] == ReplayOf(w.file);
    case Check => assert s.sent + [] == s.sent;
    case _ => SentCarries(s, w, SocketStep(s, w, e), WorkerStep(w, e));
  }

  lemma SentCarries(s: Socket, w: Worker, s': Socket, w': Worker)
    requires SentOk(s, w) && s'.sent == s.sent && s'.replay == s.replay && s'.heard == s.heard
    requires s'.drained == s.drained && s'.checked == s.checked && (s.phase.Closed? ==> s'.phase.Closed?)
    requires !w.status.Active? ==> w'.status == w.status
    ensures SentOk(s', w')
  {
  }

  lemma HearKept(s: Socket, w: Worker, m: Message, published: seq<Message>, below: nat)
    requires HeardOk(s, w) && Listening(s) && published == w.published + [m]
    requires Published(w) <= below && (m.Log? ==> Published(w) <= m.id < below)
    ensures var s' := Hear(s, m);
            && (forall x :: x in s'.heard ==> x in published[s.from..]) && Ordered(s'.heard, below)
            && (!s'.dropped ==> s'.heard == published[s.from..])
  {
    assert published[s.from..] == w.published[s.from..] + [m];
    OrderedSnoc(s.heard, m, Published(w), below);
  }

  lemma UnheardKept(s: Socket, w: Worker, m: Message, published: seq<Message>, below: nat)
    requires HeardOk(s, w) && !Listening(s) && published == w.published + [m] && Published(w) <= below
    ensures (forall x :: x in s.heard ==> x in published[s.from..]) && Ordered(s.heard, below)
    ensures !s.dropped ==> s.heard <= published[s.from..]
  {
    assert published[s.from..] == w.published[s.from..] + [m];
  }

  lemma HeardKept(s: Socket, w: Worker, e: Event)
    requires HeardOk(s, w) && QueueOk(s) && LinesOk(w)
    ensures HeardOk(SocketStep(s, w, e), WorkerStep(w, e))
  {
    if e.Publish? {
      if w.due.Some? {
        if Listening(s) {
          HearKept(s, w, w.due.value, w.published + [w.due.value], w.written);
        } else {
          UnheardKept(s, w, w.due.value, w.published + [w.due.value], w.written);
        }
      }
    } else {
      HeardStays(s, w, e);
    }
  }

  lemma HeardStays(s: Socket, w: Worker, e: Event)
    requires HeardOk(s, w) && QueueOk(s) && LinesOk(w) && !e.Publish?
    ensures HeardOk(SocketStep(s, w, e), WorkerStep(w, e))
  {
    LinesKept(w, e);
    if e.Subscribe? && s.phase.Waiting? {
      HeardStarts(s, w);
    } else {
      HeardCarries(s, w, SocketStep(s, w, e), WorkerStep(w, e));
    }
  }

  lemma HeardStarts(s: Socket, w: Worker)
    requires s.heard == []
    ensures HeardOk(s.(phase := Subscribed, from := |w.published|), w)
  {
  }

  lemma HeardCarries(s: Socket, w: Worker, s': Socket, w': Worker)
    requires HeardOk(s, w) && s'.heard == s.heard && s'.from == s.from && s'.dropped == s.dropped
    requires w'.published == w.published && Published(w) <= Published(w') && (Listening(s') ==> Listening(s))
    ensures HeardOk(s', w')
  {
  }

  lemma ClosedKept(s: Socket, w: Worker, e: Event)
    requires ClosedOk(s, w) && QueueOk(s) && SentOk(s, w) && DoneOk(w) && HeardOk(s, w)
    requires !w.status.Active? ==> WorkerStep(w, e).status == w.status
    ensures ClosedOk(SocketStep(s, w, e), WorkerStep(w, e))
  {
    match e
    case Publish =>
      if w.due.Some? && Listening(s) {
        assert (s.heard + [w.due.value])[..s.drained] == s.heard[..s.drained];
      }
    case Drain => if s.phase.Draining? && s.queue != [] { DrainClosed(s, w); }
    case Replay => ReplayHasNoDone(w.file);
    case _ =>
  }

  lemma DrainClosed(s: Socket, w: Worker)
    requires ClosedOk(s, w) && QueueOk(s) && DoneOk(w) && HeardOk(s, w) && s.phase.Draining? && s.queue != []
    requires SentOk(s, w)
    ensures ClosedOk(SocketStep(s, w, Drain), w)
  {
    DrainTakesNext(s);
    if s.queue[0].Done? {
      assert s.queue[0] in s.heard && s.queue[0] in w.published[s.from..];
      var i: nat :| i < |w.published| && w.published[i] == s.queue[0];
      assert s.queue[0] == Done(w.status);
      assert w.announced;
    }
  }

  lemma ReplayHasNoDone(file: seq<Message>)
    requires NoDone(file)
    ensures NoDone(ReplayOf(file))
  {
    if |file| > LOG_REPLAY_LINES {
      var part := file[|file| - LOG_REPLAY_LINES..];
      assert forall i: nat :: i < |part| ==> !part[i].Done?;
      assert forall i: nat :: 0 < i <= |part| ==> ([Note] + part)[i] == part[i - 1];
    }
  }

  lemma OrderedSlice(ms: seq<Message>, below: nat, a: nat, b: nat)
    requires Ordered(ms, below) && a <= b <= |ms|
    ensures Ordered(ms[a..b], below)
  {
    var part := ms[a..b];
    assert forall i: nat :: i < |part| ==> part[i] == ms[a + i];
  }

  lemma ReplayOrdered(file: seq<Message>, below: nat)
    requires Ordered(file, below)
    ensures Ordered(ReplayOf(file), below)
  {
    if |file| > LOG_REPLAY_LINES {
      OrderedSlice(file, below, |file| - LOG_REPLAY_LINES, |file|);
      var part := file[|file| - LOG_REPLAY_LINES..];
      assert forall i: nat :: 0 < i <= |part| ==> ([Note] + part)[i] == part[i - 1];
    }
  }

  lemma OlderThanTail(file: seq<Message>, below: nat, k: nat, cut: nat)
    requires Ordered(file, below) && FileOk(file)
    requires k < cut == |file| - LOG_REPLAY_LINES && file[k].Log?
    ensures OlderThan(file[k], [Note] + file[cut..])
  {
    var replay := [Note] + file[cut..];
    assert replay[1] == file[cut];
    forall j: nat | j < |replay| && replay[j].Log?
      ensures file[k].id < replay[j].id
    {
      assert replay[j] == file[cut + j - 1];
    }
  }

  lemma InTail(file: seq<Message>, cut: nat, k: nat)
    requires cut <= k < |file|
    ensures file[k] in [Note] + file[cut..]
  {
    assert file[cut..][k - cut] == file[k];
  }

  lemma ReplayedOrOlder(file: seq<Message>, below: nat, m: Message)
    requires Ordered(file, below) && FileOk(file) && m.Log? && m in file
    ensures m in ReplayOf(file) || OlderThan(m, ReplayOf(file))
  {
    if |file| > LOG_REPLAY_LINES {
      var k: nat :| k < |file| && file[k] == m;
      AtTail(file, below, k, |file| - LOG_REPLAY_LINES);
    }
  }

  lemma AtTail(file: seq<Message>, below: nat, k: nat, cut: nat)
    requires Ordered(file, below) && FileOk(file) && k < |file| && cut == |file| - LOG_REPLAY_LINES
    requires file[k].Log?
    ensures file[k] in [Note] + file[cut..] || OlderThan(file[k], [Note] + file[cut..])
  {
    if k < cut {
      OlderThanTail(file, below, k, cut);
    } else {
      InTail(file, cut, k);
    }
  }

  /** A line published already does not get into the file later. */
  lemma FileGainsNewLines(w: Worker, e: Event, i: nat)
    requires LinesOk(w) && i < |w.published| && w.published[i].Log? && w.published[i] in WorkerStep(w, e).file
    ensures w.published[i] in w.file
  {
    assert w.published[i].id < w.written;
    if e.EmitLine? && w.due.None? && e.kept && Truncated !in w.file {
      assert WorkerStep(w, e).file == w.file + [Log(w.written)];
    }
  }

  lemma ReplayKept(s: Socket, w: Worker, e: Event)
    requires LinesOk(w) && FileOk(w.file) && HeardOk(s, w) && ReplayOk(s, w)
    ensures ReplayOk(SocketStep(s, w, e), WorkerStep(w, e))
  {
    var s', w' := SocketStep(s, w, e), WorkerStep(w, e);
    if e.Replay? && s.phase.Subscribed? {
      ReplayOrdered(w.file, w.written);
    }
    if PastReplay(s') {
      forall i: nat | i < s'.from && i < |w'.published| && w'.published[i].Log? && w'.published[i] in w'.file
        ensures w'.published[i] in s'.replay || OlderThan(w'.published[i], s'.replay)
      {
        assert w'.published[i] == w.published[i];
        FileGainsNewLines(w, e, i);
        if e.Replay? && s.phase.Subscribed? {
          ReplayedOrOlder(w.file, w.written, w.published[i]);
        }
      }
    }
  }

  lemma StepKeeps(st: State, e: Event)
    requires Inv(st)
    ensures Inv(StepOf(st, e))
  {
    LinesKept(st.w, e);
    DoneKept(st.w, e);
    FileKept(st.w, e);
    QueueKept(st.s, st.w, e);
    SentKept(st.s, st.w, e);
    HeardKept(st.s, st.w, e);
    ClosedKept(st.s, st.w, e);
    ReplayKept(st.s, st.w, e);
  }

  lemma {:induction false} RunKeeps(st: State, events: seq<Event>)
    requires Inv(st)
    ensures Inv(RunFrom(st, events))
  {
    if events != [] {
      RunKeeps(st, events[..|events| - 1]);
      StepKeeps(RunFrom(st, events[..|events| - 1]), events[|events| - 1]);
    }
  }

  lemma {:induction false} RunInv(events: seq<Event>)
    ensures Inv(Run(events))
  {
    StartInv();
    RunKeeps(START, events);
  }

  lemma StartInv()
    ensures Inv(START)
  {
  }

  // ----------------------------------------------------------- main results

  /** In every state, also after the socket has closed: it has sent the replay, then what
      it drained, then the answer of the check if that ended it; the rest of what its
      queue took waits in it; and that is all that was published since it subscribed,
      in order, unless a message met a full queue. */
  lemma {:induction false} DeliveryIsExact(events: seq<Event>)
    ensures var st := Run(events); var s, w := st.s, st.w;
            && s.drained <= |s.heard| && s.from <= |w.published|
            && s.sent == s.replay + s.heard[..s.drained] + (if s.checked then [Done(w.status)] else [])
            && s.queue == s.heard[s.drained..]
            && (forall m :: m in s.heard ==> m in w.published[s.from..])
            && (!s.dropped ==> s.heard <= w.published[s.from..])
            && (!s.dropped && Listening(s) ==> s.heard == w.published[s.from..])
  {
    RunInv(events);
  }

  /** A socket the server has closed has sent `done` with the build's final status, as
      its last message and only once. */
  lemma {:induction false} ClosedHasSentDone(events: seq<Event>)
    requires Run(events).s.phase.Closed?
    ensures var st := Run(events); var s, w := st.s, st.w;
            && !w.status.Active? && s.sent != [] && s.sent[|s.sent| - 1] == Done(w.status)
            && NoDone(s.sent[..|s.sent| - 1])
  {
    RunInv(events);
    var s, w := Run(events).s, Run(events).w;
    if s.checked {
      assert s.replay + s.heard[..0] == s.replay;
      assert s.sent[..|s.sent| - 1] == s.replay;
    } else {
      var last := s.drained - 1;
      assert s.heard[..s.drained] == s.heard[..last] + [s.heard[last]];
      Associate(s.replay, s.heard[..last], [s.heard[last]]);
      assert s.replay + s.heard[..s.drained] + [] == s.replay + s.heard[..s.drained];
      assert s.sent[..|s.sent| - 1] == s.replay + s.heard[..last];
    }
  }

  // ---- What a replay is ----

  lemma SentGrows(s: Socket, w: Worker, e: Event)
    requires !s.phase.Waiting? && !s.phase.Subscribed?
    ensures var after := SocketStep(s, w, e);
            && !after.phase.Waiting? && !after.phase.Subscribed?
            && s.sent <= after.sent && after.replay == s.replay
  {
  }

  lemma {:induction false} SentStays(st: State, later: seq<Event>)
    requires !st.s.phase.Waiting? && !st.s.phase.Subscribed?
    ensures var after := RunFrom(st, later).s;
            && !after.phase.Waiting? && !after.phase.Subscribed?
            && st.s.sent <= after.sent && after.replay == st.s.replay
  {
    if later != [] {
      var before := RunFrom(st, later[..|later| - 1]);
      SentStays(st, later[..|later| - 1]);
      SentGrows(before.s, before.w, later[|later| - 1]);
      PrefixTrans(st.s.sent, before.s.sent, RunFrom(st, later).s.sent);
    }
  }

  /** A replay of the file as it was at that moment, from there on: up to 5000 lines are
      sent as they are, of more the last 5000 after a note, first and in the file's order. */
  lemma {:induction false} ReplayIsSent(before: seq<Event>, later: seq<Event>)
    requires Run(before).s.phase.Subscribed?
    ensures var file, s := Run(before).w.file, RunFrom(StepOf(Run(before), Replay), later).s;
            && (|file| <= 5000 ==>
                  |s.sent| >= |file| == |s.replay|
                  && forall i: nat :: i < |file| ==> s.sent[i] == s.replay[i] == file[i])
            && (|file| > 5000 ==>
                  |s.sent| >= 5001 == |s.replay| && s.sent[0] == s.replay[0] == Note
                  && forall i: nat :: 0 < i <= 5000 ==> s.sent[i] == s.replay[i] == file[|file| - 5001 + i])
  {
    var st := StepOf(Run(before), Replay);
    SentStays(st, later);
    assert st.s.sent == st.s.replay <= RunFrom(st, later).s.sent;
  }

  /** A line that is emitted goes to the file unless the cap keeps it out, and is published
      or waits to be; and neither is taken back. */
  lemma {:induction false} EmittedLine(before: seq<Event>, kept: bool, later: seq<Event>)
    requires Run(before).w.due.None?
    ensures var line, w := Log(Run(before).w.written), RunFrom(StepOf(Run(before), EmitLine(kept)), later).w;
            && (line in w.file <==> kept && Truncated !in Run(before).w.file)
            && (line in w.published || w.due == Some(line))
            && Run(before).w.file <= w.file && Run(before).w.published <= w.published
  {
    RunInv(before);
    StepKeeps(Run(before), EmitLine(kept));
    LineStays(StepOf(Run(before), EmitLine(kept)), Run(before).w.written, later);
  }

  lemma {:induction false} LineStays(st: State, id: nat, later: seq<Event>)
    requires Inv(st) && id < st.w.written && (Log(id) in st.w.published || st.w.due == Some(Log(id)))
    ensures var w := RunFrom(st, later).w;
            && (Log(id) in w.file <==> Log(id) in st.w.file) && (Log(id) in w.published || w.due == Some(Log(id)))
            && st.w.file <= w.file && st.w.published <= w.published && id < w.written
  {
    if later != [] {
      var before, e := RunFrom(st, later[..|later| - 1]), later[|later| - 1];
      LineStays(st, id, later[..|later| - 1]);
      LineStaysOne(before.w, id, e);
      PrefixTrans(st.w.file, before.w.file, RunFrom(st, later).w.file);
      PrefixTrans(st.w.published, before.w.published, RunFrom(st, later).w.published);
    }
  }

  lemma LineStaysOne(w: Worker, id: nat, e: Event)
    requires id < w.written && (Log(id) in w.published || w.due == Some(Log(id)))
    ensures var w' := WorkerStep(w, e);
            && (Log(id) in w'.file <==> Log(id) in w.file) && (Log(id) in w'.published || w'.due == Some(Log(id)))
            && w.file <= w'.file && w.published <= w'.published && id < w'.written
  {
    if e.Publish? && w.due.Some? {
      assert (w.published + [w.due.value])[|w.published|] == w.due.value;
    }
  }

  ghost predicate BeforeCheck(s: Socket) { s.phase.Waiting? || s.phase.Subscribed? || s.phase.Replayed? }

  /** A build that is finished before the socket checks never leaves it waiting: the
      socket does not drain, and when it closes it has sent the replay and `done`. */
  lemma {:induction false} CheckedIsDone(events: seq<Event>, later: seq<Event>)
    requires BeforeCheck(Run(events).s) && !Run(events).w.status.Active?
    ensures var after := RunFrom(Run(events), later).s;
            && (BeforeCheck(after) || after.phase.Closed? || after.phase.Gone?)
            && (after.phase.Closed? ==> after.sent == after.replay + [Done(Run(events).w.status)])
  {
    RunInv(events);
    StaysBeforeCheck(Run(events), later);
    RunKeeps(Run(events), later);
    var s := RunFrom(Run(events), later).s;
    assert s.replay + s.heard[..0] == s.replay;
  }

  ghost predicate NeverDrains(s: Socket) {
    BeforeCheck(s) || (s.phase.Closed? && s.checked) || s.phase.Gone?
  }

  lemma NeverDrainsStays(s: Socket, w: Worker, e: Event)
    requires NeverDrains(s) && !w.status.Active?
    ensures NeverDrains(SocketStep(s, w, e))
  {
  }

  lemma {:induction false} StaysBeforeCheck(st: State, later: seq<Event>)
    requires Inv(st) && NeverDrains(st.s) && !st.w.status.Active?
    ensures RunFrom(st, later).w.status == st.w.status && NeverDrains(RunFrom(st, later).s)
  {
    if later != [] {
      var before := RunFrom(st, later[..|later| - 1]);
      StaysBeforeCheck(st, later[..|later| - 1]);
      RunKeeps(st, later[..|later| - 1]);
      DoneKept(before.w, later[|later| - 1]);
      NeverDrainsStays(before.s, before.w, later[|later| - 1]);
    }
  }

  // ------------------------------------------------------------- done

  /** `done` waits in the queue or is sent, unless the reader went away. */
  ghost predicate Kept(st: State) {
    || st.s.phase.Gone?
    || (st.s.phase.Draining? && Done(st.w.status) in st.s.queue)
    || (st.s.phase.Closed? && Done(st.w.status) in st.s.sent)
  }

  /** `done` has been announced, but this socket will never send it and never close. */
  ghost predicate Missed(st: State) {
    && st.w.announced && !DoneDue(st.w) && (st.s.phase.Draining? || st.s.phase.Gone?)
    && NoDone(st.s.heard) && NoDone(st.s.sent)
  }

  lemma DoneIsHeard(st: State)
    requires Inv(st) && st.s.queue != [] && st.s.queue[0].Done?
    ensures st.s.queue[0] == Done(st.w.status)
  {
    DrainTakesNext(st.s);
    assert st.s.queue[0] in st.s.heard && st.s.queue[0] in st.w.published[st.s.from..];
  }

  lemma InRest(queue: seq<Message>, d: Message)
    requires queue != [] && d in queue && queue[0] != d
    ensures d in queue[1..]
  {
    assert queue == [queue[0]] + queue[1..];
  }

  lemma DrainKeeps(st: State)
    requires Inv(st) && st.s.phase.Draining? && Done(st.w.status) in st.s.queue
    ensures Kept(StepOf(st, Drain))
  {
    var d := Done(st.w.status);
    if st.s.queue[0].Done? {
      DoneIsHeard(st);
      assert (st.s.sent + [d])[|st.s.sent|] == d;
    } else {
      InRest(st.s.queue, d);
    }
  }

  lemma KeptStays(st: State, e: Event)
    requires Inv(st) && Kept(st) && !st.w.status.Active?
    ensures Kept(StepOf(st, e))
  {
    if e.Drain? && st.s.phase.Draining? {
      DrainKeeps(st);
    } else {
      KeptOtherwise(st, e);
    }
  }

  lemma KeptOtherwise(st: State, e: Event)
    requires Kept(st) && !st.w.status.Active? && !(e.Drain? && st.s.phase.Draining?)
    ensures Kept(StepOf(st, e))
  {
    if e.Publish? && st.w.due.Some? && st.s.phase.Draining? {
      assert forall m :: m in st.s.queue ==> m in st.s.queue + [st.w.due.value];
    }
  }

  lemma MissedDrains(st: State)
    requires QueueOk(st.s) && Missed(st) && st.s.phase.Draining? && st.s.queue != []
    ensures Missed(StepOf(st, Drain))
  {
    DrainTakesNext(st.s);
  }

  lemma MissedOtherwise(st: State, e: Event)
    requires DoneOk(st.w) && Missed(st) && !(e.Drain? && st.s.phase.Draining? && st.s.queue != [])
    ensures Missed(StepOf(st, e))
  {
  }

  lemma MissedStays(st: State, e: Event)
    requires Inv(st) && Missed(st)
    ensures Missed(StepOf(st, e))
  {
    if e.Drain? && st.s.phase.Draining? && st.s.queue != [] {
      MissedDrains(st);
    } else {
      MissedOtherwise(st, e);
    }
  }

  lemma {:induction false} RunStays(st: State, later: seq<Event>)
    requires Inv(st) && !st.w.status.Active?
    ensures RunFrom(st, later).w.status == st.w.status
    ensures Kept(st) ==> Kept(RunFrom(st, later))
    ensures Missed(st) ==> Missed(RunFrom(st, later))
  {
    if later != [] {
      var before, e := RunFrom(st, later[..|later| - 1]), later[|later| - 1];
      RunStays(st, later[..|later| - 1]);
      RunKeeps(st, later[..|later| - 1]);
      DoneKept(before.w, e);
      if Kept(st) {
        KeptStays(before, e);
      }
      if Missed(st) {
        MissedStays(before, e);
      }
    }
  }

  lemma PublishDone(st: State)
    requires Inv(st) && st.s.phase.Draining? && DoneDue(st.w)
    ensures var after := StepOf(st, Publish);
            Inv(after) && after.w.status == st.w.status && !after.w.status.Active?
            && (|st.s.queue| < QUEUE_SIZE ==> Kept(after)) && (|st.s.queue| >= QUEUE_SIZE ==> Missed(after))
  {
    StepKeeps(st, Publish);
    var after := StepOf(st, Publish);
    if |st.s.queue| < QUEUE_SIZE {
      assert after.s.queue[|st.s.queue|] == Done(st.w.status);
    } else {
      NothingDoneYet(st);
    }
  }

  lemma NothingDoneYet(st: State)
    requires Inv(st) && st.s.phase.Draining? && DoneDue(st.w)
    ensures NoDone(st.s.heard) && NoDone(st.s.sent)
  {
    forall i: nat | i < |st.s.heard|
      ensures !st.s.heard[i].Done?
    {
      assert st.s.heard[i] in st.s.heard && st.s.heard[i] in st.w.published;
    }
    assert st.s.replay + st.s.heard[..st.s.drained] + [] == st.s.replay + st.s.heard[..st.s.drained];
  }

  /** A `done` that is announced while the socket drains is in its queue until it is sent
      or the reader goes away, if the queue has room at that moment; if not, it is never
      sent, whatever happens later, and the socket never closes. */
  lemma {:induction false} DoneIsNotMissed(events: seq<Event>, later: seq<Event>)
    requires Run(events).s.phase.Draining? && DoneDue(Run(events).w)
    ensures var after := RunFrom(StepOf(Run(events), Publish), later);
            if |Run(events).s.queue| < QUEUE_SIZE then Kept(after) else Missed(after)
  {
    RunInv(events);
    PublishDone(Run(events));
    RunStays(StepOf(Run(events), Publish), later);
  }

  lemma NotKept(st: State)
    requires Inv(st) && Missed(st) && st.s.phase.Draining?
    ensures !Kept(st) && RunFrom(st, []) == st
  {
    forall i: nat | i < |st.s.queue|
      ensures !st.s.queue[i].Done?
    {
      assert st.s.queue[i] == st.s.heard[st.s.drained + i];
    }
  }

  /** Room in the queue is exactly what it takes. */
  lemma {:induction false} DoneIsKeptExactly(events: seq<Event>)
    requires Run(events).s.phase.Draining? && DoneDue(Run(events).w)
    ensures (forall later :: Kept(RunFrom(StepOf(Run(events), Publish), later)))
            <==> |Run(events).s.queue| < QUEUE_SIZE
  {
    forall later
      ensures |Run(events).s.queue| < QUEUE_SIZE ==> Kept(RunFrom(StepOf(Run(events), Publish), later))
    {
      DoneIsNotMissed(events, later);
    }
    if |Run(events).s.queue| >= QUEUE_SIZE {
      DoneIsNotMissed(events, []);
      RunInv(events);
      StepKeeps(Run(events), Publish);
      NotKept(StepOf(Run(events), Publish));
      assert !Kept(RunFrom(StepOf(Run(events), Publish), []));
    }
  }

  // ------------------------------------------------------------- lines

  /** How often a line was sent. */
  function Times(ms: seq<Message>, id: nat): nat {
    if ms == [] then 0 else Times(ms[..|ms| - 1], id) + if ms[|ms| - 1] == Log(id) then 1 else 0
  }

  lemma {:induction false} TimesAppend(a: seq<Message>, b: seq<Message>, id: nat)
    ensures Times(a + b, id) == Times(a, id) + Times(b, id)
  {
    if b == [] {
      assert a + b == a;
    } else {
      TimesAppend(a, b[..|b| - 1], id);
      assert (a + b)[..|a + b| - 1] == a + b[..|b| - 1];
    }
  }

  lemma LastIsNew(ms: seq<Message>, below: nat)
    requires Ordered(ms, below) && ms != [] && ms[|ms| - 1].Log?
    ensures ms[|ms| - 1] !in ms[..|ms| - 1]
  {
  }

  lemma InInitOrLast(ms: seq<Message>, m: Message)
    requires ms != []
    ensures m in ms <==> m in ms[..|ms| - 1] || m == ms[|ms| - 1]
  {
    assert ms == ms[..|ms| - 1] + [ms[|ms| - 1]];
  }

  lemma {:induction false} TimesInOrdered(ms: seq<Message>, below: nat, id: nat)
    requires Ordered(ms, below)
    ensures Times(ms, id) <= 1 && (Times(ms, id) == 1 <==> Log(id) in ms)
  {
    if ms != [] {
      OrderedSlice(ms, below, 0, |ms| - 1);
      TimesInOrdered(ms[..|ms| - 1], below, id);
      InInitOrLast(ms, Log(id));
      if ms[|ms| - 1] == Log(id) {
        LastIsNew(ms, below);
      }
    }
  }

  lemma Counted(replay: seq<Message>, drained: seq<Message>, end: seq<Message>, above: nat, below: nat, id: nat)
    requires Ordered(replay, above) && Ordered(drained, below) && Times(end, id) == 0
    ensures Times(replay + drained + end, id)
         == (if Log(id) in replay then 1 else 0) + (if Log(id) in drained then 1 else 0)
  {
    TimesAppend(replay + drained, end, id);
    TimesAppend(replay, drained, id);
    TimesInOrdered(replay, above, id);
    TimesInOrdered(drained, below, id);
  }

  /** In every state a line has been sent as often as it is in the replay and in what was
      drained: never more than twice. */
  lemma {:induction false} EachLineAtMostTwice(events: seq<Event>, id: nat)
    ensures var s := Run(events).s;
            && s.drained <= |s.heard| && Times(s.sent, id) <= 2
            && Times(s.sent, id) == (if Log(id) in s.replay then 1 else 0)
                                    + (if Log(id) in s.heard[..s.drained] then 1 else 0)
  {
    RunInv(events);
    var s, w := Run(events).s, Run(events).w;
    OrderedSlice(s.heard, Published(w), 0, s.drained);
    var end := if s.checked then [Done(w.status)] else [];
    assert [Done(w.status)][..0] == [];
    Counted(s.replay, s.heard[..s.drained], end, w.written, Published(w), id);
  }

  /** Whatever its queue lost and whatever the cap kept from the file: a line that was in
      the file when it was published before the subscription, or that the queue took
      after it, has been sent or is in the queue, unless it is older than the replay. */
  lemma {:induction false} NothingFromTheWindowOnIsLost(events: seq<Event>, i: nat)
    requires var st := Run(events);
             && (st.s.phase.Draining? || st.s.phase.Closed?) && i < |st.w.published| && st.w.published[i].Log?
             && (i < st.s.from ==> st.w.published[i] in st.w.file)
             && (i >= st.s.from ==> st.w.published[i] in st.s.heard)
    ensures var st := Run(events);
            var line := st.w.published[i];
            st.s.replay <= st.s.sent
            && (line in st.s.sent || line in st.s.queue || OlderThan(line, st.s.replay))
  {
    RunInv(events);
    var s, line := Run(events).s, Run(events).w.published[i];
    if i < s.from {
      if line in s.replay {
        InFront(s.replay, s.heard[..s.drained], s.sent, line);
      }
    } else {
      var k: nat :| k < |s.heard| && s.heard[k] == line;
      if k < s.drained {
        assert s.heard[..s.drained][k] == line;
        InFront(s.replay, s.heard[..s.drained], s.sent, line);
      } else {
        assert s.queue[k - s.drained] == line;
      }
    }
  }

  lemma InFront(a: seq<Message>, b: seq<Message>, whole: seq<Message>, m: Message)
    requires a + b <= whole && (m in a || m in b)
    ensures m in whole
  {
    if m in a {
      var k: nat :| k < |a| && a[k] == m;
      assert whole[k] == (a + b)[k];
    } else {
      var k: nat :| k < |b| && b[k] == m;
      assert whole[|a| + k] == (a + b)[|a| + k];
    }
  }

  /** Once a socket that never met a full queue has closed on a `done` from its queue,
      every line published before that `done` has been sent, but those that never went to
      the file before it subscribed and those older than the replay. */
  lemma {:induction false} EverythingBeforeDoneIsSent(events: seq<Event>, i: nat, j: nat)
    requires var st := Run(events);
             && st.s.phase.Closed? && !st.s.checked && !st.s.dropped
             && i < j < |st.w.published| && st.w.published[i].Log? && st.w.published[j].Done?
             && (i < st.s.from ==> st.w.published[i] in st.w.file)
    ensures var st := Run(events);
            st.s.replay <= st.s.sent
            && (st.w.published[i] in st.s.sent || OlderThan(st.w.published[i], st.s.replay))
  {
    RunInv(events);
    var s, w := Run(events).s, Run(events).w;
    var line := w.published[i];
    if i < s.from {
      if line in s.replay {
        InFront(s.replay, s.heard[..s.drained], s.sent, line);
      }
    } else {
      DoneEndsIt(s, w, j);
      assert s.heard[..s.drained][i - s.from] == line;
      InFront(s.replay, s.heard[..s.drained], s.sent, line);
    }
  }

  lemma DoneEndsIt(s: Socket, w: Worker, j: nat)
    requires DoneOk(w) && HeardOk(s, w) && ClosedOk(s, w) && s.phase.Closed? && !s.checked && !s.dropped
    requires j < |w.published| && w.published[j].Done?
    ensures j == s.from + s.drained - 1
    ensures forall i: nat :: s.from <= i < j ==> i - s.from < s.drained && s.heard[i - s.from] == w.published[i]
  {
    var last := s.from + s.drained - 1;
    assert forall k: nat :: k < |s.heard| ==> s.heard[k] == w.published[s.from..][k] == w.published[s.from + k];
    assert w.published[last].Done?;
  }

  // ------------------------------------------------------- things get done

  function Repeat(e: Event, n: nat): seq<Event> {
    if n == 0 then [] else Repeat(e, n - 1) + [e]
  }

  /** What a draining socket has sent after so many messages. */
  ghost predicate Sends(before: Socket, after: Socket, n: nat)
    requires n <= |before.queue|
  {
    after.sent == before.sent + before.queue[..n] && after.queue == before.queue[n..]
    && after.phase == if n > 0 && before.queue[n - 1].Done? then Closed else Draining
  }

  lemma DrainOne(before: Socket, s: Socket, w: Worker, n: nat)
    requires before.phase.Draining? && n < |before.queue| && Sends(before, s, n)
    requires n > 0 ==> !before.queue[n - 1].Done?
    ensures Sends(before, SocketStep(s, w, Drain), n + 1)
  {
    assert before.queue[n..][0] == before.queue[n] && before.queue[n..][1..] == before.queue[n + 1..];
    assert before.queue[..n + 1] == before.queue[..n] + [before.queue[n]];
    Associate(before.sent, before.queue[..n], [before.queue[n]]);
  }

  /** What waits in the queue of a draining socket is sent, one message at a time, up to the
      first `done`, and with that the socket closes. */
  lemma {:induction false} DrainsInOrder(st: State, n: nat)
    requires st.s.phase.Draining? && n <= |st.s.queue|
    requires forall k :: 0 <= k < n - 1 ==> !st.s.queue[k].Done?
    ensures Drained(st, RunFrom(st, Repeat(Drain, n)), n)
  {
    if n == 0 {
      NothingDrained(st);
    } else {
      DrainsInOrder(st, n - 1);
      DrainMore(st, RunFrom(st, Repeat(Drain, n - 1)), n - 1);
      RunSnoc(st, Repeat(Drain, n - 1), Drain);
    }
  }

  ghost predicate Drained(st: State, after: State, n: nat)
    requires n <= |st.s.queue|
  {
    after.w == st.w && Sends(st.s, after.s, n)
  }

  lemma NothingDrained(st: State)
    requires st.s.phase.Draining?
    ensures Drained(st, RunFrom(st, []), 0)
  {
    assert st.s.sent + [] == st.s.sent;
  }

  lemma DrainMore(st: State, before: State, n: nat)
    requires st.s.phase.Draining? && n < |st.s.queue| && Drained(st, before, n)
    requires n > 0 ==> !st.s.queue[n - 1].Done?
    ensures Drained(st, StepOf(before, Drain), n + 1)
  {
    DrainOne(st.s, before.s, before.w, n);
  }

  /** So a reader whose queue holds `done` gets to its end. */
  lemma {:induction false} KeptReaderFinishes(st: State) returns (n: nat)
    requires st.s.phase.Draining? && Done(st.w.status) in st.s.queue
    ensures RunFrom(st, Repeat(Drain, n)).s.phase.Closed? && 0 < n <= |st.s.queue|
    ensures RunFrom(st, Repeat(Drain, n)).s.sent == st.s.sent + st.s.queue[..n] && st.s.queue[n - 1].Done?
  {
    var k := FirstDone(st.s.queue, |st.s.queue|);
    n := k + 1;
    DrainsInOrder(st, n);
  }

  lemma {:induction false} FirstDone(ms: seq<Message>, n: nat) returns (k: nat)
    requires n <= |ms| && exists i :: 0 <= i < n && ms[i].Done?
    ensures k < n && ms[k].Done? && forall i :: 0 <= i < k ==> !ms[i].Done?
  {
    if i :| 0 <= i < n - 1 && ms[i].Done? {
      k := FirstDone(ms, n - 1);
    } else {
      k := n - 1;
    }
  }

  /** A reader that goes away before the end is sent nothing more. */
  lemma {:induction false} GoneForGood(st: State, later: seq<Event>)
    requires !st.s.phase.Closed?
    ensures var after := RunFrom(StepOf(st, Disconnect), later).s;
            after.phase.Gone? && after.sent == st.s.sent
  {
    if later != [] {
      GoneForGood(st, later[..|later| - 1]);
    }
  }

  /** What the worker has to say gets onto the bus: a line, a step, or its end, each once. */
  lemma SaidAndPublished(w: Worker, e: Event)
    requires w.due.None? && (e.SetStep? ==> !w.announced)
    requires e.EmitLine? || e.SetStep? || (e.Announce? && !w.announced && !w.status.Active?)
    ensures var said, after := WorkerStep(w, e), WorkerStep(WorkerStep(w, e), Publish);
            && after.due.None? && after.published == said.published + [said.due.value]
            && said.published == w.published
            && said.due == Some(if e.EmitLine? then Log(w.written) else if e.SetStep? then Step else Done(w.status))
            && (e.EmitLine? ==> after.written == w.written + 1)
  {
  }

  /** One thing at a time: with something to publish the worker says nothing new, and after
      its end only lines. */
  lemma SaysOneThing(w: Worker, e: Event)
    ensures w.due.Some? && (e.EmitLine? || e.SetStep? || e.Commit? || e.Announce?) ==> WorkerStep(w, e) == w
    ensures w.announced && (e.SetStep? || e.Announce?) ==> WorkerStep(w, e) == w
    ensures !w.status.Active? && e.Commit? ==> WorkerStep(w, e) == w
    ensures w.status.Active? && e.Announce? ==> WorkerStep(w, e) == w
  {
  }

  /** The marker is written once, and no line after it. */
  lemma TruncatedOnce(w: Worker)
    ensures Truncated in WorkerStep(w, Truncate).file
    ensures Truncated in w.file ==> forall e :: WorkerStep(w, e).file == w.file
  {
    assert (w.file + [Truncated])[|w.file|] == Truncated;
  }

  // ------------------------------------------- a queue can fill before the end

  lemma RunSnoc(st: State, events: seq<Event>, e: Event)
    ensures RunFrom(st, events + [e]) == StepOf(RunFrom(st, events), e)
  {
    assert (events + [e])[..|events|] == events;
  }

  /** A socket that does not drain while n lines are published has n messages waiting. */
  lemma {:induction false} LinesPileUp(n: nat) returns (events: seq<Event>)
    requires n <= QUEUE_SIZE
    ensures var st := Run(events);
            && st.s.phase.Draining? && |st.s.queue| == n
            && st.w.due.None? && st.w.status.Active? && !st.w.announced
  {
    if n == 0 {
      RunSnoc(START, [], Subscribe);
      RunSnoc(START, [] + [Subscribe], Replay);
      RunSnoc(START, [] + [Subscribe] + [Replay], Check);
      events := [] + [Subscribe] + [Replay] + [Check];
    } else {
      var fewer := LinesPileUp(n - 1);
      RunSnoc(START, fewer, EmitLine(true));
      RunSnoc(START, fewer + [EmitLine(true)], Publish);
      events := fewer + [EmitLine(true)] + [Publish];
    }
  }

  /** So there is a run in which the reader of a finished build waits for ever. */
  lemma {:induction false} AFullQueueMissesDone() returns (events: seq<Event>)
    ensures Run(events).s.phase.Draining? && DoneDue(Run(events).w) && |Run(events).s.queue| == QUEUE_SIZE
    ensures forall later :: Missed(RunFrom(StepOf(Run(events), Publish), later))
  {
    var full := LinesPileUp(QUEUE_SIZE);
    RunSnoc(START, full, Commit(BuildLog.Ready));
    RunSnoc(START, full + [Commit(BuildLog.Ready)], Announce);
    events := full + [Commit(BuildLog.Ready)] + [Announce];
    forall later
      ensures Missed(RunFrom(StepOf(Run(events), Publish), later))
    {
      DoneIsNotMissed(events, later);
    }
  }
}
