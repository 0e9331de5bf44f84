/** client/layersmith_client/ops.py: LogFollower reads a growing log by offset,
    one line at a time, across lost connections. */
module Follower {
  import opened Streams
  import opened BuildLog

  /** What poll() yields: a note about skipped bytes, a line that was ended by a
      newline, or the unfinished last line of a finished log. */
  datatype Yield = Notice(skipped: nat) | Whole(text: Bytes) | Unended(text: Bytes)

  function Spoken(y: Yield): Bytes {
    match y
    case Notice(_) => []
    case Whole(text) => text + [NEWLINE]
    case Unended(text) => text
  }

  /** The log bytes a sequence of yields stands for. */
  function Said(ys: seq<Yield>): Bytes {
    if ys == [] then [] else Said(ys[..|ys| - 1]) + Spoken(ys[|ys| - 1])
  }

  lemma SaidSnoc(ys: seq<Yield>, y: Yield)
    ensures Said(ys + [y]) == Said(ys) + Spoken(y)
  {
    assert (ys + [y])[..|ys|] == ys;
  }

  lemma {:induction false} SaidAppend(a: seq<Yield>, b: seq<Yield>)
    ensures Said(a + b) == Said(a) + Said(b)
  {
    if b == [] {
      assert a + b == a;
    } else {
      var init := b[..|b| - 1];
      SaidAppend(a, init);
      assert (a + b)[..|a + b| - 1] == a + init;
      Associate(Said(a), Said(init), Spoken(b[|b| - 1]));
    }
  }

  /** The elements of text.split("\n") but the last. */
  function LinesOf(text: Bytes): seq<Yield>
    decreases |text|
  {
    var k := AfterLastNewline(text);
    if k == 0 then []
    else
      var j := AfterLastNewline(text[..k - 1]);
      LinesOf(text[..j]) + [Whole(text[j..k - 1])]
  }

  /** The last element of text.split("\n"). */
  function RestOf(text: Bytes): Bytes { text[AfterLastNewline(text)..] }

  lemma {:induction false} LinesSayText(text: Bytes)
    ensures Said(LinesOf(text)) == text[..AfterLastNewline(text)]
    decreases |text|
  {
    var k := AfterLastNewline(text);
    if k > 0 {
      var j := AfterLastNewline(text[..k - 1]);
      var front, line := text[..j], text[j..k - 1];
      LinesSayText(front);
      FrontEnds(text, j, k);
      LineEnds(text, j, k);
      SaidSnoc(LinesOf(front), Whole(line));
    }
  }

  lemma FrontEnds(text: Bytes, j: nat, k: nat)
    requires 0 < k <= |text| && j == AfterLastNewline(text[..k - 1])
    ensures AfterLastNewline(text[..j]) == j && text[..j][..j] == text[..j]
  {
    if j > 0 {
      assert text[..k - 1][j - 1] == text[..j][j - 1];
    }
  }

  lemma LineEnds(text: Bytes, j: nat, k: nat)
    requires j < k <= |text| && text[k - 1] == NEWLINE
    ensures text[..j] + (text[j..k - 1] + [NEWLINE]) == text[..k]
  {
  }

  lemma {:induction false} LinesHaveNoNewline(text: Bytes)
    ensures forall y :: y in LinesOf(text) ==> y.Whole? && NEWLINE !in y.text
    decreases |text|
  {
    var k := AfterLastNewline(text);
    if k > 0 {
      var j := AfterLastNewline(text[..k - 1]);
      LinesHaveNoNewline(text[..j]);
      AfterLastIsLast(text[..k - 1]);
      var line := text[j..k - 1];
      assert forall i: nat :: i < |line| ==> line[i] == text[..k - 1][j + i];
    }
  }

  // -------------------------------------------------------- the client state

  datatype Client = Client(offset: Option<nat>, partial: Bytes, finished: bool, status: Option<Status>)

  const NEW_CLIENT: Client := Client(None, [], false, None)

  /** What _poll_offset asks for next. */
  function NextAsk(c: Client, tailBytes: Option<nat>): Ask {
    if c.offset.None? && tailBytes.Some? then Tail(tailBytes.value)
    else From(if c.offset.Some? then c.offset.value else 0)
  }

  function NoticeFor(c: Client, a: Slice): seq<Yield> {
    if c.offset.None? && a.offset > 0 then [Notice(a.offset)] else []
  }

  function EndFor(rest: Bytes, complete: bool): seq<Yield> {
    if complete && rest != [] then [Unended(rest)] else []
  }

  /** What one answer makes the follower yield. */
  function YieldsOf(c: Client, a: Slice): seq<Yield> {
    var text := c.partial + a.text;
    NoticeFor(c, a) + LinesOf(text) + EndFor(RestOf(text), a.complete)
  }

  function Absorb(c: Client, a: Slice): Client {
    Client(Some(a.nextOffset), if a.complete then [] else RestOf(c.partial + a.text),
           c.finished || a.complete, Some(a.status))
  }

  lemma NoticeSaysNothing(c: Client, a: Slice)
    ensures Said(NoticeFor(c, a)) == []
  {
    if c.offset.None? && a.offset > 0 {
      SaidSnoc([], Notice(a.offset));
    }
  }

  lemma EndSaysRest(rest: Bytes, complete: bool)
    ensures Said(EndFor(rest, complete)) == if complete then rest else []
  {
    if complete && rest != [] {
      SaidSnoc([], Unended(rest));
    }
  }

  /** What has no newline at its end is handed on only if there is something. */
  lemma EndIsSomething(rest: Bytes, complete: bool)
    ensures EndFor(rest, complete) == if complete && |rest| > 0 then [Unended(rest)] else []
  {
  }

  lemma ThreeSay(notice: seq<Yield>, lines: seq<Yield>, end: seq<Yield>)
    requires Said(notice) == []
    ensures Said(notice + lines + end) == Said(lines) + Said(end)
  {
    SaidAppend(notice, lines);
    SaidAppend(notice + lines, end);
  }

  lemma SplitSays(text: Bytes)
    ensures Said(LinesOf(text)) + RestOf(text) == text
  {
    LinesSayText(text);
    TakeDrop(text, Said(LinesOf(text)), AfterLastNewline(text));
  }

  lemma TakeDrop(text: Bytes, front: Bytes, k: nat)
    requires k <= |text| && front == text[..k]
    ensures front + text[k..] == text
  {
  }

  lemma Either(said: Bytes, rest: Bytes, complete: bool)
    ensures said + (if complete then rest else []) + (if complete then [] else rest) == said + rest
  {
  }

  /** An answer's text, after what was pending, is yielded or kept, and nothing else is. */
  lemma YieldsSayText(c: Client, a: Slice)
    ensures Said(YieldsOf(c, a)) + Absorb(c, a).partial == c.partial + a.text
  {
    var text := c.partial + a.text;
    NoticeSaysNothing(c, a);
    EndSaysRest(RestOf(text), a.complete);
    ThreeSay(NoticeFor(c, a), LinesOf(text), EndFor(RestOf(text), a.complete));
    Either(Said(LinesOf(text)), RestOf(text), a.complete);
    SplitSays(text);
  }

  /** Everything yielded so far, then what is pending, is the log from base to the offset. */
  ghost predicate Exact(c: Client, yielded: seq<Yield>, base: nat, log: Bytes) {
    match c.offset
    case None => yielded == [] && c.partial == []
    case Some(o) => base <= o <= |log| && Said(yielded) + c.partial == log[base..o]
  }

  lemma ExactLater(c: Client, yielded: seq<Yield>, base: nat, log: Bytes, longer: Bytes)
    requires Exact(c, yielded, base, log) && log <= longer
    ensures Exact(c, yielded, base, longer)
  {
    if c.offset.Some? {
      assert longer[..|log|] == log;
      assert longer[base..c.offset.value] == log[base..c.offset.value];
    }
  }

  /** Where the follower starts: fixed by the first answer. */
  function BaseAfter(c: Client, base: nat, a: Slice): nat { if c.offset.None? then a.offset else base }

  lemma Glue(said: Bytes, partial: Bytes, new_: Bytes, kept: Bytes, before: Bytes, text: Bytes)
    requires new_ + kept == partial + text && said + partial == before
    ensures said + new_ + kept == before + text
  {
    assert said + new_ + kept == said + (new_ + kept);
    assert said + (partial + text) == (said + partial) + text;
  }

  lemma Adjacent(log: Bytes, base: nat, mid: nat, end: nat)
    requires base <= mid <= end <= |log|
    ensures log[base..mid] + log[mid..end] == log[base..end]
  {
  }

  lemma GlueAt(said: Bytes, partial: Bytes, new_: Bytes, kept: Bytes, log: Bytes, base: nat, mid: nat, end: nat)
    requires base <= mid <= end <= |log|
    requires said + partial == log[base..mid] && new_ + kept == partial + log[mid..end]
    ensures said + new_ + kept == log[base..end]
  {
    Glue(said, partial, new_, kept, log[base..mid], log[mid..end]);
    Adjacent(log, base, mid, end);
  }

  /** One faithful answer: nothing lost, repeated or reordered. */
  lemma AbsorbExact(c: Client, yielded: seq<Yield>, base: nat, log: Bytes, a: Slice)
    requires Exact(c, yielded, base, log)
    requires a.offset <= a.nextOffset <= |log| && a.text == log[a.offset..a.nextOffset]
    requires c.offset.Some? ==> a.offset == c.offset.value
    ensures Exact(Absorb(c, a), yielded + YieldsOf(c, a), BaseAfter(c, base, a), log)
  {
    YieldsSayText(c, a);
    SaidAppend(yielded, YieldsOf(c, a));
    if c.offset.Some? {
      GlueAt(Said(yielded), c.partial, Said(YieldsOf(c, a)), Absorb(c, a).partial, log, base, a.offset, a.nextOffset);
    } else {
      assert Said(yielded) == [] && [] + a.text == a.text;
      Glue(Said(yielded), c.partial, Said(YieldsOf(c, a)), Absorb(c, a).partial, [], a.text);
    }
  }

  // ------------------------------------------------------ every interleaving

  /** A request in flight: the handler reads the status, then the size, then the data. */
  datatype Request =
    | Nothing
    | Asked(ask: Ask, limit: nat)
    | HasStatus(ask: Ask, limit: nat, status: Status)
    | HasSize(ask: Ask, limit: nat, status: Status, size: nat)

  datatype System = System(w: Writer, c: Client, request: Request, yielded: seq<Yield>, base: nat, window: nat)

  datatype Event =
    | Write(e: WriterEvent)
    | Send(limit: int)
    | ReadStatus
    | ReadSize
    | Reply
    | Lose                       // the request or its answer is lost; the poll raises

  /** The bytes the handler's third read returns. */
  function DataFor(s: System): Bytes
    requires s.request.HasSize?
  {
    var start := StartOf(s.request.ask, s.request.size);
    Window(s.w.log, start, start + s.request.limit + 1)
  }

  function AnswerTo(s: System): Slice
    requires s.request.HasSize?
  {
    var r := s.request;
    Answer(r.status, r.size, StartOf(r.ask, r.size), DataFor(s), r.ask.Tail?, r.limit)
  }

  /** How much of the window is left after the first newline is skipped. */
  function WindowOf(s: System): nat
    requires s.request.HasSize?
  {
    |DataFor(s)| - Skipped(DataFor(s), StartOf(s.request.ask, s.request.size), s.request.ask.Tail?)
  }

  function Deliver(s: System, a: Slice, window: nat): System {
    System(s.w, Absorb(s.c, a), Nothing, s.yielded + YieldsOf(s.c, a), BaseAfter(s.c, s.base, a),
           if s.c.offset.None? then window else s.window)
  }

  function Step(s: System, e: Event, tailBytes: Option<nat>): System {
    match e
    case Write(we) => s.(w := WriterStep(s.w, we))
    case Send(limit) => if s.request.Nothing? then s.(request := Asked(NextAsk(s.c, tailBytes), Limit(limit))) else s
    case ReadStatus =>
      if s.request.Asked? then s.(request := HasStatus(s.request.ask, s.request.limit, s.w.status)) else s
    case ReadSize =>
      if s.request.HasStatus?
      then s.(request := HasSize(s.request.ask, s.request.limit, s.request.status, |s.w.log|)) else s
    case Reply => if s.request.HasSize? then Deliver(s, AnswerTo(s), WindowOf(s)) else s
    case Lose => s.(request := Nothing)
  }

  function Run(s: System, events: seq<Event>, tailBytes: Option<nat>): System {
    if events == [] then s else Step(Run(s, events[..|events| - 1], tailBytes), events[|events| - 1], tailBytes)
  }

  const START: System := System(NEW_BUILD, NEW_CLIENT, Nothing, [], 0, 0)

  /** A final status that was read is the build's, and a size read after it covers the ended log. */
  ghost predicate StatusSeen(status: Status, w: Writer) { status.Active? || status == w.status }

  ghost predicate SizeSeen(status: Status, size: nat, w: Writer) {
    size <= |w.log| && (!status.Active? ==> w.ended.Some? && w.ended.value <= size)
  }

  ghost predicate RequestOk(r: Request, c: Client, w: Writer, tailBytes: Option<nat>) {
    && (!r.Nothing? ==> r.limit > 0 && r.ask == NextAsk(c, tailBytes))
    && (r.HasStatus? || r.HasSize? ==> StatusSeen(r.status, w))
    && (r.HasSize? ==> SizeSeen(r.status, r.size, w) && (c.offset.Some? ==> c.offset.value <= r.size))
  }

  /** What `finished` means: all of the log as it ended has been yielded; for a failed
      build that is the whole log and no line is left pending. */
  ghost predicate FinishedOk(c: Client, yielded: seq<Yield>, base: nat, w: Writer) {
    c.finished ==>
      && c.offset.Some? && w.ended.Some? && w.ended.value <= base + |Said(yielded)|
      && (w.status.Failed? ==> c.offset.value == |w.log| && c.partial == [])
  }

  /** The first answer starts at the beginning of a line, unless its window holds no newline. */
  ghost predicate BaseOk(c: Client, base: nat, window: nat, log: Bytes) {
    c.offset.Some? ==> base + window <= |log| && StartsOnLine(log, base, window)
  }

  ghost predicate Inv(s: System, tailBytes: Option<nat>) {
    && WriterOk(s.w)
    && Exact(s.c, s.yielded, s.base, s.w.log)
    && RequestOk(s.request, s.c, s.w, tailBytes)
    && FinishedOk(s.c, s.yielded, s.base, s.w)
    && BaseOk(s.c, s.base, s.window, s.w.log)
  }

  lemma BaseLater(c: Client, base: nat, window: nat, log: Bytes, longer: Bytes)
    requires BaseOk(c, base, window, log) && log <= longer
    ensures BaseOk(c, base, window, longer)
  {
    forall i: nat | i < |log| ensures longer[i] == log[i] {
    }
  }

  lemma WriteKeeps(s: System, e: WriterEvent, tailBytes: Option<nat>)
    requires Inv(s, tailBytes)
    ensures Inv(s.(w := WriterStep(s.w, e)), tailBytes)
  {
    WriterStepKeeps(s.w, e);
    ExactLater(s.c, s.yielded, s.base, s.w.log, WriterStep(s.w, e).log);
    BaseLater(s.c, s.base, s.window, s.w.log, WriterStep(s.w, e).log);
  }

  /** What the client relies on in an answer; `window` is how many bytes the handler looked at. */
  ghost predicate Faithful(a: Slice, s: System, window: nat) {
    && a.offset <= a.nextOffset <= |s.w.log| && a.text == s.w.log[a.offset..a.nextOffset]
    && (s.c.offset.Some? ==> a.offset == s.c.offset.value)
    && (a.complete ==> s.w.ended.Some? && s.w.ended.value <= a.nextOffset)
    && (s.c.offset.None? ==> a.offset + window <= |s.w.log| && StartsOnLine(s.w.log, a.offset, window))
  }

  lemma FaithfulHere(s: System, tailBytes: Option<nat>, a: Slice, start: nat, window: nat)
    requires RequestOk(s.request, s.c, s.w, tailBytes) && s.request.HasSize?
    requires start == StartOf(s.request.ask, s.request.size)
    requires start <= a.offset <= a.nextOffset <= |s.w.log| && a.text == s.w.log[a.offset..a.nextOffset]
    requires !s.request.ask.Tail? ==> a.offset == start
    requires a.complete ==> !s.request.status.Active? && s.request.size <= a.nextOffset
    requires s.c.offset.None? ==> a.offset + window <= |s.w.log| && StartsOnLine(s.w.log, a.offset, window)
    ensures Faithful(a, s, window)
  {
  }

  lemma AnswerToIsFaithful(s: System, tailBytes: Option<nat>)
    requires RequestOk(s.request, s.c, s.w, tailBytes) && s.request.HasSize?
    ensures Faithful(AnswerTo(s), s, WindowOf(s))
  {
    var r := s.request;
    var start := StartOf(r.ask, r.size);
    AnswerIsFaithful(s.w.log, r.status, r.size, start, DataFor(s), r.ask.Tail?, r.limit);
    AnswerStartsOnLine(s.w.log, r.status, r.size, start, DataFor(s), r.ask.Tail?, r.limit);
    FaithfulHere(s, tailBytes, AnswerTo(s), start, WindowOf(s));
  }

  lemma DeliverFinished(c: Client, yielded: seq<Yield>, base: nat, a: Slice, w: Writer)
    requires WriterOk(w) && FinishedOk(c, yielded, base, w) && Exact(c, yielded, base, w.log)
    requires a.offset <= a.nextOffset <= |w.log| && a.text == w.log[a.offset..a.nextOffset]
    requires c.offset.Some? ==> a.offset == c.offset.value
    requires a.complete ==> w.ended.Some? && w.ended.value <= a.nextOffset
    requires Exact(Absorb(c, a), yielded + YieldsOf(c, a), BaseAfter(c, base, a), w.log)
    ensures FinishedOk(Absorb(c, a), yielded + YieldsOf(c, a), BaseAfter(c, base, a), w)
  {
    SaidAppend(yielded, YieldsOf(c, a));
    if c.finished && w.status.Failed? {
      assert c.partial + a.text == [];
    }
  }

  lemma FinishedLater(c: Client, yielded: seq<Yield>, base: nat, w: Writer, w': Writer)
    requires WriterOk(w) && WriterOk(w') && Later(w, w') && FinishedOk(c, yielded, base, w)
    ensures FinishedOk(c, yielded, base, w')
  {
  }

  /** What a finished follower has handed on: the log as it ended, all of a failed build's. */
  lemma FinishedSays(c: Client, yielded: seq<Yield>, base: nat, w: Writer)
    requires c.finished && FinishedOk(c, yielded, base, w) && Exact(c, yielded, base, w.log)
    ensures w.ended.Some? && base <= |w.log| && Window(w.log, base, w.ended.value) <= Said(yielded)
    ensures w.status.Failed? ==> Said(yielded) == w.log[base..]
  {
    YieldedIsSlice(w.log, base, Said(yielded), c.partial, c.offset.value);
    WindowStartsSlice(w.log, base, w.ended.value, base + |Said(yielded)|);
    if w.status.Failed? {
      assert Said(yielded) + [] == Said(yielded) && w.log[base..|w.log|] == w.log[base..];
    }
  }

  lemma DeliverKeeps(s: System, a: Slice, window: nat, tailBytes: Option<nat>)
    requires Inv(s, tailBytes) && Faithful(a, s, window)
    ensures Inv(Deliver(s, a, window), tailBytes)
  {
    AbsorbExact(s.c, s.yielded, s.base, s.w.log, a);
    DeliverFinished(s.c, s.yielded, s.base, a, s.w);
  }

  lemma ReplyKeeps(s: System, tailBytes: Option<nat>)
    requires Inv(s, tailBytes) && s.request.HasSize?
    ensures Inv(Deliver(s, AnswerTo(s), WindowOf(s)), tailBytes)
  {
    AnswerToIsFaithful(s, tailBytes);
    DeliverKeeps(s, AnswerTo(s), WindowOf(s), tailBytes);
  }

  lemma StepKeeps(s: System, e: Event, tailBytes: Option<nat>)
    requires Inv(s, tailBytes)
    ensures Inv(Step(s, e, tailBytes), tailBytes)
  {
    match e
    case Write(we) => WriteKeeps(s, we, tailBytes);
    case Send(limit) =>
    case ReadStatus =>
    case ReadSize =>
    case Reply => if s.request.HasSize? { ReplyKeeps(s, tailBytes); }
    case Lose =>
  }

  lemma {:induction false} RunKeeps(events: seq<Event>, tailBytes: Option<nat>)
    ensures Inv(Run(START, events, tailBytes), tailBytes)
  {
    if events != [] {
      var before := Run(START, events[..|events| - 1], tailBytes);
      RunKeeps(events[..|events| - 1], tailBytes);
      StepKeeps(before, events[|events| - 1], tailBytes);
    }
  }

  // ----------------------------------------------------------- main results

  /** Under every interleaving of the writer, the handler's three reads and lost
      requests, what was yielded and what is pending are exactly the log from the
      starting point to the offset. */
  lemma FollowerIsExact(events: seq<Event>, tailBytes: Option<nat>)
    ensures var s := Run(START, events, tailBytes);
            match s.c.offset
            case None => s.yielded == [] && s.c.partial == []
            case Some(o) => s.base <= o <= |s.w.log| && Said(s.yielded) + s.c.partial == s.w.log[s.base..o]
  {
    RunKeeps(events, tailBytes);
  }

  /** A follower that starts from the tail starts at the beginning of the log, just
      after a newline, or in a window the server saw no newline in. */
  lemma FollowerStartsOnLine(events: seq<Event>, tailBytes: Option<nat>)
    requires Run(START, events, tailBytes).c.offset.Some?
    ensures var s := Run(START, events, tailBytes);
            StartsOnLine(s.w.log, s.base, s.window)
  {
    RunKeeps(events, tailBytes);
  }

  /** The answer that is complete leaves nothing pending: everything from the starting
      point to the size it was computed with, and to its own end, is yielded. */
  lemma CompleteAnswerYieldsAll(events: seq<Event>, tailBytes: Option<nat>)
    requires var s := Run(START, events, tailBytes); s.request.HasSize? && AnswerTo(s).complete
    ensures var s := Run(START, events, tailBytes);
            var after := Step(s, Reply, tailBytes);
            && after.c.finished && after.c.partial == [] && after.c.offset.Some?
            && s.request.size <= after.c.offset.value <= |s.w.log|
            && after.base <= after.c.offset.value
            && Said(after.yielded) == s.w.log[after.base..after.c.offset.value]
  {
    RunKeeps(events, tailBytes);
    CompleteReply(Run(START, events, tailBytes), tailBytes);
  }

  lemma CompleteReply(s: System, tailBytes: Option<nat>)
    requires RequestOk(s.request, s.c, s.w, tailBytes) && Exact(s.c, s.yielded, s.base, s.w.log)
    requires s.request.HasSize? && AnswerTo(s).complete
    ensures var after := Step(s, Reply, tailBytes);
            && after.c.finished && after.c.partial == [] && after.c.offset.Some?
            && s.request.size <= after.c.offset.value <= |s.w.log|
            && after.base <= after.c.offset.value
            && Said(after.yielded) == s.w.log[after.base..after.c.offset.value]
  {
    AnswerToIsFaithful(s, tailBytes);
    CompleteDelivered(s, AnswerTo(s), WindowOf(s));
    CompleteCovers(s.request.status, s.request.size, StartOf(s.request.ask, s.request.size), DataFor(s),
                   s.request.ask.Tail?, s.request.limit);
    ReplyDelivers(s, tailBytes);
  }

  lemma ReplyDelivers(s: System, tailBytes: Option<nat>)
    requires s.request.HasSize?
    ensures Step(s, Reply, tailBytes) == Deliver(s, AnswerTo(s), WindowOf(s))
  {
  }

  lemma CompleteDelivered(s: System, a: Slice, window: nat)
    requires Exact(s.c, s.yielded, s.base, s.w.log) && a.complete
    requires a.offset <= a.nextOffset <= |s.w.log| && a.text == s.w.log[a.offset..a.nextOffset]
    requires s.c.offset.Some? ==> a.offset == s.c.offset.value
    ensures var after := Deliver(s, a, window);
            && after.c.finished && after.c.partial == [] && after.c.offset == Some(a.nextOffset)
            && after.base <= a.nextOffset && Said(after.yielded) == s.w.log[after.base..a.nextOffset]
  {
    AbsorbExact(s.c, s.yielded, s.base, s.w.log, a);
    NothingPending(Said(Deliver(s, a, window).yielded));
  }

  lemma NothingPending(said: Bytes)
    ensures said + [] == said
  {
  }

  lemma CompleteCovers(status: Status, size: nat, start: nat, data: Bytes, tailed: bool, limit: nat)
    requires Answer(status, size, start, data, tailed, limit).complete
    ensures size <= Answer(status, size, start, data, tailed, limit).nextOffset
  {
  }

  /** `finished` means the log as it was when the build ended has all been yielded;
      for a failed build, where the last line comes first, that is the whole log. */
  lemma FinishedIsComplete(events: seq<Event>, tailBytes: Option<nat>)
    requires Run(START, events, tailBytes).c.finished
    ensures var s := Run(START, events, tailBytes);
            && s.w.ended.Some? && s.base <= |s.w.log|
            && Window(s.w.log, s.base, s.w.ended.value) <= Said(s.yielded)
            && (s.w.status.Failed? ==> Said(s.yielded) == s.w.log[s.base..])
  {
    RunKeeps(events, tailBytes);
    var s := Run(START, events, tailBytes);
    FinishedSays(s.c, s.yielded, s.base, s.w);
  }

  lemma YieldedIsSlice(log: Bytes, base: nat, said: Bytes, pending: Bytes, end: nat)
    requires base <= end <= |log| && said + pending == log[base..end]
    ensures base + |said| <= end && said == log[base..base + |said|]
  {
    assert said == (said + pending)[..|said|];
    assert log[base..base + |said|] == log[base..end][..|said|];
  }

  lemma WindowStartsSlice(log: Bytes, base: nat, mid: nat, end: nat)
    requires base <= end <= |log| && mid <= end
    ensures Window(log, base, mid) <= log[base..end]
  {
  }

  // ---- What one request does ----

  function WriterEvents(events: seq<Event>): seq<WriterEvent> {
    if events == [] then [] else
    WriterEvents(events[..|events| - 1])
    + if events[|events| - 1].Write? then [events[|events| - 1].e] else []
  }

  /** Requests never touch the build: its writer is where its own steps lead. */
  lemma {:induction false} WriterGoesOn(events: seq<Event>, tailBytes: Option<nat>)
    ensures Run(START, events, tailBytes).w == WriterRun(NEW_BUILD, WriterEvents(events))
  {
    if events != [] {
      var init, e := events[..|events| - 1], events[|events| - 1];
      WriterGoesOn(init, tailBytes);
      if e.Write? {
        WriterRunSnoc(NEW_BUILD, WriterEvents(init), e.e);
      } else {
        assert WriterEvents(init) + [] == WriterEvents(init);
      }
    }
  }

  lemma RunSnoc(s: System, events: seq<Event>, e: Event, tailBytes: Option<nat>)
    ensures Run(s, events + [e], tailBytes) == Step(Run(s, events, tailBytes), e, tailBytes)
  {
    assert (events + [e])[..|events|] == events;
  }

  /** The tail first, if one is wanted, and from then on what comes next. */
  function Wanted(c: Client, tailBytes: Option<nat>): Ask {
    match c.offset
    case Some(o) => From(o)
    case None => if tailBytes.Some? then Tail(tailBytes.value) else From(0)
  }

  function AskOnce(limit: int): seq<Event> { [] + [Send(limit)] + [ReadStatus] + [ReadSize] + [Reply] }

  /** The client has taken in the answer about the build as it is. */
  ghost predicate Answered(s: System, after: System, ask: Ask, most: nat) {
    Took(s, after, AnswerNow(s.w, ask, most))
  }

  /** The answer about a build that stands still. */
  function AnswerNow(w: Writer, ask: Ask, most: nat): Slice {
    var start := StartOf(ask, |w.log|);
    Answer(w.status, |w.log|, start, Window(w.log, start, start + most + 1), ask.Tail?, most)
  }

  ghost predicate Took(s: System, after: System, a: Slice) {
    && after.w == s.w && after.request.Nothing? && after.c == Absorb(s.c, a)
    && after.c.offset == Some(a.nextOffset) && after.c.status == Some(a.status)
    && after.c.finished == (s.c.finished || a.complete)
    && after.yielded == s.yielded + YieldsOf(s.c, a)
  }

  lemma FourSteps(s: System, limit: int, tailBytes: Option<nat>)
    ensures Run(s, AskOnce(limit), tailBytes)
         == Step(Step(Step(Step(s, Send(limit), tailBytes), ReadStatus, tailBytes), ReadSize, tailBytes), Reply,
                 tailBytes)
  {
    RunSnoc(s, [], Send(limit), tailBytes);
    RunSnoc(s, [] + [Send(limit)], ReadStatus, tailBytes);
    RunSnoc(s, [] + [Send(limit)] + [ReadStatus], ReadSize, tailBytes);
    RunSnoc(s, [] + [Send(limit)] + [ReadStatus] + [ReadSize], Reply, tailBytes);
  }

  lemma ThreeReads(s: System, limit: int, tailBytes: Option<nat>)
    requires s.request.Nothing?
    ensures Step(Step(Step(s, Send(limit), tailBytes), ReadStatus, tailBytes), ReadSize, tailBytes)
         == s.(request := HasSize(Wanted(s.c, tailBytes), Max(1, Min(limit, LOG_CHUNK_MAX_BYTES)), s.w.status,
                                  |s.w.log|))
  {
  }

  /** A request that is not disturbed, whatever was in flight: the client takes in the
      answer to what it wants next, from the build as it is. */
  lemma OneRequest(s: System, limit: int, tailBytes: Option<nat>)
    ensures Answered(s, Run(Step(s, Lose, tailBytes), AskOnce(limit), tailBytes), Wanted(s.c, tailBytes),
                     Max(1, Min(limit, LOG_CHUNK_MAX_BYTES)))
  {
    var free := s.(request := Nothing);
    FourSteps(free, limit, tailBytes);
    ThreeReads(free, limit, tailBytes);
    OneReply(s, Wanted(s.c, tailBytes), Max(1, Min(limit, LOG_CHUNK_MAX_BYTES)), tailBytes);
  }

  lemma OneReply(s: System, ask: Ask, most: nat, tailBytes: Option<nat>)
    ensures Answered(s, Step(s.(request := HasSize(ask, most, s.w.status, |s.w.log|)), Reply, tailBytes), ask, most)
  {
    ReplyAnswers(s, s.(request := HasSize(ask, most, s.w.status, |s.w.log|)), tailBytes);
  }

  lemma ReplyAnswers(s: System, asked: System, tailBytes: Option<nat>)
    requires asked.request.HasSize? && asked == s.(request := asked.request)
    requires asked.request.status == s.w.status && asked.request.size == |s.w.log|
    ensures Answered(s, Step(asked, Reply, tailBytes), asked.request.ask, asked.request.limit)
  {
    ReplyDelivers(asked, tailBytes);
    ThisAnswer(asked);
    Delivered(s, asked, AnswerTo(asked));
  }

  lemma ThisAnswer(s: System)
    requires s.request.HasSize? && s.request.status == s.w.status && s.request.size == |s.w.log|
    ensures AnswerTo(s) == AnswerNow(s.w, s.request.ask, s.request.limit)
  {
  }

  lemma Delivered(s: System, asked: System, a: Slice)
    requires asked.request.HasSize? && asked == s.(request := asked.request)
    ensures Took(s, Deliver(asked, a, WindowOf(asked)), a)
  {
  }

  /** A tail of so many bytes, or what there is: from there, or after the first newline in
      what the server looked at. */
  ghost predicate BeginsTail(log: Bytes, size: nat, bytes: nat, limit: nat, base: nat) {
    var from := size - Min(bytes, size);
    && from <= base <= |log| && (from == 0 ==> base == 0)
    && (base > from ==> log[base - 1] == NEWLINE && forall i: nat :: from <= i < base - 1 ==> log[i] != NEWLINE)
    && (base == from && from > 0 ==> forall i: nat :: from <= i <= from + limit && i < |log| ==> log[i] != NEWLINE)
  }

  /** Where a follower of the tail starts. */
  lemma FirstReplyBegins(events: seq<Event>, tailBytes: nat)
    requires var s := Run(START, events, Some(tailBytes)); s.request.HasSize? && s.c.offset.None?
    ensures var s := Run(START, events, Some(tailBytes));
            BeginsTail(s.w.log, s.request.size, tailBytes, s.request.limit, Step(s, Reply, Some(tailBytes)).base)
  {
    RunKeeps(events, Some(tailBytes));
    TailReply(Run(START, events, Some(tailBytes)), tailBytes);
  }

  lemma TailReply(s: System, tailBytes: nat)
    requires RequestOk(s.request, s.c, s.w, Some(tailBytes)) && s.request.HasSize? && s.c.offset.None?
    ensures BeginsTail(s.w.log, s.request.size, tailBytes, s.request.limit, Step(s, Reply, Some(tailBytes)).base)
  {
    var r := s.request;
    TailBegins(s.w.log, r.status, r.size, tailBytes, DataFor(s), r.limit);
    ReplyDelivers(s, Some(tailBytes));
  }

  // ---- The notice ----

  ghost predicate NoNotice(ys: seq<Yield>) { forall i :: 0 <= i < |ys| ==> !ys[i].Notice? }

  /** A follower that starts inside the log says first how much it leaves out. */
  ghost predicate NoticeOk(c: Client, yielded: seq<Yield>, base: nat) {
    match c.offset
    case None => yielded == []
    case Some(_) =>
      if base > 0 then yielded != [] && yielded[0] == Notice(base) && NoNotice(yielded[1..]) else NoNotice(yielded)
  }

  lemma {:induction false} LinesAreNoNotice(text: Bytes, complete: bool)
    ensures NoNotice(LinesOf(text) + EndFor(RestOf(text), complete))
  {
    LinesHaveNoNewline(text);
    var lines := LinesOf(text);
    forall i | 0 <= i < |lines|
      ensures !lines[i].Notice?
    {
      assert lines[i] in lines;
    }
  }

  lemma NoticeStays(c: Client, yielded: seq<Yield>, base: nat, a: Slice)
    requires NoticeOk(c, yielded, base)
    ensures NoticeOk(Absorb(c, a), yielded + YieldsOf(c, a), BaseAfter(c, base, a))
  {
    var text := c.partial + a.text;
    var rest := LinesOf(text) + EndFor(RestOf(text), a.complete);
    LinesAreNoNotice(text, a.complete);
    Associate(NoticeFor(c, a), LinesOf(text), EndFor(RestOf(text), a.complete));
    assert YieldsOf(c, a) == NoticeFor(c, a) + rest;
    if c.offset.None? {
      FirstNotice(a.offset, rest);
      assert yielded + YieldsOf(c, a) == YieldsOf(c, a);
    } else {
      assert NoticeFor(c, a) + rest == rest;
      LaterNotice(yielded, rest, base);
    }
  }

  lemma FirstNotice(offset: nat, rest: seq<Yield>)
    requires NoNotice(rest)
    ensures ([Notice(offset)] + rest)[0] == Notice(offset) && ([Notice(offset)] + rest)[1..] == rest
    ensures [] + rest == rest
  {
  }

  lemma LaterNotice(yielded: seq<Yield>, rest: seq<Yield>, base: nat)
    requires NoNotice(rest)
    ensures NoNotice(yielded) ==> NoNotice(yielded + rest)
    ensures yielded != [] && NoNotice(yielded[1..]) ==>
              (yielded + rest)[0] == yielded[0] && NoNotice((yielded + rest)[1..])
  {
    if yielded != [] {
      assert (yielded + rest)[1..] == yielded[1..] + rest;
    }
  }

  /** In every run: the notice comes first and names what is left out, and there is none for
      a follower that starts at the beginning. */
  lemma {:induction false} NoticeIsExact(events: seq<Event>, tailBytes: Option<nat>)
    ensures var s := Run(START, events, tailBytes); NoticeOk(s.c, s.yielded, s.base)
  {
    if events != [] {
      NoticeIsExact(events[..|events| - 1], tailBytes);
      NoticeStep(Run(START, events[..|events| - 1], tailBytes), events[|events| - 1], tailBytes);
    }
  }

  lemma NoticeStep(s: System, e: Event, tailBytes: Option<nat>)
    requires NoticeOk(s.c, s.yielded, s.base)
    ensures var after := Step(s, e, tailBytes); NoticeOk(after.c, after.yielded, after.base)
  {
    if e.Reply? && s.request.HasSize? {
      NoticeStays(s.c, s.yielded, s.base, AnswerTo(s));
    }
  }
}
