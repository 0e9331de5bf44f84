/** The build log: BuildService._emit writes it under a cap, api.build_log serves
    slices of it by byte offset while it grows. */
module BuildLog {
  import opened Streams

  const NEWLINE: byte := 10
  const MAX_LOG_BYTES: nat := 32 * 1024 * 1024
  const LOG_CHUNK_MAX_BYTES: nat := 1024 * 1024

  function Ascii(s: string): Bytes {
    seq(|s|, i requires 0 <= i < |s| => (s[i] as int % 256) as byte)
  }

  const MARKER: Bytes := Ascii("[log truncated at 32 MiB]\n")

  // ------------------------------------------------------------- the writer

  /** What one _emit leaves in the file. */
  function EmitTo(log: Bytes, line: Bytes): Bytes {
    if |log| > MAX_LOG_BYTES then log
    else
      var longer := log + line + [NEWLINE];
      if |longer| > MAX_LOG_BYTES then longer + MARKER else longer
  }

  /** The file after a sequence of _emit calls. */
  function LogOf(lines: seq<Bytes>): Bytes {
    if lines == [] then [] else EmitTo(LogOf(lines[..|lines| - 1]), lines[|lines| - 1])
  }

  /** Lines as text, each ended by a newline. */
  function Text(lines: seq<Bytes>): Bytes {
    if lines == [] then [] else Text(lines[..|lines| - 1]) + lines[|lines| - 1] + [NEWLINE]
  }

  /** The first k lines were written; the marker follows exactly when they passed
      the cap, and only the last of them can have done so. */
  ghost predicate Keeps(log: Bytes, lines: seq<Bytes>, k: nat) {
    && k <= |lines|
    && log == Text(lines[..k]) + (if |Text(lines[..k])| > MAX_LOG_BYTES then MARKER else [])
    && (k < |lines| ==> |Text(lines[..k])| > MAX_LOG_BYTES)
    && (k > 0 ==> |Text(lines[..k - 1])| <= MAX_LOG_BYTES)
  }

  lemma TextSnoc(lines: seq<Bytes>, k: nat)
    requires 0 < k <= |lines|
    ensures Text(lines[..k]) == Text(lines[..k - 1]) + lines[k - 1] + [NEWLINE]
  {
    assert lines[..k][..k - 1] == lines[..k - 1];
  }

  /** Every log is some first lines in order, then at most one marker, as its last line. */
  lemma {:induction false} LogKeepsFirstLines(lines: seq<Bytes>) returns (k: nat)
    ensures Keeps(LogOf(lines), lines, k)
  {
    if lines == [] {
      return 0;
    }
    var init, line := lines[..|lines| - 1], lines[|lines| - 1];
    k := LogKeepsFirstLines(init);
    assert lines == init + [line];
    if |LogOf(init)| <= MAX_LOG_BYTES {
      KeepsLine(LogOf(init), init, k, line);
      k := |lines|;
    } else {
      KeepsNoLine(LogOf(init), init, k, line);
    }
  }

  /** A log within the cap has all the lines, and takes one more. */
  lemma KeepsLine(log: Bytes, lines: seq<Bytes>, k: nat, line: Bytes)
    requires Keeps(log, lines, k) && |log| <= MAX_LOG_BYTES
    ensures Keeps(EmitTo(log, line), lines + [line], |lines| + 1)
  {
    assert k == |lines| && log == Text(lines) by {
      TakeAll(lines);
    }
    TextOneMore(lines, line);
  }

  lemma TextOneMore(lines: seq<Bytes>, line: Bytes)
    ensures (lines + [line])[..|lines|] == lines && (lines + [line])[..|lines| + 1] == lines + [line]
    ensures Text(lines + [line]) == Text(lines) + line + [NEWLINE]
  {
    assert (lines + [line])[..|lines|] == lines;
  }

  lemma KeepsNoLine(log: Bytes, lines: seq<Bytes>, k: nat, line: Bytes)
    requires Keeps(log, lines, k) && |log| > MAX_LOG_BYTES
    ensures Keeps(EmitTo(log, line), lines + [line], k)
  {
    assert (lines + [line])[..k] == lines[..k];
    if k > 0 {
      assert (lines + [line])[..k - 1] == lines[..k - 1];
    }
  }

  /** The cap: never more than one line and one marker over it. */
  lemma {:induction false} LogIsBounded(lines: seq<Bytes>, longest: nat)
    requires forall line :: line in lines ==> |line| <= longest
    ensures |LogOf(lines)| <= MAX_LOG_BYTES + longest + 1 + |MARKER|
  {
    var k := LogKeepsFirstLines(lines);
    if k > 0 {
      TextSnoc(lines, k);
      assert lines[k - 1] in lines;
    }
  }

  /** The log file of one build. */
  class LogFile {
    var content: Bytes

    constructor ()
      ensures content == []
    {
      content := [];
    }

    /** BuildService._emit, the part that writes. */
    method Emit(line: Bytes)
      modifies this
      ensures content == EmitTo(old(content), line)
    {
      var truncated := |content| > MAX_LOG_BYTES;
      if !truncated {
        content := content + line + [NEWLINE];
        if |content| > MAX_LOG_BYTES {
          content := content + MARKER;
        }
      }
    }
  }

  // ------------------------------------- the writer, as others see it at work

  datatype Status = Active | Ready | Failed

  /** What the worker has still to write of a line or of the marker. */
  datatype Phase = Idle | Line(rest: Bytes) | Marker(rest: Bytes)

  /** `ended` is how long the log was when the build's final status was committed. */
  datatype Writer = Writer(log: Bytes, phase: Phase, status: Status, alive: bool, ended: Option<nat>)

  const NEW_BUILD: Writer := Writer([], Idle, Active, true, None)

  datatype WriterEvent =
    | Emit(line: Bytes)          // _emit is called and looks at the size
    | Flush(count: nat)          // some of what is pending reaches the file
    | Succeed                    // run() commits `ready`, between two lines
    | Fail                       // _fail() commits `failed`, after its ERROR line
    | Die                        // the process stops; what was pending is lost
    | Recover                    // recover_interrupted() after a restart
    | Other(bytes: Bytes)        // an API request appends to a finished build's log

  function FlushStep(w: Writer, count: nat): Writer {
    match w.phase
    case Idle => w
    case Line(rest) =>
      var n := Min(count, |rest|);
      var log := w.log + rest[..n];
      w.(log := log, phase := if n < |rest| then Line(rest[n..])
                              else if |log| > MAX_LOG_BYTES then Marker(MARKER) else Idle)
    case Marker(rest) =>
      var n := Min(count, |rest|);
      w.(log := w.log + rest[..n], phase := if n < |rest| then Marker(rest[n..]) else Idle)
  }

  function WriterStep(w: Writer, e: WriterEvent): Writer {
    match e
    case Emit(line) =>
      if w.alive && w.phase.Idle? && !w.status.Failed? && |w.log| <= MAX_LOG_BYTES
      then w.(phase := Line(line + [NEWLINE])) else w
    case Flush(count) => FlushStep(w, count)
    case Succeed =>
      if w.alive && w.phase.Idle? && w.status.Active? then w.(status := Ready, ended := Some(|w.log|)) else w
    case Fail =>
      if w.alive && w.phase.Idle? && w.status.Active? then w.(status := Failed, ended := Some(|w.log|)) else w
    case Die => w.(alive := false, phase := Idle)
    case Recover => if !w.alive && w.status.Active? then w.(status := Failed, ended := Some(|w.log|)) else w
    case Other(bytes) => if w.status.Ready? then w.(log := w.log + bytes) else w
  }

  function WriterRun(w: Writer, events: seq<WriterEvent>): Writer {
    if events == [] then w else WriterStep(WriterRun(w, events[..|events| - 1]), events[|events| - 1])
  }

  /** A failed build's log is complete when `failed` is committed; a ready one's may grow. */
  ghost predicate WriterOk(w: Writer) {
    && (w.ended.Some? <==> !w.status.Active?)
    && (w.ended.Some? ==> w.ended.value <= |w.log|)
    && (w.status.Failed? ==> w.ended == Some(|w.log|) && w.phase.Idle?)
    && (!w.alive ==> w.phase.Idle?)
  }

  /** What an observer can rely on between two looks. */
  ghost predicate Later(w: Writer, w': Writer) {
    && w.log <= w'.log
    && (w.ended.Some? ==> w'.ended == w.ended && w'.status == w.status)
  }

  lemma WriterStepKeeps(w: Writer, e: WriterEvent)
    requires WriterOk(w)
    ensures WriterOk(WriterStep(w, e)) && Later(w, WriterStep(w, e))
  {
  }

  lemma {:induction false} WriterRunKeeps(w: Writer, events: seq<WriterEvent>)
    requires WriterOk(w)
    ensures WriterOk(WriterRun(w, events)) && Later(w, WriterRun(w, events))
  {
    if events != [] {
      var before := WriterRun(w, events[..|events| - 1]);
      WriterRunKeeps(w, events[..|events| - 1]);
      WriterStepKeeps(before, events[|events| - 1]);
      PrefixTrans(w.log, before.log, WriterRun(w, events).log);
    }
  }

  // ---- The writer writes what _emit does ----

  /** The log once everything pending has reached it. */
  function Settled(w: Writer): Bytes {
    match w.phase
    case Idle => w.log
    case Line(rest) => w.log + rest + (if |w.log + rest| > MAX_LOG_BYTES then MARKER else [])
    case Marker(rest) => w.log + rest
  }

  predicate Listens(w: Writer) { w.alive && w.phase.Idle? && !w.status.Failed? }

  /** The lines that the worker emitted. */
  function Emitted(events: seq<WriterEvent>): seq<Bytes> {
    if events == [] then [] else
    var init, e := events[..|events| - 1], events[|events| - 1];
    Emitted(init) + if e.Emit? && Listens(WriterRun(NEW_BUILD, init)) then [e.line] else []
  }

  lemma LineJoins(log: Bytes, rest: Bytes, n: nat)
    requires n <= |rest|
    ensures (log + rest[..n]) + rest[n..] == log + rest
  {
    Associate(log, rest[..n], rest[n..]);
    assert rest[..n] + rest[n..] == rest;
  }

  lemma FlushSettles(w: Writer, count: nat)
    ensures Settled(FlushStep(w, count)) == Settled(w)
  {
    match w.phase
    case Idle =>
    case Line(rest) =>
      LineJoins(w.log, rest, Min(count, |rest|));
      assert rest[..|rest|] == rest;
    case Marker(rest) =>
      LineJoins(w.log, rest, Min(count, |rest|));
      assert rest[..|rest|] == rest;
  }

  lemma EmitSettles(w: Writer, line: Bytes)
    requires Listens(w)
    ensures Settled(WriterStep(w, Emit(line))) == EmitTo(Settled(w), line)
  {
    Associate(w.log, line, [NEWLINE]);
  }

  lemma LogOfSnoc(lines: seq<Bytes>, line: Bytes)
    ensures LogOf(lines + [line]) == EmitTo(LogOf(lines), line)
  {
    assert (lines + [line])[..|lines|] == lines;
  }

  /** In every run that is not cut off, what is in the log and what is still on its way are
      what emitting the lines one by one makes. */
  lemma {:induction false} WriterWritesLines(events: seq<WriterEvent>)
    requires forall e :: e in events ==> !e.Die? && !e.Other?
    ensures Settled(WriterRun(NEW_BUILD, events)) == LogOf(Emitted(events))
  {
    if events != [] {
      var init, e := events[..|events| - 1], events[|events| - 1];
      WriterWritesLines(init);
      StepSettles(WriterRun(NEW_BUILD, init), e);
      if e.Emit? && Listens(WriterRun(NEW_BUILD, init)) {
        LogOfSnoc(Emitted(init), e.line);
      } else {
        assert Emitted(init) + [] == Emitted(init);
      }
    }
  }

  lemma StepSettles(w: Writer, e: WriterEvent)
    requires !e.Die? && !e.Other?
    ensures Settled(WriterStep(w, e))
         == if e.Emit? && Listens(w) then EmitTo(Settled(w), e.line) else Settled(w)
  {
    match e
    case Flush(count) => FlushSettles(w, count);
    case Emit(line) => if Listens(w) { EmitSettles(w, line); }
    case _ =>
  }

  lemma WriterRunSnoc(w: Writer, events: seq<WriterEvent>, e: WriterEvent)
    ensures WriterRun(w, events + [e]) == WriterStep(WriterRun(w, events), e)
  {
    assert (events + [e])[..|events|] == events;
  }

  /** Whatever is pending gets there: two flushes that are large enough leave nothing. */
  lemma TwoFlushes(w: Writer, count: nat)
    requires count >= |Settled(w)| && count >= |MARKER|
    requires w.phase.Line? ==> w.phase.rest != []
    ensures FlushStep(FlushStep(w, count), count) == w.(log := Settled(w), phase := Idle)
  {
    match w.phase
    case Idle =>
    case Line(rest) =>
      assert rest[..|rest|] == rest;
      assert MARKER[..|MARKER|] == MARKER;
    case Marker(rest) =>
      assert rest[..|rest|] == rest;
  }

  lemma FlushTwice(w: Writer, count: nat)
    ensures WriterRun(w, [Flush(count)] + [Flush(count)]) == FlushStep(FlushStep(w, count), count)
  {
    WriterRunSnoc(w, [], Flush(count));
    assert [] + [Flush(count)] == [Flush(count)];
    WriterRunSnoc(w, [Flush(count)], Flush(count));
  }

  /** A line that is emitted is in the log after that. */
  lemma EmitArrives(w: Writer, line: Bytes, count: nat)
    requires Listens(w) && count >= |EmitTo(w.log, line)| && count >= |MARKER|
    ensures WriterRun(WriterStep(w, Emit(line)), [Flush(count)] + [Flush(count)])
         == w.(log := EmitTo(w.log, line))
  {
    EmitSettles(w, line);
    TwoFlushes(WriterStep(w, Emit(line)), count);
    FlushTwice(WriterStep(w, Emit(line)), count);
  }

  /** How a build ends: by the worker, or by a restart after the process died. */
  lemma Endings(w: Writer)
    requires Listens(w) && w.status.Active?
    ensures WriterStep(w, Succeed) == Writer(w.log, Idle, Ready, true, Some(|w.log|))
    ensures WriterStep(w, Fail) == Writer(w.log, Idle, Failed, true, Some(|w.log|))
    ensures WriterStep(WriterStep(w, Die), Recover) == Writer(w.log, Idle, Failed, false, Some(|w.log|))
  {
  }

  /** A worker that died, or is in the middle of a line, commits no status. */
  lemma EndsBetweenLines(w: Writer)
    requires !w.alive || !w.phase.Idle? || !w.status.Active?
    ensures WriterStep(w, Succeed) == w && WriterStep(w, Fail) == w
    ensures w.alive || !w.status.Active? ==> WriterStep(w, Recover) == w
    ensures !w.alive || !w.phase.Idle? ==> forall line :: WriterStep(w, Emit(line)) == w
  {
  }

  /** What a process that dies had not written is lost, and it writes no more. */
  lemma {:induction false} DeadWritesNothing(w: Writer, events: seq<WriterEvent>)
    requires forall e :: e in events ==> !e.Other?
    ensures WriterRun(WriterStep(w, Die), events).log == w.log
    ensures WriterRun(WriterStep(w, Die), events).phase.Idle? && !WriterRun(WriterStep(w, Die), events).alive
  {
    if events != [] {
      DeadWritesNothing(w, events[..|events| - 1]);
    }
  }

  lemma OthersAppend(w: Writer, bytes: Bytes)
    ensures WriterStep(w, Other(bytes)).log == if w.status.Ready? then w.log + bytes else w.log
  {
  }

  /** The bound on a log only the worker writes, at every moment and not only between lines. */
  ghost predicate WithinCap(w: Writer, longest: nat) {
    match w.phase
    case Idle => |w.log| <= MAX_LOG_BYTES + longest + 1 + |MARKER|
    case Line(rest) => |w.log| + |rest| <= MAX_LOG_BYTES + longest + 1
    case Marker(rest) => |w.log| + |rest| <= MAX_LOG_BYTES + longest + 1 + |MARKER|
  }

  predicate OfWorker(e: WriterEvent, longest: nat) {
    !e.Other? && (e.Emit? ==> |e.line| <= longest)
  }

  lemma {:induction false} RunWithinCap(events: seq<WriterEvent>, longest: nat)
    requires forall e :: e in events ==> OfWorker(e, longest)
    ensures WithinCap(WriterRun(NEW_BUILD, events), longest)
  {
    if events != [] {
      var init, last := events[..|events| - 1], events[|events| - 1];
      assert OfWorker(last, longest);
      forall e | e in init ensures OfWorker(e, longest) {
        assert e in events;
      }
      RunWithinCap(init, longest);
    }
  }

  // -------------------------------------------------------------- the server

  /** The query parameters: `tail` wins over `offset`. */
  datatype Ask = From(offset: int) | Tail(bytes: int)

  datatype Slice = Slice(status: Status, offset: nat, nextOffset: nat, size: nat, complete: bool, text: Bytes)

  function Limit(asked: int): (limit: nat)
    ensures 1 <= limit <= LOG_CHUNK_MAX_BYTES
  {
    Max(1, Min(asked, LOG_CHUNK_MAX_BYTES))
  }

  function StartOf(ask: Ask, size: nat): (start: nat)
    ensures start <= size
  {
    Max(0, Min(if ask.Tail? then size - Max(0, ask.bytes) else ask.offset, size))
  }

  /** data.find(b"\n"), or |data| */
  function FirstNewline(data: Bytes): (i: nat)
    ensures i <= |data|
  {
    if data == [] || data[0] == NEWLINE then 0 else 1 + FirstNewline(data[1..])
  }

  lemma {:induction false} FirstNewlineIsFirst(data: Bytes)
    ensures FirstNewline(data) < |data| ==> data[FirstNewline(data)] == NEWLINE
    ensures forall i: nat :: i < FirstNewline(data) ==> data[i] != NEWLINE
  {
    if data != [] && data[0] != NEWLINE {
      FirstNewlineIsFirst(data[1..]);
      forall i: nat | i < FirstNewline(data) ensures data[i] != NEWLINE {
        assert i > 0 ==> data[1..][i - 1] == data[i];
      }
    }
  }

  /** data.rfind(b"\n") + 1 */
  function AfterLastNewline(data: Bytes): (i: nat)
    ensures i <= |data| && (i > 0 ==> data[i - 1] == NEWLINE)
  {
    if data == [] || data[|data| - 1] == NEWLINE then |data| else AfterLastNewline(data[..|data| - 1])
  }

  lemma {:induction false} AfterLastIsLast(data: Bytes)
    ensures forall i: nat :: AfterLastNewline(data) <= i < |data| ==> data[i] != NEWLINE
  {
    if data != [] && data[|data| - 1] != NEWLINE {
      AfterLastIsLast(data[..|data| - 1]);
    }
  }

  /** Only whole lines while more is to come, unless one line fills the slice. */
  function Cut(data: Bytes, limit: nat, finished: bool): Bytes {
    var kept := data[..Min(limit, |data|)];
    var lines := AfterLastNewline(kept);
    if (|data| > limit || !finished) && lines > 0 then kept[..lines] else kept
  }

  lemma CutIsPrefix(data: Bytes, limit: nat, finished: bool)
    ensures Cut(data, limit, finished) <= data
    ensures data != [] && limit > 0 ==> Cut(data, limit, finished) != []
  {
  }

  /** How many bytes of a tail window come before its first whole line. */
  function Skipped(data: Bytes, start: nat, tailed: bool): (skip: nat)
    ensures skip <= |data|
  {
    if tailed && start > 0 && FirstNewline(data) < |data| then FirstNewline(data) + 1 else 0
  }

  /** build_log, from what its three reads saw: the status, the size, the data at `start`. */
  function Answer(status: Status, size: nat, start: nat, data: Bytes, tailed: bool, limit: nat): Slice {
    var offset := start + Skipped(data, start, tailed);
    var text := Cut(data[offset - start..], limit, !status.Active?);
    var next := offset + |text|;
    Slice(status, offset, next, size, !status.Active? && next >= size, text)
  }

  lemma DataInside(log: Bytes, data: Bytes, start: nat, count: nat)
    requires start <= |log| && data == Window(log, start, start + count)
    ensures start + |data| <= |log| && data == log[start..start + |data|]
  {
  }

  lemma CutInside(log: Bytes, data: Bytes, start: nat, skip: nat, text: Bytes)
    requires start + |data| <= |log| && data == log[start..start + |data|]
    requires skip <= |data| && text <= data[skip..]
    ensures start + skip + |text| <= |log| && text == log[start + skip..start + skip + |text|]
  {
    SliceOfSlice(log, start, start + |data|, skip, |data|);
    SliceOfSlice(log, start, start + |data|, skip, skip + |text|);
  }

  lemma CutAt(log: Bytes, data: Bytes, start: nat, skip: nat, text: Bytes, limit: nat, finished: bool)
    requires start + |data| <= |log| && data == log[start..start + |data|]
    requires skip <= |data| && text == Cut(data[skip..], limit, finished)
    ensures start + skip + |text| <= |log| && text == log[start + skip..start + skip + |text|]
  {
    CutIsPrefix(data[skip..], limit, finished);
    CutInside(log, data, start, skip, text);
  }

  /** Whatever the log was when the status and the size were read, the text is the
      bytes of the log between the two offsets the answer names. */
  lemma AnswerIsFaithful(log: Bytes, status: Status, size: nat, start: nat, data: Bytes, tailed: bool, limit: nat)
    requires limit > 0 && start <= |log| && data == Window(log, start, start + limit + 1)
    ensures var a := Answer(status, size, start, data, tailed, limit);
            && start <= a.offset <= a.nextOffset <= |log|
            && a.text == log[a.offset..a.nextOffset]
            && (!tailed ==> a.offset == start)
            && (a.complete ==> !status.Active? && size <= a.nextOffset)
  {
    DataInside(log, data, start, limit + 1);
    AnswerParts(status, size, start, data, tailed, limit);
    CutAt(log, data, start, Skipped(data, start, tailed), Answer(status, size, start, data, tailed, limit).text,
          limit, !status.Active?);
  }

  lemma AnswerParts(status: Status, size: nat, start: nat, data: Bytes, tailed: bool, limit: nat)
    ensures var a := Answer(status, size, start, data, tailed, limit);
            && a.offset == start + Skipped(data, start, tailed)
            && a.text == Cut(data[Skipped(data, start, tailed)..], limit, !status.Active?)
            && a.nextOffset == a.offset + |a.text|
            && (a.complete <==> !status.Active? && size <= a.nextOffset) && a.size == size
  {
  }

  /** A slice asked for at an offset inside the log always advances: no reply stalls a reader. */
  lemma AnswerAdvances(log: Bytes, status: Status, size: nat, start: nat, data: Bytes, limit: nat)
    requires limit > 0 && start < |log| && data == Window(log, start, start + limit + 1)
    ensures Answer(status, size, start, data, false, limit).nextOffset > start
  {
    CutIsPrefix(data, limit, !status.Active?);
    assert data[0..] == data;
  }

  /** A tail starts at the beginning, just after a newline, or in a window without any. */
  ghost predicate StartsOnLine(log: Bytes, offset: nat, window: nat) {
    && offset <= |log|
    && (offset == 0 || log[offset - 1] == NEWLINE || NoNewlineIn(log, offset, window))
  }

  ghost predicate NoNewlineIn(log: Bytes, offset: nat, window: nat) {
    forall i: nat :: offset <= i < offset + window && i < |log| ==> log[i] != NEWLINE
  }

  lemma SkippedStartsOnLine(log: Bytes, start: nat, data: Bytes)
    requires start + |data| <= |log| && forall i: nat :: i < |data| ==> data[i] == log[start + i]
    ensures StartsOnLine(log, start + Skipped(data, start, true), |data| - Skipped(data, start, true))
  {
    var first := FirstNewline(data);
    FirstNewlineIsFirst(data);
    if start > 0 && first == |data| {
      forall i: nat | start <= i < start + |data| ensures log[i] != NEWLINE {
        assert data[i - start] == log[i];
      }
    } else if start > 0 {
      assert data[first] == log[start + first];
    }
  }

  /** A tail begins at a line, and so does a slice from offset 0. */
  lemma AnswerStartsOnLine(log: Bytes, status: Status, size: nat, start: nat, data: Bytes, tailed: bool, limit: nat)
    requires limit > 0 && start <= |log| && data == Window(log, start, start + limit + 1)
    ensures var offset, window := Answer(status, size, start, data, tailed, limit).offset,
                                  |data| - Skipped(data, start, tailed);
            offset + window <= |log| && (tailed || start == 0 ==> StartsOnLine(log, offset, window))
  {
    DataInside(log, data, start, limit + 1);
    AnswerParts(status, size, start, data, tailed, limit);
    if tailed {
      SkippedStartsOnLine(log, start, data);
    }
  }

  /** A tail asks for the last `bytes` of the log as it was; a window that starts inside it
      gives up its first, broken line, and nothing else. */
  lemma TailBegins(log: Bytes, status: Status, size: nat, bytes: int, data: Bytes, limit: nat)
    requires limit > 0 && size <= |log|
    requires data == Window(log, StartOf(Tail(bytes), size), StartOf(Tail(bytes), size) + limit + 1)
    ensures var offset := Answer(status, size, StartOf(Tail(bytes), size), data, true, limit).offset;
            var from := size - Min(Max(bytes, 0), size);
            && from <= offset <= |log| && (from == 0 ==> offset == 0)
            && (offset > from ==>
                  log[offset - 1] == NEWLINE && forall i: nat :: from <= i < offset - 1 ==> log[i] != NEWLINE)
            && (offset == from && from > 0 ==>
                  forall i: nat :: from <= i <= from + limit && i < |log| ==> log[i] != NEWLINE)
  {
    var from := StartOf(Tail(bytes), size);
    DataInside(log, data, from, limit + 1);
    AnswerParts(status, size, from, data, true, limit);
    WindowLength(log, from, limit + 1);
    SkipsOneLine(log, from, data);
  }

  lemma WindowLength(log: Bytes, start: nat, count: nat)
    requires start <= |log|
    ensures |Window(log, start, start + count)| == Min(count, |log| - start)
  {
  }

  lemma SkipsOneLine(log: Bytes, start: nat, data: Bytes)
    requires start + |data| <= |log| && data == log[start..start + |data|]
    ensures var skip := Skipped(data, start, true);
            && (start == 0 ==> skip == 0)
            && (skip > 0 ==> log[start + skip - 1] == NEWLINE
                             && forall i: nat :: start <= i < start + skip - 1 ==> log[i] != NEWLINE)
            && (skip == 0 && start > 0 ==> forall i: nat :: start <= i < start + |data| ==> log[i] != NEWLINE)
  {
    FirstNewlineIsFirst(data);
    forall i: nat | start <= i < start + |data|
      ensures log[i] == data[i - start]
    {
    }
  }

  /** An offset inside the log is where the slice begins; others are moved to an end. */
  lemma OffsetBegins(offset: int, size: nat)
    ensures StartOf(From(offset), size) == if offset < 0 then 0 else if offset > size then size else offset
  {
  }

  /** A slice is `limit` bytes, or what there is; while more is to come it ends with the
      last newline among them, if there is one. */
  lemma CutExactly(data: Bytes, limit: nat, finished: bool)
    ensures var text, most := Cut(data, limit, finished), Min(limit, |data|);
            && |text| <= most && text == data[..|text|]
            && (finished && |data| <= limit ==> text == data)
            && (|text| < most ==>
                  (|data| > limit || !finished) && text != [] && text[|text| - 1] == NEWLINE
                  && forall i: nat :: |text| <= i < most ==> data[i] != NEWLINE)
            && ((|data| > limit || !finished) && |text| == most ==>
                  (most > 0 && data[most - 1] == NEWLINE) || forall i: nat :: i < most ==> data[i] != NEWLINE)
  {
    var most := Min(limit, |data|);
    var kept := data[..most];
    AfterLastIsLast(kept);
    forall i: nat | i < most
      ensures data[i] == kept[i]
    {
    }
  }
}
