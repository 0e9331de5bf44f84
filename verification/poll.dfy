/** LogFollower and the log endpoint as running code: the poll loop against a
    server whose log grows between any two of the handler's reads. */
module Poll {
  import opened Streams
  import opened BuildLog
  import opened Follower

  const LOG_CHUNK_BYTES: nat := 256 * 1024

  predicate AllOfWorker(events: seq<WriterEvent>, longest: nat) {
    forall e :: e in events ==> OfWorker(e, longest)
  }

  lemma {:induction false} WriterRunAppend(past: seq<WriterEvent>, more: seq<WriterEvent>)
    ensures WriterRun(NEW_BUILD, past + more) == WriterRun(WriterRun(NEW_BUILD, past), more)
  {
    if more == [] {
      assert past + more == past;
    } else {
      WriterRunAppend(past, more[..|more| - 1]);
      assert (past + more)[..|past + more| - 1] == past + more[..|more| - 1];
    }
  }

  /** The build on the server: its writer has made some steps, and may make more at any time. */
  class Server {
    ghost var past: seq<WriterEvent>
    const longest: nat
    var w: Writer

    ghost predicate Valid()
      reads this
    {
      w == WriterRun(NEW_BUILD, past) && AllOfWorker(past, longest)
    }

    /** What the log can never exceed while only the worker writes to it. */
    ghost function Bound(): nat { MAX_LOG_BYTES + longest + 1 + |MARKER| }

    constructor (longest: nat)
      ensures Valid() && w == NEW_BUILD
    {
      this.longest := longest;
      past := [];
      w := NEW_BUILD;
    }

    lemma Known()
      requires Valid()
      ensures WriterOk(w) && |w.log| <= Bound()
    {
      WriterRunKeeps(NEW_BUILD, past);
      RunWithinCap(past, longest);
    }

    /** The worker gets as far as it gets. */
    method Interfere()
      requires Valid()
      modifies this
      ensures Valid() && Later(old(w), w)
    {
      var more: seq<WriterEvent> := *;
      if !AllOfWorker(more, longest) {
        more := [];
      }
      WriterRunKeeps(NEW_BUILD, past);
      WriterRunKeeps(w, more);
      WriterRunAppend(past, more);
      w, past := WriterRun(w, more), past + more;
    }

    /** build_log. Each of the three reads sees the build at a different moment, and
        the answer may be lost on its way. */
    method Serve(ask: Ask, asked: int) returns (reply: Option<Slice>)
      requires Valid() && (ask.From? ==> 0 <= ask.offset <= |w.log|)
      modifies this
      ensures Valid() && Later(old(w), w)
      ensures reply.Some? ==> Served(reply.value, ask, w) && |old(w.log)| <= reply.value.size
      ensures reply.Some? && old(w).ended.Some? ==> CompleteAtEnd(reply.value)
    {
      Known();
      Interfere();
      var status := w.status;
      ghost var first := w;
      Known();
      Interfere();
      var size := |w.log|;
      var start := StartOf(ask, size);
      ghost var second := w;
      Interfere();
      var data := Window(w.log, start, start + Limit(asked) + 1);
      var a := Answer(status, size, start, data, ask.Tail?, Limit(asked));
      Known();
      LaterThrice(old(w), first, second, w);
      AnswerServed(a, ask, status, size, data, w, Limit(asked));
      AnswerAtEnd(old(w), first, size, start, data, ask.Tail?, Limit(asked));
      if * {
        return None;
      }
      reply := Some(a);
    }
  }

  lemma LaterThrice(a: Writer, b: Writer, c: Writer, d: Writer)
    requires WriterOk(b) && Later(a, b) && Later(b, c) && Later(c, d)
    ensures Later(a, d) && |a.log| <= |c.log| <= |d.log|
    ensures !b.status.Active? ==> d.ended.Some? && d.ended.value <= |c.log|
  {
    PrefixTrans(a.log, b.log, c.log);
    PrefixTrans(a.log, c.log, d.log);
  }

  /** What the client can rely on in an answer, given the build as it is now. */
  ghost predicate Served(a: Slice, ask: Ask, w: Writer) {
    && a.offset <= a.nextOffset <= |w.log| && a.text == w.log[a.offset..a.nextOffset]
    && (ask.From? ==> a.offset == ask.offset && (a.offset < a.size ==> a.offset < a.nextOffset))
    && (a.complete ==> w.ended.Some? && w.ended.value <= a.nextOffset && a.size <= a.nextOffset)
  }

  /** An answer about an ended build is complete as soon as it reaches the end. */
  ghost predicate CompleteAtEnd(a: Slice) { a.nextOffset >= a.size ==> a.complete }

  lemma AnswerAtEnd(w: Writer, w': Writer, size: nat, start: nat, data: Bytes, tailed: bool, limit: nat)
    requires WriterOk(w) && Later(w, w')
    ensures w.ended.Some? ==> CompleteAtEnd(Answer(w'.status, size, start, data, tailed, limit))
  {
  }

  lemma AnswerServed(a: Slice, ask: Ask, status: Status, size: nat, data: Bytes, w: Writer, limit: nat)
    requires limit > 0 && size <= |w.log| && (ask.From? ==> 0 <= ask.offset <= size)
    requires !status.Active? ==> w.ended.Some? && w.ended.value <= size
    requires data == Window(w.log, StartOf(ask, size), StartOf(ask, size) + limit + 1)
    requires a == Answer(status, size, StartOf(ask, size), data, ask.Tail?, limit)
    ensures Served(a, ask, w)
  {
    AnswerIsFaithful(w.log, status, size, StartOf(ask, size), data, ask.Tail?, limit);
    if ask.From? && ask.offset < size {
      AnswerAdvances(w.log, status, size, StartOf(ask, size), data, limit);
    }
  }

  class LogFollower {
    const tailBytes: Option<nat>
    var offset: Option<nat>
    var partial: Bytes
    var finished: bool
    var status: Option<Status>
    ghost var yielded: seq<Yield>
    ghost var base: nat

    constructor (tailBytes: Option<nat>)
      ensures this.tailBytes == tailBytes && offset == None && !finished && yielded == []
      ensures Follows([]) && Through(NEW_BUILD)
    {
      this.tailBytes := tailBytes;
      offset, partial, finished, status := None, [], false, None;
      yielded, base := [], 0;
    }

    function State(): Client
      reads this
    {
      Client(offset, partial, finished, status)
    }

    /** Everything yielded so far, then what is pending, is the log from base to the offset. */
    ghost predicate Follows(log: Bytes)
      reads this
    {
      Exact(State(), yielded, base, log)
    }

    /** `finished` means that the log as it ended has been yielded. */
    ghost predicate Through(w: Writer)
      reads this
    {
      WriterOk(w) && FinishedOk(State(), yielded, base, w)
    }

    /** The loop body of _poll_offset after an answer: the lines, and the new fields. */
    method Update(a: Slice) returns (lines: seq<Yield>)
      modifies this`offset, this`partial, this`finished, this`status
      ensures lines == YieldsOf(old(State()), a) && State() == Absorb(old(State()), a)
    {
      var text := partial + a.text;
      lines := NoticeFor(State(), a) + LinesOf(text) + EndFor(RestOf(text), a.complete);
      offset, status := Some(a.nextOffset), Some(a.status);
      partial := if a.complete then [] else RestOf(text);
      finished := finished || a.complete;
    }

    /** A faithful answer keeps the follower exact. */
    method Take(a: Slice, ghost w: Writer) returns (lines: seq<Yield>)
      requires Follows(w.log) && Through(w)
      requires a.offset <= a.nextOffset <= |w.log| && a.text == w.log[a.offset..a.nextOffset]
      requires a.complete ==> w.ended.Some? && w.ended.value <= a.nextOffset
      requires offset.Some? ==> a.offset == offset.value
      modifies this
      ensures lines == YieldsOf(old(State()), a) && State() == Absorb(old(State()), a)
      ensures yielded == old(yielded) + lines && Follows(w.log) && Through(w)
      ensures base == BaseAfter(old(State()), old(base), a)
    {
      AbsorbExact(State(), yielded, base, w.log, a);
      DeliverFinished(State(), yielded, base, a, w);
      base := BaseAfter(State(), base, a);
      lines := Update(a);
      yielded := yielded + lines;
    }

    /** One turn of the loop: a request and, unless it is lost, its answer. */
    method Turn(server: Server) returns (lines: seq<Yield>, outcome: Outcome)
      requires server.Valid() && Follows(server.w.log) && Through(server.w)
      modifies this, server
      ensures server.Valid() && Later(old(server.w), server.w)
      ensures Follows(server.w.log) && Through(server.w) && yielded == old(yielded) + lines
      ensures Onward(old(offset), old(base), offset, base)
      ensures outcome.Lost? ==> lines == [] && State() == old(State())
      ensures outcome.More? ==> offset.Some? && offset.value <= server.Bound()
                                && (old(offset).Some? ==> old(offset).value < offset.value)
      ensures outcome.Done? ==> offset.Some? && |old(server.w.log)| <= offset.value
      ensures outcome.Done? && old(server.w).ended.Some? ==> finished
    {
      var ask := if offset.None? && tailBytes.Some? then Tail(tailBytes.value)
                 else From(if offset.Some? then offset.value else 0);
      ghost var earlier := server.w;
      var reply := server.Serve(ask, LOG_CHUNK_BYTES);
      server.Known();
      ExactLater(State(), yielded, base, earlier.log, server.w.log);
      FinishedLater(State(), yielded, base, earlier, server.w);
      if reply.None? {
        return [], Lost;
      }
      var a, before := reply.value, offset;
      lines := Take(a, server.w);
      outcome := if a.complete || a.nextOffset >= a.size || offset == before then Done else More;
    }

    /** _poll_offset. It ends even while the build writes: an answer that leaves
        something to read has advanced the offset, and the log cannot pass the cap. When
        it returns without an error, all there was in the log when it began has been read;
        and if the build had ended by then, the follower is finished. */
    method PollOffset(server: Server) returns (lines: seq<Yield>, ok: bool)
      requires server.Valid() && Follows(server.w.log) && Through(server.w)
      modifies this, server
      ensures server.Valid() && Later(old(server.w), server.w)
      ensures Follows(server.w.log) && Through(server.w) && yielded == old(yielded) + lines
      ensures Onward(old(offset), old(base), offset, base)
      ensures ok ==> offset.Some? && |old(server.w.log)| <= offset.value
      ensures ok && old(server.w).ended.Some? ==> finished
    {
      lines := [];
      while true
        invariant server.Valid() && Later(old(server.w), server.w)
        invariant Follows(server.w.log) && Through(server.w) && yielded == old(yielded) + lines
        invariant Onward(old(offset), old(base), offset, base)
        decreases if offset.None? then server.Bound() + 1 else server.Bound() - offset.value
      {
        ghost var earlier := server.w;
        var more, outcome := Turn(server);
        LaterTrans(old(server.w), earlier, server.w);
        lines := lines + more;
        if !outcome.More? {
          return lines, outcome.Done?;
        }
      }
    }
  }

  datatype Outcome = Lost | Done | More

  /** The offset only advances and the starting point is fixed by the first answer. */
  ghost predicate Onward(offset: Option<nat>, base: nat, offset': Option<nat>, base': nat) {
    offset.Some? ==> offset'.Some? && base' == base && offset.value <= offset'.value
  }

  lemma LaterTrans(a: Writer, b: Writer, c: Writer)
    requires Later(a, b) && Later(b, c)
    ensures Later(a, c)
  {
    PrefixTrans(a.log, b.log, c.log);
  }
}
