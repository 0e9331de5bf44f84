/** api._ranged: one HTTP Range header over content that is cut on the fly
    (RFC 9110, sections 14.1.2, 14.4, 15.3.7 and 15.5.17). */
module Ranges {
  import opened Streams
  import opened Decimal
  import Text

  datatype Response =
    | Full(body: Bytes, contentLength: nat)
    | Partial(body: Bytes, first: nat, last: nat, size: nat, contentLength: nat)
    | NotSatisfiable(size: nat)

  /** The two groups of bytes=(\d*)-(\d*), when the whole header matches. */
  datatype Groups = Groups(first: string, last: string)

  function DigitRun(s: string): (n: nat)
    ensures n <= |s| && AllDigits(s[..n]) && (n < |s| ==> !IsDigit(s[n]))
  {
    if s == [] || !IsDigit(s[0]) then 0 else 1 + DigitRun(s[1..])
  }

  function Match(header: string): (m: Option<Groups>)
    ensures m.Some? ==> AllDigits(m.value.first) && AllDigits(m.value.last)
  {
    var h := Text.Trim(header);
    if !("bytes=" <= h) then None
    else
      var rest := h[6..];
      var n := DigitRun(rest);
      if n < |rest| && rest[n] == '-' && DigitRun(rest[n + 1..]) == |rest| - n - 1
      then Some(Groups(rest[..n], rest[n + 1..]))
      else None
  }

  /** What the header asks for: all of it, some of it, or nothing there is. */
  datatype Cut = Everything | Span(first: nat, last: nat) | Missed

  function CutOf(header: string, size: nat): (c: Cut)
    ensures c.Span? ==> c.first <= c.last < size
  {
    match Match(header)
    case Some(g) =>
      if g.first == [] && g.last == [] then Everything
      else
        var start := if g.first != [] then Value(g.first) else Max(size - Value(g.last), 0);
        var end := if g.first != [] && g.last != [] then Min(Value(g.last), size - 1) else size - 1;
        if start >= size || start > end then Missed else Span(start, end)
    case None => Everything
  }

  /** _ranged: `read` streams [start, start + length) of the content. */
  function Ranged(header: string, size: nat, read: (nat, nat) -> Bytes): Response {
    match CutOf(header, size)
    case Everything => Full(read(0, size), size)
    case Span(first, last) => Partial(read(first, last - first + 1), first, last, size, last - first + 1)
    case Missed => NotSatisfiable(size)
  }

  /** RFC 9110, section 14.1.2: the positions a byte range selects of `size` bytes. */
  predicate Selects(g: Groups, size: nat, p: nat)
    requires AllDigits(g.first) && AllDigits(g.last)
  {
    && p < size
    && (if g.first != [] then Value(g.first) <= p && (g.last != [] ==> p <= Value(g.last))
        else p >= size - Value(g.last))
  }

  /** The header asks for a range at all: anything else is served in full. */
  predicate Asks(header: string) {
    Match(header).Some? && Match(header).value != Groups("", "")
  }

  ghost predicate Serves(read: (nat, nat) -> Bytes, content: Bytes) {
    forall start: nat, length: nat :: start + length <= |content| ==>
      read(start, length) == Window(content, start, start + length)
  }

  lemma PartialIsExact(header: string, content: Bytes, read: (nat, nat) -> Bytes)
    requires Serves(read, content) && Ranged(header, |content|, read).Partial?
    ensures var r := Ranged(header, |content|, read);
            && r.first <= r.last < r.size == |content|
            && r.body == content[r.first..r.last + 1] && r.contentLength == |r.body|
            && Asks(header)
            && forall p: nat :: Selects(Match(header).value, |content|, p) <==> r.first <= p <= r.last
  {
  }

  lemma MissSelectsNothing(header: string, size: nat, p: nat, read: (nat, nat) -> Bytes)
    requires Ranged(header, size, read).NotSatisfiable?
    ensures Asks(header) && !Selects(Match(header).value, size, p)
  {
  }

  /** 206 exactly when the range selects something, and then the body is exactly
      the selected bytes; 416 exactly when it misses the content; all of it when
      no range is asked for. Content-Length and Content-Range agree with the body. */
  lemma RangedIsExact(header: string, content: Bytes, read: (nat, nat) -> Bytes)
    requires Serves(read, content)
    ensures var r := Ranged(header, |content|, read);
            && (r.Full? <==> !Asks(header))
            && (r.Full? ==> r.body == content && r.contentLength == |content|)
            && (r.Partial? ==>
                  && r.first <= r.last < r.size == |content|
                  && r.body == content[r.first..r.last + 1] && r.contentLength == |r.body|
                  && forall p: nat :: Selects(Match(header).value, |content|, p) <==> r.first <= p <= r.last)
            && (r.NotSatisfiable? <==>
                  Asks(header) && forall p: nat :: !Selects(Match(header).value, |content|, p))
            && (r.NotSatisfiable? ==> r.size == |content|)
  {
    match Ranged(header, |content|, read)
    case Full(_, _) =>
      WholeWindow(content);
    case Partial(_, first, _, _, _) =>
      PartialIsExact(header, content, read);
      assert Selects(Match(header).value, |content|, first);
    case NotSatisfiable(_) =>
      forall p: nat
        ensures !Selects(Match(header).value, |content|, p)
      {
        MissSelectsNothing(header, |content|, p, read);
      }
  }

  /** What a client sends to resume after k bytes (wget -c, curl -C -). */
  function ResumeHeader(k: nat): string { "bytes=" + ToString(k) + "-" }

  lemma {:induction false} DigitRunOf(digits: string, tail: string)
    requires AllDigits(digits) && (tail != [] ==> !IsDigit(tail[0]))
    ensures DigitRun(digits + tail) == |digits|
  {
    if digits == [] {
      assert digits + tail == tail;
    } else {
      DigitRunOf(digits[1..], tail);
      assert (digits + tail)[1..] == digits[1..] + tail;
    }
  }

  // ---- Header texts ----

  /** The header, without white space around it, is bytes=first-last with digits or nothing. */
  ghost predicate IsRange(header: string, first: string, last: string) {
    AllDigits(first) && AllDigits(last) && Text.Trim(header) == "bytes=" + (first + ("-" + last))
  }

  lemma DashAfter(first: string, last: string)
    ensures (first + ("-" + last))[..|first|] == first && (first + ("-" + last))[|first|] == '-'
    ensures (first + ("-" + last))[|first| + 1..] == last
  {
  }

  lemma AfterUnit(rest: string)
    ensures "bytes=" <= "bytes=" + rest && ("bytes=" + rest)[6..] == rest
  {
  }

  lemma UnitOff(h: string)
    requires "bytes=" <= h
    ensures h == "bytes=" + h[6..]
  {
  }

  lemma {:induction false} AllRun(digits: string)
    requires AllDigits(digits)
    ensures DigitRun(digits) == |digits|
  {
    DigitRunOf(digits, "");
    assert digits + "" == digits;
  }

  lemma RangeIsMatched(header: string, first: string, last: string)
    requires IsRange(header, first, last)
    ensures Match(header) == Some(Groups(first, last))
  {
    var rest := first + ("-" + last);
    AfterUnit(rest);
    DashAfter(first, last);
    DigitRunOf(first, "-" + last);
    AllRun(last);
  }

  lemma MatchedIsRange(header: string)
    requires Match(header).Some?
    ensures IsRange(header, Match(header).value.first, Match(header).value.last)
  {
    var h := Text.Trim(header);
    UnitOff(h);
    DashIn(h[6..], DigitRun(h[6..]));
    MatchParts(header);
  }

  lemma MatchParts(header: string)
    requires Match(header).Some?
    ensures var h := Text.Trim(header);
            && "bytes=" <= h && DigitRun(h[6..]) < |h[6..]| && h[6..][DigitRun(h[6..])] == '-'
            && Match(header).value == Groups(h[6..][..DigitRun(h[6..])], h[6..][DigitRun(h[6..]) + 1..])
  {
  }

  lemma DashIn(rest: string, n: nat)
    requires n < |rest| && rest[n] == '-'
    ensures rest == rest[..n] + ("-" + rest[n + 1..])
  {
  }

  /** Groups are matched exactly if they are what the header says. */
  lemma MatchExactly(header: string, first: string, last: string)
    ensures Match(header) == Some(Groups(first, last)) <==> IsRange(header, first, last)
  {
    if Match(header) == Some(Groups(first, last)) {
      MatchedIsRange(header);
    }
    if IsRange(header, first, last) {
      RangeIsMatched(header, first, last);
    }
  }

  /** Exactly these bytes, with matching headers. */
  ghost predicate Sends(r: Response, content: Bytes, from: nat, to: nat)
    requires from < to <= |content|
  {
    r == Partial(content[from..to], from, to - 1, |content|, to - from)
  }

  /** Sends the bytes from `from` to `to`, or a 416 when there are none. */
  ghost predicate SendsOrMisses(r: Response, content: Bytes, from: nat, to: nat)
    requires to <= |content|
  {
    if from < to then Sends(r, content, from, to) else r == NotSatisfiable(|content|)
  }

  /** Any other header is as if there were none. */
  lemma OtherwiseWhole(header: string, content: Bytes, read: (nat, nat) -> Bytes)
    requires Serves(read, content)
    requires forall first, last :: IsRange(header, first, last) ==> first == "" && last == ""
    ensures Ranged(header, |content|, read) == Full(content, |content|)
  {
    if Match(header).Some? {
      MatchedIsRange(header);
    }
    WholeWindow(content);
  }

  lemma CutAnswers(header: string, from: nat, to: nat, content: Bytes, read: (nat, nat) -> Bytes)
    requires Serves(read, content) && to <= |content|
    requires CutOf(header, |content|) == if from < to then Span(from, to - 1) else Missed
    ensures SendsOrMisses(Ranged(header, |content|, read), content, from, to)
  {
    if from < to {
      SpanSends(header, from, to - 1, content, read);
    }
  }

  lemma SpanSends(header: string, first: nat, last: nat, content: Bytes, read: (nat, nat) -> Bytes)
    requires Serves(read, content) && CutOf(header, |content|) == Span(first, last)
    ensures first <= last < |content| && Sends(Ranged(header, |content|, read), content, first, last + 1)
  {
  }

  /** The answer by the numbers: from a to b, from a on, or the last n bytes. */
  lemma GroupsAnswer(header: string, g: Groups, content: Bytes, read: (nat, nat) -> Bytes)
    requires Serves(read, content) && Match(header) == Some(g) && (g.first != "" || g.last != "")
    ensures AllDigits(g.first) && AllDigits(g.last)
    ensures var size := |content|;
            SendsOrMisses(Ranged(header, size, read), content,
                          if g.first != "" then Value(g.first) else size - Min(Value(g.last), size),
                          if g.first != "" && g.last != "" then Min(Value(g.last) + 1, size) else size)
  {
    var size := |content|;
    CutAnswers(header, if g.first != "" then Value(g.first) else size - Min(Value(g.last), size),
               if g.first != "" && g.last != "" then Min(Value(g.last) + 1, size) else size, content, read);
  }

  lemma HeaderIsRange(first: string, last: string)
    requires AllDigits(first) && AllDigits(last)
    ensures IsRange(Header(first, last), first, last)
  {
    var h := Header(first, last);
    assert h == "bytes=" + (first + ("-" + last));
    assert last != "" ==> h[|h| - 1] == last[|last| - 1] && last[|last| - 1] in last;
    Text.TrimOfTight(h);
  }

  function Header(first: string, last: string): string { "bytes=" + first + "-" + last }

  lemma HeaderMatched(first: string, last: string)
    requires AllDigits(first) && AllDigits(last)
    ensures Match(Header(first, last)) == Some(Groups(first, last))
  {
    HeaderIsRange(first, last);
    RangeIsMatched(Header(first, last), first, last);
  }

  /** bytes=a-b */
  lemma FromTo(a: nat, b: nat, content: Bytes, read: (nat, nat) -> Bytes)
    requires Serves(read, content)
    ensures SendsOrMisses(Ranged(Header(ToString(a), ToString(b)), |content|, read), content, a,
                          Min(b + 1, |content|))
  {
    HeaderMatched(ToString(a), ToString(b));
    ValueOfToString(a);
    ValueOfToString(b);
    GroupsAnswer(Header(ToString(a), ToString(b)), Groups(ToString(a), ToString(b)), content, read);
  }

  /** bytes=-n */
  lemma LastBytes(n: nat, content: Bytes, read: (nat, nat) -> Bytes)
    requires Serves(read, content)
    ensures SendsOrMisses(Ranged(Header("", ToString(n)), |content|, read), content,
                          |content| - Min(n, |content|), |content|)
  {
    HeaderMatched("", ToString(n));
    ValueOfToString(n);
    GroupsAnswer(Header("", ToString(n)), Groups("", ToString(n)), content, read);
  }

  lemma MatchResume(k: nat)
    ensures Match(ResumeHeader(k)) == Some(Groups(ToString(k), ""))
  {
    HeaderMatched(ToString(k), "");
    assert ResumeHeader(k) == Header(ToString(k), "");
  }

  /** A resumed transfer: the first k bytes and the answer to bytes=k- make the
      content; a client that already has all of it is told so with 416. */
  lemma ResumeCompletes(content: Bytes, k: nat, read: (nat, nat) -> Bytes)
    requires Serves(read, content) && k <= |content|
    ensures k < |content| ==> Ranged(ResumeHeader(k), |content|, read).Partial?
                              && content[..k] + Ranged(ResumeHeader(k), |content|, read).body == content
    ensures k == |content| ==> Ranged(ResumeHeader(k), |content|, read).NotSatisfiable?
  {
    MatchResume(k);
    ValueOfToString(k);
    GroupsAnswer(ResumeHeader(k), Groups(ToString(k), ""), content, read);
    FrontAndBack(content, k);
  }

  lemma FrontAndBack(content: Bytes, k: nat)
    requires k <= |content|
    ensures content[..k] + content[k..|content|] == content
  {
  }
}
