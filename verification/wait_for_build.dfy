/** ops.wait_for_build: follow a build over a connection that comes and goes. */
module WaitForBuild {
  import opened Streams

  type Status = string

  /** One turn of the loop. Losing the connection in the poll or in the request is the
      same; an answer says what status the build has, whether the log follower is
      already through (or there is none), and whether one more poll would get through. */
  datatype Round =
    | Lost(now: real)
    | Answered(status: Status, followed: bool, lastPoll: bool)

  /** How the function ends, if the rounds given get it that far. */
  datatype Outcome = Finished(status: Status) | Unreachable | Waiting

  predicate IsFinal(status: Status) { status == "ready" || status == "failed" || status == "cancelled" }

  /** A build that is over, however: nothing else ends the wait. */
  lemma FinalStatuses(status: Status)
    ensures IsFinal(status) <==> status in ["ready", "failed", "cancelled"]
  {
  }

  predicate Final(r: Round) { r.Answered? && IsFinal(r.status) }

  /** When the loss that is on in round k began, as the loop keeps it: a clock reading
      of exactly zero counts as none. */
  function Since(rounds: seq<Round>, k: nat): real
    requires k < |rounds| && rounds[k].Lost?
  {
    if k > 0 && rounds[k - 1].Lost? && Since(rounds, k - 1) != 0.0 then Since(rounds, k - 1) else rounds[k].now
  }

  /** The build is finished, but the rest of its log could not be fetched. */
  predicate LogLost(r: Round) { Final(r) && !r.followed && !r.lastPoll }

  /** The connection has been lost for too long in round k. */
  predicate GivesUp(rounds: seq<Round>, k: nat, patience: real)
    requires k < |rounds|
  {
    rounds[k].Lost? && rounds[k].now - Since(rounds, k) > patience
  }

  /** A round after which the loop goes on. */
  predicate GoesOn(rounds: seq<Round>, k: nat, patience: real)
    requires k < |rounds|
  {
    !Final(rounds[k]) && !GivesUp(rounds, k, patience)
  }

  ghost predicate Losing(rounds: seq<Round>, j: nat, k: nat)
    requires j <= k < |rounds|
  {
    forall i :: j <= i <= k ==> rounds[i].Lost?
  }

  /** last_status after some rounds */
  function LastStatus(rounds: seq<Round>): Option<Status> {
    if rounds == [] then None
    else if rounds[|rounds| - 1].Answered? then Some(rounds[|rounds| - 1].status)
    else LastStatus(rounds[..|rounds| - 1])
  }

  /** What the caller is told: every status that differs from the last one. */
  function Told(rounds: seq<Round>): seq<Status> {
    if rounds == [] then [] else
    var before, last := rounds[..|rounds| - 1], rounds[|rounds| - 1];
    Told(before) + if last.Answered? && LastStatus(before) != Some(last.status) then [last.status] else []
  }

  lemma ToldNext(rounds: seq<Round>, k: nat)
    requires k < |rounds|
    ensures var r, before := rounds[k], LastStatus(rounds[..k]);
            var news := r.Answered? && before != Some(r.status);
            && LastStatus(rounds[..k + 1]) == (if r.Answered? then Some(r.status) else before)
            && Told(rounds[..k + 1]) == if news then Told(rounds[..k]) + [r.status] else Told(rounds[..k])
  {
    assert rounds[..k + 1][..k] == rounds[..k];
  }

  /** The first round the loop does not go on after, if there is one. */
  function LastRound(rounds: seq<Round>, patience: real, k: nat): (n: nat)
    requires k <= |rounds|
    ensures k <= n <= |rounds| && (n < |rounds| ==> !GoesOn(rounds, n, patience))
    ensures forall i :: k <= i < n ==> GoesOn(rounds, i, patience)
    decreases |rounds| - k
  {
    if k == |rounds| || !GoesOn(rounds, k, patience) then k else LastRound(rounds, patience, k + 1)
  }

  /** How it ends: on a final answer, by giving up, or not within these rounds. */
  function Result(rounds: seq<Round>, patience: real): Outcome {
    var n := LastRound(rounds, patience, 0);
    if n == |rounds| then Waiting
    else if !Final(rounds[n]) || LogLost(rounds[n]) then Unreachable
    else Finished(rounds[n].status)
  }

  lemma EndsAt(rounds: seq<Round>, patience: real, k: nat)
    requires k < |rounds| && !GoesOn(rounds, k, patience)
    requires forall i :: 0 <= i < k ==> GoesOn(rounds, i, patience)
    ensures LastRound(rounds, patience, 0) == k
  {
    var n := LastRound(rounds, patience, 0);
    assert n < |rounds| ==> !GoesOn(rounds, n, patience);
  }

  /** wait_for_build. It ends in the first round that is final or in which it gives up,
      and returns only a finished status. The one more poll of the log after a final
      answer is outside the retrying part: if it is lost, so is the result. */
  method Wait(rounds: seq<Round>, patience: real) returns (outcome: Outcome, used: nat, told: seq<Status>)
    ensures outcome == Result(rounds, patience)
    ensures used <= |rounds| && forall k :: 0 <= k < used - 1 ==> GoesOn(rounds, k, patience)
    ensures outcome.Waiting? <==> used == |rounds| && forall k :: 0 <= k < used ==> GoesOn(rounds, k, patience)
    ensures outcome.Finished? <==> used > 0 && Final(rounds[used - 1]) && !LogLost(rounds[used - 1])
    ensures outcome.Finished? ==> outcome.status == rounds[used - 1].status
    ensures outcome.Unreachable? <==> used > 0 && (GivesUp(rounds, used - 1, patience) || LogLost(rounds[used - 1]))
    ensures told == Told(rounds[..used])
  {
    var lastStatus: Option<Status>, lostSince: Option<real> := None, None;
    told := [];
    for k := 0 to |rounds|
      invariant forall i :: 0 <= i < k ==> GoesOn(rounds, i, patience)
      invariant lostSince == if k > 0 && rounds[k - 1].Lost? then Some(Since(rounds, k - 1)) else None
      invariant lastStatus == LastStatus(rounds[..k]) && told == Told(rounds[..k])
    {
      ToldNext(rounds, k);
      match rounds[k] {
        case Lost(now) =>
          lostSince := if lostSince.Some? && lostSince.value != 0.0 then lostSince else Some(now);
          if now - lostSince.value > patience {
            EndsAt(rounds, patience, k);
            return Unreachable, k + 1, told;
          }
        case Answered(status, followed, lastPoll) =>
          lostSince := None;
          if lastStatus != Some(status) {
            lastStatus := Some(status);
            told := told + [status];
          }
          if IsFinal(status) {
            EndsAt(rounds, patience, k);
            return if followed || lastPoll then Finished(status) else Unreachable, k + 1, told;
          }
      }
    }
    TakeAll(rounds);
    assert rounds != [] ==> GoesOn(rounds, |rounds| - 1, patience);
    assert LastRound(rounds, patience, 0) == |rounds|;
    return Waiting, |rounds|, told;
  }

  /** The loss began in the first of the lost rounds in a row, unless the clock read zero. */
  lemma {:induction false} SinceIsFirstLost(rounds: seq<Round>, j: nat, k: nat)
    requires j <= k < |rounds| && Losing(rounds, j, k) && (j > 0 ==> rounds[j - 1].Answered?)
    requires rounds[j].now != 0.0
    ensures Since(rounds, k) == rounds[j].now
  {
    if j < k {
      SinceIsFirstLost(rounds, j, k - 1);
    }
  }

  /** Giving up takes rounds lost without a break for longer than the patience. */
  lemma {:induction false} SinceIsLost(rounds: seq<Round>, k: nat) returns (j: nat)
    requires k < |rounds| && rounds[k].Lost?
    ensures j <= k && Losing(rounds, j, k) && Since(rounds, k) == rounds[j].now
  {
    if k > 0 && rounds[k - 1].Lost? && Since(rounds, k - 1) != 0.0 {
      j := SinceIsLost(rounds, k - 1);
    } else {
      j := k;
    }
  }

  /** It gives up in round k exactly when the loss on in that round has lasted longer
      than the patience, for a clock that never reads zero. */
  lemma GivesUpExactly(rounds: seq<Round>, j: nat, k: nat, patience: real)
    requires j <= k < |rounds| && Losing(rounds, j, k) && (j > 0 ==> rounds[j - 1].Answered?)
    requires rounds[j].now != 0.0
    ensures GivesUp(rounds, k, patience) <==> rounds[k].now - rounds[j].now > patience
  {
    SinceIsFirstLost(rounds, j, k);
  }

  /** For a clock whose zero is when the loss began, the wait is counted from the next round instead. */
  lemma {:induction false} ZeroClockStartsOver(rounds: seq<Round>, j: nat, k: nat)
    requires j < k < |rounds| && Losing(rounds, j, k) && (j > 0 ==> rounds[j - 1].Answered?)
    requires rounds[j].now == 0.0 && rounds[j + 1].now != 0.0
    ensures Since(rounds, k) == rounds[j + 1].now
  {
    if j + 1 < k {
      ZeroClockStartsOver(rounds, j, k - 1);
    } else {
      assert Since(rounds, j) == 0.0;
    }
  }

  // ---- The last poll of the log ----

  lemma SinceBefore(rounds: seq<Round>, r: Round, k: nat)
    requires k < |rounds| && rounds[k].Lost?
    ensures (rounds + [r])[k].Lost? && Since(rounds + [r], k) == Since(rounds, k)
  {
    if k > 0 && rounds[k - 1].Lost? {
      SinceBefore(rounds, r, k - 1);
    }
  }

  lemma GoesOnStays(before: seq<Round>, r: Round, k: nat, patience: real)
    requires k < |before|
    ensures GoesOn(before + [r], k, patience) <==> GoesOn(before, k, patience)
  {
    if before[k].Lost? {
      SinceBefore(before, r, k);
    }
  }

  lemma EndsWith(before: seq<Round>, r: Round, patience: real)
    requires Final(r) && forall k :: 0 <= k < |before| ==> GoesOn(before, k, patience)
    ensures Result(before + [r], patience) == if LogLost(r) then Unreachable else Finished(r.status)
  {
    var rounds := before + [r];
    forall k | 0 <= k < |before|
      ensures GoesOn(rounds, k, patience)
    {
      GoesOnStays(before, r, k, patience);
    }
    EndsAt(rounds, patience, |before|);
  }

  /** A final answer is returned whatever the connection does next, exactly if there is
      no log to follow or it has been followed to its end already. */
  lemma LastPollDecides(before: seq<Round>, status: Status, followed: bool, patience: real)
    requires IsFinal(status) && forall k :: 0 <= k < |before| ==> GoesOn(before, k, patience)
    ensures (forall lastPoll :: Result(before + [Answered(status, followed, lastPoll)], patience) == Finished(status))
            <==> followed
  {
    forall lastPoll
      ensures Result(before + [Answered(status, followed, lastPoll)], patience)
              == if followed || lastPoll then Finished(status) else Unreachable
    {
      EndsWith(before, Answered(status, followed, lastPoll), patience);
    }
    EndsWith(before, Answered(status, followed, false), patience);
    assert !followed ==> Result(before + [Answered(status, followed, false)], patience) != Finished(status);
  }

  /** A build that is ready, reported as unreachable although no time was given to reconnect. */
  lemma ReadyBuildCanBeLost(patience: real)
    requires patience >= 0.0
    ensures Result([Answered("ready", false, false)], patience) == Unreachable
    ensures Result([Answered("ready", false, true)], patience) == Finished("ready")
  {
    assert [] + [Answered("ready", false, false)] == [Answered("ready", false, false)];
    assert [] + [Answered("ready", false, true)] == [Answered("ready", false, true)];
    EndsWith([], Answered("ready", false, false), patience);
    EndsWith([], Answered("ready", false, true), patience);
  }

  lemma {:induction false} LastToldIsLast(rounds: seq<Round>)
    ensures Told(rounds) == [] <==> LastStatus(rounds).None?
    ensures Told(rounds) != [] ==> Some(Told(rounds)[|Told(rounds)| - 1]) == LastStatus(rounds)
  {
    if rounds != [] {
      LastToldIsLast(rounds[..|rounds| - 1]);
    }
  }

  /** No status is reported twice in a row, however often the connection breaks in between. */
  lemma {:induction false} ToldOnlyChanges(rounds: seq<Round>)
    ensures forall i :: 0 < i < |Told(rounds)| ==> Told(rounds)[i - 1] != Told(rounds)[i]
  {
    if rounds != [] {
      LastToldIsLast(rounds[..|rounds| - 1]);
      ToldOnlyChanges(rounds[..|rounds| - 1]);
    }
  }
}
