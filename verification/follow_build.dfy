/** ops.wait_for_build with a callback for lines: its rounds against a server that works
    on, with the log follower they use. */
module FollowBuild {
  import opened Streams
  import opened WaitForBuild
  import opened BuildLog
  import opened Follower
  import opened Poll

  function Name(status: BuildLog.Status): string {
    match status
    case Active => "building"
    case Ready => "ready"
    case Failed => "failed"
  }

  /** Everything that was there to hand over has been handed over: the log as it was when
      the build ended, and all of it when the build failed. */
  ghost predicate HandedOver(yielded: seq<Yield>, base: nat, w: Writer) {
    && w.ended.Some? && base <= |w.log| && Window(w.log, base, w.ended.value) <= Said(yielded)
    && (w.status.Failed? ==> Said(yielded) == w.log[base..])
  }

  /** The follower is where the log's lines and its own flag say it is. */
  ghost predicate InStep(server: Server, follower: LogFollower)
    reads server, follower
  {
    server.Valid() && follower.Follows(server.w.log) && follower.Through(server.w)
  }

  /** One turn of the loop: the log, the build's record, and the log once more when the
      record is final. Requests are lost at any point; `arrives` says whether the record is. */
  method Round(server: Server, follower: LogFollower, arrives: bool, now: real) returns (r: WaitForBuild.Round)
    requires InStep(server, follower)
    modifies server, follower
    ensures InStep(server, follower) && Later(old(server.w), server.w)
    ensures old(follower.yielded) <= follower.yielded
    ensures r.Lost? ==> r.now == now
    ensures r.Answered? ==> (Final(r) <==> r.status == "ready" || r.status == "failed")
    ensures Final(r) ==> r.status == Name(server.w.status)
    ensures Final(r) && !LogLost(r) ==> HandedOver(follower.yielded, follower.base, server.w)
  {
    var lines, ok := follower.PollOffset(server);
    if !ok {
      return WaitForBuild.Lost(now);
    }
    Meanwhile(server, follower);
    if !arrives {
      return WaitForBuild.Lost(now);
    }
    var status, followed, lastPoll := server.w.status, follower.finished, true;
    server.Known();
    if !status.Active? && !followed {
      lines, lastPoll := follower.PollOffset(server);
    }
    if follower.finished {
      FinishedSays(follower.State(), follower.yielded, follower.base, server.w);
    }
    r := Answered(Name(status), followed, lastPoll);
  }

  /** The worker gets as far as it gets. */
  method Meanwhile(server: Server, follower: LogFollower)
    requires InStep(server, follower)
    modifies server
    ensures InStep(server, follower) && Later(old(server.w), server.w)
  {
    ghost var w := server.w;
    server.Interfere();
    server.Known();
    ExactLater(follower.State(), follower.yielded, follower.base, w.log, server.w.log);
    FinishedLater(follower.State(), follower.yielded, follower.base, w, server.w);
  }

  lemma StillGoesOn(before: seq<WaitForBuild.Round>, r: WaitForBuild.Round, patience: real)
    requires forall k :: 0 <= k < |before| ==> GoesOn(before, k, patience)
    ensures forall k :: 0 <= k < |before| ==> GoesOn(before + [r], k, patience)
  {
    forall k | 0 <= k < |before|
      ensures GoesOn(before + [r], k, patience)
    {
      GoesOnStays(before, r, k, patience);
    }
  }

  /** wait_for_build: a build that is returned as finished has its status on the server,
      and its log has been handed over, however often connections were lost on the way. */
  method Watch(server: Server, tailBytes: Option<nat>, arrivals: seq<(bool, real)>, patience: real)
    returns (outcome: WaitForBuild.Outcome, rounds: seq<WaitForBuild.Round>, told: seq<WaitForBuild.Status>,
             follower: LogFollower)
    requires server.Valid()
    modifies server
    ensures fresh(follower) && InStep(server, follower) && Later(old(server.w), server.w)
    ensures outcome == WaitForBuild.Result(rounds, patience) && |rounds| <= |arrivals| && told == Told(rounds)
    ensures outcome.Finished? ==>
              outcome.status == if server.w.status.Ready? then "ready" else "failed"
    ensures outcome.Finished? ==> HandedOver(follower.yielded, follower.base, server.w)
  {
    follower := new LogFollower(tailBytes);
    server.Known();
    rounds := [];
    var k := 0;
    while k < |arrivals|
      invariant k == |rounds| <= |arrivals| && InStep(server, follower) && Later(old(server.w), server.w)
      invariant forall i :: 0 <= i < k ==> GoesOn(rounds, i, patience)
    {
      ghost var earlier := server.w;
      var r := Round(server, follower, arrivals[k].0, arrivals[k].1);
      LaterTrans(old(server.w), earlier, server.w);
      StillGoesOn(rounds, r, patience);
      rounds := rounds + [r];
      if !GoesOn(rounds, k, patience) {
        break;
      }
      k := k + 1;
    }
    var used;
    outcome, used, told := Wait(rounds, patience);
    assert used < |rounds| ==> used > 0 && GoesOn(rounds, used - 1, patience);
    TakeAll(rounds);
  }
}
