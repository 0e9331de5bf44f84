/** When hash_parts ends: its inner loop as a step that is repeated until the chunk is
    used up, for streams of any length. */
module CutterLoop {
  import opened Streams
  import opened Splitting

  function Iterate<S>(f: S -> S, s: S, n: nat): S {
    if n == 0 then s else f(Iterate(f, s, n - 1))
  }

  lemma {:induction false} IterateFirst<S>(f: S -> S, s: S, n: nat)
    ensures Iterate(f, s, n + 1) == Iterate(f, f(s), n)
  {
    if n > 0 {
      IterateFirst(f, s, n - 1);
    }
  }

  lemma {:induction false} FixedStays<S>(f: S -> S, s: S, k: nat, n: nat)
    requires k <= n && f(Iterate(f, s, k)) == Iterate(f, s, k)
    ensures Iterate(f, s, n) == Iterate(f, s, k)
  {
    if k < n {
      FixedStays(f, s, k, n - 1);
    }
  }

  /** The inner loop's state: the cutter, and what is left of the chunk. */
  type LoopState = (Cutter, Bytes)

  function Step(archive: string, ranges: seq<Range>, sha: Hash): LoopState -> LoopState {
    (s: LoopState) => Turn(s.0, s.1, archive, ranges, sha)
  }

  /** The inner loop on a chunk, after n turns. */
  function Turns(step: LoopState -> LoopState, c: Cutter, chunk: Bytes, n: nat): LoopState {
    Iterate(step, (c, chunk), n)
  }

  /** Some turn uses up the last of the chunk. */
  ghost predicate Ends(step: LoopState -> LoopState, c: Cutter, chunk: Bytes) {
    exists n: nat :: Turns(step, c, chunk, n).1 == []
  }

  const FIRST: Cutter := Cutter(0, [], 0, [], [])

  /** The cutter when chunk k comes, after the loops over the chunks before it. */
  function Before(step: LoopState -> LoopState, chunks: seq<Bytes>, k: nat): Cutter
    requires k <= |chunks|
  {
    if k == 0 then FIRST else
    Turns(step, Before(step, chunks, k - 1), chunks[k - 1], |chunks[k - 1]|).0
  }

  /** hash_parts gets through: the loop over every chunk ends. */
  ghost predicate Terminates(step: LoopState -> LoopState, chunks: seq<Bytes>) {
    forall k: nat :: k < |chunks| ==> Ends(step, Before(step, chunks, k), chunks[k])
  }

  // ---- One turn ----

  /** Once the plan is used up a turn changes nothing, whatever is left of the chunk. */
  lemma TurnStalls(c: Cutter, view: Bytes, stream: Bytes, archive: string, ranges: seq<Range>, sha: Hash,
                   total: nat, size: nat)
    requires Tiles(ranges, 0, total, size) && Good(c, total, stream, archive, ranges, sha)
    ensures Turn(c, view, archive, ranges, sha) == (c, view)
  {
    TilesInside(ranges, 0, total, size, c.index);
    assert c.digest + [] == c.digest && c.whole + [] == c.whole && view[0..] == view;
  }

  // ---- The loop over a chunk ----

  /** What a cutter must be after n bytes, kept abstract where only its laws matter. */
  type Invariant = (Cutter, nat) -> bool

  /** The chunk starts where the cutter is, and m is how far the plan goes in it. */
  ghost predicate Comes(stream: Bytes, total: nat, n: nat, view: Bytes, m: nat) {
    n <= m == Min(n + |view|, total) <= |stream| && view[..m - n] == stream[n..m]
  }

  ghost predicate Advances(step: LoopState -> LoopState, good: Invariant, c: Cutter, n: nat, view: Bytes, m: nat) {
    exists taken: nat :: 0 < taken <= m - n && taken <= |view|
                         && step((c, view)).1 == view[taken..] && good(step((c, view)).0, n + taken)
  }

  /** The two laws of a turn: it advances while bytes are planned for, and then stalls. */
  ghost predicate Law(step: LoopState -> LoopState, good: Invariant, stream: Bytes, total: nat) {
    && (forall c, n: nat, view, m: nat ::
          good(c, n) && Comes(stream, total, n, view, m) && view != [] && n < total
          ==> Advances(step, good, c, n, view, m))
    && (forall c, view :: good(c, total) ==> step((c, view)) == (c, view))
    && (forall c: Cutter :: step((c, [])) == (c, []))
  }

  lemma RestComes(stream: Bytes, total: nat, view: Bytes, n: nat, m: nat, taken: nat)
    requires Comes(stream, total, n, view, m) && taken <= m - n
    ensures taken <= |view| && m - n <= |view|
    ensures Comes(stream, total, n + taken, view[taken..], m) && view[taken..][m - n - taken..] == view[m - n..]
  {
    assert view[taken..][..m - n - taken] == view[..m - n][taken..];
    assert stream[n + taken..m] == stream[n..m][taken..];
  }

  /** The loop has taken what the plan has room for, and moves no more. */
  ghost predicate Settled(step: LoopState -> LoopState, good: Invariant, s: LoopState, rest: Bytes, m: nat) {
    s.1 == rest && good(s.0, m) && step(s) == s
  }

  lemma OneMoreTurn(step: LoopState -> LoopState, s: LoopState, k: nat, n: nat)
    requires k <= n && step(Iterate(step, step(s), k)) == Iterate(step, step(s), k)
    ensures Iterate(step, s, n + 1) == Iterate(step, step(s), k)
  {
    IterateFirst(step, s, n);
    FixedStays(step, step(s), k, n);
  }

  lemma TurnsAfterOne(step: LoopState -> LoopState, c: Cutter, view: Bytes, c': Cutter, left: Bytes)
    requires step((c, view)) == (c', left) && |left| < |view|
    requires step(Turns(step, c', left, |left|)) == Turns(step, c', left, |left|)
    ensures Turns(step, c, view, |view|) == Turns(step, c', left, |left|)
  {
    OneMoreTurn(step, (c, view), |left|, |view| - 1);
  }

  lemma Settles(step: LoopState -> LoopState, good: Invariant, stream: Bytes, total: nat, c: Cutter, n: nat,
                view: Bytes, m: nat)
    requires Law(step, good, stream, total) && good(c, n) && Comes(stream, total, n, view, m)
    requires view == [] || n == total
    ensures Settled(step, good, Turns(step, c, view, |view|), view[m - n..], m)
  {
    assert view[0..] == view && step((c, view)) == (c, view);
    FixedStays(step, (c, view), 0, |view|);
  }

  lemma Taken(step: LoopState -> LoopState, good: Invariant, stream: Bytes, total: nat, c: Cutter, n: nat,
              view: Bytes, m: nat) returns (taken: nat)
    requires Law(step, good, stream, total) && good(c, n) && Comes(stream, total, n, view, m)
    requires view != [] && n < total
    ensures 0 < taken <= m - n && taken <= |view|
    ensures step((c, view)) == (step((c, view)).0, view[taken..]) && good(step((c, view)).0, n + taken)
  {
    assert Advances(step, good, c, n, view, m);
    var k: nat :| 0 < k <= m - n && k <= |view|
                  && step((c, view)).1 == view[k..] && good(step((c, view)).0, n + k);
    taken := k;
  }

  lemma OneTurn(step: LoopState -> LoopState, good: Invariant, stream: Bytes, total: nat, c: Cutter, n: nat,
                view: Bytes, m: nat) returns (next: nat, c': Cutter, left: Bytes)
    requires Law(step, good, stream, total) && good(c, n) && Comes(stream, total, n, view, m)
    requires view != [] && n < total
    ensures step((c, view)) == (c', left) && |left| < |view| && n < next <= m
    ensures good(c', next) && Comes(stream, total, next, left, m) && left[m - next..] == view[m - n..]
  {
    var taken := Taken(step, good, stream, total, c, n, view, m);
    RestComes(stream, total, view, n, m, taken);
    next, c', left := n + taken, step((c, view)).0, view[taken..];
  }

  lemma SettlesAfterOne(step: LoopState -> LoopState, good: Invariant, c: Cutter, view: Bytes, c': Cutter, left: Bytes,
                        rest: Bytes, m: nat)
    requires step((c, view)) == (c', left) && |left| < |view|
    requires Settled(step, good, Turns(step, c', left, |left|), rest, m)
    ensures Settled(step, good, Turns(step, c, view, |view|), rest, m)
  {
    TurnsAfterOne(step, c, view, c', left);
  }

  /** After as many turns as the chunk has bytes the loop has settled. */
  lemma {:induction false} ChunkSettles(step: LoopState -> LoopState, good: Invariant, stream: Bytes, total: nat,
                                        c: Cutter, n: nat, view: Bytes, m: nat)
    requires Law(step, good, stream, total) && good(c, n) && Comes(stream, total, n, view, m)
    ensures Settled(step, good, Turns(step, c, view, |view|), view[m - n..], m)
    decreases |view|
  {
    if view == [] || n == total {
      Settles(step, good, stream, total, c, n, view, m);
    } else {
      var next, c', left := OneTurn(step, good, stream, total, c, n, view, m);
      ChunkSettles(step, good, stream, total, c', next, left, m);
      SettlesAfterOne(step, good, c, view, c', left, view[m - n..], m);
    }
  }

  /** The loop ends exactly if those turns use the chunk up. */
  lemma EndsByThen(step: LoopState -> LoopState, c: Cutter, chunk: Bytes, k: nat)
    requires step(Turns(step, c, chunk, k)) == Turns(step, c, chunk, k)
    requires forall c: Cutter :: step((c, [])) == (c, [])
    ensures Ends(step, c, chunk) <==> Turns(step, c, chunk, k).1 == []
  {
    if Ends(step, c, chunk) {
      var n: nat :| Turns(step, c, chunk, n).1 == [];
      var s := Turns(step, c, chunk, n);
      assert s == (s.0, []);
      if n <= k {
        FixedStays(step, (c, chunk), n, k);
      } else {
        FixedStays(step, (c, chunk), k, n);
      }
    }
  }

  // ---- The whole stream ----

  /** The part of a stream the plan has room for. */
  function Planned(chunks: seq<Bytes>, total: nat): Bytes {
    Concat(chunks)[..Min(|Concat(chunks)|, total)]
  }

  lemma ChunkComes(chunks: seq<Bytes>, k: nat, total: nat)
    requires k < |chunks| && |Concat(chunks[..k])| <= total
    ensures Comes(Planned(chunks, total), total, |Concat(chunks[..k])|, chunks[k],
                  Min(|Concat(chunks[..k])| + |chunks[k]|, total))
    ensures |Concat(chunks[..k + 1])| == |Concat(chunks[..k])| + |chunks[k]|
  {
    ConcatPrefix(chunks, k);
    ConcatPrefix(chunks, k + 1);
    ConcatAt(chunks, k);
    ComesFrom(Concat(chunks), |Concat(chunks[..k])|, chunks[k], total);
  }

  lemma ComesFrom(whole: Bytes, n: nat, chunk: Bytes, total: nat)
    requires n <= total && n + |chunk| <= |whole| && whole[n..n + |chunk|] == chunk
    ensures Comes(whole[..Min(|whole|, total)], total, n, chunk, Min(n + |chunk|, total))
  {
    var m := Min(n + |chunk|, total);
    assert whole[n..n + |chunk|][..m - n] == whole[n..m];
    assert whole[..Min(|whole|, total)][n..m] == whole[n..m];
  }

  lemma ShorterBefore(chunks: seq<Bytes>, k: nat)
    requires 0 < k <= |chunks|
    ensures |Concat(chunks[..k - 1])| <= |Concat(chunks[..k])|
  {
    assert chunks[..k][..k - 1] == chunks[..k - 1];
    ConcatPrefix(chunks[..k], k - 1);
  }

  lemma {:induction false} GoodBefore(step: LoopState -> LoopState, good: Invariant, chunks: seq<Bytes>, total: nat,
                                      k: nat)
    requires Law(step, good, Planned(chunks, total), total) && good(FIRST, 0)
    requires k <= |chunks| && |Concat(chunks[..k])| <= total
    ensures good(Before(step, chunks, k), |Concat(chunks[..k])|)
  {
    if k > 0 {
      ShorterBefore(chunks, k);
      GoodBefore(step, good, chunks, total, k - 1);
      ChunkComes(chunks, k - 1, total);
      ChunkSettles(step, good, Planned(chunks, total), total, Before(step, chunks, k - 1),
                   |Concat(chunks[..k - 1])|, chunks[k - 1], |Concat(chunks[..k])|);
    }
  }

  /** The loop over a chunk ends exactly if the plan has room for all of it; and either
      way it settles. */
  lemma EndsIfRoom(step: LoopState -> LoopState, good: Invariant, chunks: seq<Bytes>, total: nat, k: nat)
    requires Law(step, good, Planned(chunks, total), total) && good(FIRST, 0)
    requires k < |chunks| && |Concat(chunks[..k])| <= total
    ensures Ends(step, Before(step, chunks, k), chunks[k]) <==> |Concat(chunks[..k + 1])| <= total
    ensures step(Turns(step, Before(step, chunks, k), chunks[k], |chunks[k]|))
         == Turns(step, Before(step, chunks, k), chunks[k], |chunks[k]|)
  {
    var c, n := Before(step, chunks, k), |Concat(chunks[..k])|;
    GoodBefore(step, good, chunks, total, k);
    ChunkComes(chunks, k, total);
    ChunkSettles(step, good, Planned(chunks, total), total, c, n, chunks[k], Min(n + |chunks[k]|, total));
    EndsByThen(step, c, chunks[k], |chunks[k]|);
  }

  /** The cutter that hash_parts keeps obeys the laws. */
  ghost function GoodOf(stream: Bytes, archive: string, ranges: seq<Range>, sha: Hash): Invariant {
    (c: Cutter, n: nat) => Good(c, n, stream, archive, ranges, sha)
  }

  lemma CutterAdvances(c: Cutter, n: nat, view: Bytes, m: nat, stream: Bytes, archive: string, ranges: seq<Range>,
                       sha: Hash, total: nat, size: nat)
    requires Tiles(ranges, 0, total, size) && Good(c, n, stream, archive, ranges, sha) && |stream| <= total
    requires Comes(stream, total, n, view, m) && view != [] && n < total
    ensures Advances(Step(archive, ranges, sha), GoodOf(stream, archive, ranges, sha), c, n, view, m)
  {
    var taken := TurnAdvances(c, n, view, m, stream, archive, ranges, sha, total, size);
  }

  lemma CutterObeys(chunks: seq<Bytes>, total: nat, archive: string, size: nat, sha: Hash)
    requires size > 0
    ensures var stream, ranges := Planned(chunks, total), Plan(total, size);
            Law(Step(archive, ranges, sha), GoodOf(stream, archive, ranges, sha), stream, total)
            && GoodOf(stream, archive, ranges, sha)(FIRST, 0)
  {
    PlanTiles(total, size);
    CutterLaw(Planned(chunks, total), archive, Plan(total, size), sha, total, size);
    GoodStart(Planned(chunks, total), archive, Plan(total, size), sha, total, size);
  }

  lemma CutterLaw(stream: Bytes, archive: string, ranges: seq<Range>, sha: Hash, total: nat, size: nat)
    requires Tiles(ranges, 0, total, size) && |stream| <= total
    ensures Law(Step(archive, ranges, sha), GoodOf(stream, archive, ranges, sha), stream, total)
  {
    var step, good := Step(archive, ranges, sha), GoodOf(stream, archive, ranges, sha);
    forall c, n: nat, view, m: nat | good(c, n) && Comes(stream, total, n, view, m) && view != [] && n < total
      ensures Advances(step, good, c, n, view, m)
    {
      CutterAdvances(c, n, view, m, stream, archive, ranges, sha, total, size);
    }
    forall c, view | good(c, total)
      ensures step((c, view)) == (c, view)
    {
      TurnStalls(c, view, stream, archive, ranges, sha, total, size);
    }
  }

  lemma EndsIfPlanned(chunks: seq<Bytes>, k: nat, total: nat, archive: string, size: nat, sha: Hash)
    requires size > 0 && k < |chunks| && |Concat(chunks[..k])| <= total
    ensures var step := Step(archive, Plan(total, size), sha);
            && (Ends(step, Before(step, chunks, k), chunks[k]) <==> |Concat(chunks[..k + 1])| <= total)
            && step(Turns(step, Before(step, chunks, k), chunks[k], |chunks[k]|))
               == Turns(step, Before(step, chunks, k), chunks[k], |chunks[k]|)
  {
    var ranges := Plan(total, size);
    CutterObeys(chunks, total, archive, size, sha);
    EndsIfRoom(Step(archive, ranges, sha), GoodOf(Planned(chunks, total), archive, ranges, sha), chunks, total, k);
  }

  /** The chunk in which a stream outgrows its announced length. */
  lemma {:induction false} Outgrown(chunks: seq<Bytes>, k: nat, total: nat) returns (i: nat)
    requires k <= |chunks| && |Concat(chunks[..k])| > total
    ensures i < k && |Concat(chunks[..i])| <= total < |Concat(chunks[..i + 1])|
  {
    assert chunks[..0] == [];
    i := k - 1;
    if |Concat(chunks[..i])| > total {
      i := Outgrown(chunks, i, total);
    }
  }

  /** On a stream longer than announced, some chunk is reached in which every further
      turn leaves bytes over, and from then on the turns change nothing. */
  lemma OverlongStreamStalls(chunks: seq<Bytes>, total: nat, archive: string, size: nat, sha: Hash) returns (k: nat)
    requires size > 0 && |Concat(chunks)| > total
    ensures k < |chunks|
    ensures var step := Step(archive, Plan(total, size), sha);
            var c := Before(step, chunks, k);
            && (forall n: nat :: Turns(step, c, chunks[k], n).1 != [])
            && (forall n: nat :: n >= |chunks[k]| ==>
                  Turns(step, c, chunks[k], n) == Turns(step, c, chunks[k], |chunks[k]|))
  {
    TakeAll(chunks);
    k := Outgrown(chunks, |chunks|, total);
    EndsIfPlanned(chunks, k, total, archive, size, sha);
    var step := Step(archive, Plan(total, size), sha);
    forall n: nat | n >= |chunks[k]|
      ensures Turns(step, Before(step, chunks, k), chunks[k], n)
           == Turns(step, Before(step, chunks, k), chunks[k], |chunks[k]|)
    {
      FixedStays(step, (Before(step, chunks, k), chunks[k]), |chunks[k]|, n);
    }
  }

  /** hash_parts gets through a stream exactly if it is no longer than announced. */
  lemma TerminatesExactly(chunks: seq<Bytes>, total: nat, archive: string, size: nat, sha: Hash)
    requires size > 0
    ensures Terminates(Step(archive, Plan(total, size), sha), chunks) <==> |Concat(chunks)| <= total
  {
    var step := Step(archive, Plan(total, size), sha);
    if |Concat(chunks)| <= total {
      forall k: nat | k < |chunks|
        ensures Ends(step, Before(step, chunks, k), chunks[k])
      {
        ConcatPrefix(chunks, k);
        ConcatPrefix(chunks, k + 1);
        EndsIfPlanned(chunks, k, total, archive, size, sha);
      }
    } else {
      TakeAll(chunks);
      var k := Outgrown(chunks, |chunks|, total);
      EndsIfPlanned(chunks, k, total, archive, size, sha);
    }
  }
}
