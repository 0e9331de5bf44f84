/** Byte strings, chunked streams and windows on them, shared by every module
    that moves archive or log bytes. */
module Streams {

  newtype byte = x: int | 0 <= x < 256

  type Bytes = seq<byte>

  datatype Option<+T> = None | Some(value: T)

  datatype Result<+T, +E> = Success(value: T) | Failure(error: E)

  function Min(a: int, b: int): int { if a <= b then a else b }

  function Max(a: int, b: int): int { if a <= b then b else a }

  /** What a consumer of a chunked stream has received once it has all chunks. */
  function Concat<T>(chunks: seq<seq<T>>): seq<T> {
    if chunks == [] then [] else Concat(chunks[..|chunks| - 1]) + chunks[|chunks| - 1]
  }

  lemma ConcatSnoc<T>(a: seq<seq<T>>, chunk: seq<T>)
    ensures Concat(a + [chunk]) == Concat(a) + chunk
  {
    assert (a + [chunk])[..|a|] == a;
  }

  /** One more chunk of a stream, and what was there before it is a prefix of the whole. */
  lemma {:induction false} ConcatPrefix<T>(chunks: seq<seq<T>>, k: nat)
    requires k <= |chunks|
    ensures Concat(chunks[..k]) <= Concat(chunks)
    ensures k < |chunks| ==> Concat(chunks[..k + 1]) == Concat(chunks[..k]) + chunks[k]
    decreases |chunks| - k
  {
    if k == |chunks| {
      assert chunks[..k] == chunks;
    } else {
      assert chunks[..k + 1][..k] == chunks[..k];
      ConcatPrefix(chunks, k + 1);
    }
  }

  lemma ConcatAll<T>(chunks: seq<seq<T>>)
    ensures Concat(chunks[..|chunks|]) == Concat(chunks)
  {
    TakeAll(chunks);
  }

  /** Where a chunk starts in the stream is the length of what was there before it. */
  lemma ConcatAt<T>(chunks: seq<seq<T>>, k: nat)
    requires k < |chunks|
    ensures |Concat(chunks[..k])| + |chunks[k]| <= |Concat(chunks)|
    ensures Concat(chunks)[|Concat(chunks[..k])|..|Concat(chunks[..k])| + |chunks[k]|] == chunks[k]
  {
    ConcatPrefix(chunks, k);
    ConcatPrefix(chunks, k + 1);
    SliceOfPrefix(Concat(chunks[..k]), chunks[k], Concat(chunks));
  }

  lemma {:induction false} ConcatBoth<T>(a: seq<seq<T>>, b: seq<seq<T>>)
    ensures Concat(a + b) == Concat(a) + Concat(b)
  {
    if b == [] {
      assert a + b == a;
    } else {
      var init := b[..|b| - 1];
      ConcatBoth(a, init);
      assert (a + b)[..|a + b| - 1] == a + init;
      Associate(Concat(a), Concat(init), b[|b| - 1]);
    }
  }

  /** The bytes [lo, hi) of a stream, cut off at its end. */
  function Window<T>(s: seq<T>, lo: nat, hi: nat): seq<T> {
    if lo >= |s| || hi <= lo then [] else s[lo..Min(hi, |s|)]
  }

  lemma Associate<T>(a: seq<T>, b: seq<T>, c: seq<T>)
    ensures (a + b) + c == a + (b + c)
  {
  }

  lemma WindowSplit<T>(s: seq<T>, lo: nat, mid: nat, hi: nat)
    requires lo <= mid <= hi
    ensures Window(s, lo, hi) == Window(s, lo, mid) + Window(s, mid, hi)
  {
  }

  lemma WindowOfWindow<T>(s: seq<T>, lo: nat, hi: nat, from: nat, to: nat)
    requires lo + to <= hi
    ensures Window(Window(s, lo, hi), from, to) == Window(s, lo + from, lo + to)
  {
    if lo < |s| && lo < hi && from < to && from < |Window(s, lo, hi)| {
      assert Window(s, lo, hi)[from..Min(to, |Window(s, lo, hi)|)] == s[lo + from..Min(lo + to, |s|)];
    }
  }

  lemma TakeAll<T>(s: seq<T>)
    ensures s[..|s|] == s
  {
  }

  lemma WholeWindow<T>(s: seq<T>)
    ensures Window(s, 0, |s|) == s
  {
  }

  lemma WindowClip<T>(s: seq<T>, lo: nat, hi: nat)
    ensures Window(s, lo, hi) == Window(s, lo, Min(hi, |s|))
  {
  }

  lemma SliceOfSlice<T>(s: seq<T>, p: nat, q: nat, a: nat, b: nat)
    requires p <= q <= |s| && a <= b <= q - p
    ensures s[p..q][a..b] == s[p + a..p + b]
  {
    var left, right := s[p..q][a..b], s[p + a..p + b];
    assert forall i: nat :: i < b - a ==> left[i] == right[i];
  }

  lemma SliceOfPrefix<T>(a: seq<T>, b: seq<T>, whole: seq<T>)
    requires a + b <= whole
    ensures whole[|a|..|a| + |b|] == b
  {
    var slice := whole[|a|..|a| + |b|];
    assert forall i: nat :: i < |b| ==> slice[i] == (a + b)[|a| + i];
  }

  lemma PrefixTrans<T>(a: seq<T>, b: seq<T>, c: seq<T>)
    requires a <= b && b <= c
    ensures a <= c
  {
    assert b == c[..|b|];
  }
}
