/** Lists of chunks and the flat sequence they stand for.
    A buffer sequence is a list of chunks, any of which may be empty. */
module Chunks {

  newtype byte = x: int | 0 <= x < 256

  function Flat<T>(chunks: seq<seq<T>>): seq<T> {
    if chunks == [] then [] else chunks[0] + Flat(chunks[1..])
  }

  /** The number of elements held by the first `i` chunks. */
  function Before<T>(chunks: seq<seq<T>>, i: nat): nat
    requires i <= |chunks|
  {
    |Flat(chunks[..i])|
  }

  lemma {:induction false} FlatAppend<T>(a: seq<seq<T>>, b: seq<seq<T>>)
    ensures Flat(a + b) == Flat(a) + Flat(b)
  {
    if a == [] {
      assert a + b == b;
    } else {
      assert (a + b)[1..] == a[1..] + b;
      FlatAppend(a[1..], b);
    }
  }

  lemma FlatOne<T>(chunk: seq<T>)
    ensures Flat([chunk]) == chunk
  {
    assert Flat([chunk][1..]) == [];
  }

  lemma BeforeEnds<T>(chunks: seq<seq<T>>)
    ensures Before(chunks, 0) == 0
    ensures Before(chunks, |chunks|) == |Flat(chunks)|
  {
    assert chunks[..|chunks|] == chunks;
  }

  lemma BeforeStep<T>(chunks: seq<seq<T>>, i: nat)
    requires i < |chunks|
    ensures Before(chunks, i + 1) == Before(chunks, i) + |chunks[i]|
  {
    assert chunks[..i + 1] == chunks[..i] + [chunks[i]];
    FlatAppend(chunks[..i], [chunks[i]]);
    FlatOne(chunks[i]);
  }

  lemma {:induction false} BeforeMonotone<T>(chunks: seq<seq<T>>, i: nat, j: nat)
    requires i <= j <= |chunks|
    ensures Before(chunks, i) <= Before(chunks, j)
    ensures i < j ==> Before(chunks, i) + |chunks[i]| <= Before(chunks, j)
    decreases j - i
  {
    if i < j {
      BeforeStep(chunks, i);
      BeforeMonotone(chunks, i + 1, j);
    }
  }

  lemma SliceOfMiddle<T>(pre: seq<T>, mid: seq<T>, post: seq<T>, lo: nat, hi: nat)
    requires lo <= hi <= |mid|
    ensures (pre + (mid + post))[|pre| + lo..|pre| + hi] == mid[lo..hi]
  {
  }

  lemma FlatAround<T>(chunks: seq<seq<T>>, i: nat)
    requires i < |chunks|
    ensures Flat(chunks) == Flat(chunks[..i]) + (chunks[i] + Flat(chunks[i + 1..]))
  {
    assert chunks == chunks[..i] + chunks[i..];
    FlatAppend(chunks[..i], chunks[i..]);
    assert chunks[i..][1..] == chunks[i + 1..];
  }

  /** A slice taken inside one chunk is a slice of the flat sequence. */
  lemma SliceOfChunk<T>(chunks: seq<seq<T>>, i: nat, lo: nat, hi: nat)
    requires i < |chunks| && lo <= hi <= |chunks[i]|
    ensures Before(chunks, i) + hi <= |Flat(chunks)|
    ensures Flat(chunks)[Before(chunks, i) + lo..Before(chunks, i) + hi] == chunks[i][lo..hi]
  {
    FlatAround(chunks, i);
    SliceOfMiddle(Flat(chunks[..i]), chunks[i], Flat(chunks[i + 1..]), lo, hi);
  }

  lemma ElementOfChunk<T>(chunks: seq<seq<T>>, i: nat, k: nat)
    requires i < |chunks| && k < |chunks[i]|
    ensures Before(chunks, i) + k < |Flat(chunks)|
    ensures Flat(chunks)[Before(chunks, i) + k] == chunks[i][k]
  {
    SliceOfChunk(chunks, i, k, k + 1);
    assert Flat(chunks)[Before(chunks, i) + k] == Flat(chunks)[Before(chunks, i) + k..Before(chunks, i) + k + 1][0];
  }
}
