/** The random-access byte iterator over a buffer sequence (asio/buffers_iterator.hpp).
    It stores its position three times over: as a global offset, as a current buffer and as an
    offset inside that buffer. Equality and distance look at the global offset alone. */
module BuffersIterators {
  import opened Chunks

  /** Where an iterator stands: chunk `current`, inner offset `inner`. A position is canonical when it
      names a byte that exists, or is the end position. */
  ghost predicate CanonicalPlace(buffers: seq<seq<byte>>, current: nat, inner: nat) {
    current <= |buffers| &&
    if current == |buffers| then inner == 0 else inner < |buffers[current]|
  }

  class BuffersIterator {
    const buffers: seq<seq<byte>>
    var currentBuffer: seq<byte>
    var currentBufferPosition: nat
    var current: nat
    var position: nat

    /** At the end position the cached buffer is stale, so nothing is said about it. */
    ghost predicate Valid()
      reads this
    {
      CanonicalPlace(buffers, current, currentBufferPosition) &&
      position == Before(buffers, current) + currentBufferPosition &&
      (current < |buffers| ==> currentBuffer == buffers[current])
    }

    constructor Begin(buffers: seq<seq<byte>>)
      ensures this.buffers == buffers && Valid() && position == 0
    {
      this.buffers := buffers;
      currentBuffer, currentBufferPosition, current, position := [], 0, 0, 0;
      new;
      BeforeEnds(buffers);
      while current != |buffers|
        invariant current <= |buffers| && Before(buffers, current) == 0
        invariant currentBufferPosition == position == 0
      {
        currentBuffer := buffers[current];
        if |currentBuffer| > 0 {
          break;
        }
        BeforeStep(buffers, current);
        current := current + 1;
      }
    }

    constructor End(buffers: seq<seq<byte>>)
      ensures this.buffers == buffers && Valid() && position == |Flat(buffers)|
    {
      this.buffers := buffers;
      currentBuffer, currentBufferPosition, current, position := [], 0, 0, 0;
      new;
      BeforeEnds(buffers);
      while current != |buffers|
        invariant current <= |buffers| && position == Before(buffers, current)
        invariant currentBufferPosition == 0
      {
        BeforeStep(buffers, current);
        position := position + |buffers[current]|;
        current := current + 1;
      }
    }

    constructor Copy(other: BuffersIterator)
      requires other.Valid()
      ensures buffers == other.buffers && Valid() && position == other.position
    {
      buffers := other.buffers;
      currentBuffer, currentBufferPosition := other.currentBuffer, other.currentBufferPosition;
      current, position := other.current, other.position;
    }

    /** The byte read is the byte of the concatenation at the global offset. */
    function Dereference(): (b: byte)
      requires Valid() && position < |Flat(buffers)|
      reads this
      ensures b == Flat(buffers)[position]
    {
      BeforeEnds(buffers);
      ElementOfChunk(buffers, current, currentBufferPosition);
      currentBuffer[currentBufferPosition]
    }

    predicate Equal(other: BuffersIterator)
      reads this, other
    {
      position == other.position
    }

    function DistanceTo(other: BuffersIterator): int
      reads this, other
    {
      other.position - position
    }

    method Increment()
      requires Valid() && position < |Flat(buffers)|
      modifies this
      ensures Valid() && position == old(position) + 1
    {
      BeforeEnds(buffers);
      assert current < |buffers|;
      position := position + 1;
      currentBufferPosition := currentBufferPosition + 1;
      if currentBufferPosition != |currentBuffer| {
        return;
      }
      BeforeStep(buffers, current);
      current := current + 1;
      currentBufferPosition := 0;
      while current != |buffers|
        invariant current <= |buffers| && position == Before(buffers, current)
        invariant currentBufferPosition == 0 && position == old(position) + 1
      {
        currentBuffer := buffers[current];
        if |currentBuffer| > 0 {
          return;
        }
        BeforeStep(buffers, current);
        current := current + 1;
      }
    }

    method Decrement()
      requires Valid() && position > 0
      modifies this
      ensures Valid() && position == old(position) - 1
    {
      position := position - 1;
      if currentBufferPosition != 0 {
        currentBufferPosition := currentBufferPosition - 1;
        return;
      }
      BeforeEnds(buffers);
      var iter: nat := current;
      while iter != 0
        invariant iter <= current <= |buffers| && Before(buffers, iter) == old(position)
        invariant unchanged(this`current) && position == old(position) - 1
      {
        iter := iter - 1;
        BeforeStep(buffers, iter);
        var buffer := buffers[iter];
        if |buffer| > 0 {
          current := iter;
          currentBuffer := buffer;
          currentBufferPosition := |buffer| - 1;
          return;
        }
      }
    }

    /** Adding `n` to the iterator adds `n` to an index into the concatenation, in either direction and
        for any placement of empty buffers. */
    method Advance(n: int)
      requires Valid() && 0 <= position + n <= |Flat(buffers)|
      modifies this
      ensures Valid() && position == old(position) + n
    {
      BeforeEnds(buffers);
      if n > 0 {
        AdvanceForward(n);
      } else if n < 0 {
        AdvanceBackward(-n);
      }
    }

    method AdvanceForward(distance: nat)
      requires Valid() && 0 < distance && position + distance <= |Flat(buffers)|
      modifies this
      ensures Valid() && position == old(position) + distance
    {
      BeforeEnds(buffers);
      var n: nat := distance;
      while true
        invariant current < |buffers| && currentBuffer == buffers[current]
        invariant currentBufferPosition <= |currentBuffer|
        invariant position == Before(buffers, current) + currentBufferPosition
        invariant position + n == old(position) + distance
        decreases |buffers| - current
      {
        var currentBufferBalance := |currentBuffer| - currentBufferPosition;
        if currentBufferBalance > n {
          position := position + n;
          currentBufferPosition := currentBufferPosition + n;
          return;
        }
        n := n - currentBufferBalance;
        position := position + currentBufferBalance;
        BeforeStep(buffers, current);
        current := current + 1;
        if current == |buffers| {
          assert n == 0;
          currentBuffer := [];
          currentBufferPosition := 0;
          return;
        }
        currentBuffer := buffers[current];
        currentBufferPosition := 0;
      }
    }

    /** The distance still to go stays positive and never exceeds the bytes before the current buffer, so
        the search for a non-empty buffer always succeeds: the branch of the original that finds itself
        at the first buffer is dead, and the outer loop terminates. */
    method AdvanceBackward(distance: nat)
      requires Valid() && 0 < distance <= position
      modifies this
      ensures Valid() && position == old(position) - distance
    {
      BeforeEnds(buffers);
      var n: nat := distance;
      while true
        invariant 0 < n <= position && position - n == old(position) - distance
        invariant current <= |buffers| && position == Before(buffers, current) + currentBufferPosition
        invariant current == |buffers| ==> currentBufferPosition == 0
        invariant current < |buffers| ==> currentBuffer == buffers[current] && currentBufferPosition <= |currentBuffer|
        decreases current
      {
        if currentBufferPosition >= n {
          position := position - n;
          currentBufferPosition := currentBufferPosition - n;
          return;
        }
        n := n - currentBufferPosition;
        position := position - currentBufferPosition;
        if current == 0 {
          assert false;
        }
        label Search:
        var iter: nat := current;
        while iter != 0
          invariant 0 < iter <= current && Before(buffers, iter) == position
          invariant unchanged@Search(this)
        {
          iter := iter - 1;
          BeforeStep(buffers, iter);
          var buffer := buffers[iter];
          if |buffer| > 0 {
            current := iter;
            currentBuffer := buffer;
            currentBufferPosition := |buffer|;
            break;
          }
        }
      }
    }
  }

  /** Canonical places are unique. */
  lemma PlaceIsUnique(buffers: seq<seq<byte>>, i: nat, a: nat, j: nat, b: nat)
    requires CanonicalPlace(buffers, i, a) && CanonicalPlace(buffers, j, b)
    requires Before(buffers, i) + a == Before(buffers, j) + b
    ensures i == j && a == b
  {
    if i < j {
      BeforeMonotone(buffers, i, j);
    } else if j < i {
      BeforeMonotone(buffers, j, i);
    }
  }

  lemma PositionInRange(it: BuffersIterator)
    requires it.Valid()
    ensures it.position <= |Flat(it.buffers)|
    ensures it.position < |Flat(it.buffers)| <==> it.current < |it.buffers|
  {
    BeforeEnds(it.buffers);
    if it.current < |it.buffers| {
      ElementOfChunk(it.buffers, it.current, it.currentBufferPosition);
    }
  }

  /** Comparing the global offsets alone is sound: over one buffer sequence, equal iterators stand at the
      same buffer and at the same byte in it, and no other two iterators do. */
  lemma EqualMeansSamePlace(a: BuffersIterator, b: BuffersIterator)
    requires a.Valid() && b.Valid() && a.buffers == b.buffers
    ensures a.Equal(b) <==> a.current == b.current && a.currentBufferPosition == b.currentBufferPosition
  {
    if a.Equal(b) {
      PlaceIsUnique(a.buffers, a.current, a.currentBufferPosition, b.current, b.currentBufferPosition);
    }
  }

  /** `it[n]`: advances a copy, so the iterator itself does not move. */
  method ElementAt(it: BuffersIterator, n: int) returns (b: byte)
    requires it.Valid() && 0 <= it.position + n < |Flat(it.buffers)|
    ensures b == Flat(it.buffers)[it.position + n]
  {
    var tmp := new BuffersIterator.Copy(it);
    tmp.Advance(n);
    b := tmp.Dereference();
  }

  /** Two moves in a row reach the very place that their sum reaches; with `n == -m`, a move is undone. */
  method AdvanceInSteps(it: BuffersIterator, m: int, n: int) returns (direct: BuffersIterator)
    requires it.Valid() && 0 <= it.position + m <= |Flat(it.buffers)|
    requires 0 <= it.position + m + n <= |Flat(it.buffers)|
    modifies it
    ensures fresh(direct) && it.Valid() && direct.Valid() && it.Equal(direct)
    ensures it.current == direct.current && it.currentBufferPosition == direct.currentBufferPosition
    ensures n == -m ==> it.current == old(it.current) && it.currentBufferPosition == old(it.currentBufferPosition)
  {
    var start := new BuffersIterator.Copy(it);
    direct := new BuffersIterator.Copy(it);
    direct.Advance(m + n);
    EqualMeansSamePlace(start, it);
    it.Advance(m);
    it.Advance(n);
    EqualMeansSamePlace(it, direct);
    EqualMeansSamePlace(it, start);
  }

  /** The distance between two iterators is the move that takes the one to the place of the other. */
  method AdvanceByDistance(a: BuffersIterator, b: BuffersIterator)
    requires a.Valid() && b.Valid() && a.buffers == b.buffers && a != b
    modifies a
    ensures a.Valid() && a.current == b.current && a.currentBufferPosition == b.currentBufferPosition
  {
    PositionInRange(b);
    a.Advance(a.DistanceTo(b));
    EqualMeansSamePlace(a, b);
  }

  /** `++` and `--` undo each other, and `--` then `++` does too. */
  method IncrementThenDecrement(it: BuffersIterator)
    requires it.Valid() && |Flat(it.buffers)| > 0
    modifies it
    ensures it.Valid() && it.position == old(it.position)
    ensures it.current == old(it.current) && it.currentBufferPosition == old(it.currentBufferPosition)
  {
    var start := new BuffersIterator.Copy(it);
    EqualMeansSamePlace(start, it);
    PositionInRange(it);
    if it.position < |Flat(it.buffers)| {
      it.Increment();
      it.Decrement();
    } else {
      it.Decrement();
      it.Increment();
    }
    EqualMeansSamePlace(start, it);
  }

  lemma OneMore(s: seq<byte>, k: nat)
    requires k < |s|
    ensures s[..k + 1] == s[..k] + [s[k]]
  {
  }

  /** The range from `begin` to `end` holds every byte of every buffer, once and in order. */
  method CopyRange(buffers: seq<seq<byte>>) returns (out: seq<byte>)
    ensures out == Flat(buffers)
  {
    out := [];
    var it := new BuffersIterator.Begin(buffers);
    var end := new BuffersIterator.End(buffers);
    while !it.Equal(end)
      invariant it.Valid() && it.buffers == end.buffers == buffers && it != end && fresh(it)
      invariant end.position == |Flat(buffers)| && it.position <= end.position
      invariant out == Flat(buffers)[..it.position]
      decreases end.position - it.position
    {
      var b := it.Dereference();
      OneMore(Flat(buffers), it.position);
      out := out + [b];
      it.Increment();
    }
  }
}
