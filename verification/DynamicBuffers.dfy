/** Growable buffers over a string or a vector owned by the caller (asio/buffer.hpp).
    A sentinel in `size` selects the mode: until the first `prepare` the whole backing store is the buffer
    (version 2 of the concept), afterwards it is split into an input and an output sequence (version 1). */
module DynamicBuffers {
  import opened Chunks
  import opened Memory

  /** `limit` is the `max_size()` of the backing store: a request to resize beyond it throws as well. */
  datatype Dynamic = Dynamic(store: seq<byte>, size: nat, max: nat, limit: nat) {
    predicate V1() {
      size != SIZE_MAX
    }

    /** `size()` */
    function Size(): nat {
      if V1() then size else Min(|store|, max)
    }

    /** The bytes `data()` represents. */
    function Input(): seq<byte> {
      store[..Min(|store|, size)]
    }

    function Output(): seq<byte> {
      store[Min(|store|, size)..]
    }

    /** The input sequence ends within the backing store. */
    predicate Split() {
      V1() ==> size <= |store|
    }

    /** What every operation keeps, given a store within the limit to begin with. */
    predicate Sound() {
      |store| <= max <= SIZE_MAX && |store| <= limit < SIZE_MAX && Split()
    }
  }

  datatype Op =
    | Prepare(n: nat)
    | Fill(bytes: seq<byte>) // the caller writes into the buffer that `prepare` returned
    | Commit(n: nat)
    | Consume(n: nat)
    | Grow(n: nat)
    | Shrink(n: nat)

  datatype Backing = StringBacked | VectorBacked

  function Zeros(n: nat): (z: seq<byte>)
    ensures |z| == n && forall i :: 0 <= i < n ==> z[i] == 0
  {
    seq(n, i => 0)
  }

  function Resized(s: seq<byte>, n: nat): (r: seq<byte>)
    ensures |r| == n && forall i :: 0 <= i < n ==> r[i] == if i < |s| then s[i] else 0
  {
    if n <= |s| then s[..n] else s + Zeros(n - |s|)
  }

  /** What a caller may do: `commit` and writing need a preceding `prepare`, and in version 1 mode a `shrink` must not
      cut into the input sequence. */
  predicate Allowed(d: Dynamic, op: Op) {
    match op
    case Commit(_) => d.V1()
    case Fill(bytes) => d.V1() && |bytes| <= |d.Output()|
    case Shrink(n) => !d.V1() || n == 0 || d.size == 0
    case _ => true
  }

  function PrepareOf(d: Dynamic, n: nat): (Dynamic, bool) {
    if d.Size() > d.max || d.max - d.Size() < n then (d, false)
    else
      var size := if d.V1() then d.size else |d.store|;
      if size + n > d.limit then (d.(size := size), false)
      else (d.(store := Resized(d.store, size + n), size := size), true)
  }

  function CommitOf(d: Dynamic, n: nat): Dynamic
    requires d.V1() && d.Split()
  {
    var size := d.size + Min(n, |d.store| - d.size);
    d.(store := Resized(d.store, size), size := size)
  }

  function GrowOf(d: Dynamic, n: nat): (Dynamic, bool) {
    if d.Size() > d.max || d.max - d.Size() < n || d.Size() + n > d.limit then (d, false)
    else (d.(store := Resized(d.store, d.Size() + n)), true)
  }

  function ShrinkOf(d: Dynamic, n: nat): Dynamic {
    d.(store := Resized(d.store, if n > d.Size() then 0 else d.Size() - n))
  }

  /** A string clamps an erasure to its length; a vector erases what it is told to. */
  function ConsumeOf(backing: Backing, d: Dynamic, n: nat): Dynamic
    requires backing.VectorBacked? ==> d.Split()
  {
    if d.V1() then
      var length := Min(n, d.size);
      d.(store := d.store[Min(length, |d.store|)..], size := d.size - length)
    else
      match backing
      case StringBacked => d.(store := d.store[Min(n, |d.store|)..])
      case VectorBacked => d.(store := d.store[Min(d.Size(), n)..])
  }

  /** One operation: the new state, and false when it throws `length_error`. */
  function Apply(backing: Backing, d: Dynamic, op: Op): (Dynamic, bool)
    requires Allowed(d, op) && d.Split()
  {
    match op
    case Prepare(n) => PrepareOf(d, n)
    case Fill(bytes) => (d.(store := d.store[..d.size] + bytes + d.store[d.size + |bytes|..]), true)
    case Commit(n) => (CommitOf(d, n), true)
    case Consume(n) => (ConsumeOf(backing, d, n), true)
    case Grow(n) => GrowOf(d, n)
    case Shrink(n) => (ShrinkOf(d, n), true)
  }

  /** `std::string` or `std::vector`, held by reference. */
  class Store {
    const limit: nat
    var bytes: seq<byte>

    constructor (limit: nat)
      ensures this.limit == limit && bytes == []
    {
      this.limit, bytes := limit, [];
    }

    method Resize(n: nat) returns (ok: bool)
      modifies this
      ensures ok == (n <= limit)
      ensures bytes == if ok then Resized(old(bytes), n) else old(bytes)
    {
      ok := n <= limit;
      if ok {
        bytes := Resized(bytes, n);
      }
    }

    /** `erase` of the first `n` bytes. */
    method EraseFront(n: nat)
      requires n <= |bytes|
      modifies this
      ensures bytes == old(bytes)[n..]
    {
      bytes := bytes[n..];
    }
  }

  class DynamicStringBuffer {
    const text: Store
    var size: nat
    const maxSize: nat

    constructor (text: Store, maxSize: nat)
      ensures this.text == text && State() == Dynamic(text.bytes, SIZE_MAX, maxSize, text.limit)
    {
      this.text, this.size, this.maxSize := text, SIZE_MAX, maxSize;
    }

    function State(): Dynamic
      reads this, text
    {
      Dynamic(text.bytes, size, maxSize, text.limit)
    }

    function Size(): (n: nat)
      reads this, text
      ensures n == State().Size()
    {
      if size != SIZE_MAX then size else Min(|text.bytes|, maxSize)
    }

    method Prepare(n: nat) returns (ok: bool)
      modifies this, text
      ensures (State(), ok) == PrepareOf(old(State()), n)
    {
      if Size() > maxSize || maxSize - Size() < n {
        return false;
      }
      if size == SIZE_MAX {
        size := |text.bytes|;
      }
      ok := text.Resize(size + n);
    }

    method Commit(n: nat)
      requires State().V1() && State().Split() && |text.bytes| <= text.limit
      modifies this, text
      ensures State() == CommitOf(old(State()), n)
    {
      size := size + Min(n, |text.bytes| - size);
      var _ := text.Resize(size);
    }

    /** Outside version 1 mode the bytes are kept and `n` zeros follow them; within it the input sequence is kept
        and `n` bytes of output follow it. */
    method Grow(n: nat) returns (ok: bool)
      modifies text
      ensures (State(), ok) == GrowOf(old(State()), n)
      ensures old(State().Sound()) ==>
                && State().Sound() && ok == (old(|State().Input()|) + n <= Min(maxSize, text.limit))
                && (ok && !State().V1() ==> text.bytes == old(text.bytes) + Zeros(n))
                && (ok && State().V1() ==> State().Input() == old(State().Input()) && |State().Output()| == n)
    {
      ghost var before := State();
      if before.Sound() {
        GrowKeepsAndAdds(before, n);
      }
      if Size() > maxSize || maxSize - Size() < n {
        return false;
      }
      ok := text.Resize(Size() + n);
    }

    /** The last `n` bytes of the input are gone, or all of them; in version 1 mode the output is, too. */
    method Shrink(n: nat)
      requires Size() <= text.limit
      modifies text
      ensures State() == ShrinkOf(old(State()), n)
      ensures old(State().Sound() && !State().V1()) ==>
                State().Sound() && text.bytes == old(text.bytes)[..|old(text.bytes)| - Min(n, |old(text.bytes)|)]
      ensures old(State().Sound() && State().V1()) ==>
                var input := old(State().Input()); text.bytes == input[..|input| - Min(n, |input|)]
    {
      var _ := text.Resize(if n > Size() then 0 else Size() - n);
    }

    method Consume(n: nat)
      modifies this, text
      ensures State() == ConsumeOf(StringBacked, old(State()), n)
    {
      if size != SIZE_MAX {
        var consumeLength := Min(n, size);
        text.EraseFront(Min(consumeLength, |text.bytes|));
        size := size - consumeLength;
        return;
      }
      text.EraseFront(Min(n, |text.bytes|));
    }
  }

  class DynamicVectorBuffer {
    const vector: Store
    var size: nat
    const maxSize: nat

    constructor (vector: Store, maxSize: nat)
      ensures this.vector == vector && State() == Dynamic(vector.bytes, SIZE_MAX, maxSize, vector.limit)
    {
      this.vector, this.size, this.maxSize := vector, SIZE_MAX, maxSize;
    }

    function State(): Dynamic
      reads this, vector
    {
      Dynamic(vector.bytes, size, maxSize, vector.limit)
    }

    function Size(): (n: nat)
      reads this, vector
      ensures n == State().Size()
    {
      if size != SIZE_MAX then size else Min(|vector.bytes|, maxSize)
    }

    method Prepare(n: nat) returns (ok: bool)
      modifies this, vector
      ensures (State(), ok) == PrepareOf(old(State()), n)
    {
      if Size() > maxSize || maxSize - Size() < n {
        return false;
      }
      if size == SIZE_MAX {
        size := |vector.bytes|;
      }
      ok := vector.Resize(size + n);
    }

    method Commit(n: nat)
      requires State().V1() && State().Split() && |vector.bytes| <= vector.limit
      modifies this, vector
      ensures State() == CommitOf(old(State()), n)
    {
      size := size + Min(n, |vector.bytes| - size);
      var _ := vector.Resize(size);
    }

    /** Outside version 1 mode the bytes are kept and `n` zeros follow them; within it the input sequence is kept
        and `n` bytes of output follow it. */
    method Grow(n: nat) returns (ok: bool)
      modifies vector
      ensures (State(), ok) == GrowOf(old(State()), n)
      ensures old(State().Sound()) ==>
                && State().Sound() && ok == (old(|State().Input()|) + n <= Min(maxSize, vector.limit))
                && (ok && !State().V1() ==> vector.bytes == old(vector.bytes) + Zeros(n))
                && (ok && State().V1() ==> State().Input() == old(State().Input()) && |State().Output()| == n)
    {
      ghost var before := State();
      if before.Sound() {
        GrowKeepsAndAdds(before, n);
      }
      if Size() > maxSize || maxSize - Size() < n {
        return false;
      }
      ok := vector.Resize(Size() + n);
    }

    /** The last `n` bytes of the input are gone, or all of them; in version 1 mode the output is, too. */
    method Shrink(n: nat)
      requires Size() <= vector.limit
      modifies vector
      ensures State() == ShrinkOf(old(State()), n)
      ensures old(State().Sound() && !State().V1()) ==>
                State().Sound() && vector.bytes == old(vector.bytes)[..|old(vector.bytes)| - Min(n, |old(vector.bytes)|)]
      ensures old(State().Sound() && State().V1()) ==>
                var input := old(State().Input()); vector.bytes == input[..|input| - Min(n, |input|)]
    {
      var _ := vector.Resize(if n > Size() then 0 else Size() - n);
    }

    method Consume(n: nat)
      requires State().Split()
      modifies this, vector
      ensures State() == ConsumeOf(VectorBacked, old(State()), n)
    {
      if size != SIZE_MAX {
        var consumeLength := Min(n, size);
        vector.EraseFront(consumeLength);
        size := size - consumeLength;
        return;
      }
      vector.EraseFront(Min(Size(), n));
    }
  }

  // What the operations promise

  /** What an operation adds at the back of the input sequence. */
  function Appended(d: Dynamic, op: Op): seq<byte> {
    match op
    case Commit(n) => d.Output()[..Min(n, |d.Output()|)]
    case Grow(n) => if !d.V1() && GrowOf(d, n).1 then Zeros(n) else []
    case _ => []
  }

  /** What an operation takes from its front. */
  function Removed(d: Dynamic, op: Op): seq<byte> {
    if op.Consume? then d.Input()[..Min(op.n, |d.Input()|)] else []
  }

  /** `prepare` throws exactly when the limit leaves no room; it never touches the input sequence, and it makes
      the output sequence exactly as long as asked. Once it succeeds, version 1 mode is on. */
  lemma PrepareMakesRoom(d: Dynamic, n: nat)
    requires d.Sound()
    ensures var (d', ok) := PrepareOf(d, n);
      && ok == (|d.Input()| + n <= Min(d.max, d.limit))
      && d'.Sound() && d'.max == d.max && d'.limit == d.limit && d'.Input() == d.Input()
      && (if ok then d'.V1() && |d'.Output()| == n && d'.Output() == Resized(d.Output(), n)
          else d'.store == d.store && (d'.V1() <==> d.V1() || |d.Input()| + n <= d.max))
  {
    var size := if d.V1() then d.size else |d.store|;
    assert d.Input() == d.store[..size];
    ResizeKeepsFront(d.store, size, size + n);
  }

  lemma ResizeKeepsFront(s: seq<byte>, k: nat, n: nat)
    requires k <= |s| && k <= n
    ensures Resized(s, n)[..k] == s[..k] && Resized(s, n)[k..] == Resized(s[k..], n - k)
  {
  }

  /** `commit` adopts the front of the output sequence and discards the rest of it. */
  lemma CommitAdopts(d: Dynamic, n: nat)
    requires d.Sound() && d.V1()
    ensures var d' := CommitOf(d, n);
      && d'.Sound() && d'.V1() && d'.max == d.max && d'.limit == d.limit && d'.Output() == []
      && d'.Input() == d.Input() + d.Output()[..Min(n, |d.Output()|)]
  {
    var k := Min(n, |d.store| - d.size);
    assert d.store[..d.size + k] == d.store[..d.size] + d.store[d.size..][..k];
  }

  /** `grow` throws exactly when the limit leaves no room. Outside version 1 mode it keeps every byte and adds zeros;
      within it, it keeps the input sequence and makes the output sequence as long as asked. */
  lemma GrowKeepsAndAdds(d: Dynamic, n: nat)
    requires d.Sound()
    ensures var (d', ok) := GrowOf(d, n);
      && ok == (|d.Input()| + n <= Min(d.max, d.limit))
      && d'.Sound() && d'.max == d.max && d'.limit == d.limit && (d.V1() <==> d'.V1())
      && (!ok ==> d' == d)
      && (ok && !d.V1() ==> d'.store == d.store + Zeros(n))
      && (ok && d.V1() ==> d'.Input() == d.Input() && |d'.Output()| == n && d'.Output() == Resized(d.Output(), n))
  {
    if d.V1() {
      ResizeKeepsFront(d.store, d.size, d.size + n);
    }
  }

  lemma ShrinkDropsBack(d: Dynamic, n: nat)
    requires d.Sound() && !d.V1()
    ensures var d' := ShrinkOf(d, n);
      d'.Sound() && d' == d.(store := d.store[..|d.store| - Min(n, |d.store|)])
  {
  }

  /** In version 1 mode a `shrink` takes the output sequence and the last `n` bytes of the input sequence away, while
      `size()` goes on naming the old number. */
  lemma ShrinkCutsInput(d: Dynamic, n: nat)
    requires d.Sound() && d.V1()
    ensures var d' := ShrinkOf(d, n);
      && d'.store == d.Input()[..|d.Input()| - Min(n, |d.Input()|)]
      && d'.Size() == d.Size() && d'.max == d.max && d'.limit == d.limit
  {
  }

  lemma ConsumeDropsFront(backing: Backing, d: Dynamic, n: nat)
    requires d.Sound()
    ensures var d' := ConsumeOf(backing, d, n);
      && d'.Sound() && d'.max == d.max && d'.limit == d.limit && (d.V1() <==> d'.V1()) && d'.Output() == d.Output()
      && d'.Input() == d.Input()[Min(n, |d.Input()|)..]
  {
    if d.V1() {
      var k := Min(n, d.size);
      assert d.store[k..][..d.size - k] == d.store[..d.size][k..];
      assert d.store[k..][d.size - k..] == d.store[d.size..];
    } else {
      var k := Min(n, |d.store|);
      assert ConsumeOf(backing, d, n).store == d.store[k..];
      assert d.Input() == d.store && d.Output() == [];
    }
  }

  lemma FillKeepsInput(backing: Backing, d: Dynamic, bytes: seq<byte>)
    requires d.Sound() && d.V1() && |bytes| <= |d.Output()|
    ensures var (d', ok) := Apply(backing, d, Fill(bytes));
      ok && d'.Sound() && d'.max == d.max && d'.limit == d.limit && d'.V1() && d'.Input() == d.Input() && d'.Output() == bytes + d.Output()[|bytes|..]
  {
  }

  /** The invariant holds afterwards, and nothing has entered or left the input sequence but at its two ends. */
  predicate QueueKept(backing: Backing, d: Dynamic, op: Op)
    requires d.Sound() && Allowed(d, op)
  {
    var d' := Apply(backing, d, op).0;
    && d'.Sound() && d'.max == d.max && d'.limit == d.limit && (d.V1() ==> d'.V1())
    && Removed(d, op) + d'.Input() == d.Input() + Appended(d, op)
  }

  lemma PrepareKeepsQueue(backing: Backing, d: Dynamic, n: nat)
    requires d.Sound()
    ensures QueueKept(backing, d, Prepare(n))
  {
    PrepareMakesRoom(d, n);
  }

  lemma CommitKeepsQueue(backing: Backing, d: Dynamic, n: nat)
    requires d.Sound() && d.V1()
    ensures QueueKept(backing, d, Commit(n))
  {
    CommitAdopts(d, n);
  }

  lemma ConsumeKeepsQueue(backing: Backing, d: Dynamic, n: nat)
    requires d.Sound()
    ensures QueueKept(backing, d, Consume(n))
  {
    ConsumeDropsFront(backing, d, n);
    var k := Min(n, |d.Input()|);
    assert d.Input()[..k] + d.Input()[k..] == d.Input();
  }

  lemma GrowKeepsQueue(backing: Backing, d: Dynamic, n: nat)
    requires d.Sound()
    ensures QueueKept(backing, d, Grow(n))
  {
    GrowKeepsAndAdds(d, n);
    var d' := GrowOf(d, n).0;
    if !d.V1() {
      assert d.Input() == d.store && d'.Input() == d'.store;
    }
  }

  /** Every operation except `shrink` takes from the front only what `consume` asks for and adds at the back only what
      `commit` adopts, or the zeros of a version 2 `grow`. */
  lemma QueueStep(backing: Backing, d: Dynamic, op: Op)
    requires d.Sound() && Allowed(d, op) && !op.Shrink?
    ensures QueueKept(backing, d, op)
  {
    match op
    case Prepare(n) => PrepareKeepsQueue(backing, d, n);
    case Fill(bytes) => FillKeepsInput(backing, d, bytes);
    case Commit(n) => CommitKeepsQueue(backing, d, n);
    case Consume(n) => ConsumeKeepsQueue(backing, d, n);
    case Grow(n) => GrowKeepsQueue(backing, d, n);
  }

  lemma ShrinkStaysSound(d: Dynamic, n: nat)
    requires d.Sound() && Allowed(d, Shrink(n))
    ensures var d' := ShrinkOf(d, n); d'.Sound() && d'.max == d.max && d'.limit == d.limit && (d.V1() <==> d'.V1())
  {
  }

  lemma StepIsSound(backing: Backing, d: Dynamic, op: Op)
    requires d.Sound() && Allowed(d, op)
    ensures var d' := Apply(backing, d, op).0; d'.Sound() && d'.max == d.max && d'.limit == d.limit
  {
    if op.Shrink? {
      ShrinkStaysSound(d, op.n);
    } else {
      QueueStep(backing, d, op);
    }
  }

  /** From a sound state on, only what is allowed is done. */
  ghost predicate AllowedRun(backing: Backing, d: Dynamic, ops: seq<Op>)
    requires d.Sound()
    decreases |ops|
  {
    ops == [] ||
    (Allowed(d, ops[0]) &&
     (StepIsSound(backing, d, ops[0]); AllowedRun(backing, Apply(backing, d, ops[0]).0, ops[1..])))
  }

  /** Where a run ends, and which of its operations threw. */
  ghost function Run(backing: Backing, d: Dynamic, ops: seq<Op>): (Dynamic, seq<bool>)
    requires d.Sound() && AllowedRun(backing, d, ops)
    decreases |ops|
  {
    if ops == [] then (d, [])
    else
      StepIsSound(backing, d, ops[0]);
      var (d', ok) := Apply(backing, d, ops[0]);
      var (last, oks) := Run(backing, d', ops[1..]);
      (last, [ok] + oks)
  }

  ghost function AllAppended(backing: Backing, d: Dynamic, ops: seq<Op>): seq<byte>
    requires d.Sound() && AllowedRun(backing, d, ops)
    decreases |ops|
  {
    if ops == [] then []
    else
      StepIsSound(backing, d, ops[0]);
      Appended(d, ops[0]) + AllAppended(backing, Apply(backing, d, ops[0]).0, ops[1..])
  }

  ghost function AllRemoved(backing: Backing, d: Dynamic, ops: seq<Op>): seq<byte>
    requires d.Sound() && AllowedRun(backing, d, ops)
    decreases |ops|
  {
    if ops == [] then []
    else
      StepIsSound(backing, d, ops[0]);
      Removed(d, ops[0]) + AllRemoved(backing, Apply(backing, d, ops[0]).0, ops[1..])
  }

  /** A bounded queue over every run: the bytes removed so far, followed by the input sequence, are the bytes there
      were to begin with, followed by the bytes appended. Version 1 mode, once entered, is never left. */
  lemma {:induction false} QueueRun(backing: Backing, d: Dynamic, ops: seq<Op>)
    requires d.Sound() && AllowedRun(backing, d, ops) && forall i :: 0 <= i < |ops| ==> !ops[i].Shrink?
    ensures var last := Run(backing, d, ops).0;
      && last.Sound() && last.max == d.max && (d.V1() ==> last.V1())
      && AllRemoved(backing, d, ops) + last.Input() == d.Input() + AllAppended(backing, d, ops)
      && |last.Input()| + |last.Output()| <= d.max
    decreases |ops|
  {
    if ops != [] {
      QueueStep(backing, d, ops[0]);
      var d' := Apply(backing, d, ops[0]).0;
      QueueRun(backing, d', ops[1..]);
      var last := Run(backing, d', ops[1..]).0;
      Regroup(Removed(d, ops[0]), AllRemoved(backing, d', ops[1..]), last.Input(), d'.Input(), d.Input(),
              Appended(d, ops[0]), AllAppended(backing, d', ops[1..]));
    }
  }

  lemma Regroup(r: seq<byte>, rs: seq<byte>, last: seq<byte>, mid: seq<byte>, first: seq<byte>, a: seq<byte>, as': seq<byte>)
    requires r + mid == first + a && rs + last == mid + as'
    ensures (r + rs) + last == first + (a + as')
  {
    assert (r + rs) + last == r + (rs + last) == (r + mid) + as' == first + (a + as');
  }

  lemma TakeWritten(bytes: seq<byte>, rest: seq<byte>, k: nat)
    requires |bytes| == k
    ensures (bytes + rest)[..k] == bytes
  {
  }

  /** Preparing, writing and committing is allowed from any sound state with room, and what was written is what is
      appended, on either backing. */
  lemma WriteAppends(backing: Backing, d: Dynamic, n: nat, bytes: seq<byte>)
    requires d.Sound() && |bytes| <= n && |d.Input()| + n <= Min(d.max, d.limit)
    ensures AllowedRun(backing, d, [Prepare(n), Fill(bytes), Commit(|bytes|)])
    ensures var last := Run(backing, d, [Prepare(n), Fill(bytes), Commit(|bytes|)]).0;
      last.Input() == d.Input() + bytes && last.Output() == []
  {
    PrepareMakesRoom(d, n);
    var d1 := PrepareOf(d, n).0;
    FillKeepsInput(backing, d1, bytes);
    var d2 := Apply(backing, d1, Fill(bytes)).0;
    CommitAdopts(d2, |bytes|);
    TakeWritten(bytes, d1.Output()[|bytes|..], |bytes|);
    var ops := [Prepare(n), Fill(bytes), Commit(|bytes|)];
    assert ops[1..] == [Fill(bytes), Commit(|bytes|)] && ops[1..][1..] == [Commit(|bytes|)] && [Commit(|bytes|)][1..] == [];
    var d3 := CommitOf(d2, |bytes|);
    assert AllowedRun(backing, d3, []) && Run(backing, d3, []).0 == d3;
    assert AllowedRun(backing, d2, [Commit(|bytes|)]) && Run(backing, d2, [Commit(|bytes|)]).0 == d3;
    assert AllowedRun(backing, d1, ops[1..]) && Run(backing, d1, ops[1..]).0 == d3;
  }

  // Version 2

  predicate V2Op(op: Op) {
    op.Grow? || op.Shrink? || op.Consume?
  }

  /** What a version 2 operation means for a plain sequence of at most `room` bytes. */
  function PlainStep(s: seq<byte>, room: nat, op: Op): (seq<byte>, bool)
    requires V2Op(op)
  {
    match op
    case Grow(n) => if |s| + n <= room then (s + Zeros(n), true) else (s, false)
    case Shrink(n) => (s[..|s| - Min(n, |s|)], true)
    case Consume(n) => (s[Min(n, |s|)..], true)
  }

  function PlainRun(s: seq<byte>, room: nat, ops: seq<Op>): (seq<byte>, seq<bool>)
    requires forall i :: 0 <= i < |ops| ==> V2Op(ops[i])
    decreases |ops|
  {
    if ops == [] then (s, [])
    else
      var (s', ok) := PlainStep(s, room, ops[0]);
      var (last, oks) := PlainRun(s', room, ops[1..]);
      (last, [ok] + oks)
  }

  lemma V2Step(backing: Backing, d: Dynamic, op: Op)
    requires d.Sound() && !d.V1() && V2Op(op)
    ensures Allowed(d, op)
    ensures var (s, ok) := PlainStep(d.store, Min(d.max, d.limit), op);
      Apply(backing, d, op) == (d.(store := s), ok) && d.(store := s).Sound()
  {
    match op
    case Grow(n) => GrowKeepsAndAdds(d, n);
    case Shrink(n) => ShrinkDropsBack(d, n);
    case Consume(n) => ConsumeDropsFront(backing, d, n);
  }

  /** Over every run of version 2 operations, on either backing, the buffer is a plain sequence that grows at the back
      and shrinks at both ends, bounded by the smaller of the two limits; neither the sentinel nor the mode shows. */
  lemma {:induction false} V2Run(backing: Backing, d: Dynamic, ops: seq<Op>)
    requires d.Sound() && !d.V1() && forall i :: 0 <= i < |ops| ==> V2Op(ops[i])
    ensures AllowedRun(backing, d, ops)
    ensures var (s, oks) := PlainRun(d.store, Min(d.max, d.limit), ops);
      Run(backing, d, ops) == (d.(store := s), oks) && |s| <= Min(d.max, d.limit)
    decreases |ops|
  {
    if ops != [] {
      V2Step(backing, d, ops[0]);
      V2Run(backing, Apply(backing, d, ops[0]).0, ops[1..]);
    }
  }

  // The two backings

  /** Step for step, over every allowed run of both versions' operations, the two adapters hold the same bytes and
      throw at the same points, if their stores' own limits are equal or out of reach. */
  lemma {:induction false} BackingIsIrrelevant(d: Dynamic, limit: nat, ops: seq<Op>)
    requires d.Sound() && d.(limit := limit).Sound() && Min(d.max, d.limit) == Min(d.max, limit)
    requires AllowedRun(StringBacked, d, ops)
    ensures AllowedRun(VectorBacked, d.(limit := limit), ops)
    ensures var (last, oks) := Run(StringBacked, d, ops);
      Run(VectorBacked, d.(limit := limit), ops) == (last.(limit := limit), oks)
    decreases |ops|
  {
    if ops != [] {
      SameStep(d, limit, ops[0]);
      StepIsSound(StringBacked, d, ops[0]);
      StepIsSound(VectorBacked, d.(limit := limit), ops[0]);
      BackingIsIrrelevant(Apply(StringBacked, d, ops[0]).0, limit, ops[1..]);
    }
  }

  lemma SamePrepare(d: Dynamic, limit: nat, n: nat)
    requires d.Sound() && d.(limit := limit).Sound() && Min(d.max, d.limit) == Min(d.max, limit)
    ensures PrepareOf(d.(limit := limit), n) == (PrepareOf(d, n).0.(limit := limit), PrepareOf(d, n).1)
  {
  }

  lemma SameGrow(d: Dynamic, limit: nat, n: nat)
    requires d.Sound() && d.(limit := limit).Sound() && Min(d.max, d.limit) == Min(d.max, limit)
    ensures GrowOf(d.(limit := limit), n) == (GrowOf(d, n).0.(limit := limit), GrowOf(d, n).1)
  {
  }

  lemma SameConsume(d: Dynamic, limit: nat, n: nat)
    requires d.Sound() && d.(limit := limit).Sound()
    ensures ConsumeOf(VectorBacked, d.(limit := limit), n) == ConsumeOf(StringBacked, d, n).(limit := limit)
  {
    var e := d.(limit := limit);
    if !d.V1() {
      assert e.Size() == d.Size() == |d.store|;
      assert Min(d.Size(), n) == Min(n, |d.store|);
    }
  }

  lemma SameStep(d: Dynamic, limit: nat, op: Op)
    requires d.Sound() && d.(limit := limit).Sound() && Min(d.max, d.limit) == Min(d.max, limit) && Allowed(d, op)
    ensures Apply(VectorBacked, d.(limit := limit), op) ==
            (Apply(StringBacked, d, op).0.(limit := limit), Apply(StringBacked, d, op).1)
  {
    match op
    case Prepare(n) => SamePrepare(d, limit, n);
    case Grow(n) => SameGrow(d, limit, n);
    case Consume(n) => SameConsume(d, limit, n);
    case _ =>
  }

  /** That condition on the limits is exact: when it fails, the adapters part at the first sufficiently large
      `prepare`. */
  lemma LimitsMatterIff(d: Dynamic, limit: nat)
    requires d.Sound() && d.(limit := limit).Sound()
    ensures (forall n :: PrepareOf(d, n).1 == PrepareOf(d.(limit := limit), n).1) <==> Min(d.max, d.limit) == Min(d.max, limit)
  {
    var e := d.(limit := limit);
    forall n: nat
      ensures PrepareOf(d, n).1 == (|d.Input()| + n <= Min(d.max, d.limit))
      ensures PrepareOf(e, n).1 == (|d.Input()| + n <= Min(d.max, limit))
    {
      PrepareMakesRoom(d, n);
      PrepareMakesRoom(e, n);
    }
    if Min(d.max, d.limit) != Min(d.max, limit) {
      var n := Min(Min(d.max, d.limit), limit) + 1 - |d.Input()|;
      assert PrepareOf(d, n).1 != PrepareOf(e, n).1;
    }
  }

  /** Beyond the hypothesis of a store within the limit they differ, and exactly here: before the first `prepare`, a
      store that exceeds the limit loses up to the whole of itself as a string but no more than the limit as a
      vector. */
  lemma ConsumeAgreesIff(d: Dynamic, n: nat)
    requires d.Split()
    ensures ConsumeOf(StringBacked, d, n) == ConsumeOf(VectorBacked, d, n) <==> d.V1() || n <= d.max || |d.store| <= d.max
  {
    if !d.V1() && d.max < n && d.max < |d.store| {
      assert |ConsumeOf(StringBacked, d, n).store| < |ConsumeOf(VectorBacked, d, n).store|;
    }
  }

  /** A store of three bytes and a limit of one, from which two bytes are consumed before any `prepare`. */
  method ConsumeDiffers() returns (text: Store, vector: Store)
    ensures text.bytes == [3] && vector.bytes == [2, 3]
  {
    text := new Store(100);
    text.bytes := [1, 2, 3];
    var textBuffer := new DynamicStringBuffer(text, 1);
    textBuffer.Consume(2);
    vector := new Store(100);
    vector.bytes := [1, 2, 3];
    var vectorBuffer := new DynamicVectorBuffer(vector, 1);
    vectorBuffer.Consume(2);
  }

  /** In version 1 mode a `shrink` cuts into the input sequence without moving its end, unless there is nothing to
      cut: then the split would lie beyond the store. */
  lemma ShrinkKeepsV1Iff(d: Dynamic, n: nat)
    requires d.Sound() && d.V1()
    ensures ShrinkOf(d, n).Sound() <==> n == 0 || d.size == 0
    ensures ShrinkOf(d, n).Sound() <==> Allowed(d, Shrink(n))
  {
  }
}
