/** Buffers as windows into memory, and the scatter/gather copy between two buffer sequences
    (asio/buffer.hpp). */
module BufferCopying {
  import opened Chunks
  import opened Memory

  /** `mutable_buffer` and `const_buffer`: a start address and a size. An empty buffer may have any start,
      as a null one has. */
  datatype Buffer = Buffer(data: nat, size: nat)

  /** `b + n`, and the new value of `b` in `b += n`. */
  function Plus(b: Buffer, n: nat): Buffer {
    var offset := if n < b.size then n else b.size;
    Buffer(b.data + offset, b.size - offset)
  }

  /** `buffer(b, max_size_in_bytes)`. */
  function Clamp(b: Buffer, max: nat): Buffer {
    Buffer(b.data, if b.size < max then b.size else max)
  }

  /** A buffer sequence is a single buffer or a list of buffers; the type decides the overload. */
  datatype BufferSequence = OneBuffer(buffer: Buffer) | MultipleBuffers(buffers: seq<Buffer>) {
    function List(): seq<Buffer> {
      if OneBuffer? then [buffer] else buffers
    }
  }

  function Span(b: Buffer): seq<nat> {
    Range(b.data, b.size)
  }

  function Spans(list: seq<Buffer>): seq<seq<nat>> {
    seq(|list|, i requires 0 <= i < |list| => Span(list[i]))
  }

  /** Every address of a buffer sequence, in order. */
  function Addresses(list: seq<Buffer>): seq<nat> {
    Flat(Spans(list))
  }

  ghost predicate InMemory(list: seq<Buffer>, size: nat) {
    Within(Addresses(list), size)
  }

  lemma AddressesOfOne(b: Buffer)
    ensures Addresses([b]) == Span(b)
  {
    assert Spans([b]) == [Span(b)];
    FlatOne(Span(b));
  }

  lemma AddressesAppend(a: seq<Buffer>, b: seq<Buffer>)
    ensures Addresses(a + b) == Addresses(a) + Addresses(b)
  {
    assert Spans(a + b) == Spans(a) + Spans(b);
    FlatAppend(Spans(a), Spans(b));
  }

  /** `buffer(b, n)` and `b + n` divide a buffer between them: cutting a buffer in two does not change
      the bytes that a buffer sequence stands for. */
  lemma CutBuffer(pre: seq<Buffer>, b: Buffer, post: seq<Buffer>, n: nat)
    ensures Addresses(pre + [Clamp(b, n), Plus(b, n)] + post) == Addresses(pre + [b] + post)
  {
    AddressesAppend([Clamp(b, n)], [Plus(b, n)]);
    AddressesOfOne(Clamp(b, n));
    AddressesOfOne(Plus(b, n));
    AddressesOfOne(b);
    assert [Clamp(b, n), Plus(b, n)] == [Clamp(b, n)] + [Plus(b, n)];
    assert Span(Clamp(b, n)) + Span(Plus(b, n)) == Span(b);
    AddressesAppend(pre, [b]);
    AddressesAppend(pre + [b], post);
    AddressesAppend(pre, [Clamp(b, n), Plus(b, n)]);
    AddressesAppend(pre + [Clamp(b, n), Plus(b, n)], post);
  }

  /** The bytes in the first `i` buffers. */
  function SizeBefore(list: seq<Buffer>, i: nat): nat
    requires i <= |list|
  {
    if i == 0 then 0 else SizeBefore(list, i - 1) + list[i - 1].size
  }

  lemma {:induction false} SizeIsBefore(list: seq<Buffer>, i: nat)
    requires i <= |list|
    ensures SizeBefore(list, i) == Before(Spans(list), i)
  {
    if i == 0 {
      BeforeEnds(Spans(list));
    } else {
      SizeIsBefore(list, i - 1);
      BeforeStep(Spans(list), i - 1);
    }
  }

  /** A cursor into a buffer sequence: buffer `i`, `off` bytes into it, `k` bytes from the very start. */
  predicate CursorAt(list: seq<Buffer>, i: nat, off: nat, k: nat) {
    i <= |list| && k == SizeBefore(list, i) + off && if i < |list| then off <= list[i].size else off == 0
  }

  /** `b` is what is left of the current buffer, or the front of that. */
  predicate FrontOf(list: seq<Buffer>, i: nat, off: nat, b: Buffer) {
    i < |list| && b.data == list[i].data + off && off + b.size <= list[i].size
  }

  /** After `n` bytes the cursor stands within the same buffer or, once nothing is left of it, at the next. */
  method MoveCursor(list: seq<Buffer>, i: nat, off: nat, ghost k: nat, n: nat) returns (i': nat, off': nat)
    requires CursorAt(list, i, off, k) && i < |list| && off + n <= list[i].size
    ensures CursorAt(list, i', off', k + n)
    ensures i' == if off + n == list[i].size then i + 1 else i
  {
    if n == Plus(list[i], off).size {
      i', off' := i + 1, 0;
    } else {
      i', off' := i, off + n;
    }
  }

  lemma FrontOfSpan(whole: Buffer, off: nat, b: Buffer)
    requires b.data == whole.data + off && off + b.size <= whole.size
    ensures Span(whole)[off..off + b.size] == Span(b)
  {
  }

  lemma ElementsOfSlice<T>(s: seq<T>, lo: nat, hi: nat, part: seq<T>)
    requires lo <= hi <= |s| && s[lo..hi] == part
    ensures forall j :: 0 <= j < hi - lo ==> part[j] == s[lo + j]
  {
  }

  /** The front of the current buffer is the next stretch of the flat address list. */
  lemma FrontIsStretch(list: seq<Buffer>, i: nat, off: nat, k: nat, b: Buffer)
    requires CursorAt(list, i, off, k) && FrontOf(list, i, off, b)
    ensures k + b.size <= |Addresses(list)|
    ensures forall j :: 0 <= j < b.size ==> Span(b)[j] == Addresses(list)[k + j]
  {
    SizeIsBefore(list, i);
    SliceOfChunk(Spans(list), i, off, off + b.size);
    FrontOfSpan(list[i], off, b);
    ElementsOfSlice(Addresses(list), k, k + b.size, Span(b));
  }

  lemma CursorEnds(list: seq<Buffer>, i: nat, off: nat, k: nat)
    requires CursorAt(list, i, off, k)
    ensures i == |list| ==> k == |Addresses(list)|
  {
    SizeIsBefore(list, i);
    BeforeEnds(Spans(list));
  }

  lemma SpanMembers(b: Buffer)
    ensures forall a: nat :: a in Span(b) <==> b.data <= a < b.data + b.size
  {
    forall a: nat | b.data <= a < b.data + b.size
      ensures a in Span(b)
    {
      assert Span(b)[a - b.data] == a;
    }
  }

  method BufferSize(sequence: BufferSequence) returns (total: nat)
    ensures total == |Addresses(sequence.List())|
  {
    var list := sequence.List();
    if sequence.OneBuffer? {
      AddressesOfOne(sequence.buffer);
      return sequence.buffer.size;
    }
    total := 0;
    BeforeEnds(Spans(list));
    for i := 0 to |list|
      invariant total == Before(Spans(list), i)
    {
      BeforeStep(Spans(list), i);
      total := total + list[i].size;
    }
  }

  method BufferCopy1(mem: array<byte>, target: Buffer, source: Buffer) returns (n: nat)
    requires Within(Span(target), mem.Length) && Within(Span(source), mem.Length)
    requires Apart(Span(target), Span(source))
    modifies mem
    ensures n == Min(target.size, source.size)
    ensures mem[..] == FlatCopy(old(mem[..]), Span(target), Span(source), n)
  {
    n := if target.size < source.size then target.size else source.size;
    if n > 0 {
      SpansDoNotOverlap(target, source, mem.Length);
      Memcpy(mem, target.data, source.data, n);
      CopySame(old(mem[..]), Range(target.data, n), Range(source.data, n), Span(target), Span(source), n);
    }
  }

  lemma SpansDoNotOverlap(a: Buffer, b: Buffer, size: nat)
    requires Within(Span(a), size) && Within(Span(b), size) && Apart(Span(a), Span(b)) && a.size > 0 && b.size > 0
    ensures a.data + a.size <= size && b.data + b.size <= size
    ensures a.data + a.size <= b.data || b.data + b.size <= a.data
  {
    assert Span(a)[a.size - 1] < size && Span(b)[b.size - 1] < size;
    SpanMembers(a);
    SpanMembers(b);
    assert a.data in Cells(Span(a)) && b.data in Cells(Span(b));
  }

  /** The precondition of every copy: both sides lie in memory and do not overlap each other. The target
      buffers may overlap among themselves. */
  ghost predicate Copyable(target: seq<Buffer>, source: seq<Buffer>, size: nat) {
    InMemory(target, size) && InMemory(source, size) && Apart(Addresses(target), Addresses(source))
  }

  /** The number of bytes copied and the memory left by a copy of at most `limit` bytes. */
  ghost predicate CopiedUpTo(m: seq<byte>, m': seq<byte>, target: seq<Buffer>, source: seq<Buffer>, limit: nat, n: nat)
    requires Copyable(target, source, |m|)
  {
    n == Min(Min(|Addresses(target)|, |Addresses(source)|), limit) &&
    m' == FlatCopy(m, Addresses(target), Addresses(source), n)
  }

  lemma StretchesAreCopyable(T: seq<nat>, S: seq<nat>, k: nat, t: seq<nat>, s: seq<nat>, size: nat)
    requires Within(T, size) && Within(S, size) && Apart(T, S) && k + |t| <= |T| && k + |s| <= |S|
    requires forall i :: 0 <= i < |t| ==> t[i] == T[k + i]
    requires forall i :: 0 <= i < |s| ==> s[i] == S[k + i]
    ensures Within(t, size) && Within(s, size) && Apart(t, s)
  {
    assert Cells(t) <= Cells(T) && Cells(s) <= Cells(S);
  }

  /** The first `k` bytes have been copied and nothing else has been written. */
  ghost predicate CopiedSoFar(m: seq<byte>, m': seq<byte>, target: seq<Buffer>, source: seq<Buffer>, k: nat)
    requires Copyable(target, source, |m|)
  {
    k <= |Addresses(target)| && k <= |Addresses(source)| &&
    m' == FlatCopy(m, Addresses(target), Addresses(source), k)
  }

  /** One step of a copy loop: `buffer_copy_1` from the front of one source buffer to the front of one target
      buffer carries the flat copy on from byte `k`. */
  method CopyStep(mem: array<byte>, ghost m: seq<byte>, ghost k: nat,
                  ghost targets: seq<Buffer>, ghost i: nat, ghost iOffset: nat, target: Buffer,
                  ghost sources: seq<Buffer>, ghost j: nat, ghost jOffset: nat, source: Buffer)
    returns (n: nat)
    requires |m| == mem.Length && Copyable(targets, sources, |m|) && CopiedSoFar(m, mem[..], targets, sources, k)
    requires CursorAt(targets, i, iOffset, k) && FrontOf(targets, i, iOffset, target)
    requires CursorAt(sources, j, jOffset, k) && FrontOf(sources, j, jOffset, source)
    modifies mem
    ensures n <= target.size && n <= source.size && (n == target.size || n == source.size)
    ensures CopiedSoFar(m, mem[..], targets, sources, k + n)
  {
    FrontIsStretch(targets, i, iOffset, k, target);
    FrontIsStretch(sources, j, jOffset, k, source);
    StretchesAreCopyable(Addresses(targets), Addresses(sources), k, Span(target), Span(source), |m|);
    n := BufferCopy1(mem, target, source);
    CopyMore(m, Addresses(targets), Addresses(sources), k, Span(target), Span(source), n);
  }

  /** The same from a source buffer cut to `room` bytes. */
  method CopyStepUpTo(mem: array<byte>, ghost m: seq<byte>, ghost k: nat,
                      ghost targets: seq<Buffer>, ghost i: nat, ghost iOffset: nat, target: Buffer,
                      ghost sources: seq<Buffer>, ghost j: nat, ghost jOffset: nat, source: Buffer, room: nat)
    returns (n: nat)
    requires |m| == mem.Length && Copyable(targets, sources, |m|) && CopiedSoFar(m, mem[..], targets, sources, k)
    requires CursorAt(targets, i, iOffset, k) && FrontOf(targets, i, iOffset, target)
    requires CursorAt(sources, j, jOffset, k) && FrontOf(sources, j, jOffset, source)
    modifies mem
    ensures n <= target.size && n <= source.size && n <= room
    ensures n == target.size || n == source.size || n == room
    ensures CopiedSoFar(m, mem[..], targets, sources, k + n)
  {
    n := CopyStep(mem, m, k, targets, i, iOffset, target, sources, j, jOffset, Clamp(source, room));
  }

  /** The copy is complete once either side is used up or the limit is reached. */
  lemma AllCopied(m: seq<byte>, m': seq<byte>, target: seq<Buffer>, i: nat, iOffset: nat,
                  source: seq<Buffer>, j: nat, jOffset: nat, k: nat, limit: nat)
    requires Copyable(target, source, |m|) && CopiedSoFar(m, m', target, source, k) && k <= limit
    requires CursorAt(target, i, iOffset, k) && CursorAt(source, j, jOffset, k)
    requires i == |target| || j == |source| || k == limit
    ensures CopiedUpTo(m, m', target, source, limit, k)
  {
    CursorEnds(target, i, iOffset, k);
    CursorEnds(source, j, jOffset, k);
  }

  lemma NothingCopied(m: seq<byte>, target: seq<Buffer>, source: seq<Buffer>)
    requires Copyable(target, source, |m|)
    ensures CopiedSoFar(m, m, target, source, 0)
    ensures CursorAt(target, 0, 0, 0) && CursorAt(source, 0, 0, 0)
  {
  }

  method OneToOne(mem: array<byte>, target: Buffer, source: Buffer) returns (n: nat)
    requires Copyable([target], [source], mem.Length)
    modifies mem
    ensures CopiedUpTo(old(mem[..]), mem[..], [target], [source], |Addresses([source])|, n)
  {
    AddressesOfOne(target);
    AddressesOfOne(source);
    n := BufferCopy1(mem, target, source);
  }

  method OneToOneUpTo(mem: array<byte>, target: Buffer, source: Buffer, limit: nat) returns (n: nat)
    requires Copyable([target], [source], mem.Length)
    modifies mem
    ensures CopiedUpTo(old(mem[..]), mem[..], [target], [source], limit, n)
  {
    AddressesOfOne(target);
    AddressesOfOne(source);
    var clamped := Clamp(source, limit);
    StretchesAreCopyable(Span(target), Span(source), 0, Span(target), Span(clamped), mem.Length);
    n := BufferCopy1(mem, target, clamped);
    CopySame(old(mem[..]), Span(target), Span(clamped), Span(target), Span(source), n);
  }

  method OneToMany(mem: array<byte>, target: Buffer, source: seq<Buffer>, limit: nat) returns (total: nat)
    requires Copyable([target], source, mem.Length)
    modifies mem
    ensures CopiedUpTo(old(mem[..]), mem[..], [target], source, limit, total)
  {
    ghost var m := mem[..];
    AddressesOfOne(target);
    NothingCopied(m, [target], source);
    total := 0;
    var i := 0;
    var rest := Clamp(target, limit);
    while rest.size != 0 && i != |source|
      invariant total + rest.size == Min(target.size, limit) && rest.data == target.data + total
      invariant rest.size != 0 ==> CursorAt(source, i, 0, total) && CursorAt([target], 0, total, total)
      invariant CopiedSoFar(m, mem[..], [target], source, total)
      decreases |source| - i
    {
      var n := CopyStep(mem, m, total, [target], 0, total, rest, source, i, 0, source[i]);
      total := total + n;
      rest := Plus(rest, n);
      i := i + 1;
    }
    if rest.size != 0 {
      CursorEnds(source, i, 0, total);
    }
  }

  method ManyToOne(mem: array<byte>, target: seq<Buffer>, source: Buffer, limit: nat) returns (total: nat)
    requires Copyable(target, [source], mem.Length)
    modifies mem
    ensures CopiedUpTo(old(mem[..]), mem[..], target, [source], limit, total)
  {
    ghost var m := mem[..];
    AddressesOfOne(source);
    NothingCopied(m, target, [source]);
    total := 0;
    var i := 0;
    var rest := Clamp(source, limit);
    while rest.size != 0 && i != |target|
      invariant total + rest.size == Min(source.size, limit) && rest.data == source.data + total
      invariant rest.size != 0 ==> CursorAt(target, i, 0, total) && CursorAt([source], 0, total, total)
      invariant CopiedSoFar(m, mem[..], target, [source], total)
      decreases |target| - i
    {
      var n := CopyStep(mem, m, total, target, i, 0, target[i], [source], 0, total, rest);
      total := total + n;
      rest := Plus(rest, n);
      i := i + 1;
    }
    if rest.size != 0 {
      CursorEnds(target, i, 0, total);
    }
  }

  method ManyToMany(mem: array<byte>, target: seq<Buffer>, source: seq<Buffer>) returns (total: nat)
    requires Copyable(target, source, mem.Length)
    modifies mem
    ensures CopiedUpTo(old(mem[..]), mem[..], target, source, |Addresses(source)|, total)
  {
    ghost var m := mem[..];
    NothingCopied(m, target, source);
    total := 0;
    var i, j := 0, 0;
    var iOffset: nat, jOffset: nat := 0, 0;
    while i != |target| && j != |source|
      invariant CursorAt(target, i, iOffset, total) && CursorAt(source, j, jOffset, total)
      invariant CopiedSoFar(m, mem[..], target, source, total)
      decreases |target| - i, |source| - j
    {
      var targetBuffer := Plus(target[i], iOffset);
      var sourceBuffer := Plus(source[j], jOffset);
      var n := CopyStep(mem, m, total, target, i, iOffset, targetBuffer,
                        source, j, jOffset, sourceBuffer);
      i, iOffset := MoveCursor(target, i, iOffset, total, n);
      j, jOffset := MoveCursor(source, j, jOffset, total, n);
      total := total + n;
    }
    AllCopied(m, mem[..], target, i, iOffset, source, j, jOffset, total, |Addresses(source)|);
  }

  /** Either an iterator moves on or the limit is reached: the loop ends for any empty buffers on both sides. */
  method ManyToManyUpTo(mem: array<byte>, target: seq<Buffer>, source: seq<Buffer>, limit: nat)
    returns (total: nat)
    requires Copyable(target, source, mem.Length)
    modifies mem
    ensures CopiedUpTo(old(mem[..]), mem[..], target, source, limit, total)
  {
    ghost var m := mem[..];
    NothingCopied(m, target, source);
    total := 0;
    var i, j := 0, 0;
    var iOffset: nat, jOffset: nat := 0, 0;
    while total != limit && i != |target| && j != |source|
      invariant total <= limit
      invariant CursorAt(target, i, iOffset, total) && CursorAt(source, j, jOffset, total)
      invariant CopiedSoFar(m, mem[..], target, source, total)
      decreases |target| - i, |source| - j, limit - total
    {
      var targetBuffer := Plus(target[i], iOffset);
      var sourceBuffer := Plus(source[j], jOffset);
      var n := CopyStepUpTo(mem, m, total, target, i, iOffset, targetBuffer,
                            source, j, jOffset, sourceBuffer, limit - total);
      i, iOffset := MoveCursor(target, i, iOffset, total, n);
      j, jOffset := MoveCursor(source, j, jOffset, total, n);
      total := total + n;
    }
    AllCopied(m, mem[..], target, i, iOffset, source, j, jOffset, total, limit);
  }

  /** `buffer_copy(target, source)`: whichever overload the two cardinalities pick, the outcome is the flat
      copy. Two overloads take a limit that defaults to the largest size. */
  method BufferCopy(mem: array<byte>, target: BufferSequence, source: BufferSequence) returns (n: nat)
    requires Copyable(target.List(), source.List(), mem.Length)
    requires mem.Length <= SIZE_MAX
    modifies mem
    ensures CopiedUpTo(old(mem[..]), mem[..], target.List(), source.List(), |Addresses(source.List())|, n)
  {
    match (target, source)
    case (OneBuffer(t), OneBuffer(s)) =>
      n := OneToOne(mem, t, s);
    case (OneBuffer(t), MultipleBuffers(s)) =>
      OneBufferFits(t, mem.Length);
      n := OneToMany(mem, t, s, SIZE_MAX);
    case (MultipleBuffers(t), OneBuffer(s)) =>
      OneBufferFits(s, mem.Length);
      n := ManyToOne(mem, t, s, SIZE_MAX);
    case (MultipleBuffers(t), MultipleBuffers(s)) =>
      n := ManyToMany(mem, t, s);
  }

  method BufferCopyUpTo(mem: array<byte>, target: BufferSequence, source: BufferSequence, limit: nat)
    returns (n: nat)
    requires Copyable(target.List(), source.List(), mem.Length)
    modifies mem
    ensures CopiedUpTo(old(mem[..]), mem[..], target.List(), source.List(), limit, n)
  {
    match (target, source)
    case (OneBuffer(t), OneBuffer(s)) =>
      n := OneToOneUpTo(mem, t, s, limit);
    case (OneBuffer(t), MultipleBuffers(s)) =>
      n := OneToMany(mem, t, s, limit);
    case (MultipleBuffers(t), OneBuffer(s)) =>
      n := ManyToOne(mem, t, s, limit);
    case (MultipleBuffers(t), MultipleBuffers(s)) =>
      n := ManyToManyUpTo(mem, t, s, limit);
  }

  lemma OneBufferFits(b: Buffer, size: nat)
    requires InMemory([b], size)
    ensures b.size <= size && |Addresses([b])| == b.size
  {
    AddressesOfOne(b);
    if b.size > 0 {
      assert Addresses([b])[b.size - 1] == b.data + b.size - 1;
    }
  }

  /** Reading back: the target holds the copied source bytes followed by its old tail, the source is as it was,
      and every other byte of memory is untouched. The target buffers must not overlap one another. */
  lemma CopyMeaning(m: seq<byte>, m': seq<byte>, target: seq<Buffer>, source: seq<Buffer>, limit: nat, n: nat)
    requires Copyable(target, source, |m|) && CopiedUpTo(m, m', target, source, limit, n)
    requires NoRepeats(Addresses(target))
    ensures |m'| == |m|
    ensures Load(m', Addresses(target)) == Load(m, Addresses(source))[..n] + Load(m, Addresses(target))[n..]
    ensures Load(m', Addresses(source)) == Load(m, Addresses(source))
    ensures forall a :: 0 <= a < |m| && a !in Addresses(target)[..n] ==> m'[a] == m[a]
  {
    FlatCopyMeaning(m, Addresses(target), Addresses(source), n);
  }

  /** The outcome depends on the limit only below the smaller of the two sizes, and not on the chunking at all: two
      pairs of lists that stand for the same addresses give the same count and the same memory. */
  lemma ChunkingIsIrrelevant(m: seq<byte>, m1: seq<byte>, m2: seq<byte>, t1: seq<Buffer>, s1: seq<Buffer>,
                             t2: seq<Buffer>, s2: seq<Buffer>, limit1: nat, limit2: nat, n1: nat, n2: nat)
    requires Addresses(t1) == Addresses(t2) && Addresses(s1) == Addresses(s2) && Copyable(t1, s1, |m|)
    requires CopiedUpTo(m, m1, t1, s1, limit1, n1) && CopiedUpTo(m, m2, t2, s2, limit2, n2)
    requires limit1 == limit2 || Min(|Addresses(t1)|, |Addresses(s1)|) <= Min(limit1, limit2)
    ensures n1 == n2 && m1 == m2
  {
  }

  /** In particular it does not matter where the buffers of either side are cut in two. */
  lemma CutsAreIrrelevant(m: seq<byte>, m1: seq<byte>, m2: seq<byte>,
                          preT: seq<Buffer>, t: Buffer, postT: seq<Buffer>, atT: nat,
                          preS: seq<Buffer>, s: Buffer, postS: seq<Buffer>, atS: nat, limit: nat, n1: nat, n2: nat)
    requires Copyable(preT + [t] + postT, preS + [s] + postS, |m|)
    requires CopiedUpTo(m, m1, preT + [t] + postT, preS + [s] + postS, limit, n1)
    ensures var t2, s2 := preT + [Clamp(t, atT), Plus(t, atT)] + postT, preS + [Clamp(s, atS), Plus(s, atS)] + postS;
      Copyable(t2, s2, |m|) && (CopiedUpTo(m, m2, t2, s2, limit, n2) ==> n1 == n2 && m1 == m2)
  {
    CutBuffer(preT, t, postT, atT);
    CutBuffer(preS, s, postS, atS);
  }
}
