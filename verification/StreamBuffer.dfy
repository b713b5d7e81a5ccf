/** The stream buffer (asio/basic_streambuf.hpp): four positions over one array, which is compacted and grown on
    demand. The input sequence lies between `gptr` and `pptr`, the output sequence between `pptr` and `epptr`. */
module StreamBuffers {
  import opened Chunks
  import opened Memory

  const BUFFER_DELTA: nat := 128
  const INT_MAX: nat := 0x7FFF_FFFF
  const EOF: int := -1

  /** `static_cast<int>` of a `size_t`: multiples of two to the thirty-second are dropped. */
  function AsInt(n: nat): int {
    if n <= INT_MAX then n
    else if n < 0x1_0000_0000 then n - 0x1_0000_0000
    else AsInt(n - 0x1_0000_0000)
  }

  /** The cast keeps the low 32 bits and reads them as a signed number. */
  lemma {:induction false} CastKeepsLowBits(n: nat)
    ensures -0x8000_0000 <= AsInt(n) <= INT_MAX
    ensures (AsInt(n) - n) % 0x1_0000_0000 == 0
  {
    if n >= 0x1_0000_0000 {
      CastKeepsLowBits(n - 0x1_0000_0000);
    }
  }

  function Max(a: nat, b: nat): nat {
    if a < b then b else a
  }

  /** What is left between two positions when the bytes have been moved down by `g` but the positions have not. */
  function Shifted(c: seq<byte>, g: nat): (r: seq<byte>)
    ensures |r| == |c|
  {
    if 0 < g < |c| then c[g..] + c[|c| - g..] else c
  }

  /** `start + n`, as a 64-bit address. */
  function Address(start: nat, n: nat): int {
    if start + n <= SIZE_MAX then start + n else start + n - (SIZE_MAX + 1)
  }

  /** Unsigned addition: the sum, reduced to 64 bits. */
  lemma AddressWraps(start: nat, n: nat)
    requires start <= SIZE_MAX && n <= SIZE_MAX
    ensures 0 <= Address(start, n) <= SIZE_MAX && (start + n - Address(start, n)) % (SIZE_MAX + 1) == 0
  {
  }

  /** How far `consume(n)` moves `gptr`, when `buffer_[0]` lies at address `base`. The test whether `n` exceeds the
      input sequence is made on addresses, which wrap around. */
  function ConsumeMove(base: nat, gptr: nat, pptr: nat, n: nat): int
    requires gptr <= pptr
  {
    if Address(base + gptr, n) > base + pptr then AsInt(pptr - gptr) else AsInt(n)
  }

  /** The narrowing cast is harmless exactly up to the largest `int`: only then does `commit` move `pptr` by the
      number of bytes it adopts. */
  lemma CommitIsExactIff(k: nat)
    ensures AsInt(k) == k <==> k <= INT_MAX
  {
    CastKeepsLowBits(k);
  }

  /** The address sum does not wrap around and the number fits an `int`; or else it does wrap around, and the low bits
      of `n` happen to equal the size. */
  predicate ConsumeIsExact(base: nat, gptr: nat, pptr: nat, n: nat)
    requires gptr <= pptr
  {
    if base + gptr + n <= SIZE_MAX then Min(n, pptr - gptr) <= INT_MAX
    else n % 0x1_0000_0000 == pptr - gptr <= INT_MAX
  }

  /** `consume(n)` promises to drop `min(n, size())` bytes. It does so in exactly these cases. */
  lemma ConsumeIsExactIff(base: nat, gptr: nat, pptr: nat, n: nat)
    requires gptr <= pptr && n <= SIZE_MAX && base + pptr <= SIZE_MAX
    ensures ConsumeMove(base, gptr, pptr, n) == Min(n, pptr - gptr) <==> ConsumeIsExact(base, gptr, pptr, n)
  {
    CommitIsExactIff(Min(n, pptr - gptr));
    CastKeepsLowBits(n);
  }

  lemma ShiftedBytes(s: seq<byte>, s': seq<byte>, from: nat, to: nat)
    requires from <= to <= |s| == |s'|
    requires forall i :: 0 <= i < to - from ==> s'[i] == s[from + i]
    requires forall i :: to - from <= i < |s| ==> s'[i] == s[i]
    ensures s'[from..to] == Shifted(s[from..to], from)
  {
    var c := s[from..to];
    forall i | 0 <= i < |c|
      ensures s'[from..to][i] == Shifted(c, from)[i]
    {
      assert s'[from..to][i] == s'[from + i];
      if i < |c| - from {
        assert s'[from + i] == c[from + i];
      } else {
        assert s'[from + i] == c[i];
      }
    }
  }

  lemma SamePrefix(s: seq<byte>, s': seq<byte>, n: nat)
    requires s <= s' && n <= |s|
    ensures s'[..n] == s[..n]
  {
  }

  lemma JoinStretches(s: seq<byte>, a: nat, b: nat, c: nat)
    requires a <= b <= c <= |s|
    ensures s[a..c] == s[a..b] + s[b..c]
  {
  }

  lemma DropFront(s: seq<byte>, from: nat, to: nat, k: nat)
    requires from + k <= to <= |s|
    ensures s[from + k..to] == s[from..to][k..]
  {
    var c, rest := s[from..to], s[from + k..to];
    assert |rest| == |c[k..]| && forall i :: 0 <= i < |rest| ==> rest[i] == c[k..][i];
  }

  lemma OneMoreWritten(s: seq<byte>, from: nat, i: nat, b: byte)
    requires from + i < |s|
    ensures s[from + i := b][from..from + i + 1] == s[from..from + i] + [b]
  {
  }

  lemma HistoryExtends(removed: seq<byte>, c: seq<byte>, appended: seq<byte>, more: seq<byte>)
    ensures removed + c == appended ==> removed + (c + more) == appended + more
  {
    assert (removed + c) + more == removed + (c + more);
  }

  lemma HistoryGrows(removed: seq<byte>, c: seq<byte>, appended: seq<byte>, k: nat)
    requires k <= |c|
    ensures removed + c == appended ==> (removed + c[..k]) + c[k..] == appended
  {
    assert c[..k] + c[k..] == c;
    assert (removed + c[..k]) + c[k..] == removed + (c[..k] + c[k..]);
  }

  /** The input sequence, where it starts in the array, and where the array ends. */
  datatype View = View(c: seq<byte>, start: nat, end: nat)

  /** Room for `n` bytes behind the input sequence: as it stands, or else after moving the input to the front. */
  function Reserved(v: View, n: nat): View {
    if v.start + |v.c| + n <= v.end then v else View(v.c, 0, Max(v.end, |v.c| + n))
  }

  class StreamBuffer {
    const maxSize: nat
    var buffer: array<byte>
    var gptr: int
    var egptr: int
    var pptr: int
    var epptr: int
    ghost var appended: seq<byte> // every byte that ever entered the input sequence
    ghost var removed: seq<byte>  // every byte that was ever consumed

    ghost predicate Valid()
      reads this
    {
      0 <= gptr <= egptr <= pptr <= epptr <= maxSize <= SIZE_MAX && buffer.Length == Max(epptr, 1)
    }

    function Size(): nat
      requires Valid()
      reads this
    {
      pptr - gptr
    }

    /** The input sequence. */
    ghost function Contents(): (c: seq<byte>)
      requires Valid()
      reads this, buffer
      ensures |c| == Size()
    {
      buffer[..][gptr..pptr]
    }

    /** The first bytes of the output sequence. */
    ghost function Output(k: nat): (out: seq<byte>)
      requires Valid() && k <= epptr - pptr
      reads this, buffer
      ensures |out| == k
    {
      buffer[..][pptr..pptr + k]
    }

    ghost function Now(): View
      requires Valid()
      reads this, buffer
    {
      View(Contents(), gptr, epptr)
    }

    /** First in, first out. */
    ghost predicate Conserved()
      reads this, buffer
    {
      Valid() && removed + Contents() == appended
    }

    constructor (maximumSize: nat)
      requires maximumSize <= SIZE_MAX
      ensures Conserved() && maxSize == maximumSize && Contents() == [] && epptr == Min(maximumSize, 128)
      ensures fresh(buffer) && gptr == 0 && pptr == 0 && appended == [] && removed == []
    {
      var pend := Min(maximumSize, BUFFER_DELTA);
      maxSize := maximumSize;
      buffer := new byte[Max(pend, 1)](_ => 0);
      gptr, egptr, pptr, epptr := 0, 0, 0, pend;
      appended, removed := [], [];
    }

    /** `memmove` of `n` bytes to the start of the array. */
    method MoveDown(from: nat, n: nat)
      requires from + n <= buffer.Length
      modifies buffer
      ensures forall i :: 0 <= i < n ==> buffer[..][i] == old(buffer[..])[from + i]
      ensures forall i :: n <= i < buffer.Length ==> buffer[..][i] == old(buffer[..])[i]
    {
      forall i | 0 <= i < n {
        buffer[i] := buffer[from + i];
      }
    }

    /** `resize` to more bytes moves them to a new array. */
    method Resize(n: nat)
      requires buffer.Length <= n
      modifies this`buffer
      ensures fresh(buffer) && buffer.Length == n && old(buffer[..]) <= buffer[..]
      ensures forall i :: old(buffer.Length) <= i < n ==> buffer[..][i] == 0
    {
      var from := buffer;
      buffer := new byte[n](i requires 0 <= i reads from => if i < from.Length then from[i] else 0);
    }

    /** Makes room for `n` bytes after `pptr`, and throws exactly when the limit does not allow it. When it throws
        the bytes have already been moved down, but the positions have not. */
    method Reserve(n: nat) returns (ok: bool)
      requires Valid()
      modifies this, buffer
      ensures Valid() && appended == old(appended) && removed == old(removed)
      ensures buffer == old(buffer) || fresh(buffer)
      ensures ok <==> old(Size()) + n <= maxSize
      ensures ok ==> Contents() == old(Contents()) && n <= epptr - pptr
      ensures !ok || n <= old(epptr - pptr) ==>
                gptr == old(gptr) && egptr == old(egptr) && pptr == old(pptr) && epptr == old(epptr)
      ensures ok && n > old(epptr - pptr) ==>
                gptr == 0 && egptr == pptr == old(Size()) && epptr == Max(old(epptr), pptr + n)
      ensures !ok ==> Contents() == Shifted(old(Contents()), old(gptr))
    {
      if n <= epptr - pptr {
        return true;
      }
      ok := Rearrange(n);
    }

    /** The slow path of `reserve`. */
    method Rearrange(n: nat) returns (ok: bool)
      requires Valid() && n > epptr - pptr
      modifies this, buffer
      ensures Valid() && appended == old(appended) && removed == old(removed)
      ensures buffer == old(buffer) || fresh(buffer)
      ensures ok <==> old(Size()) + n <= maxSize
      ensures ok ==> gptr == 0 && egptr == pptr == old(Size()) && epptr == Max(old(epptr), pptr + n)
      ensures !ok ==> gptr == old(gptr) && egptr == old(egptr) && pptr == old(pptr) && epptr == old(epptr)
      ensures Contents() == if ok then old(Contents()) else Shifted(old(Contents()), old(gptr))
    {
      ghost var was := buffer[..];
      var gnext, pnext, pend := gptr, pptr, epptr;
      if gnext > 0 {
        pnext := pnext - gnext;
        MoveDown(gnext, pnext);
      }
      ghost var moved := buffer[..];
      assert moved[..pnext] == was[gnext..gnext + pnext] == old(Contents());
      if n > pend - pnext {
        if n <= maxSize && pnext <= maxSize - n {
          pend := pnext + n;
          Resize(Max(pend, 1));
          SamePrefix(moved, buffer[..], pnext);
        } else {
          ShiftedBytes(was, buffer[..], gptr, pptr);
          return false;
        }
      }
      assert buffer[..][..pnext] == old(Contents());
      gptr, egptr, pptr, epptr := 0, pnext, pnext, pend;
      return true;
    }

    /** On success the output sequence starts at `start` and holds at least `n` bytes. */
    method Prepare(n: nat) returns (ok: bool, start: nat)
      requires Valid()
      modifies this, buffer
      ensures Valid() && appended == old(appended) && removed == old(removed)
      ensures buffer == old(buffer) || fresh(buffer)
      ensures ok <==> old(Size()) + n <= maxSize
      ensures ok ==> Contents() == old(Contents()) && start == pptr && start + n <= epptr
      ensures ok && old(Conserved()) ==> Conserved()
      ensures !ok || n <= old(epptr - pptr) ==>
                gptr == old(gptr) && egptr == old(egptr) && pptr == old(pptr) && epptr == old(epptr)
      ensures ok && n > old(epptr - pptr) ==>
                gptr == 0 && egptr == pptr == old(Size()) && epptr == Max(old(epptr), pptr + n)
      ensures !ok ==> Contents() == Shifted(old(Contents()), old(gptr))
    {
      ok := Reserve(n);
      start := pptr;
    }

    /** The caller writes one byte of the output sequence. */
    method Write(i: nat, b: byte)
      requires Valid() && pptr <= i < epptr
      modifies buffer
      ensures Valid() && Contents() == old(Contents())
      ensures old(Conserved()) ==> Conserved()
      ensures buffer[..] == old(buffer[..])[i := b]
    {
      buffer[i] := b;
    }

    /** The positions and the input sequence of `commit`, without the history. */
    method CommitBytes(n: nat)
      requires Valid()
      modifies this`pptr, this`egptr
      ensures pptr == egptr == old(pptr) + AsInt(Min(n, old(epptr - pptr)))
      ensures var k := Min(n, old(epptr - pptr)); k <= INT_MAX ==>
        Valid() && Contents() == old(Contents()) + old(Output(k))
    {
      ghost var k := Min(n, epptr - pptr);
      JoinStretches(buffer[..], gptr, pptr, pptr + k);
      pptr := pptr + AsInt(Min(n, epptr - pptr));
      egptr := pptr;
    }

    /** Adopts the first bytes of the output sequence. */
    method Commit(n: nat)
      requires Valid()
      modifies this
      ensures gptr == old(gptr) && epptr == old(epptr) && buffer == old(buffer) && removed == old(removed)
      ensures pptr == egptr == old(pptr) + AsInt(Min(n, old(epptr - pptr)))
      ensures var k := Min(n, old(epptr - pptr)); k <= INT_MAX ==>
        && Valid() && Contents() == old(Contents()) + old(Output(k)) && appended == old(appended) + old(Output(k))
        && (old(Conserved()) ==> Conserved())
    {
      ghost var more := Output(Min(n, epptr - pptr));
      HistoryExtends(removed, Contents(), appended, more);
      appended := appended + more;
      CommitBytes(n);
    }

    /** The test on addresses and the move of `gptr`. */
    method MoveFront(n: nat, base: nat)
      requires 0 <= gptr <= pptr && n <= SIZE_MAX && base + pptr <= SIZE_MAX
      modifies this`gptr
      ensures gptr == old(gptr) + ConsumeMove(base, old(gptr), pptr, n)
      ensures ConsumeIsExact(base, old(gptr), pptr, n) ==> gptr == old(gptr) + Min(n, pptr - old(gptr))
    {
      ConsumeIsExactIff(base, gptr, pptr, n);
      var k := n;
      if Address(base + gptr, n) > base + pptr {
        k := pptr - gptr;
      }
      gptr := gptr + AsInt(k);
    }

    /** The positions and the input sequence of `consume`, without the history. */
    method ConsumeBytes(n: nat, base: nat)
      requires Valid() && n <= SIZE_MAX && base + buffer.Length <= SIZE_MAX
      modifies this`gptr, this`egptr
      ensures egptr == pptr && gptr == old(gptr) + ConsumeMove(base, old(gptr), pptr, n)
      ensures var k := Min(n, old(Size())); ConsumeIsExact(base, old(gptr), pptr, n) ==>
        Valid() && Contents() == old(Contents())[k..]
    {
      if egptr < pptr {
        egptr := pptr;
      }
      DropFront(buffer[..], gptr, pptr, Min(n, Size()));
      MoveFront(n, base);
    }

    /** Drops bytes from the front of the input sequence. */
    method Consume(n: nat, base: nat)
      requires Valid() && n <= SIZE_MAX && base + buffer.Length <= SIZE_MAX
      modifies this
      ensures pptr == egptr == old(pptr) && epptr == old(epptr) && buffer == old(buffer) && appended == old(appended)
      ensures gptr == old(gptr) + ConsumeMove(base, old(gptr), pptr, n)
      ensures var k := Min(n, old(Size())); ConsumeIsExact(base, old(gptr), pptr, n) ==>
        && Valid() && Contents() == old(Contents())[k..] && removed == old(removed) + old(Contents())[..k]
        && (old(Conserved()) ==> Conserved())
    {
      ghost var c, k := Contents(), Min(n, Size());
      HistoryGrows(removed, c, appended, k);
      removed := removed + c[..k];
      ConsumeBytes(n, base);
    }

    /** The next byte, without removing it; the readable area now reaches to the end of the input sequence. */
    method Underflow() returns (c: int)
      requires Valid()
      modifies this
      ensures Valid() && Contents() == old(Contents()) && (old(Conserved()) ==> Conserved())
      ensures appended == old(appended) && removed == old(removed) && Now() == old(Now())
      ensures buffer == old(buffer) && gptr == old(gptr) && pptr == old(pptr) && epptr == old(epptr)
      ensures if Size() == 0 then c == EOF && egptr == old(egptr) else c == Contents()[0] as int && egptr == pptr
    {
      if gptr < pptr {
        egptr := pptr;
        return buffer[gptr] as int;
      } else {
        return EOF;
      }
    }

    /** `*pptr() = b; pbump(1)` */
    method PutNext(b: byte)
      requires Valid() && pptr < epptr
      modifies this`pptr, this`appended, buffer
      ensures Valid() && pptr == old(pptr) + 1
      ensures Contents() == old(Contents()) + [b] && appended == old(appended) + [b]
      ensures old(Conserved()) ==> Conserved()
    {
      buffer[pptr] := b;
      pptr := pptr + 1;
      appended := appended + [b];
    }

    /** Appends one character; throws exactly when the input sequence fills the buffer to its limit, and then
        leaves everything as it was. */
    method Overflow(c: int) returns (ok: bool, r: int)
      requires Valid() && (c == EOF || 0 <= c < 256)
      modifies this, buffer
      ensures Valid() && removed == old(removed) && (buffer == old(buffer) || fresh(buffer))
      ensures old(Conserved()) ==> Conserved()
      ensures ok <==> c == EOF || old(Size()) < maxSize
      ensures ok && c != EOF ==> r == c && Contents() == old(Contents()) + [c as byte] && appended == old(appended) + [c as byte]
      ensures !ok || c == EOF ==> Contents() == old(Contents()) && appended == old(appended)
      ensures !ok || c == EOF ==>
                gptr == old(gptr) && egptr == old(egptr) && pptr == old(pptr) && epptr == old(epptr)
      ensures ok && c != EOF && old(pptr < epptr) ==>
                gptr == old(gptr) && egptr == old(egptr) && pptr == old(pptr) + 1 && epptr == old(epptr)
      ensures ok && c != EOF && old(pptr == epptr) ==>
                gptr == 0 && egptr + 1 == pptr && epptr == Max(old(epptr), egptr + Min(BUFFER_DELTA, maxSize - egptr))
      ensures c == EOF ==> r != EOF
    {
      if c != EOF {
        if pptr == epptr {
          var bufferSize := pptr - gptr;
          if bufferSize < maxSize && maxSize - bufferSize < BUFFER_DELTA {
            ok := Reserve(maxSize - bufferSize);
          } else {
            ok := Reserve(BUFFER_DELTA);
          }
          if !ok {
            return false, EOF;
          }
        }
        PutNext(c as byte);
        return true, c;
      }
      return true, 0;
    }

    /** The preferred size of the next read, given the capacity of the underlying vector. */
    function ReadSizeHelper(wanted: nat, capacity: nat): (n: nat)
      requires Valid() && buffer.Length <= capacity
      reads this
      ensures n <= wanted && Size() + n <= maxSize
      ensures n == 0 <==> wanted == 0 || Size() == maxSize
      ensures n <= 512 || Size() + n <= capacity
      ensures n < wanted && Size() + n < maxSize ==> n >= 512 && Size() + n >= capacity
    {
      Min(Max(512, capacity - Size()), Min(wanted, maxSize - Size()))
    }
  }

  /** Preparing what `read_size_helper` proposes never throws. */
  method PrepareForRead(sb: StreamBuffer, wanted: nat, capacity: nat) returns (ok: bool, start: nat)
    requires sb.Valid() && sb.buffer.Length <= capacity
    modifies sb, sb.buffer
    ensures ok && sb.Valid() && sb.Contents() == old(sb.Contents())
    ensures sb.buffer == old(sb.buffer) || fresh(sb.buffer)
    ensures start == sb.pptr && start + old(sb.ReadSizeHelper(wanted, capacity)) <= sb.epptr
    ensures sb.appended == old(sb.appended) && sb.removed == old(sb.removed) && (old(sb.Conserved()) ==> sb.Conserved())
    ensures sb.Now() == Reserved(old(sb.Now()), old(sb.ReadSizeHelper(wanted, capacity)))
  {
    ok, start := sb.Prepare(sb.ReadSizeHelper(wanted, capacity));
  }

  /** The caller fills the output sequence that `prepare` made room for. */
  method Fill(sb: StreamBuffer, data: seq<byte>)
    requires sb.Conserved() && sb.pptr + |data| <= sb.epptr
    modifies sb.buffer
    ensures sb.Conserved() && sb.Contents() == old(sb.Contents())
    ensures sb.Output(|data|) == data
  {
    for i := 0 to |data|
      invariant sb.Conserved() && sb.Contents() == old(sb.Contents())
      invariant sb.Output(i) == data[..i]
    {
      OneMoreWritten(sb.buffer[..], sb.pptr, i, data[i]);
      sb.Write(sb.pptr + i, data[i]);
      assert data[..i + 1] == data[..i] + [data[i]];
    }
    assert data[..|data|] == data;
  }

  method FillAndCommit(sb: StreamBuffer, data: seq<byte>)
    requires sb.Conserved() && sb.pptr + |data| <= sb.epptr && |data| <= INT_MAX
    modifies sb, sb.buffer
    ensures sb.Conserved() && sb.Contents() == old(sb.Contents()) + data && sb.appended == old(sb.appended) + data
    ensures sb.removed == old(sb.removed) && sb.buffer == old(sb.buffer)
    ensures sb.gptr == old(sb.gptr) && sb.pptr == old(sb.pptr) + |data| && sb.epptr == old(sb.epptr)
  {
    Fill(sb, data);
    sb.Commit(|data|);
  }

  /** Prepare `room` bytes, write some of them, commit those: what was written is what is appended. */
  method Append(sb: StreamBuffer, room: nat, data: seq<byte>) returns (ok: bool)
    requires sb.Conserved() && |data| <= room && |data| <= INT_MAX
    modifies sb, sb.buffer
    ensures sb.Valid() && sb.removed == old(sb.removed) && (sb.buffer == old(sb.buffer) || fresh(sb.buffer))
    ensures ok <==> old(sb.Size()) + room <= sb.maxSize
    ensures ok ==> sb.Conserved() && sb.Contents() == old(sb.Contents()) + data && sb.appended == old(sb.appended) + data
    ensures ok ==> var r := Reserved(old(sb.Now()), room); sb.Now() == View(r.c + data, r.start, r.end)
    ensures !ok ==> sb.gptr == old(sb.gptr) && sb.epptr == old(sb.epptr) && sb.appended == old(sb.appended)
    ensures !ok ==> sb.Contents() == Shifted(old(sb.Contents()), old(sb.gptr))
  {
    var start;
    ok, start := sb.Prepare(room);
    if ok {
      FillAndCommit(sb, data);
    }
  }

  /** Two gibibytes are prepared and committed in one go: `pptr` lands in front of the array. */
  method CommitGoesAstray() returns (sb: StreamBuffer)
    ensures sb.gptr == 0 && sb.pptr == -0x8000_0000 && sb.epptr == 0x8000_0000
  {
    sb := new StreamBuffer(0x8000_0000);
    var ok, start := sb.Prepare(0x8000_0000);
    sb.Commit(0x8000_0000);
  }

  /** Asking for everything with the largest size moves the position backwards instead. */
  lemma ConsumeAllMovesBack(base: nat, gptr: nat, pptr: nat)
    requires gptr <= pptr && 0 < base && base + pptr <= SIZE_MAX
    ensures ConsumeMove(base, gptr, pptr, SIZE_MAX) == -1
  {
    CastKeepsLowBits(SIZE_MAX);
  }

  /** An empty buffer from which everything is consumed so. */
  method ConsumeGoesAstray(base: nat) returns (sb: StreamBuffer)
    requires 0 < base && base + 4 <= SIZE_MAX
    ensures sb.gptr == -1 && sb.pptr == 0
  {
    sb := new StreamBuffer(4);
    ConsumeAllMovesBack(base, 0, 0);
    sb.Consume(SIZE_MAX, base);
  }

  /** A `prepare` that throws leaves the input sequence as it was exactly when that repeats itself with the period
      by which it was moved: at once when nothing had been consumed, or as much as is still there. */
  lemma ThrowPreservesIff(c: seq<byte>, g: nat)
    ensures Shifted(c, g) == c <==> forall i :: 0 <= i < |c| - g ==> c[i] == c[i + g]
  {
    if 0 < g < |c| {
      var r := Shifted(c, g);
      assert forall i :: 0 <= i < |c| - g ==> r[i] == c[i + g];
      assert forall i :: |c| - g <= i < |c| ==> r[i] == c[i];
    }
  }

  /** A buffer of four bytes, one of them consumed, that is asked for two more: `prepare` throws and leaves the input
      sequence 2, 3, 3 where it was 1, 2, 3. */
  method ThrowDamages(base: nat) returns (sb: StreamBuffer, ok: bool)
    requires base + 5 <= SIZE_MAX
    ensures !ok && sb.Valid() && sb.appended == [0, 1, 2, 3] && sb.removed == [0]
    ensures sb.Contents() == [2, 3, 3]
  {
    sb := new StreamBuffer(4);
    ok := Append(sb, 4, [0, 1, 2, 3]);
    sb.Consume(1, base);
    assert sb.Contents() == [1, 2, 3];
    var start;
    ok, start := sb.Prepare(2);
    assert Shifted([1, 2, 3], 1) == [2, 3, 3];
  }

  // Over every run

  datatype Operation =
    | Put(room: nat, data: seq<byte>)    // prepare `room` bytes, write and commit `data`
    | PutChar(c: int)                    // overflow
    | Look                               // underflow
    | Ready(wanted: nat, spare: nat)     // prepare for a read; the vector's capacity exceeds its size by `spare`
    | Drop(n: nat, base: nat)            // consume, while the array is at address `base`

  function Added(op: Operation): seq<byte> {
    match op
    case Put(_, data) => data
    case PutChar(c) => if 0 <= c < 256 then [c as byte] else []
    case _ => []
  }

  /** The room an operation insists on. */
  function Asked(op: Operation): nat {
    if op.Put? then op.room else |Added(op)|
  }

  function AllAdded(ops: seq<Operation>): seq<byte> {
    if ops == [] then [] else AllAdded(ops[..|ops| - 1]) + Added(ops[|ops| - 1])
  }

  lemma AddedNext(before: seq<byte>, ops: seq<Operation>, i: nat)
    requires i < |ops|
    ensures before + AllAdded(ops[..i + 1]) == (before + AllAdded(ops[..i])) + Added(ops[i])
  {
    assert ops[..i + 1][..i] == ops[..i];
    assert before + (AllAdded(ops[..i]) + Added(ops[i])) == (before + AllAdded(ops[..i])) + Added(ops[i]);
  }

  /** A plain queue of at most `max` bytes, or the exception that ends the run. */
  datatype Fifo = Holds(c: seq<byte>) | Thrown

  function FifoStep(c: seq<byte>, op: Operation, max: nat): Fifo {
    if op.Drop? then Holds(c[Min(op.n, |c|)..])
    else if |c| + Asked(op) > max then Thrown
    else Holds(c + Added(op))
  }

  function FifoRun(c: seq<byte>, ops: seq<Operation>, max: nat): Fifo
    decreases |ops|
  {
    if ops == [] then Holds(c)
    else
      match FifoStep(c, ops[0], max)
      case Holds(c') => FifoRun(c', ops[1..], max)
      case Thrown => Thrown
  }

  // Where in the array the queue lies. Only the bounds of `consume` depend on it.

  predicate InArray(v: View, max: nat) {
    v.start + |v.c| <= v.end <= max
  }

  /** The room that is in fact made. */
  function Room(v: View, op: Operation, max: nat): nat
    requires InArray(v, max)
  {
    match op
    case Put(room, _) => room
    case PutChar(c) => if c == EOF || v.start + |v.c| < v.end then 0 else Min(BUFFER_DELTA, max - |v.c|)
    case Ready(wanted, spare) => Min(Max(512, Max(v.end, 1) + spare - |v.c|), Min(wanted, max - |v.c|))
    case _ => 0
  }

  /** What the operation demands where the queue stands: that no more is written than was prepared, that counts fit
      an `int`, and that `consume` is exact. */
  predicate Fits(v: View, op: Operation) {
    match op
    case Put(room, data) => |data| <= room && |data| <= INT_MAX
    case PutChar(c) => c == EOF || 0 <= c < 256
    case Drop(n, base) =>
      n <= SIZE_MAX && base + Max(v.end, 1) <= SIZE_MAX && ConsumeIsExact(base, v.start, v.start + |v.c|, n)
    case _ => true
  }

  /** Where an operation that does not throw leaves the input sequence. */
  function Moved(v: View, op: Operation, max: nat): (v': View)
    requires InArray(v, max) && Fits(v, op) && |v.c| + Asked(op) <= max
    ensures InArray(v', max) && FifoStep(v.c, op, max) == Holds(v'.c)
  {
    if op.Drop? then
      var k := Min(op.n, |v.c|);
      View(v.c[k..], v.start + k, v.end)
    else
      var r := Reserved(v, Room(v, op, max));
      View(v.c + Added(op), r.start, r.end)
  }

  /** Every operation up to the first exception fits. */
  predicate AllFit(v: View, ops: seq<Operation>, max: nat)
    requires InArray(v, max)
    decreases |ops|
  {
    ops == [] ||
    (Fits(v, ops[0]) && (|v.c| + Asked(ops[0]) <= max ==> AllFit(Moved(v, ops[0], max), ops[1..], max)))
  }

  method StepPutChar(sb: StreamBuffer, op: Operation) returns (ok: bool)
    requires sb.Conserved() && Fits(sb.Now(), op) && op.PutChar?
    modifies sb, sb.buffer
    ensures sb.Valid() && (sb.buffer == old(sb.buffer) || fresh(sb.buffer))
    ensures ok <==> old(sb.Size()) + Asked(op) <= sb.maxSize
    ensures ok ==> sb.Conserved() && sb.appended == old(sb.appended) + Added(op)
    ensures ok ==> sb.Now() == Moved(old(sb.Now()), op, sb.maxSize)
  {
    var r;
    ok, r := sb.Overflow(op.c);
    if op.c == EOF {
      assert sb.Contents() == sb.Contents() + [] && sb.appended == sb.appended + [];
    }
  }

  method StepReady(sb: StreamBuffer, op: Operation) returns (ok: bool)
    requires sb.Conserved() && op.Ready?
    modifies sb, sb.buffer
    ensures ok && sb.Conserved() && (sb.buffer == old(sb.buffer) || fresh(sb.buffer))
    ensures sb.appended == old(sb.appended) && sb.Now() == Moved(old(sb.Now()), op, sb.maxSize)
  {
    assert sb.Contents() + [] == sb.Contents();
    var start;
    ok, start := PrepareForRead(sb, op.wanted, sb.buffer.Length + op.spare);
  }

  method StepDrop(sb: StreamBuffer, op: Operation)
    requires sb.Conserved() && Fits(sb.Now(), op) && op.Drop?
    modifies sb
    ensures sb.Conserved() && sb.buffer == old(sb.buffer) && sb.appended == old(sb.appended)
    ensures sb.Now() == Moved(old(sb.Now()), op, sb.maxSize)
  {
    sb.Consume(op.n, op.base);
    ConsumeIsExactIff(op.base, old(sb.gptr), old(sb.pptr), op.n);
  }

  method Step(sb: StreamBuffer, op: Operation) returns (ok: bool)
    requires sb.Conserved() && Fits(sb.Now(), op)
    modifies sb, sb.buffer
    ensures sb.Valid() && (sb.buffer == old(sb.buffer) || fresh(sb.buffer))
    ensures ok <==> old(sb.Size()) + Asked(op) <= sb.maxSize
    ensures ok ==> sb.Conserved() && sb.appended == old(sb.appended) + Added(op)
    ensures ok ==> sb.Now() == Moved(old(sb.Now()), op, sb.maxSize)
  {
    ok := true;
    assert sb.Contents() + [] == sb.Contents() && sb.appended + [] == sb.appended;
    match op
    case Put(room, data) =>
      ok := Append(sb, room, data);
    case PutChar(c) =>
      ok := StepPutChar(sb, op);
    case Look =>
      var c := sb.Underflow();
    case Ready(wanted, spare) =>
      ok := StepReady(sb, op);
    case Drop(n, base) =>
      StepDrop(sb, op);
  }

  /** Whatever the operations, the stream buffer behaves as a plain bounded queue: it throws when the room asked for
      is not there, holds the same bytes, and what was consumed followed by what is left is what was appended. */
  method Run(sb: StreamBuffer, ops: seq<Operation>) returns (ok: bool)
    requires sb.Conserved() && AllFit(sb.Now(), ops, sb.maxSize)
    modifies sb, sb.buffer
    ensures sb.Valid() && (sb.buffer == old(sb.buffer) || fresh(sb.buffer))
    ensures ok <==> FifoRun(old(sb.Contents()), ops, sb.maxSize) != Thrown
    ensures ok ==> FifoRun(old(sb.Contents()), ops, sb.maxSize) == Holds(sb.Contents())
    ensures ok ==> sb.Conserved() && sb.appended == old(sb.appended) + AllAdded(ops)
  {
    for i := 0 to |ops|
      invariant sb.Conserved() && (sb.buffer == old(sb.buffer) || fresh(sb.buffer))
      invariant AllFit(sb.Now(), ops[i..], sb.maxSize)
      invariant FifoRun(old(sb.Contents()), ops, sb.maxSize) == FifoRun(sb.Contents(), ops[i..], sb.maxSize)
      invariant sb.appended == old(sb.appended) + AllAdded(ops[..i])
    {
      assert ops[i..][0] == ops[i] && ops[i..][1..] == ops[i + 1..];
      AddedNext(old(sb.appended), ops, i);
      var done := Step(sb, ops[i]);
      if !done {
        return false;
      }
    }
    assert ops[..|ops|] == ops;
    return true;
  }

  // Bounds that can be checked before the run

  /** By how much an operation can make the array grow. */
  function Growth(op: Operation): nat {
    match op
    case Put(room, _) => room
    case PutChar(_) => BUFFER_DELTA
    case Ready(wanted, _) => wanted
    case _ => 0
  }

  function AllGrowth(ops: seq<Operation>): nat {
    if ops == [] then 0 else Growth(ops[0]) + AllGrowth(ops[1..])
  }

  /** In an array that never exceeds `room`. */
  predicate InBounds(op: Operation, room: nat) {
    match op
    case Drop(n, base) => Min(n, room) <= INT_MAX && base + room + 1 + n <= SIZE_MAX
    case _ => Fits(View([], 0, 0), op)
  }

  /** It is enough that each operation fits the largest array the run can lead to; the limit of the buffer does not
      matter. */
  lemma {:induction false} InBoundsFit(v: View, ops: seq<Operation>, max: nat, room: nat)
    requires InArray(v, max) && v.end + AllGrowth(ops) <= room
    requires forall i :: 0 <= i < |ops| ==> InBounds(ops[i], room)
    ensures AllFit(v, ops, max)
    decreases |ops|
  {
    if ops != [] && |v.c| + Asked(ops[0]) <= max {
      InBoundsFit(Moved(v, ops[0], max), ops[1..], max, room);
    }
  }

  /** With the default limit, which is the largest size. */
  method DefaultLimit(data: seq<byte>, n: nat, base: nat) returns (sb: StreamBuffer)
    requires |data| <= 512 && base + 641 + n <= SIZE_MAX
    ensures sb.Conserved() && sb.Contents() == data[Min(n, |data|)..]
  {
    sb := new StreamBuffer(SIZE_MAX);
    var ops := [Put(512, data), Drop(n, base)];
    assert [] + data == data;
    TwoSteps([], ops[0], ops[1], SIZE_MAX);
    InBoundsFit(sb.Now(), ops, SIZE_MAX, 640);
    var ok := Run(sb, ops);
  }

  lemma TwoSteps(c: seq<byte>, op1: Operation, op2: Operation, max: nat)
    requires FifoStep(c, op1, max).Holds?
    ensures AllGrowth([op1, op2]) == Growth(op1) + Growth(op2)
    ensures FifoRun(c, [op1, op2], max) == FifoStep(FifoStep(c, op1, max).c, op2, max)
  {
    assert [op1, op2][1..] == [op2] && [op2][1..] == [];
    assert AllGrowth([op2]) == Growth(op2);
    var c' := FifoStep(c, op1, max).c;
    assert FifoRun(c', [op2], max) == FifoStep(c', op2, max) by {
      assert forall c'' :: FifoRun(c'', [], max) == Holds(c'');
    }
  }
}
