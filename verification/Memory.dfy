/** Byte memory addressed by number, and the meaning of a flat copy between two lists of addresses. */
module Memory {
  import opened Chunks

  const SIZE_MAX: nat := 0xFFFF_FFFF_FFFF_FFFF

  function Min(a: nat, b: nat): nat {
    if a < b then a else b
  }

  ghost predicate Within(addrs: seq<nat>, size: nat) {
    forall i :: 0 <= i < |addrs| ==> addrs[i] < size
  }

  ghost predicate NoRepeats(addrs: seq<nat>) {
    forall i, j :: 0 <= i < j < |addrs| ==> addrs[i] != addrs[j]
  }

  ghost function Cells(addrs: seq<nat>): set<nat> {
    set a | a in addrs
  }

  ghost predicate Apart(a: seq<nat>, b: seq<nat>) {
    Cells(a) !! Cells(b)
  }

  function Range(start: nat, n: nat): seq<nat> {
    seq(n, i requires 0 <= i < n => start + i)
  }

  ghost function Load(m: seq<byte>, addrs: seq<nat>): (bytes: seq<byte>)
    requires Within(addrs, |m|)
    ensures |bytes| == |addrs| && forall i :: 0 <= i < |addrs| ==> bytes[i] == m[addrs[i]]
  {
    seq(|addrs|, i requires 0 <= i < |addrs| => m[addrs[i]])
  }

  /** The last of the first `n` targets that is address `a`, or -1. */
  ghost function LastWrite(target: seq<nat>, n: nat, a: nat): (i: int)
    requires n <= |target|
    ensures -1 <= i < n
    ensures i >= 0 ==> target[i] == a
  {
    if n == 0 then -1 else if target[n - 1] == a then n - 1 else LastWrite(target, n - 1, a)
  }

  /** The flat copy of `n` bytes: every address holds the source byte, as it was, of the last target that it is;
      every other address holds what it held. */
  ghost function FlatCopy(m: seq<byte>, target: seq<nat>, source: seq<nat>, n: nat): (m': seq<byte>)
    requires n <= |target| && n <= |source| && Within(source, |m|)
    ensures |m'| == |m|
  {
    seq(|m|, a requires 0 <= a < |m| => var i := LastWrite(target, n, a); if i < 0 then m[a] else m[source[i]])
  }

  lemma {:induction false} NotWritten(target: seq<nat>, n: nat, a: nat)
    requires n <= |target| && forall i :: 0 <= i < n ==> target[i] != a
    ensures LastWrite(target, n, a) == -1
  {
    if n > 0 {
      NotWritten(target, n - 1, a);
    }
  }

  lemma {:induction false} WrittenOnce(target: seq<nat>, n: nat, i: nat)
    requires i < n <= |target| && NoRepeats(target)
    ensures LastWrite(target, n, target[i]) == i
  {
    if i < n - 1 {
      WrittenOnce(target, n - 1, i);
    }
  }

  lemma SourceNotWritten(m: seq<byte>, target: seq<nat>, source: seq<nat>, n: nat, i: nat)
    requires n <= |target| && n <= |source| && Within(source, |m|) && Apart(target, source) && i < |source|
    ensures FlatCopy(m, target, source, n)[source[i]] == m[source[i]]
  {
    assert source[i] in Cells(source) && source[i] !in Cells(target);
    assert forall j :: 0 <= j < n ==> target[j] in Cells(target);
    NotWritten(target, n, source[i]);
  }

  lemma {:induction false} LastWriteSame(t: seq<nat>, t': seq<nat>, n: nat, a: nat)
    requires n <= |t| && n <= |t'| && forall i :: 0 <= i < n ==> t[i] == t'[i]
    ensures LastWrite(t, n, a) == LastWrite(t', n, a)
  {
    if n > 0 {
      LastWriteSame(t, t', n - 1, a);
    }
  }

  /** Only the first `n` addresses of either side matter. */
  lemma CopySame(m: seq<byte>, t: seq<nat>, s: seq<nat>, t': seq<nat>, s': seq<nat>, n: nat)
    requires n <= |t| && n <= |s| && Within(s, |m|) && n <= |t'| && n <= |s'| && Within(s', |m|)
    requires forall i :: 0 <= i < n ==> t[i] == t'[i] && s[i] == s'[i]
    ensures FlatCopy(m, t, s, n) == FlatCopy(m, t', s', n)
  {
    forall a: nat | a < |m|
      ensures FlatCopy(m, t, s, n)[a] == FlatCopy(m, t', s', n)[a]
    {
      LastWriteSame(t, t', n, a);
    }
  }

  lemma {:induction false} LastWriteOfTwo(target: seq<nat>, k: nat, t: seq<nat>, c: nat, a: nat)
    requires k + c <= |target| && c <= |t| && forall i :: 0 <= i < c ==> t[i] == target[k + i]
    ensures LastWrite(target, k + c, a) == if LastWrite(t, c, a) >= 0 then k + LastWrite(t, c, a) else LastWrite(target, k, a)
  {
    if c > 0 {
      LastWriteOfTwo(target, k, t, c - 1, a);
    }
  }

  /** A flat copy may be done in two stretches: reading what the first has left does not matter, for it has not
      touched the source. */
  lemma CopyMore(m: seq<byte>, target: seq<nat>, source: seq<nat>, k: nat, t: seq<nat>, s: seq<nat>, c: nat)
    requires k + c <= |target| && k + c <= |source| && Within(source, |m|) && Apart(target, source)
    requires c <= |t| && c <= |s| && Within(s, |m|)
    requires forall i :: 0 <= i < c ==> t[i] == target[k + i] && s[i] == source[k + i]
    ensures FlatCopy(FlatCopy(m, target, source, k), t, s, c) == FlatCopy(m, target, source, k + c)
  {
    var m' := FlatCopy(m, target, source, k);
    forall a: nat | a < |m|
      ensures FlatCopy(m', t, s, c)[a] == FlatCopy(m, target, source, k + c)[a]
    {
      LastWriteOfTwo(target, k, t, c, a);
      var i := LastWrite(t, c, a);
      if i >= 0 {
        SourceNotWritten(m, target, source, k, k + i);
      }
    }
  }

  /** What a flat copy means for whoever reads the target, the source or anything else afterwards. */
  lemma FlatCopyMeaning(m: seq<byte>, target: seq<nat>, source: seq<nat>, n: nat)
    requires n <= |target| && n <= |source| && Within(target, |m|) && Within(source, |m|)
    requires Apart(target, source)
    ensures var m' := FlatCopy(m, target, source, n);
      && Load(m', source) == Load(m, source)
      && (forall a :: 0 <= a < |m| && a !in target[..n] ==> m'[a] == m[a])
      && (NoRepeats(target) ==> Load(m', target) == Load(m, source)[..n] + Load(m, target)[n..])
  {
    var m' := FlatCopy(m, target, source, n);
    forall i | 0 <= i < |source|
      ensures m'[source[i]] == m[source[i]]
    {
      SourceNotWritten(m, target, source, n, i);
    }
    forall a | 0 <= a < |m| && a !in target[..n]
      ensures m'[a] == m[a]
    {
      assert forall i :: 0 <= i < n ==> target[..n][i] == target[i];
      NotWritten(target, n, a);
    }
    if NoRepeats(target) {
      TargetReads(m, target, source, n);
    }
  }

  lemma TargetReads(m: seq<byte>, target: seq<nat>, source: seq<nat>, n: nat)
    requires n <= |target| && n <= |source| && Within(target, |m|) && Within(source, |m|) && NoRepeats(target)
    ensures Load(FlatCopy(m, target, source, n), target) == Load(m, source)[..n] + Load(m, target)[n..]
  {
    var m' := FlatCopy(m, target, source, n);
    forall i | 0 <= i < |target|
      ensures m'[target[i]] == if i < n then m[source[i]] else m[target[i]]
    {
      if i < n {
        WrittenOnce(target, n, i);
      } else {
        NotWritten(target, n, target[i]);
      }
    }
  }

  lemma {:induction false} LastWriteOfRange(t: nat, n: nat, k: nat, a: nat)
    requires k <= n
    ensures LastWrite(Range(t, n), k, a) == if t <= a < t + k then a - t else -1
  {
    if k > 0 {
      LastWriteOfRange(t, n, k - 1, a);
    }
  }

  /** `memcpy` between two stretches that do not overlap. */
  method Memcpy(mem: array<byte>, target: nat, source: nat, n: nat)
    requires target + n <= mem.Length && source + n <= mem.Length
    requires target + n <= source || source + n <= target
    modifies mem
    ensures mem[..] == FlatCopy(old(mem[..]), Range(target, n), Range(source, n), n)
  {
    ghost var m := mem[..];
    forall i | 0 <= i < n {
      mem[target + i] := mem[source + i];
    }
    ghost var copied := FlatCopy(m, Range(target, n), Range(source, n), n);
    forall a: nat | a < |m|
      ensures copied[a] == mem[a]
    {
      LastWriteOfRange(target, n, n, a);
    }
    assert mem[..] == copied;
  }
}
