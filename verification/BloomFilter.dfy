/** The bitmap that spares the server a database query for unknown names. It is built at start-up with one copy of
    a hash function (serverV2.cpp) and consulted with another (HandleServerV2.cpp). */
module BloomFilter {
  import opened Bits

  const MODULUS: int := 10_000_000
  const WORDS: nat := 1_000_000

  /** `int`: arithmetic in this type is checked against overflow. */
  newtype int32 = x: int | -0x8000_0000 <= x < 0x8000_0000

  /** A character of a byte string, as the signed `char` it is. */
  function Code(ch: char): int {
    if ch as int < 128 then ch as int else ch as int - 256
  }

  /** The value is that of a `signed char`: the code itself up to 127, and beyond that what the same eight bits mean in
      two's complement. */
  lemma CodeIsSignedChar(ch: char)
    requires ch as int < 256
    ensures -128 <= Code(ch) < 128 && (Code(ch) - ch as int) % 256 == 0
    ensures ch as int < 128 <==> Code(ch) == ch as int
  {
    assert (-256) % 256 == 0;
  }

  predicate Bytes(name: string) {
    forall i :: 0 <= i < |name| ==> name[i] as int < 256
  }

  predicate Ascii(name: string) {
    forall i :: 0 <= i < |name| ==> name[i] as int < 128
  }

  /** The running value after the whole of `name`. */
  function HashOf(name: string): int {
    if name == [] then 0
    else
      var hash := HashOf(name[..|name| - 1]) * 131 + Code(name[|name| - 1]);
      if hash >= MODULUS then hash % MODULUS else hash
  }

  /** The name as a number in base 131. */
  function Polynomial(name: string): int {
    if name == [] then 0 else Polynomial(name[..|name| - 1]) * 131 + Code(name[|name| - 1])
  }

  /** No character beyond ASCII comes where the number so far is a multiple of the modulus; none comes first, above
      all. */
  ghost predicate Hashable(name: string) {
    Bytes(name) && forall k :: 0 <= k < |name| ==> Code(name[k]) >= 0 || Polynomial(name[..k]) % MODULUS != 0
  }

  predicate IsInt(x: int) {
    -0x8000_0000 <= x < 0x8000_0000
  }

  /** Every intermediate value is an `int`, and the result numbers a bit of the bitmap. */
  ghost predicate HashIsSafe(name: string) {
    && (forall k :: 0 <= k < |name| ==> IsInt(HashOf(name[..k]) * 131) && IsInt(HashOf(name[..k]) * 131 + Code(name[k])))
    && 0 <= HashOf(name) < MODULUS
  }

  lemma PrefixOf(name: string, k: nat)
    requires k < |name|
    ensures name[..k + 1][..k] == name[..k] && name[..k + 1][k] == name[k]
    ensures var v := HashOf(name[..k]) * 131 + Code(name[k]);
      HashOf(name[..k + 1]) == if v >= MODULUS then v % MODULUS else v
    ensures Polynomial(name[..k + 1]) == Polynomial(name[..k]) * 131 + Code(name[k])
  {
    assert name[..k + 1][..k] == name[..k];
  }

  /** The value before the reduction, over the first `k` characters. */
  ghost predicate NeverNegative(name: string, k: nat)
    requires k <= |name|
  {
    forall i :: 0 <= i < k ==> HashOf(name[..i]) * 131 + Code(name[i]) >= 0
  }

  /** As long as the value never turns negative, the conditional reduction computes the base-131 number modulo ten
      million. */
  lemma {:induction false} HashTracks(name: string, k: nat)
    requires k <= |name| && NeverNegative(name, k)
    ensures HashOf(name[..k]) == Polynomial(name[..k]) % MODULUS
  {
    if k > 0 {
      HashTracks(name, k - 1);
      PrefixOf(name, k - 1);
      ReduceStep(Polynomial(name[..k - 1]), HashOf(name[..k - 1]), Code(name[k - 1]));
    }
  }

  lemma {:induction false} HashableNeverNegative(name: string, k: nat)
    requires Hashable(name) && k <= |name|
    ensures NeverNegative(name, k)
  {
    if k > 0 {
      HashableNeverNegative(name, k - 1);
      HashTracks(name, k - 1);
    }
  }

  lemma HashIsPolynomial(name: string, k: nat)
    requires Hashable(name) && k <= |name|
    ensures HashOf(name[..k]) == Polynomial(name[..k]) % MODULUS
  {
    HashableNeverNegative(name, k);
    HashTracks(name, k);
  }

  lemma HashableInRange(name: string, k: nat)
    requires Hashable(name) && k <= |name|
    ensures 0 <= HashOf(name[..k]) < MODULUS
    ensures k < |name| ==> 0 <= HashOf(name[..k]) * 131 + Code(name[k]) < 0x8000_0000
  {
    HashIsPolynomial(name, k);
  }

  /** Once negative, the value never recovers: no character makes up for a factor of 131. */
  lemma {:induction false} NegativeStays(name: string, k: nat)
    requires Bytes(name) && k <= |name| && HashOf(name[..k]) < 0
    ensures HashOf(name) < 0
    decreases |name| - k
  {
    if k < |name| {
      PrefixOf(name, k);
      NegativeStays(name, k + 1);
    } else {
      assert name[..k] == name;
    }
  }

  lemma SafeIsHashable(name: string, k: nat)
    requires Bytes(name) && HashIsSafe(name) && k < |name|
    ensures Code(name[k]) >= 0 || Polynomial(name[..k]) % MODULUS != 0
  {
    forall i | 0 <= i < |name|
      ensures HashOf(name[..i]) * 131 + Code(name[i]) >= 0
    {
      PrefixOf(name, i);
      if HashOf(name[..i + 1]) < 0 {
        NegativeStays(name, i + 1);
      }
    }
    HashTracks(name, k);
  }

  /** The hash arithmetic neither overflows nor leaves the bitmap, for exactly the hashable names. */
  lemma SafeIffHashable(name: string)
    requires Bytes(name)
    ensures HashIsSafe(name) <==> Hashable(name)
  {
    if Hashable(name) {
      assert name[..|name|] == name;
      HashableInRange(name, |name|);
      forall k | 0 <= k < |name|
        ensures IsInt(HashOf(name[..k]) * 131) && IsInt(HashOf(name[..k]) * 131 + Code(name[k]))
      {
        HashableInRange(name, k);
      }
    } else if HashIsSafe(name) {
      forall k | 0 <= k < |name|
        ensures Code(name[k]) >= 0 || Polynomial(name[..k]) % MODULUS != 0
      {
        SafeIsHashable(name, k);
      }
    }
  }

  lemma AsciiIsHashable(name: string)
    requires Ascii(name)
    ensures Hashable(name)
  {
  }

  /** A name that begins beyond ASCII, as one in Chinese does, is not hashable: its value is negative. */
  lemma NonAsciiStart(name: string)
    requires Bytes(name) && name != [] && name[0] as int >= 128
    ensures !Hashable(name) && HashOf(name[..1]) < 0
  {
    assert name[..0] == [];
    PrefixOf(name, 0);
  }

  lemma ReduceStep(p: int, h: int, c: int)
    requires h == p % MODULUS && h * 131 + c >= 0
    ensures (if h * 131 + c >= MODULUS then (h * 131 + c) % MODULUS else h * 131 + c) == (p * 131 + c) % MODULUS
  {
    var q := p / MODULUS;
    assert p == q * MODULUS + h;
    assert p * 131 + c == (h * 131 + c) + (q * 131) * MODULUS;
    ModShift(h * 131 + c, q * 131);
  }

  lemma ModShift(x: int, k: int)
    ensures (x + k * MODULUS) % MODULUS == x % MODULUS
  {
    assert x + k * MODULUS == (x / MODULUS + k) * MODULUS + x % MODULUS;
  }

  /** The copy of the hash in the request handler. */
  method HandlerHash(name: string) returns (hash: int32)
    requires Hashable(name)
    ensures hash as int == HashOf(name) == Polynomial(name) % 10_000_000
    ensures 0 <= hash as int / WORD_BITS < 312_500
  {
    hash := 0;
    for i := 0 to |name|
      invariant hash as int == HashOf(name[..i])
    {
      HashableInRange(name, i);
      PrefixOf(name, i);
      hash := hash * 131 + Code(name[i]) as int32;
      if hash >= 10_000_000 {
        hash := hash % 10_000_000;
      }
    }
    assert name[..|name|] == name;
    HashableInRange(name, |name|);
    HashIsPolynomial(name, |name|);
  }

  /** The copy in the server's start-up code, with one modulus more. */
  method BuilderHash(name: string) returns (hash: int32)
    requires Hashable(name)
    ensures hash as int == HashOf(name)
    ensures 0 <= hash as int / WORD_BITS < 312_500
  {
    hash := 0;
    for i := 0 to |name|
      invariant hash as int == HashOf(name[..i])
    {
      HashableInRange(name, i);
      PrefixOf(name, i);
      hash := hash * 131 + Code(name[i]) as int32;
      if hash >= 10_000_000 {
        hash := hash % 10_000_000;
      }
    }
    assert name[..|name|] == name;
    HashableInRange(name, |name|);
    hash := hash % 32_000_000;
  }

  // The bitmap

  predicate BitAt(words: seq<word>, h: nat)
    requires h < WORD_BITS * |words|
  {
    Digit(words[h / WORD_BITS], h % WORD_BITS)
  }

  lemma BitOfWord(words: seq<word>, i: nat, j: nat)
    requires i < |words| && j < WORD_BITS
    ensures BitAt(words, WORD_BITS * i + j) <==> Digit(words[i], j)
  {
  }

  ghost function Hashes(names: seq<string>): set<int> {
    set i | 0 <= i < |names| :: HashOf(names[i])
  }

  /** The bits that are set are exactly those numbered in `hashes`. */
  ghost predicate Represents(words: seq<word>, hashes: set<int>) {
    forall h: nat :: h < WORD_BITS * |words| ==> (BitAt(words, h) <==> h in hashes)
  }

  lemma NoBits(words: seq<word>)
    requires forall i :: 0 <= i < |words| ==> words[i] == 0
    ensures Represents(words, {})
  {
    forall h: nat | h < WORD_BITS * |words|
      ensures !BitAt(words, h)
    {
      DigitOfZero(h % WORD_BITS);
    }
  }

  method LoadFilter(bitmap: array<word>, names: seq<string>)
    requires bitmap.Length == WORDS && forall i :: 0 <= i < |names| ==> Hashable(names[i])
    modifies bitmap
    ensures Represents(bitmap[..], Hashes(names))
  {
    forall i | 0 <= i < bitmap.Length {
      bitmap[i] := 0;
    }
    NoBits(bitmap[..]);
    assert Hashes(names[..0]) == {};
    for i := 0 to |names|
      invariant Represents(bitmap[..], Hashes(names[..i]))
    {
      var hash := BuilderHash(names[i]);
      var index, pos := hash as int / WORD_BITS, hash as int % WORD_BITS;
      ghost var before := bitmap[..];
      OrIsWord(bitmap[index], pos);
      bitmap[index] := Or(bitmap[index], Bit(pos));
      OneMoreBit(before, bitmap[..], bitmap[index], Hashes(names[..i]), hash as int);
      assert names[..i + 1] == names[..i] + [names[i]];
      HashesAppend(names[..i], names[i]);
    }
    assert names[..|names|] == names;
  }

  lemma HashesAppend(names: seq<string>, name: string)
    ensures Hashes(names + [name]) == Hashes(names) + {HashOf(name)}
  {
    var more := names + [name];
    forall h | h in Hashes(names) + {HashOf(name)}
      ensures h in Hashes(more)
    {
      if h in Hashes(names) {
        var i :| 0 <= i < |names| && HashOf(names[i]) == h;
        assert more[i] == names[i];
      } else {
        assert more[|names|] == name;
      }
    }
  }

  /** Setting one bit adds that bit and clears none. */
  lemma OneMoreBit(before: seq<word>, after: seq<word>, updated: word, hashes: set<int>, hash: nat)
    requires Represents(before, hashes) && hash < WORD_BITS * |before|
    requires updated == Or(before[hash / WORD_BITS], Bit(hash % WORD_BITS)) && after == before[hash / WORD_BITS := updated]
    ensures Represents(after, hashes + {hash})
  {
    forall h: nat | h < WORD_BITS * |after|
      ensures BitAt(after, h) <==> h in hashes + {hash}
    {
      SetsDigit(before[hash / WORD_BITS], hash % WORD_BITS, h % WORD_BITS);
      assert BitAt(before, h) <==> h in hashes;
    }
  }

  ghost function SetBits(words: seq<word>, limit: nat): set<int>
    requires limit <= WORD_BITS * |words|
  {
    set h | 0 <= h < limit && BitAt(words, h)
  }

  lemma NextBit(words: seq<word>, k: nat)
    requires k < WORD_BITS * |words|
    ensures |SetBits(words, k + 1)| == |SetBits(words, k)| + if BitAt(words, k) then 1 else 0
  {
    assert SetBits(words, k + 1) == SetBits(words, k) + if BitAt(words, k) then {k} else {};
  }

  /** The report at start-up: shift a one through every word and test. */
  method CountBits(bitmap: array<word>) returns (one: nat, zero: nat)
    ensures one == |SetBits(bitmap[..], WORD_BITS * bitmap.Length)|
    ensures one + zero == WORD_BITS * bitmap.Length
  {
    one, zero := 0, 0;
    for i := 0 to bitmap.Length
      invariant one == |SetBits(bitmap[..], WORD_BITS * i)| && one + zero == WORD_BITS * i
    {
      var b: word := 1;
      for j := 0 to WORD_BITS
        invariant one == |SetBits(bitmap[..], WORD_BITS * i + j)| && one + zero == WORD_BITS * i + j
        invariant j < WORD_BITS ==> b == Bit(j)
      {
        NextBit(bitmap[..], WORD_BITS * i + j);
        BitOfWord(bitmap[..], i, j);
        TestsDigit(bitmap[i], j);
        BitIsWord(j);
        if And(bitmap[i], b) != 0 {
          one := one + 1;
        } else {
          zero := zero + 1;
        }
        b := Double(b);
      }
    }
  }

  /** The number of ones reported is the number of different hash values among the loaded names. */
  lemma OnesAreDistinctHashes(words: seq<word>, names: seq<string>)
    requires |words| == WORDS && Represents(words, Hashes(names))
    requires forall i :: 0 <= i < |names| ==> Hashable(names[i])
    ensures SetBits(words, WORD_BITS * WORDS) == Hashes(names)
  {
    forall h | h in Hashes(names)
      ensures 0 <= h < WORD_BITS * WORDS && BitAt(words, h)
    {
      var i :| 0 <= i < |names| && HashOf(names[i]) == h;
      SafeIffHashable(names[i]);
    }
  }

  method LoadAndReport(bitmap: array<word>, names: seq<string>) returns (one: nat, zero: nat)
    requires bitmap.Length == WORDS && forall i :: 0 <= i < |names| ==> Hashable(names[i])
    modifies bitmap
    ensures Represents(bitmap[..], Hashes(names))
    ensures one == |Hashes(names)| && one + zero == 32_000_000
  {
    LoadFilter(bitmap, names);
    one, zero := CountBits(bitmap);
    OnesAreDistinctHashes(bitmap[..], names);
  }

  // Login

  predicate DirectLogin(table: map<string, string>, name: string, pass: string) {
    name in table && table[name] == pass
  }

  /** The login branch: a clear bit settles the matter without a query. */
  method FilteredLogin(bitmap: array<word>, table: map<string, string>, name: string, pass: string) returns (ok: bool)
    requires bitmap.Length == WORDS && Hashable(name)
    ensures ok == FilteredAnswer(bitmap[..], table, name, pass)
    ensures ok ==> name in table && table[name] == pass
    ensures name in table && table[name] == pass ==>
              forall loaded :: Represents(bitmap[..], Hashes(loaded)) && HashOf(name) in Hashes(loaded) ==> ok
  {
    SafeIffHashable(name);
    var hash := HandlerHash(name);
    var index, pos := hash as int / WORD_BITS, hash as int % WORD_BITS;
    var flag := 0;
    TestsDigit(bitmap[index], pos);
    if And(bitmap[index], Bit(pos)) == 0 {
      ok := false;
      flag := 1;
    }
    if flag == 0 {
      if name in table {
        ok := table[name] == pass;
      } else {
        ok := false;
      }
    }
  }

  ghost predicate FilteredAnswer(words: seq<word>, table: map<string, string>, name: string, pass: string)
    requires |words| == WORDS && Hashable(name)
  {
    SafeIffHashable(name);
    BitAt(words, HashOf(name)) && DirectLogin(table, name, pass)
  }

  /** The filter never changes an answer if and only if every name in the table today shares its hash value with a
      name that was loaded at start-up. */
  lemma FilterAgreesIff(words: seq<word>, loaded: seq<string>, table: map<string, string>)
    requires |words| == WORDS && Represents(words, Hashes(loaded))
    ensures (forall name, pass :: Hashable(name) ==>
               (FilteredAnswer(words, table, name, pass) <==> DirectLogin(table, name, pass)))
       <==> (forall name :: name in table && Hashable(name) ==> HashOf(name) in Hashes(loaded))
  {
    forall name | Hashable(name)
      ensures 0 <= HashOf(name) < MODULUS
      ensures BitAt(words, HashOf(name)) <==> HashOf(name) in Hashes(loaded)
    {
      SafeIffHashable(name);
    }
    if name :| name in table && Hashable(name) && HashOf(name) !in Hashes(loaded) {
      assert DirectLogin(table, name, table[name]) && !FilteredAnswer(words, table, name, table[name]);
    }
  }

  /** While the table is the one loaded at start-up, the filter is invisible. */
  lemma FilterAgreesAtStartup(words: seq<word>, loaded: seq<string>, table: map<string, string>, name: string, pass: string)
    requires |words| == WORDS && Represents(words, Hashes(loaded))
    requires forall n :: n in table ==> n in loaded
    requires Hashable(name)
    ensures FilteredAnswer(words, table, name, pass) <==> DirectLogin(table, name, pass)
  {
    forall n | n in table
      ensures HashOf(n) in Hashes(loaded)
    {
      var i :| 0 <= i < |loaded| && loaded[i] == n;
    }
    FilterAgreesIff(words, loaded, table);
  }

  /** A user who registers after start-up can be refused with the right password: registration sets no bit. */
  lemma LateRegistrationIsRefused(words: seq<word>)
    requires |words| == WORDS && Represents(words, Hashes(["ann"]))
    ensures Hashable("bob")
    ensures !FilteredAnswer(words, map["ann" := "x", "bob" := "y"], "bob", "y")
    ensures DirectLogin(map["ann" := "x", "bob" := "y"], "bob", "y")
  {
    AsciiIsHashable("bob");
    SafeIffHashable("bob");
    HashOfThree("ann");
    HashOfThree("bob");
    HashesAppend([], "ann");
    assert [] + ["ann"] == ["ann"];
  }

  lemma HashOfThree(s: string)
    requires |s| == 3 && Ascii(s)
    ensures HashOf(s) == (Code(s[0]) * 131 + Code(s[1])) * 131 + Code(s[2])
  {
    assert s[..2][..1] == s[..1] && s[..1][..0] == [];
    assert HashOf(s[..1]) == Code(s[0]);
    assert HashOf(s[..2]) == Code(s[0]) * 131 + Code(s[1]);
  }
}
