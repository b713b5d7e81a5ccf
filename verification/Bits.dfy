/** The bitwise operators on 32-bit words, defined on binary digits. A word is the bit pattern of an `int`, read as
    an unsigned number. */
module Bits {

  const WORD_BITS: nat := 32
  const WORD_VALUES: nat := 0x1_0000_0000

  type word = w: nat | w < WORD_VALUES

  /** `a & b` */
  function And(a: nat, b: nat): nat {
    if a == 0 || b == 0 then 0
    else (if a % 2 == 1 && b % 2 == 1 then 1 else 0) + 2 * And(a / 2, b / 2)
  }

  /** `a | b` */
  function Or(a: nat, b: nat): nat
    decreases a + b
  {
    if a == 0 && b == 0 then 0
    else (if a % 2 == 1 || b % 2 == 1 then 1 else 0) + 2 * Or(a / 2, b / 2)
  }

  /** `a << 1` */
  function Double(a: word): word {
    a * 2 % WORD_VALUES
  }

  /** `1 << pos` */
  function Bit(pos: nat): nat {
    if pos == 0 then 1 else 2 * Bit(pos - 1)
  }

  /** The digit of a number at a position. */
  predicate Digit(a: nat, pos: nat) {
    if pos == 0 then a % 2 == 1 else Digit(a / 2, pos - 1)
  }

  lemma FourMore(pos: nat)
    ensures Bit(pos + 4) == 16 * Bit(pos)
  {
    assert Bit(pos + 2) == 2 * Bit(pos + 1) == 4 * Bit(pos);
    assert Bit(pos + 4) == 2 * Bit(pos + 3) == 4 * Bit(pos + 2);
  }

  lemma LastBit()
    ensures Bit(31) == 0x8000_0000 && Bit(32) == WORD_VALUES
  {
    FourMore(0);
    FourMore(4);
    FourMore(8);
    FourMore(12);
    FourMore(16);
    FourMore(20);
    FourMore(24);
    FourMore(28);
    assert Bit(32) == 2 * Bit(31);
  }

  lemma {:induction false} BitIsWord(pos: nat)
    requires pos < WORD_BITS
    ensures 0 < Bit(pos) <= 0x8000_0000
    ensures pos + 1 < WORD_BITS ==> Double(Bit(pos)) == Bit(pos + 1)
    decreases WORD_BITS - pos
  {
    if pos + 1 < WORD_BITS {
      BitIsWord(pos + 1);
    } else {
      LastBit();
    }
  }

  lemma {:induction false} TestsDigit(a: nat, pos: nat)
    ensures And(a, Bit(pos)) != 0 <==> Digit(a, pos)
  {
    if pos > 0 {
      TestsDigit(a / 2, pos - 1);
    } else {
      assert And(a, 1) == a % 2;
    }
  }

  lemma {:induction false} DigitOfZero(pos: nat)
    ensures !Digit(0, pos)
  {
    if pos > 0 {
      DigitOfZero(pos - 1);
    }
  }

  lemma OrHalves(a: nat, b: nat)
    ensures Or(a, b) / 2 == Or(a / 2, b / 2) && (Or(a, b) % 2 == 1 <==> a % 2 == 1 || b % 2 == 1)
  {
  }

  lemma {:induction false} DigitOfOr(a: nat, b: nat, pos: nat)
    ensures Digit(Or(a, b), pos) <==> Digit(a, pos) || Digit(b, pos)
  {
    OrHalves(a, b);
    if pos > 0 {
      DigitOfOr(a / 2, b / 2, pos - 1);
    }
  }

  lemma {:induction false} DigitOfAnd(a: nat, b: nat, pos: nat)
    ensures Digit(And(a, b), pos) <==> Digit(a, pos) && Digit(b, pos)
  {
    if a == 0 || b == 0 {
      DigitOfZero(pos);
    } else if pos > 0 {
      DigitOfAnd(a / 2, b / 2, pos - 1);
    }
  }

  /** Shifting right by `pos` and taking the last digit. */
  lemma {:induction false} DigitIsQuotient(a: nat, pos: nat)
    ensures Bit(pos) > 0 && (Digit(a, pos) <==> a / Bit(pos) % 2 == 1)
  {
    if pos > 0 {
      DigitIsQuotient(a / 2, pos - 1);
      DivideTwice(a, Bit(pos - 1));
    }
  }

  lemma DivideTwice(a: nat, b: nat)
    requires b > 0
    ensures a / (2 * b) == a / 2 / b
  {
    var q, r := a / 2 / b, a / 2 % b;
    assert a == 2 * (q * b + r) + a % 2 == q * (2 * b) + (2 * r + a % 2);
    assert 0 <= 2 * r + a % 2 < 2 * b;
    QuotientIs(a, 2 * b, q, 2 * r + a % 2);
  }

  lemma QuotientIs(a: nat, b: nat, q: nat, r: nat)
    requires b > 0 && a == q * b + r && r < b
    ensures a / b == q
  {
    var q' := a / b;
    if q' < q {
      Scale(q' + 1, q, b);
    } else {
      Scale(q + 1, q', b);
    }
  }

  lemma Scale(x: nat, y: nat, b: nat)
    ensures x <= y ==> x * b <= y * b
  {
  }

  lemma {:induction false} DigitOfBit(p: nat, q: nat)
    ensures Digit(Bit(p), q) <==> p == q
  {
    if p == 0 && q > 0 {
      DigitOfZero(q - 1);
    } else if q > 0 {
      DigitOfBit(p - 1, q - 1);
    }
  }

  /** Or-ing in a bit sets that digit and changes no other. */
  lemma SetsDigit(a: nat, p: nat, q: nat)
    ensures Digit(Or(a, Bit(p)), q) <==> Digit(a, q) || p == q
  {
    DigitOfOr(a, Bit(p), q);
    DigitOfBit(p, q);
  }

  lemma {:induction false} OrBelow(a: nat, b: nat, n: nat)
    requires a < Bit(n) && b < Bit(n)
    ensures Or(a, b) < Bit(n)
  {
    if n > 0 {
      OrBelow(a / 2, b / 2, n - 1);
    }
  }

  lemma OrIsWord(a: word, pos: nat)
    requires pos < WORD_BITS
    ensures Or(a, Bit(pos)) < WORD_VALUES
  {
    BitIsWord(pos);
    LastBit();
    OrBelow(a, Bit(pos), 32);
  }
}
