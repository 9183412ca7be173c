/** Shifts and masks of machine words, bit by bit, and the quotients and remainders they come to. */
module Bits {
  import opened Words

  function Pow2(k: nat): (r: nat)
    ensures r > 0
  {
    if k == 0 then 1 else 2 * Pow2(k - 1)
  }

  /** Bit `i`, the least significant being bit 0. */
  predicate Bit(a: nat, i: nat) {
    if i == 0 then a % 2 == 1 else Bit(a / 2, i - 1)
  }

  function And(a: nat, b: nat): nat {
    if a == 0 || b == 0 then 0 else 2 * And(a / 2, b / 2) + if a % 2 == 1 && b % 2 == 1 then 1 else 0
  }

  function Or(a: nat, b: nat): nat
    decreases a + b
  {
    if a == 0 && b == 0 then 0 else 2 * Or(a / 2, b / 2) + if a % 2 == 1 || b % 2 == 1 then 1 else 0
  }

  function Shr(a: nat, k: nat): nat {
    if k == 0 then a else Shr(a / 2, k - 1)
  }

  lemma {:induction false} ZeroBit(i: nat)
    ensures !Bit(0, i)
  {
    if i > 0 {
      ZeroBit(i - 1);
    }
  }

  /** Every bit of a conjunction, a union and a shifted word is what it should be. */
  lemma {:induction false} BitOfAnd(a: nat, b: nat, i: nat)
    ensures Bit(And(a, b), i) <==> Bit(a, i) && Bit(b, i)
  {
    if a == 0 || b == 0 {
      ZeroBit(i);
    } else if i > 0 {
      BitOfAnd(a / 2, b / 2, i - 1);
    }
  }

  lemma {:induction false} BitOfOr(a: nat, b: nat, i: nat)
    ensures Bit(Or(a, b), i) <==> Bit(a, i) || Bit(b, i)
  {
    if a == 0 && b == 0 {
      ZeroBit(i);
    } else if i > 0 {
      BitOfOr(a / 2, b / 2, i - 1);
    }
  }

  lemma {:induction false} BitOfShr(a: nat, k: nat, i: nat)
    ensures Bit(Shr(a, k), i) <==> Bit(a, k + i)
  {
    if k > 0 {
      BitOfShr(a / 2, k - 1, i);
    }
  }

  // -------------------------------------------------------- quotients and remainders

  lemma QuotientIs(a: nat, d: nat, q: nat, r: nat)
    requires r < d && a == d * q + r
    ensures a / d == q && a % d == r
  {
    var difference := q - a / d;
    assert d * difference == a % d - r;
    assert difference >= 1 ==> d * difference >= d;
    assert difference <= -1 ==> d * difference + d <= 0;
  }

  lemma HalveThenDivide(a: nat, d: nat)
    requires d > 0
    ensures a / 2 / d == a / (2 * d)
    ensures a % (2 * d) == 2 * (a / 2 % d) + a % 2
  {
    var h := a / 2;
    assert a == 2 * h + a % 2;
    assert h == d * (h / d) + h % d;
    assert a == 2 * d * (h / d) + (2 * (h % d) + a % 2) by { assert 2 * (d * (h / d)) == 2 * d * (h / d); }
    QuotientIs(a, 2 * d, h / d, 2 * (h % d) + a % 2);
  }

  lemma {:induction false} ShrIsQuotient(a: nat, k: nat)
    ensures Shr(a, k) == a / Pow2(k)
  {
    if k > 0 {
      ShrIsQuotient(a / 2, k - 1);
      HalveThenDivide(a, Pow2(k - 1));
    }
  }

  /** Keeping the lowest `k` bits is the remainder. */
  lemma {:induction false} LowBitsAreRemainder(a: nat, k: nat)
    ensures And(a, Pow2(k) - 1) == a % Pow2(k)
    decreases k
  {
    if k > 0 {
      LowBitsAreRemainder(a / 2, k - 1);
      HalveThenDivide(a, Pow2(k - 1));
      var p := Pow2(k - 1);
      assert (2 * p - 1) / 2 == p - 1 && (2 * p - 1) % 2 == 1;
      if a == 0 {
        QuotientIs(0, Pow2(k), 0, 0);
      }
    }
  }

  /** A mask without its lowest `k` bits looks at the bits above them only. */
  lemma {:induction false} MaskAbove(a: nat, m: nat, k: nat)
    ensures And(a, Pow2(k) * m) == Pow2(k) * And(Shr(a, k), m)
    decreases k
  {
    hide And;
    if k > 0 {
      var p := Pow2(k - 1);
      MaskAbove(a / 2, m, k - 1);
      Doubled(p, m, Pow2(k));
      EvenMask(a, p * m);
      Doubled(p, And(Shr(a / 2, k - 1), m), Pow2(k));
    }
  }

  lemma Doubled(p: nat, x: nat, q: nat)
    requires q == 2 * p
    ensures q * x == 2 * (p * x)
  {
  }

  lemma EvenMask(a: nat, m: nat)
    ensures And(a, 2 * m) == 2 * And(a / 2, m)
  {
  }

  /** One field of a word: `width` bits from bit `k` on. */
  lemma FieldIs(a: nat, k: nat, width: nat)
    ensures And(Shr(a, k), Pow2(width) - 1) == a / Pow2(k) % Pow2(width)
    ensures And(a, Pow2(k) * (Pow2(width) - 1)) == Pow2(k) * (a / Pow2(k) % Pow2(width))
  {
    ShrIsQuotient(a, k);
    LowBitsAreRemainder(Shr(a, k), width);
    MaskAbove(a, Pow2(width) - 1, k);
  }

  /** The union of words without a common bit is their sum. */
  lemma {:induction false} DisjointUnion(a: nat, b: nat)
    requires And(a, b) == 0
    ensures Or(a, b) == a + b
    decreases a + b
  {
    if a == 0 && b == 0 {
    } else if a == 0 || b == 0 {
      DisjointUnion(a / 2, b / 2);
    } else {
      DisjointUnion(a / 2, b / 2);
    }
  }

  /** A word below `2^k` and a multiple of it have no common bit. */
  lemma LowAndHigh(a: nat, low: nat, k: nat)
    requires low < Pow2(k)
    ensures And(low, Pow2(k) * a) == 0
    ensures Or(Pow2(k) * a, low) == Pow2(k) * a + low
  {
    MaskAbove(low, a, k);
    ShrIsQuotient(low, k);
    QuotientIs(low, Pow2(k), 0, low);
    AndCommutes(low, Pow2(k) * a);
    DisjointUnion(Pow2(k) * a, low);
  }

  lemma {:induction false} AndCommutes(a: nat, b: nat)
    ensures And(a, b) == And(b, a)
  {
    if a != 0 && b != 0 {
      AndCommutes(a / 2, b / 2);
    }
  }

  lemma {:induction false} OrCommutes(a: nat, b: nat)
    ensures Or(a, b) == Or(b, a)
    decreases a + b
  {
    if a != 0 || b != 0 {
      OrCommutes(a / 2, b / 2);
    }
  }

  lemma {:induction false} OrAssociates(a: nat, b: nat, c: nat)
    ensures Or(Or(a, b), c) == Or(a, Or(b, c))
    decreases a + b + c
  {
    if a + b + c > 0 {
      OrAssociates(a / 2, b / 2, c / 2);
      OrHalves(a, b);
      OrHalves(b, c);
      OrHalves(Or(a, b), c);
      OrHalves(a, Or(b, c));
    }
  }

  lemma OrHalves(a: nat, b: nat)
    ensures Or(a, b) / 2 == Or(a / 2, b / 2)
    ensures Or(a, b) % 2 == 1 <==> a % 2 == 1 || b % 2 == 1
  {
  }

  lemma {:induction false} Pow2Sum(a: nat, b: nat)
    ensures Pow2(a + b) == Pow2(a) * Pow2(b)
  {
    if a > 0 {
      Pow2Sum(a - 1, b);
      Doubled(Pow2(a - 1), Pow2(b), Pow2(a));
    }
  }

  lemma SmallPowers()
    ensures Pow2(0) == 1 && Pow2(1) == 2 && Pow2(2) == 4 && Pow2(7) == 128
  {
  }

  lemma Pow2Values()
    ensures Pow2(9) == 512 && Pow2(12) == 4096 && Pow2(21) == 0x20_0000 && Pow2(30) == 0x4000_0000
    ensures Pow2(39) == 0x80_0000_0000 && Pow2(40) == 0x100_0000_0000 && Pow2(63) == TWO_63 && Pow2(64) == TWO_64
  {
    Pow2Sum(9, 12);
    Pow2Sum(9, 21);
    Pow2Sum(9, 30);
    Pow2Sum(1, 39);
    Pow2Sum(24, 39);
    Pow2Sum(12, 12);
    Pow2Sum(1, 63);
  }

  lemma ExponentFits(k: nat)
    requires Pow2(k) < TWO_64
    ensures k < 64
  {
    hide Pow2;
    if k >= 64 {
      Pow2Values();
      Pow2Sum(64, k - 64);
      Monotone(TWO_64, 1, Pow2(k - 64));
    }
  }

  /** Clearing the lowest `k` bits of a 64-bit word subtracts the remainder. */
  lemma ClearedLowBits(a: U64, k: nat)
    requires k <= 64
    ensures Pow2(k) <= TWO_64
    ensures And(a, TWO_64 - Pow2(k)) == a - a % Pow2(k)
  {
    hide And, Shr, Pow2;
    PowersSplit(k);
    OneLess(Pow2(k), Pow2(64 - k));
    FieldIs(a, k, 64 - k);
    TopPart(a, Pow2(k), Pow2(64 - k));
  }

  lemma PowersSplit(k: nat)
    requires k <= 64
    ensures Pow2(k) * Pow2(64 - k) == TWO_64
  {
    hide Pow2;
    Pow2Values();
    Pow2Sum(k, 64 - k);
  }

  /** Nothing of a word is above its top part. */
  lemma TopPart(a: nat, p: nat, rest: nat)
    requires p > 0 && a < p * rest
    ensures p * (a / p % rest) == a - a % p
  {
    QuotientBelow(a, p, rest);
    assert a / p % rest == a / p by { QuotientIs(a / p, rest, 0, a / p); }
    Remainder(a, p);
  }

  lemma OneLess(p: nat, rest: nat)
    requires rest > 0
    ensures p * (rest - 1) == p * rest - p && p <= p * rest
  {
  }

  lemma QuotientBelow(a: nat, p: nat, rest: nat)
    requires p > 0 && a < p * rest
    ensures a / p < rest
  {
    Remainder(a, p);
    if a / p >= rest {
      Monotone(p, rest, a / p);
    }
  }

  lemma Remainder(a: nat, p: nat)
    requires p > 0
    ensures p * (a / p) == a - a % p && a % p >= 0
  {
  }

  lemma Monotone(p: nat, x: nat, y: nat)
    requires x <= y
    ensures p * x <= p * y
  {
  }
}
