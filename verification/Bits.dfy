/** C's bitwise operators on unsigned words, as functions on naturals that work bit by bit from the low end. */
module Bits {
  function Or(a: nat, b: nat): nat
    decreases a
  {
    if a == 0 then b else 2 * Or(a / 2, b / 2) + if a % 2 == 1 || b % 2 == 1 then 1 else 0
  }

  function And(a: nat, b: nat): nat {
    if a == 0 then 0 else 2 * And(a / 2, b / 2) + if a % 2 == 1 && b % 2 == 1 then 1 else 0
  }

  /** a & ~b */
  function AndNot(a: nat, b: nat): nat {
    if a == 0 then 0 else 2 * AndNot(a / 2, b / 2) + if a % 2 == 1 && b % 2 == 0 then 1 else 0
  }

  /** 1 << i */
  function Shift(i: nat): (m: nat)
    ensures m > 0
  {
    if i == 0 then 1 else 2 * Shift(i - 1)
  }

  lemma Shift32()
    ensures Shift(32) == 0x1_0000_0000
  {
    assert Shift(8) == 0x100 && Shift(16) == 0x1_0000 && Shift(24) == 0x100_0000;
  }

  predicate Bit(a: nat, i: nat) {
    if i == 0 then a % 2 == 1 else Bit(a / 2, i - 1)
  }

  lemma {:induction false} ZeroBit(i: nat)
    ensures !Bit(0, i)
  {
    if i > 0 {
      ZeroBit(i - 1);
    }
  }

  lemma {:induction false} OrBit(a: nat, b: nat, i: nat)
    ensures Bit(Or(a, b), i) <==> Bit(a, i) || Bit(b, i)
    decreases i
  {
    if a == 0 {
      ZeroBit(i);
    } else if i > 0 {
      OrBit(a / 2, b / 2, i - 1);
    }
  }

  lemma {:induction false} AndNotBit(a: nat, b: nat, i: nat)
    ensures Bit(AndNot(a, b), i) <==> Bit(a, i) && !Bit(b, i)
    decreases i
  {
    if a == 0 {
      ZeroBit(i);
    } else if i > 0 {
      AndNotBit(a / 2, b / 2, i - 1);
    }
  }

  lemma {:induction false} ShiftBit(i: nat, j: nat)
    ensures Bit(Shift(i), j) <==> i == j
    decreases i
  {
    if i > 0 && j > 0 {
      ShiftBit(i - 1, j - 1);
    } else if j > 0 {
      ZeroBit(j - 1);
    }
  }

  /** Testing a word against a one-bit mask reads that bit. */
  lemma {:induction false} AndShift(a: nat, i: nat)
    ensures And(a, Shift(i)) != 0 <==> Bit(a, i)
    decreases i
  {
    if a == 0 {
      ZeroBit(i);
    } else if i > 0 {
      AndShift(a / 2, i - 1);
    } else {
      AndZero(a / 2);
    }
  }

  lemma {:induction false} AndZero(a: nat)
    ensures And(a, 0) == 0
  {
    if a > 0 {
      AndZero(a / 2);
    }
  }

  lemma {:induction false} FullBit(n: nat, i: nat)
    requires i < n
    ensures Bit(Shift(n) - 1, i)
    decreases n
  {
    if i > 0 {
      FullBit(n - 1, i - 1);
    }
  }

  lemma {:induction false} OrWidth(a: nat, b: nat, n: nat)
    requires a < Shift(n) && b < Shift(n)
    ensures Or(a, b) < Shift(n)
    decreases n
  {
    if a > 0 {
      OrWidth(a / 2, b / 2, n - 1);
    }
  }

  lemma {:induction false} AndNotShrinks(a: nat, b: nat)
    ensures AndNot(a, b) <= a
  {
    if a > 0 {
      AndNotShrinks(a / 2, b / 2);
    }
  }

  lemma {:induction false} ShiftGrows(i: nat, n: nat)
    requires i < n
    ensures Shift(i) < Shift(n)
    decreases n
  {
    if i < n - 1 {
      ShiftGrows(i, n - 1);
    }
  }

  /** The low n bits of x are clear: x is a multiple of 2^n. */
  predicate LowClear(x: nat, n: nat) {
    n == 0 || (x % 2 == 0 && LowClear(x / 2, n - 1))
  }

  /** Or-ing a value into clear low bits adds it. */
  lemma {:induction false} OrIsSum(x: nat, r: nat, n: nat)
    requires LowClear(x, n) && r < Shift(n)
    ensures Or(x, r) == x + r
    decreases n
  {
    if n > 0 {
      OrIsSum(x / 2, r / 2, n - 1);
    } else {
      OrZero(x);
    }
  }

  lemma {:induction false} OrZero(a: nat)
    ensures Or(a, 0) == a
  {
    if a > 0 {
      OrZero(a / 2);
    }
  }

  /** a & ~(2^n - 1) keeps what lies above the low n bits. */
  lemma {:induction false} ClearLow(x: nat, r: nat, n: nat)
    requires LowClear(x, n) && r < Shift(n)
    ensures AndNot(x + r, Shift(n) - 1) == x
    decreases n
  {
    if n > 0 {
      ClearLow(x / 2, r / 2, n - 1);
    } else {
      AndNotZero(x);
    }
  }

  lemma {:induction false} AndNotZero(a: nat)
    ensures AndNot(a, 0) == a
  {
    if a > 0 {
      AndNotZero(a / 2);
    }
  }

  lemma DoubleClear(k: nat, n: nat)
    requires LowClear(k, n)
    ensures LowClear(2 * k, n + 1)
  {}

  lemma {:induction false} ClearMultiple(k: nat, n: nat, x: nat)
    requires x == k * Shift(n)
    ensures LowClear(x, n)
  {
    if n > 0 {
      var half := k * Shift(n - 1);
      assert x == 2 * half;
      ClearMultiple(k, n - 1, half);
    }
  }

  lemma {:induction false} OrSwaps(a: nat, b: nat)
    ensures Or(a, b) == Or(b, a)
    decreases a + b
  {
    if a == 0 {
      OrZero(b);
    } else if b == 0 {
      OrZero(a);
    } else {
      OrSwaps(a / 2, b / 2);
    }
  }

  lemma {:induction false} AndFull(a: nat, n: nat, mask: nat)
    requires a < Shift(n) && mask == Shift(n) - 1
    ensures And(a, mask) == a
    decreases n
  {
    if a > 0 {
      AndFull(a / 2, n - 1, mask / 2);
    }
  }

  /** Multiples of 4096 have twelve clear low bits. */
  lemma PageLowClear(k: nat)
    ensures LowClear(4096 * k, 12)
  {
    DoubleClear(k, 0);
    DoubleClear(2 * k, 1);
    DoubleClear(4 * k, 2);
    DoubleClear(8 * k, 3);
    DoubleClear(16 * k, 4);
    DoubleClear(32 * k, 5);
    DoubleClear(64 * k, 6);
    DoubleClear(128 * k, 7);
    DoubleClear(256 * k, 8);
    DoubleClear(512 * k, 9);
    DoubleClear(1024 * k, 10);
    DoubleClear(2048 * k, 11);
  }

  /** word & ~0xF */
  lemma NibbleMask(a: nat)
    ensures AndNot(a, 0xF) == a - a % 16
  {
    assert Shift(4) == 16;
    ClearMultiple(a / 16, 4, a - a % 16);
    ClearLow(a - a % 16, a % 16, 4);
  }

  /** word & ~0xFFF */
  lemma PageMask(a: nat)
    ensures AndNot(a, 0xFFF) == a - a % 4096
  {
    assert Shift(12) == 4096;
    PageLowClear(a / 4096);
    ClearLow(a - a % 4096, a % 4096, 12);
  }
}
