/** Shifts, OR and AND on natural numbers, one bit at a time, as the integer encodings use them. */
module Bits {

  function Shl(x: nat, k: nat): nat
    decreases k
  {
    if k == 0 then x else 2 * Shl(x, k - 1)
  }

  function Shr(x: nat, k: nat): nat
    decreases k
  {
    if k == 0 then x else Shr(x / 2, k - 1)
  }

  function Pow2(k: nat): (p: nat)
  {
    Shl(1, k)
  }

  /** The low `k` bits of a number. */
  function Low(x: nat, k: nat): nat
    decreases k
  {
    if k == 0 then 0 else 2 * Low(x / 2, k - 1) + x % 2
  }

  function Or(a: nat, b: nat): nat
    decreases a + b
  {
    if a == 0 then b
    else if b == 0 then a
    else 2 * Or(a / 2, b / 2) + (if a % 2 == 1 || b % 2 == 1 then 1 else 0)
  }

  function And(a: nat, b: nat): nat
    decreases a + b
  {
    if a == 0 || b == 0 then 0
    else 2 * And(a / 2, b / 2) + (if a % 2 == 1 && b % 2 == 1 then 1 else 0)
  }

  /** The number of leading one bits among the top `width` bits of a byte. */
  function LeadingOnes(b: nat, width: nat): (n: nat)
    ensures n <= width
  {
    if width == 0 || b < 128 then 0 else 1 + LeadingOnes(b * 2 % 256, width - 1)
  }

  lemma {:induction false} ShlShl(x: nat, j: nat, k: nat)
    ensures Shl(x, j + k) == Shl(Shl(x, j), k)
    decreases k
  {
    if k > 0 {
      ShlShl(x, j, k - 1);
    }
  }

  lemma {:induction false} ShrShr(x: nat, j: nat, k: nat)
    ensures Shr(x, j + k) == Shr(Shr(x, j), k)
    decreases j
  {
    if j > 0 {
      ShrShr(x / 2, j - 1, k);
    }
  }

  lemma {:induction false} PowPositive(k: nat)
    ensures Pow2(k) > 0
  {
    if k > 0 {
      PowPositive(k - 1);
    }
  }

  /** The shifts the length tables name. */
  lemma ShlTable(x: nat)
    ensures Shl(x, 6) == 0x40 * x && Shl(x, 7) == 0x80 * x && Shl(x, 8) == 0x100 * x
    ensures Shl(x, 14) == 0x4000 * x && Shl(x, 21) == 0x20_0000 * x && Shl(x, 28) == 0x1000_0000 * x
    ensures Shl(x, 30) == 0x4000_0000 * x && Shl(x, 35) == 0x8_0000_0000 * x && Shl(x, 42) == 0x400_0000_0000 * x
    ensures Shl(x, 49) == 0x2_0000_0000_0000 * x && Shl(x, 56) == 0x100_0000_0000_0000 * x
    ensures Shl(x, 62) == 0x4000_0000_0000_0000 * x
  {
    hide Shl;
    SmallShl(x);
    SmallShl(Shl(x, 7));
    ShlShl(x, 7, 7);
    ShlShl(x, 14, 7);
    SmallShl(Shl(x, 14));
    ShlShl(x, 21, 7);
    SmallShl(Shl(x, 21));
    ShlShl(x, 28, 2);
    ShlShl(x, 28, 7);
    SmallShl(Shl(x, 28));
    ShlShl(x, 35, 7);
    SmallShl(Shl(x, 35));
    ShlShl(x, 42, 7);
    SmallShl(Shl(x, 42));
    ShlShl(x, 49, 7);
    SmallShl(Shl(x, 49));
    ShlShl(x, 56, 6);
    SmallShl(Shl(x, 56));
  }

  lemma SmallShl(x: nat)
    ensures Shl(x, 0) == x && Shl(x, 1) == 2 * x && Shl(x, 2) == 4 * x && Shl(x, 3) == 8 * x && Shl(x, 4) == 16 * x
    ensures Shl(x, 5) == 32 * x && Shl(x, 6) == 64 * x && Shl(x, 7) == 128 * x && Shl(x, 8) == 256 * x
  {
  }

  lemma Shr8(x: nat)
    ensures Shr(x, 8) == x / 0x100
  {
    assert Shr(x, 8) == Shr(x / 2, 7);
    assert Shr(x / 2, 7) == Shr(x / 4, 6);
    assert Shr(x / 4, 6) == Shr(x / 8, 5);
    assert Shr(x / 8, 5) == Shr(x / 16, 4);
    assert Shr(x / 16, 4) == Shr(x / 32, 3);
    assert Shr(x / 32, 3) == Shr(x / 64, 2);
    assert Shr(x / 64, 2) == Shr(x / 128, 1);
  }

  /** A number is its high bits, shifted back, and its low bits. */
  lemma {:induction false} HighAndLow(x: nat, k: nat)
    ensures x == Shl(Shr(x, k), k) + Low(x, k) && Low(x, k) < Pow2(k)
    decreases k
  {
    if k > 0 {
      HighAndLow(x / 2, k - 1);
    }
  }

  lemma Low6(x: nat)
    ensures Low(x, 6) == x % 0x40
  {
    hide Shl, Shr, Low;
    HighAndLow(x, 6);
    ShlTable(Shr(x, 6));
    ShlTable(1);
  }

  lemma Low14(x: nat)
    ensures Low(x, 14) == x % 0x4000
  {
    hide Shl, Shr, Low;
    HighAndLow(x, 14);
    ShlTable(Shr(x, 14));
    ShlTable(1);
  }

  lemma Low30(x: nat)
    ensures Low(x, 30) == x % 0x4000_0000
  {
    hide Shl, Shr, Low;
    HighAndLow(x, 30);
    ShlTable(Shr(x, 30));
    ShlTable(1);
  }

  lemma Low62(x: nat)
    ensures Low(x, 62) == x % 0x4000_0000_0000_0000
  {
    hide Shl, Shr, Low;
    HighAndLow(x, 62);
    ShlTable(Shr(x, 62));
    ShlTable(1);
  }

  lemma {:induction false} LowOfSmall(x: nat, k: nat)
    requires x < Pow2(k)
    ensures Low(x, k) == x
    decreases k
  {
    if k > 0 {
      LowOfSmall(x / 2, k - 1);
    }
  }

  lemma {:induction false} LowOfSum(hi: nat, lo: nat, k: nat)
    requires lo < Pow2(k)
    ensures Low(Shl(hi, k) + lo, k) == lo
    decreases k
  {
    if k > 0 {
      LowOfSum(hi, lo / 2, k - 1);
    }
  }

  /** OR of a shifted number with one that fits below the shift is their sum. */
  lemma {:induction false} OrShifted(hi: nat, lo: nat, k: nat)
    requires lo < Pow2(k)
    ensures Or(Shl(hi, k), lo) == Shl(hi, k) + lo
    decreases k
  {
    if k > 0 {
      OrShifted(hi, lo / 2, k - 1);
    }
  }

  /** AND with 2^k - 1 keeps the low `k` bits. */
  lemma {:induction false} AndLow(x: nat, k: nat)
    ensures Pow2(k) > 0 && And(x, Pow2(k) - 1) == Low(x, k)
    decreases k
  {
    PowPositive(k);
    if k > 0 {
      AndLow(x / 2, k - 1);
      if x == 0 {
        LowOfSmall(0, k);
      }
    }
  }

  /** OR with a shifted mask that covers the high bits replaces them and keeps the low `k`. */
  lemma {:induction false} OrMask(x: nat, mask: nat, k: nat)
    requires Or(Shr(x, k), mask) == mask
    ensures Or(x, Shl(mask, k)) == Shl(mask, k) + Low(x, k)
    decreases k
  {
    if k > 0 {
      OrMask(x / 2, mask, k - 1);
      var half := Shl(mask, k - 1);
      assert 2 * half / 2 == half;
      if half == 0 || x == 0 {
        HighAndLow(x / 2, k - 1);
      }
    }
  }
}
