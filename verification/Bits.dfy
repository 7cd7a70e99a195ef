/**
  Exclusive or of naturals, bit by bit.
*/
module Bits {
  import opened Bytes

  /** Bitwise exclusive or of the k low bits. */
  function Xor(a: nat, b: nat, k: nat): (r: nat)
    ensures k == 0 ==> r == 0
  {
    if k == 0 then 0 else (a + b) % 2 + 2 * Xor(a / 2, b / 2, k - 1)
  }

  function Pow2(k: nat): (r: nat)
    ensures r >= 1
  {
    if k == 0 then 1 else 2 * Pow2(k - 1)
  }

  lemma {:induction false} XorBound(a: nat, b: nat, k: nat)
    ensures Xor(a, b, k) < Pow2(k)
  {
    if k != 0 {
      XorBound(a / 2, b / 2, k - 1);
    }
  }

  function Bit(a: nat, k: nat): nat {
    a / Pow2(k) % 2
  }

  lemma Halves(a: nat, k: nat)
    ensures Bit(a, k + 1) == Bit(a / 2, k)
  {
    var w := Pow2(k);
    var b, r := a / 2 / w, a / 2 % w;
    assert a == b * (2 * w) + (2 * r + a % 2) by {
      assert (b * w) * 2 == b * (2 * w);
    }
    DivMod(a, b, 2 * w, 2 * r + a % 2);
  }

  /** Every bit is the sum of the two without carry. */
  lemma {:induction false} XorBits(a: nat, b: nat, n: nat, k: nat)
    requires k < n
    ensures Bit(Xor(a, b, n), k) == (Bit(a, k) + Bit(b, k)) % 2
  {
    hide Bit, Xor;
    XorFirst(a, b, n);
    if k > 0 {
      XorBits(a / 2, b / 2, n - 1, k - 1);
      Halves(a, k - 1);
      Halves(b, k - 1);
      Halves(Xor(a, b, n), k - 1);
    }
  }

  lemma XorFirst(a: nat, b: nat, n: nat)
    requires n > 0
    ensures Xor(a, b, n) / 2 == Xor(a / 2, b / 2, n - 1)
    ensures Bit(Xor(a, b, n), 0) == (Bit(a, 0) + Bit(b, 0)) % 2
  {
    hide Bit;
    Parity(Xor(a, b, n), Xor(a / 2, b / 2, n - 1), a, b);
    BitZero(a);
    BitZero(b);
    BitZero(Xor(a, b, n));
  }

  lemma Parity(x: nat, y: nat, a: nat, b: nat)
    requires x == (a + b) % 2 + 2 * y
    ensures x / 2 == y && x % 2 == (a % 2 + b % 2) % 2
  {
  }

  lemma BitZero(a: nat)
    ensures Bit(a, 0) == a % 2
  {
    assert Pow2(0) == 1;
  }

  lemma Pow2Values()
    ensures Pow2(12) == 4096 && Pow2(31) == 0x8000_0000 && Pow2(32) == 0x1_0000_0000 && Pow2(0) == 1
  {
    assert Pow2(8) == 256;
    assert Pow2(16) == 0x1_0000;
    assert Pow2(24) == 0x100_0000;
  }

  lemma {:induction false} Pow2Sum(m: nat, n: nat)
    ensures Pow2(m) * Pow2(n) == Pow2(m + n)
  {
    if m != 0 {
      Pow2Sum(m - 1, n);
      assert Pow2(m) * Pow2(n) == 2 * (Pow2(m - 1) * Pow2(n));
    }
  }

  lemma XorHalves(a: nat, b: nat, k: nat)
    requires k > 0
    ensures Xor(a, b, k) / 2 == Xor(a / 2, b / 2, k - 1) && Xor(a, b, k) % 2 == (a % 2 + b % 2) % 2
  {
    Parity(Xor(a, b, k), Xor(a / 2, b / 2, k - 1), a, b);
  }

  /** Exclusive or with a number can be undone. */
  lemma {:induction false} XorDiffers(a: nat, b: nat, x: nat, k: nat)
    requires a < Pow2(k) && b < Pow2(k) && a != b
    ensures Xor(a, x, k) != Xor(b, x, k)
  {
    hide Xor;
    if k > 0 {
      XorHalves(a, x, k);
      XorHalves(b, x, k);
      if a % 2 == b % 2 {
        XorDiffers(a / 2, b / 2, x / 2, k - 1);
      }
    }
  }

  lemma {:induction false} XorSwap(a: nat, b: nat, k: nat)
    ensures Xor(a, b, k) == Xor(b, a, k)
  {
    if k > 0 {
      XorSwap(a / 2, b / 2, k - 1);
    }
  }

  lemma {:induction false} XorAssoc(a: nat, b: nat, c: nat, k: nat)
    ensures Xor(Xor(a, b, k), c, k) == Xor(a, Xor(b, c, k), k)
  {
    hide Xor;
    if k > 0 {
      XorHalves(a, b, k);
      XorHalves(b, c, k);
      XorHalves(Xor(a, b, k), c, k);
      XorHalves(a, Xor(b, c, k), k);
      XorAssoc(a / 2, b / 2, c / 2, k - 1);
    } else {
      XorNone(Xor(a, b, k), c);
      XorNone(a, Xor(b, c, k));
    }
  }

  lemma XorNone(a: nat, b: nat)
    ensures Xor(a, b, 0) == 0
  {
  }

  lemma {:induction false} XorSame(a: nat, k: nat)
    ensures Xor(a, a, k) == 0
  {
    hide Xor;
    if k > 0 {
      XorHalves(a, a, k);
      XorSame(a / 2, k - 1);
    } else {
      XorNone(a, a);
    }
  }

  lemma {:induction false} XorZero(a: nat, k: nat)
    requires a < Pow2(k)
    ensures Xor(a, 0, k) == a
  {
    hide Xor;
    if k > 0 {
      XorHalves(a, 0, k);
      XorZero(a / 2, k - 1);
    } else {
      XorNone(a, 0);
    }
  }
}
