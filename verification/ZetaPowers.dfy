// The twiddle factors are the powers of 17 in bit-reversed order (FIPS 203, section
// 4.3; components/ntt/ntt.c:39-56).
module ZetaPowers {
  import opened Reduce
  import opened Zetas

  function Power17(n: nat): int {
    if n == 0 then 1 else 17 * Power17(n - 1)
  }

  function Two(n: nat): (t: nat)
    ensures t > 0
  {
    if n == 0 then 1 else 2 * Two(n - 1)
  }

  // The low bits of k in the opposite order.
  function BitRev(k: nat, bits: nat): nat {
    if bits == 0 then 0 else k % 2 * Two(bits - 1) + BitRev(k / 2, bits - 1)
  }

  function BitRev7(k: nat): nat {
    BitRev(k, 7)
  }

  lemma {:induction false} BitRevZero(bits: nat)
    ensures BitRev(0, bits) == 0
  {
    if bits > 0 {
      BitRevZero(bits - 1);
    }
  }

  // The bit of weight 2^b moves to the place bits - 1 - b.
  lemma {:induction false} BitRevTop(k: nat, b: nat, bits: nat)
    requires k < Two(b) && b < bits
    ensures BitRev(Two(b) + k, bits) == Two(bits - 1 - b) + BitRev(k, bits)
  {
    if b == 0 {
      BitRevZero(bits);
      BitRevZero(bits - 1);
    } else {
      Halved(Two(b - 1), k);
      BitRevTop(k / 2, b - 1, bits - 1);
    }
  }

  // A number below 2^bits loses its high zero.
  lemma {:induction false} BitRevDouble(k: nat, bits: nat)
    requires k < Two(bits)
    ensures BitRev(k, bits + 1) == 2 * BitRev(k, bits)
  {
    if bits == 0 {
      BitRevZero(1);
    } else {
      Halved(Two(bits - 1), k);
      BitRevDouble(k / 2, bits - 1);
    }
  }

  lemma Halved(t: nat, k: nat)
    ensures (2 * t + k) / 2 == t + k / 2 && (2 * t + k) % 2 == k % 2 && (k < 2 * t ==> k / 2 < t)
  {
  }

  lemma {:induction false} PowerAdd(m: nat, n: nat)
    ensures Power17(m + n) == Power17(m) * Power17(n)
  {
    if m > 0 {
      PowerAdd(m - 1, n);
    }
  }

  // ----- the table, entry by entry

  // The highest bit of k.
  function TopExponent(k: nat): (b: nat)
    requires 1 <= k < 128
    ensures b < 7
  {
    if k < 2 then 0 else if k < 4 then 1 else if k < 8 then 2 else if k < 16 then 3 else if k < 32 then 4 else if k < 64 then 5 else 6
  }

  function Top(k: nat): (t: nat)
    requires 1 <= k < 128
    ensures t <= k < 2 * t
  {
    if k < 2 then 1 else if k < 4 then 2 else if k < 8 then 4 else if k < 16 then 8 else if k < 32 then 16 else if k < 64 then 32 else 64
  }

  lemma TopIsPower(k: nat)
    requires 1 <= k < 128
    ensures Top(k) == Two(TopExponent(k))
  {
    assert Two(1) == 2 && Two(2) == 4 && Two(3) == 8 && Two(4) == 16 && Two(5) == 32 && Two(6) == 64;
  }

  // Entry k is the product of the entries of its highest bit and of the others.
  lemma Product1(k: nat)
    requires 1 <= k < 64
    ensures (Zeta(k) * 0x1_0000 - Zeta(Top(k)) * Zeta(k - Top(k))) % Q == 0
  {
    match k {
      case 1 => case 2 => case 3 => case 4 => case 5 => case 6 => case 7 => case 8 => case 9 => case 10 => case 11 => case 12 => case 13 =>
      case 14 => case 15 => case 16 => case 17 => case 18 => case 19 => case 20 => case 21 => case 22 => case 23 => case 24 => case 25 => case 26 =>
      case 27 => case 28 => case 29 => case 30 => case 31 => case 32 => case 33 => case 34 => case 35 => case 36 => case 37 => case 38 => case 39 =>
      case 40 => case 41 => case 42 => case 43 => case 44 => case 45 => case 46 => case 47 => case 48 => case 49 => case 50 => case 51 => case 52 =>
      case 53 => case 54 => case 55 => case 56 => case 57 => case 58 => case 59 => case 60 => case 61 => case 62 => case _ =>
    }
  }

  lemma Product64(k: nat)
    requires 64 <= k < 96
    ensures (Zeta(k) * 0x1_0000 - Zeta(Top(k)) * Zeta(k - Top(k))) % Q == 0
  {
    match k {
      case 64 => case 65 => case 66 => case 67 => case 68 => case 69 => case 70 => case 71 => case 72 => case 73 => case 74 => case 75 => case 76 =>
      case 77 => case 78 => case 79 => case 80 => case 81 => case 82 => case 83 => case 84 => case 85 => case 86 => case 87 => case 88 => case 89 =>
      case 90 => case 91 => case 92 => case 93 => case 94 => case _ =>
    }
  }

  lemma Product96(k: nat)
    requires 96 <= k < 128
    ensures (Zeta(k) * 0x1_0000 - Zeta(Top(k)) * Zeta(k - Top(k))) % Q == 0
  {
    match k {
      case 96 => case 97 => case 98 => case 99 => case 100 => case 101 => case 102 => case 103 => case 104 => case 105 => case 106 => case 107 =>
      case 108 => case 109 => case 110 => case 111 => case 112 => case 113 => case 114 => case 115 => case 116 => case 117 => case 118 => case 119 =>
      case 120 => case 121 => case 122 => case 123 => case 124 => case 125 => case 126 => case _ =>
    }
  }

  // x, y and z are in Montgomery form, and x is the product of y and z.
  predicate IsProduct(x: int, y: int, z: int) {
    Cong(x * 0x1_0000, y * z)
  }

  // x is 17^n in Montgomery form.
  predicate IsPower(x: int, n: nat) {
    Cong(x, 0x1_0000 * Power17(n))
  }

  lemma SplitProduct(k: nat)
    requires 1 <= k < 128
    ensures IsProduct(Zeta(k), Zeta(Top(k)), Zeta(k - Top(k)))
  {
    hide Zeta, Top;
    if k < 64 { Product1(k); } else if k < 96 { Product64(k); } else { Product96(k); }
    CongOfDifference(Zeta(k) * 0x1_0000, Zeta(Top(k)) * Zeta(k - Top(k)));
  }

  // ----- the powers

  lemma Cancel(x: int, y: int)
    requires Cong(x * 0x1_0000, y * 0x1_0000)
    ensures Cong(x, y)
  {
    hide Residue;
    CongMul(x * 0x1_0000, y * 0x1_0000, R_INV, R_INV);
    Inverted(x);
    Inverted(y);
  }

  lemma Inverted(x: int)
    ensures Cong(x * 0x1_0000 * R_INV, x)
  {
    CongMultiple(x, 3327 * x);
  }

  lemma Rearranged(p: int, q: int)
    ensures 0x1_0000 * p * (0x1_0000 * q) == 0x1_0000 * (p * q) * 0x1_0000
  {
  }

  lemma ProductIsPower(x: int, y: int, z: int, m: nat, n: nat)
    requires IsProduct(x, y, z) && IsPower(y, m) && IsPower(z, n)
    ensures IsPower(x, m + n)
  {
    hide Residue, Power17;
    var p, q := Power17(m), Power17(n);
    CongMul(y, 0x1_0000 * p, z, 0x1_0000 * q);
    PowerAdd(m, n);
    Rearranged(p, q);
    Cancel(x, 0x1_0000 * (p * q));
  }

  // The entries 64, 32, ..., 1 are 17, 17^2, ..., 17^64.
  lemma {:induction false} ZetaOfTwo(b: nat)
    requires b < 7
    ensures 1 <= Two(b) < 128 && IsPower(Zeta(Two(b)), Two(6 - b))
    decreases 7 - b
  {
    assert Two(1) == 2 && Two(2) == 4 && Two(3) == 8 && Two(4) == 16 && Two(5) == 32 && Two(6) == 64;
    if b == 6 {
      assert Power17(1) == 17 && Zeta(64) == -1103;
    } else {
      hide Zeta, IsPower, IsProduct;
      ZetaOfTwo(b + 1);
      SquareEven(Two(b));
      ProductIsPower(Zeta(Two(b)), Zeta(2 * Two(b)), Zeta(2 * Two(b)), Two(5 - b), Two(5 - b));
    }
  }

  lemma SquareEven(h: nat)
    requires 1 <= h < 64
    ensures IsProduct(Zeta(h), Zeta(2 * h), Zeta(2 * h))
  {
    hide Zeta;
    if h < 32 { SquareEvenLow(h); } else { SquareEvenHigh(h); }
    CongOfDifference(Zeta(2 * h) * Zeta(2 * h), 0x1_0000 * Zeta(h));
  }

  lemma BitRevOfTop(k: nat)
    requires 1 <= k < 128
    ensures BitRev7(k) == Two(6 - TopExponent(k)) + BitRev7(k - Top(k))
  {
    hide BitRev, Top, TopExponent, Two;
    TopIsPower(k);
    BitRevTop(k - Top(k), TopExponent(k), 7);
  }

  lemma FirstEntry()
    ensures IsPower(Zeta(0), BitRev7(0))
  {
    BitRevZero(7);
    assert Zeta(0) == -1044;
  }

  // Entry k of the table is 17 to the power k in bit-reversed order.
  lemma {:induction false} ZetaIsPower(k: nat)
    requires k < 128
    ensures IsPower(Zeta(k), BitRev7(k))
  {
    hide *;
    if k == 0 {
      FirstEntry();
    } else {
      var t, b := Top(k), TopExponent(k);
      ZetaIsPower(k - t);
      ZetaOfTop(k);
      SplitProduct(k);
      BitRevOfTop(k);
      ProductIsPower(Zeta(k), Zeta(t), Zeta(k - t), Two(6 - b), BitRev7(k - t));
    }
  }

  lemma ZetaOfTop(k: nat)
    requires 1 <= k < 128
    ensures IsPower(Zeta(Top(k)), Two(6 - TopExponent(k)))
  {
    hide Zeta, IsPower, Two, Top, TopExponent;
    TopIsPower(k);
    ZetaOfTwo(TopExponent(k));
  }
}
