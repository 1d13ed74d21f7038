// Modular reduction on 16-bit words (components/reduce/reduce.c).
module Reduce {
  const Q := 3329
  // 2^-16 mod Q: 169 * 2^16 == 1 + 3327 * 3329.
  const R_INV := 169
  // Q^-1 mod 2^16.
  const QINV := -3327

  predicate IsInt16(x: int) {
    -0x8000 <= x < 0x8000
  }

  type int16 = x: int | IsInt16(x)

  // The conversion to int16_t: reduction modulo 2^16 into the signed range.
  function Int16(x: int): int16 {
    (x + 0x8000) % 0x1_0000 - 0x8000
  }

  function Residue(x: int): (r: int)
    ensures 0 <= r < Q
  {
    x % Q
  }

  // Congruence modulo Q.  Most proofs hide what a residue is and use the lemmas
  // below instead.
  predicate Cong(x: int, y: int) {
    Residue(x) == Residue(y)
  }

  lemma CongDifference(x: int, y: int) returns (k: int)
    requires Cong(x, y)
    ensures x == y + k * Q
  {
    k := x / Q - y / Q;
  }

  lemma CongMultiple(x: int, k: int)
    ensures Cong(x + k * Q, x)
  {
  }

  lemma CongAdd(x: int, x': int, y: int, y': int)
    requires Cong(x, x') && Cong(y, y')
    ensures Cong(x + y, x' + y')
  {
    var i := CongDifference(x, x');
    var j := CongDifference(y, y');
    CongMultiple(x' + y', i + j);
  }

  lemma CongSub(x: int, x': int, y: int, y': int)
    requires Cong(x, x') && Cong(y, y')
    ensures Cong(x - y, x' - y')
  {
    var i := CongDifference(x, x');
    var j := CongDifference(y, y');
    CongMultiple(x' - y', i - j);
  }

  lemma CongMul(x: int, x': int, y: int, y': int)
    requires Cong(x, x') && Cong(y, y')
    ensures Cong(x * y, x' * y')
  {
    var i := CongDifference(x, x');
    var j := CongDifference(y, y');
    assert x * y == x' * y' + (i * y + x' * j) * Q by {
      assert (x' + i * Q) * y == x' * y + i * y * Q;
      assert x' * (y' + j * Q) == x' * y' + x' * j * Q;
    }
    CongMultiple(x' * y', i * y + x' * j);
  }

  lemma Int16Congruent(x: int)
    ensures x == Int16(x) + (x + 0x8000) / 0x1_0000 * 0x1_0000
  {
  }

  // With t == a * Q^-1 modulo 2^16, the low half of a - t * Q vanishes.
  lemma MontgomeryExact(a: int, t: int)
    requires t == Int16(Int16(a) * QINV)
    ensures (a - t * Q) % 0x1_0000 == 0
  {
    var i, j := (a + 0x8000) / 0x1_0000, (Int16(a) * QINV + 0x8000) / 0x1_0000;
    Int16Congruent(a);
    Int16Congruent(Int16(a) * QINV);
    LowHalf(a - t * Q, i + 169 * Int16(a) + Q * j);
  }

  lemma LowHalf(x: int, k: int)
    requires x == 0x1_0000 * k
    ensures x % 0x1_0000 == 0 && x / 0x1_0000 == k
  {
  }

  lemma MontgomeryResidue(a: int, t: int, r: int)
    requires a - t * Q == 0x1_0000 * r
    ensures Cong(r, R_INV * a)
  {
    CongMultiple(r, 3327 * r + R_INV * t);
  }

  function MontgomeryReduce(a: int): (r: int16)
    requires -Q * 0x8000 <= a < Q * 0x8000
    ensures -Q < r < Q
    ensures Cong(r, R_INV * a)
  {
    var t := Int16(Int16(a) * QINV);
    MontgomeryExact(a, t);
    MontgomeryResidue(a, t, (a - t * Q) / 0x1_0000);
    (a - t * Q) / 0x1_0000
  }

  // ((1 << 26) + Q/2) / Q
  const BARRETT_V := 20159

  // The quotient taken by Barrett reduction is a / Q rounded to the nearest integer.
  lemma BarrettQuotient(a: int16, t: int)
    requires 0x400_0000 * t <= BARRETT_V * a + 0x200_0000 < 0x400_0000 * (t + 1)
    ensures -10 <= t <= 10
    ensures -(Q / 2) <= a - t * Q <= Q / 2
    ensures Cong(a - t * Q, a)
  {
    assert IsInt16(a);
    CongMultiple(a, -t);
  }

  function BarrettReduce(a: int16): (r: int16)
    ensures -(Q / 2) <= r <= Q / 2
    ensures Cong(r, a)
  {
    var u := (BARRETT_V * a + 0x200_0000) / 0x400_0000;
    BarrettQuotient(a, u);
    var t := Int16(u);
    assert t == u;
    assert Int16(a - Int16(t * Q)) == a - t * Q;
    Int16(a - Int16(t * Q))
  }
}
