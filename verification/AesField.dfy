// Bytes as elements of GF(2^8) with the polynomial x^8 + x^4 + x^3 + x + 1 (FIPS 197,
// sections 4.2 and 5.1.1).
module AesField {
  function XTime(b: bv8): bv8 {
    if b & 0x80 != 0 then (b << 1) ^ 0x1b else b << 1
  }

  function Term(a: bv8, b: bv8, k: bv8): bv8
    requires k < 8
  {
    if (b >> k) & 1 == 1 then a else 0
  }

  function Times(a: bv8, b: bv8): bv8 {
    var a1 := XTime(a);
    var a2 := XTime(a1);
    var a3 := XTime(a2);
    var a4 := XTime(a3);
    var a5 := XTime(a4);
    var a6 := XTime(a5);
    var a7 := XTime(a6);
    Term(a, b, 0) ^ Term(a1, b, 1) ^ Term(a2, b, 2) ^ Term(a3, b, 3) ^ Term(a4, b, 4) ^ Term(a5, b, 5) ^ Term(a6, b, 6) ^ Term(a7, b, 7)
  }

  // x is the inverse of b; 0 stands for its own.
  predicate IsInverse(b: bv8, x: bv8) {
    if b == 0 then x == 0 else Times(b, x) == 1
  }

  function Turn(b: bv8, n: bv8): bv8
    requires 0 < n < 8
  {
    (b << n) | (b >> (8 - n))
  }

  // The affine map of the S-box, and its inverse.
  function Affine(b: bv8): bv8 {
    b ^ Turn(b, 1) ^ Turn(b, 2) ^ Turn(b, 3) ^ Turn(b, 4) ^ 0x63
  }

  function Unaffine(b: bv8): bv8 {
    Turn(b, 1) ^ Turn(b, 3) ^ Turn(b, 6) ^ 0x05
  }

  lemma AffineUndone(b: bv8)
    ensures Affine(Unaffine(b)) == b
  {
  }
}
