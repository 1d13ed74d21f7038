// The S-box of AES as a circuit on 64 bytes at once (components/aes256ctr/aes256ctr.c:68-241).
module AesSbox {
  import opened AesBits
  import opened AesField

  function GXor(x: bv64, y: bv64): bv64 {
    x ^ y
  }

  function GAnd(x: bv64, y: bv64): bv64 {
    x & y
  }

  function GNot(x: bv64): bv64 {
    !x
  }

  // br_aes_ct64_bitslice_Sbox
  function Circuit(s: Slices): Slices {
    var (x0, x1, x2, x3, x4, x5, x6, x7) := (s.q7, s.q6, s.q5, s.q4, s.q3, s.q2, s.q1, s.q0);
    var y14 := GXor(x3, x5); var y13 := GXor(x0, x6); var y9 := GXor(x0, x3); var y8 := GXor(x0, x5);
    var t0 := GXor(x1, x2); var y1 := GXor(t0, x7); var y4 := GXor(y1, x3); var y12 := GXor(y13, y14);
    var y2 := GXor(y1, x0); var y5 := GXor(y1, x6); var y3 := GXor(y5, y8); var t1 := GXor(x4, y12);
    var y15 := GXor(t1, x5); var y20 := GXor(t1, x1); var y6 := GXor(y15, x7); var y10 := GXor(y15, t0);
    var y11 := GXor(y20, y9); var y7 := GXor(x7, y11); var y17 := GXor(y10, y11); var y19 := GXor(y10, y8);
    var y16 := GXor(t0, y11); var y21 := GXor(y13, y16); var y18 := GXor(x0, y16); var t2 := GAnd(y12, y15);
    var t3 := GAnd(y3, y6); var t4 := GXor(t3, t2); var t5 := GAnd(y4, x7); var t6 := GXor(t5, t2);
    var t7 := GAnd(y13, y16); var t8 := GAnd(y5, y1); var t9 := GXor(t8, t7); var t10 := GAnd(y2, y7);
    var t11 := GXor(t10, t7); var t12 := GAnd(y9, y11); var t13 := GAnd(y14, y17); var t14 := GXor(t13, t12);
    var t15 := GAnd(y8, y10); var t16 := GXor(t15, t12); var t17 := GXor(t4, t14); var t18 := GXor(t6, t16);
    var t19 := GXor(t9, t14); var t20 := GXor(t11, t16); var t21 := GXor(t17, y20); var t22 := GXor(t18, y19);
    var t23 := GXor(t19, y21); var t24 := GXor(t20, y18); var t25 := GXor(t21, t22); var t26 := GAnd(t21, t23);
    var t27 := GXor(t24, t26); var t28 := GAnd(t25, t27); var t29 := GXor(t28, t22); var t30 := GXor(t23, t24);
    var t31 := GXor(t22, t26); var t32 := GAnd(t31, t30); var t33 := GXor(t32, t24); var t34 := GXor(t23, t33);
    var t35 := GXor(t27, t33); var t36 := GAnd(t24, t35); var t37 := GXor(t36, t34); var t38 := GXor(t27, t36);
    var t39 := GAnd(t29, t38); var t40 := GXor(t25, t39); var t41 := GXor(t40, t37); var t42 := GXor(t29, t33);
    var t43 := GXor(t29, t40); var t44 := GXor(t33, t37); var t45 := GXor(t42, t41); var z0 := GAnd(t44, y15);
    var z1 := GAnd(t37, y6); var z2 := GAnd(t33, x7); var z3 := GAnd(t43, y16); var z4 := GAnd(t40, y1);
    var z5 := GAnd(t29, y7); var z6 := GAnd(t42, y11); var z7 := GAnd(t45, y17); var z8 := GAnd(t41, y10);
    var z9 := GAnd(t44, y12); var z10 := GAnd(t37, y3); var z11 := GAnd(t33, y4); var z12 := GAnd(t43, y13);
    var z13 := GAnd(t40, y5); var z14 := GAnd(t29, y2); var z15 := GAnd(t42, y9); var z16 := GAnd(t45, y14);
    var z17 := GAnd(t41, y8); var t46 := GXor(z15, z16); var t47 := GXor(z10, z11); var t48 := GXor(z5, z13);
    var t49 := GXor(z9, z10); var t50 := GXor(z2, z12); var t51 := GXor(z2, z5); var t52 := GXor(z7, z8);
    var t53 := GXor(z0, z3); var t54 := GXor(z6, z7); var t55 := GXor(z16, z17); var t56 := GXor(z12, t48);
    var t57 := GXor(t50, t53); var t58 := GXor(z4, t46); var t59 := GXor(z3, t54); var t60 := GXor(t46, t57);
    var t61 := GXor(z14, t57); var t62 := GXor(t52, t58); var t63 := GXor(t49, t58); var t64 := GXor(z4, t59);
    var t65 := GXor(t61, t62); var t66 := GXor(z1, t63); var s0 := GXor(t59, t63); var s6 := GXor(t56, GNot(t62));
    var s7 := GXor(t48, GNot(t60)); var t67 := GXor(t64, t65); var s3 := GXor(t53, t66); var s4 := GXor(t51, t66);
    var s5 := GXor(t47, t65); var s1 := GXor(t64, GNot(s3)); var s2 := GXor(t55, GNot(t67));
    Slices(s7, s6, s5, s4, s3, s2, s1, s0)
  }

  // ----- on one byte: the S-box of FIPS 197, section 5.1.1

  // The bits of b in the lowest places.
  function Spread(b: bv8): Slices {
    Slices((b & 1) as bv64, ((b >> 1) & 1) as bv64, ((b >> 2) & 1) as bv64, ((b >> 3) & 1) as bv64,
           ((b >> 4) & 1) as bv64, ((b >> 5) & 1) as bv64, ((b >> 6) & 1) as bv64, ((b >> 7) & 1) as bv64)
  }

  function Sbox(b: bv8): bv8 {
    Gather(Circuit(Spread(b)), 0)
  }

  lemma InvertsLow(b: bv8)
    requires b < 0x80
    ensures IsInverse(b, Unaffine(Sbox(b)))
  {
  }

  lemma InvertsHigh(b: bv8)
    requires b >= 0x80
    ensures IsInverse(b, Unaffine(Sbox(b)))
  {
  }

  // The affine image of the inverse.
  lemma SboxIsFips(b: bv8)
    ensures exists x :: IsInverse(b, x) && Sbox(b) == Affine(x)
  {
    if b < 0x80 {
      InvertsLow(b);
    } else {
      InvertsHigh(b);
    }
    hide Sbox, IsInverse;
    AffineUndone(Sbox(b));
    assert IsInverse(b, Unaffine(Sbox(b)));
  }

  // ----- the circuit works on every byte by itself

  function XorBit(a: bv8, b: bv8): bv8 {
    a ^ b
  }

  function AndBit(a: bv8, b: bv8): bv8 {
    a & b
  }

  function NotBit(a: bv8): bv8 {
    1 ^ a
  }

  lemma RawXor(x: bv64, y: bv64, p: bv64)
    requires p < 64
    ensures Pick(x ^ y, p) == Pick(x, p) ^ Pick(y, p)
  {
  }

  lemma RawAnd(x: bv64, y: bv64, p: bv64)
    requires p < 64
    ensures Pick(x & y, p) == Pick(x, p) & Pick(y, p)
  {
  }

  lemma PickXor(x: bv64, y: bv64, p: bv64)
    requires p < 64
    ensures Pick(GXor(x, y), p) == XorBit(Pick(x, p), Pick(y, p))
  {
    RawXor(x, y, p);
    hide Pick;
  }

  lemma PickAnd(x: bv64, y: bv64, p: bv64)
    requires p < 64
    ensures Pick(GAnd(x, y), p) == AndBit(Pick(x, p), Pick(y, p))
  {
    RawAnd(x, y, p);
    hide Pick;
  }

  lemma PickNot(x: bv64, p: bv64)
    requires p < 64
    ensures Pick(GNot(x), p) == NotBit(Pick(x, p))
  {
  }

  lemma PickXors(p: bv64)
    requires p < 64
    ensures forall x, y {:trigger GXor(x, y)} :: Pick(GXor(x, y), p) == XorBit(Pick(x, p), Pick(y, p))
  {
    hide Pick, GXor, XorBit;
    forall x, y ensures Pick(GXor(x, y), p) == XorBit(Pick(x, p), Pick(y, p)) {
      PickXor(x, y, p);
    }
  }

  lemma PickAnds(p: bv64)
    requires p < 64
    ensures forall x, y {:trigger GAnd(x, y)} :: Pick(GAnd(x, y), p) == AndBit(Pick(x, p), Pick(y, p))
  {
    hide Pick, GAnd, AndBit;
    forall x, y ensures Pick(GAnd(x, y), p) == AndBit(Pick(x, p), Pick(y, p)) {
      PickAnd(x, y, p);
    }
  }

  lemma PickNots(p: bv64)
    requires p < 64
    ensures forall x {:trigger GNot(x)} :: Pick(GNot(x), p) == NotBit(Pick(x, p))
  {
    hide Pick, GNot, NotBit;
    forall x ensures Pick(GNot(x), p) == NotBit(Pick(x, p)) {
      PickNot(x, p);
    }
  }

  lemma PickSpread(s: Slices, p: bv64)
    requires p < 64
    ensures var t := Spread(Gather(s, p));
            && Pick(t.q0, 0) == Pick(s.q0, p) && Pick(t.q1, 0) == Pick(s.q1, p) && Pick(t.q2, 0) == Pick(s.q2, p)
            && Pick(t.q3, 0) == Pick(s.q3, p) && Pick(t.q4, 0) == Pick(s.q4, p) && Pick(t.q5, 0) == Pick(s.q5, p)
            && Pick(t.q6, 0) == Pick(s.q6, p) && Pick(t.q7, 0) == Pick(s.q7, p)
  {
  }

  lemma CircuitIsBytewise(s: Slices, p: bv64)
    requires p < 64
    ensures Gather(Circuit(s), p) == Sbox(Gather(s, p))
  {
    PickSpread(s, p);
    PickXors(p);
    PickXors(0);
    PickAnds(p);
    PickAnds(0);
    PickNots(p);
    PickNots(0);
    hide Pick, GXor, GAnd, GNot, XorBit, AndBit, NotBit, Spread, Join;
  }
}
