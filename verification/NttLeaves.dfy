// What the transform is: coefficients 2i and 2i + 1 are the remainder modulo
// X^2 - 17^(2 BitRev7(i) + 1) (FIPS 203, section 4.3; components/ntt/ntt.c:80-96).
module NttLeaves {
  import opened Reduce
  import opened PolyRing
  import opened Zetas
  import opened ZetaPowers
  import opened NttSpec
  import opened RingQ

  // Coefficient c of the remainder of p modulo X^2 - w, by Horner's rule.
  function Rest(p: Vec, w: int, c: nat): int
    requires |p| % 2 == 0 && c < 2
  {
    if p == [] then 0 else p[c] + w * Rest(p[2..], w, c)
  }

  function Power(w: int, n: nat): int {
    if n == 0 then 1 else w * Power(w, n - 1)
  }

  // ----- the leaves of a node

  lemma Scaled(x: int, y: int, w: int, r: int)
    ensures (x + y) + w * r == x + (y + w * r)
    ensures w * (x + y) == w * x + w * y && w * (y * r) == y * (w * r) && (w * y) * r == w * (y * r)
  {
  }

  lemma {:induction false} RestConcat(a: Vec, b: Vec, w: int, c: nat)
    requires |a| % 2 == 0 && |b| % 2 == 0 && c < 2
    ensures Rest(a + b, w, c) == Rest(a, w, c) + Power(w, |a| / 2) * Rest(b, w, c)
  {
    if a == [] {
      assert a + b == b;
    } else {
      RestConcat(a[2..], b, w, c);
      assert (a + b)[2..] == a[2..] + b;
      var r, s, m := Rest(a[2..], w, c), Rest(b, w, c), Power(w, |a| / 2 - 1);
      Scaled(r, m * s, w, 0);
      Scaled(0, m, w, s);
    }
  }

  // s == a + y * b
  lemma {:induction false} RestLinear(a: Vec, b: Vec, y: int, s: Vec, w: int, c: nat)
    requires |a| == |b| == |s| && |a| % 2 == 0 && c < 2 && forall i :: 0 <= i < |a| ==> s[i] == a[i] + y * b[i]
    ensures Rest(s, w, c) == Rest(a, w, c) + y * Rest(b, w, c)
  {
    if a != [] {
      RestLinear(a[2..], b[2..], y, s[2..], w, c);
      var r, t := Rest(a[2..], w, c), Rest(b[2..], w, c);
      Scaled(r, y * t, w, 0);
      Scaled(0, y, w, t);
      Scaled(b[c], w * t, y, 0);
    }
  }

  // Folding keeps the remainder when X^(n/2) is y modulo X^2 - w.
  lemma FoldRest(p: Vec, y: int, w: int, c: nat)
    requires |p| % 4 == 0 && c < 2 && Cong(Power(w, |p| / 4), y)
    ensures Cong(Rest(Fold(p, y), w, c), Rest(p, w, c))
  {
    hide Cong, Rest, Power, Fold;
    var m := |p| / 2;
    var lo, hi := p[..m], p[m..];
    Halves(p);
    RestConcat(lo, hi, w, c);
    FoldIsSum(p, y);
    RestLinear(lo, hi, y, Fold(p, y), w, c);
    SameFactor(Rest(lo, w, c), Power(w, |p| / 4), y, Rest(hi, w, c));
  }

  lemma Halves(p: Vec)
    requires |p| % 4 == 0
    ensures var m := |p| / 2; m % 2 == 0 && m / 2 == |p| / 4 && m + m == |p| && p == p[..m] + p[m..]
  {
  }

  lemma FoldIsSum(p: Vec, y: int)
    requires |p| % 2 == 0
    ensures var m := |p| / 2; |Fold(p, y)| == m && forall i :: 0 <= i < m ==> Fold(p, y)[i] == p[..m][i] + y * p[m..][i]
  {
  }

  lemma SameFactor(a: int, u: int, y: int, b: int)
    requires Cong(u, y)
    ensures Cong(a + y * b, a + u * b)
  {
    hide Residue;
    CongMul(y, u, b, b);
    CongAdd(a, a, y * b, u * b);
  }

  lemma {:induction false} PowerAddW(w: int, m: nat, n: nat)
    ensures Power(w, m + n) == Power(w, m) * Power(w, n)
  {
    if m > 0 {
      PowerAddW(w, m - 1, n);
      Scaled(0, Power(w, m - 1), w, Power(w, n));
    }
  }

  // The constant of a node is a power of the constants of its leaves.
  lemma {:induction false} NodePower(k: nat, d: nat, i: nat)
    requires 1 <= k && (k + 1) * Size(d) <= 512 && i < Size(d) / 2
    ensures Cong(Power(W(Leaf(k, d) + i), Size(d) / 2), W(k))
    decreases d
  {
    hide Residue, Z, W;
    if d == 0 {
      assert Power(W(k), 1) == W(k) * Power(W(k), 0);
    } else {
      hide Power;
      var h, w := Size(d - 1) / 2, W(Leaf(k, d) + i);
      ProductBound(k + 1, Size(d));
      ChildBound(k, Size(d - 1));
      LeafNext(2 * k, d - 1);
      var child := if i < h then 2 * k else 2 * k + 1;
      NodePower(child, d - 1, if i < h then i else i - h);
      ChildConstant(k, child);
      PowerAddW(w, h, h);
      CongMul(Power(w, h), W(child), Power(w, h), W(child));
    }
  }

  lemma ChildConstant(k: nat, child: nat)
    requires 1 <= k < 128 && (child == 2 * k || child == 2 * k + 1)
    ensures W(child) == (if child == 2 * k then Z(k) else -Z(k)) && Cong(W(child) * W(child), W(k))
  {
    hide Residue, Z;
    ZSquare(k);
    NegSquare(Z(k));
  }

  // Every leaf holds the remainder modulo its own constant.
  lemma {:induction false} LeafRest(p: Vec, d: nat, k: nat, i: nat, c: nat)
    requires |p| == Size(d) && 1 <= k && (k + 1) * Size(d) <= 512 && i < Size(d) / 2 && c < 2
    ensures Cong(Layers(p, d, k)[2 * i + c], Rest(p, W(Leaf(k, d) + i), c))
    decreases d
  {
    hide Cong, Z, W, Fold, Rest, Layers;
    if d == 0 {
      OneLeaf(p, k, c);
    } else {
      var h, w := Size(d - 1) / 2, W(Leaf(k, d) + i);
      ProductBound(k + 1, Size(d));
      ChildBound(k, Size(d - 1));
      LeafNext(2 * k, d - 1);
      LayersNode(p, d, k);
      var child, j := if i < h then 2 * k else 2 * k + 1, if i < h then i else i - h;
      ChildConstant(k, child);
      NodePower(child, d - 1, j);
      FoldRest(p, W(child), w, c);
      LeafRest(Fold(p, W(child)), d - 1, child, j, c);
      CongChain(Layers(p, d, k)[2 * i + c], Rest(Fold(p, W(child)), w, c), Rest(p, w, c));
    }
  }

  lemma OneLeaf(p: Vec, k: nat, c: nat)
    requires |p| == 2 && c < 2
    ensures Size(0) == 2 && Leaf(k, 0) == k && |Layers(p, 0, k)| == 2 && Cong(Layers(p, 0, k)[c], Rest(p, W(k), c))
  {
    hide Z;
    assert p[2..] == [];
    assert W(k) * 0 == 0;
  }

  lemma CongChain(x: int, y: int, z: int)
    requires Cong(x, y) && Cong(y, z)
    ensures Cong(x, z)
  {
  }

  // ----- the constants of the leaves

  lemma ZIsPower(k: nat)
    requires k < 128
    ensures Cong(Z(k), Power17(BitRev7(k)))
  {
    ZetaIsPower(k);
    Unscaled(k);
    var p := Power17(BitRev7(k));
    assert IsPower(Zeta(k), BitRev7(k));
    hide Residue, Z, Zeta, Power17, BitRev7;
    CongMul(Zeta(k), 0x1_0000 * p, R_INV, R_INV);
    Plain(p);
  }

  lemma Plain(p: int)
    ensures Cong(0x1_0000 * p * R_INV, p)
  {
    CongMultiple(p, 3327 * p);
  }

  // 17^128 is -1.
  lemma HalfTurn()
    ensures Cong(Power17(128), -1)
  {
    BitRevOne();
    ZIsPower(1);
    ZSquare(1);
    PowerAdd(64, 64);
    assert W(1) == -1;
    hide Residue, Z, Power17;
    CongMul(Z(1), Power17(64), Z(1), Power17(64));
  }

  lemma BitRevOne()
    ensures BitRev7(1) == 64
  {
    BitRevZero(6);
    assert BitRev(1, 7) == 1 % 2 * Two(6) + BitRev(1 / 2, 6);
    assert Two(1) == 2 && Two(2) == 4 && Two(3) == 8 && Two(4) == 16 && Two(5) == 32 && Two(6) == 64;
  }

  lemma TwoSix()
    ensures Two(6) == 64 && Two(0) == 1
  {
    assert Two(1) == 2 && Two(2) == 4 && Two(3) == 8 && Two(4) == 16 && Two(5) == 32 && Two(6) == 64;
  }

  // The exponents for the pair of leaves 2h and 2h + 1.
  lemma PairExponents(h: nat)
    requires h < 64
    ensures 2 * BitRev7(2 * h) + 1 == BitRev7(64 + h)
    ensures 2 * BitRev7(2 * h + 1) + 1 == 128 + BitRev7(64 + h)
  {
    TwoSix();
    BitRevTop(h, 6, 7);
    BitRevDouble(h, 6);
    assert BitRev(2 * h, 7) == BitRev(h, 6);
    assert BitRev(2 * h + 1, 7) == Two(6) + BitRev(h, 6);
  }

  // Leaf i works modulo X^2 - 17^(2 BitRev7(i) + 1).
  lemma LeafConstant(i: nat)
    requires i < 128
    ensures Cong(W(128 + i), Power17(2 * BitRev7(i) + 1))
  {
    hide Residue, Z, Power17, BitRev7;
    var h := i / 2;
    var p := Power17(BitRev7(64 + h));
    PairExponents(h);
    ZIsPower(64 + h);
    if i % 2 == 0 {
      assert W(128 + i) == Z(64 + h) && i == 2 * h;
    } else {
      assert W(128 + i) == -Z(64 + h) && i == 2 * h + 1;
      HalfTurn();
      PowerAdd(128, BitRev7(64 + h));
      CongMul(Power17(128), -1, p, p);
      CongMul(-1, -1, Z(64 + h), p);
    }
  }

  // ----- the transform

  lemma {:induction false} RestRes(p: Vec, w: int, w': int, c: nat)
    requires |p| % 2 == 0 && c < 2 && Cong(w, w')
    ensures Cong(Rest(p, w, c), Rest(p, w', c))
  {
    hide Residue;
    if p != [] {
      RestRes(p[2..], w, w', c);
      CongMul(w, w', Rest(p[2..], w, c), Rest(p[2..], w', c));
      CongAdd(p[c], p[c], w * Rest(p[2..], w, c), w' * Rest(p[2..], w', c));
    }
  }

  // Coefficients 2i and 2i + 1 of the transform of p.
  lemma NttIsRemainder(p: Vec, i: nat, c: nat)
    requires IsPoly(p) && i < 128 && c < 2
    ensures NttQ(p)[2 * i + c] == Residue(Rest(p, Power17(2 * BitRev7(i) + 1), c))
  {
    hide Residue, W, Power17, BitRev7, Rest, Layers;
    Constants();
    LeafRest(p, 7, 1, i, c);
    LeafConstant(i);
    RestRes(p, W(128 + i), Power17(2 * BitRev7(i) + 1), c);
  }
}
