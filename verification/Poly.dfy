// Polynomials as arrays of 256 int16 coefficients, updated in place
// (components/poly/poly.c, components/polyvec/polyvec.c).
module Poly {
  import opened Reduce
  import opened PolyRing
  import opened Zetas
  import opened NttSpec
  import opened RingQ
  import opened InPlaceNtt

  // The representative of x modulo Q closest to zero.
  function Centred(x: int): (r: int)
    ensures -(Q / 2) <= r <= Q / 2 && Cong(r, x)
  {
    var s := Residue(x);
    if s <= Q / 2 then s else s - Q
  }

  function Centre(p: Vec): (r: Vec)
    ensures |r| == |p|
  {
    seq(|p|, i requires 0 <= i < |p| => Centred(p[i]))
  }

  lemma CentredUnique(x: int, y: int)
    requires -(Q / 2) <= y <= Q / 2 && Cong(y, x)
    ensures y == Centred(x)
  {
  }

  lemma CentreRes(p: Vec, p': Vec)
    requires Res(p) == Res(p')
    ensures Centre(p) == Centre(p') && Res(Centre(p)) == Res(p)
  {
    hide Residue;
    assert |Res(p)| == |Res(p')|;
    forall i | 0 <= i < |p|
      ensures Centre(p)[i] == Centre(p')[i]
    {
      ResAt(p, p', i);
    }
  }

  // ----- coefficientwise operations

  method PolyReduce(r: array<int16>)
    modifies r
    ensures r[..] == Centre(old(r[..]))
  {
    hide Residue, BarrettReduce, Centred;
    var i := 0;
    while i < r.Length
      invariant 0 <= i <= r.Length
      invariant forall j :: 0 <= j < i ==> r[j] == Centred(old(r[j]))
      invariant forall j :: i <= j < r.Length ==> r[j] == old(r[j])
    {
      CentredUnique(r[i], BarrettReduce(r[i]));
      r[i] := BarrettReduce(r[i]);
      i := i + 1;
    }
  }

  method PolyAdd(r: array<int16>, a: array<int16>, b: array<int16>)
    requires r.Length == a.Length == b.Length
    modifies r
    ensures forall i :: 0 <= i < r.Length ==> r[i] == Int16(old(a[i] as int) + old(b[i] as int))
  {
    hide Int16;
    var i := 0;
    while i < r.Length
      invariant 0 <= i <= r.Length
      invariant forall j :: 0 <= j < i ==> r[j] == Int16(old(a[j] as int) + old(b[j] as int))
      invariant forall j :: i <= j < r.Length ==> r[j] == old(r[j]) && a[j] == old(a[j]) && b[j] == old(b[j])
    {
      r[i] := Int16(a[i] as int + b[i] as int);
      i := i + 1;
    }
  }

  method PolySub(r: array<int16>, a: array<int16>, b: array<int16>)
    requires r.Length == a.Length == b.Length
    modifies r
    ensures forall i :: 0 <= i < r.Length ==> r[i] == Int16(old(a[i] as int) - old(b[i] as int))
  {
    hide Int16;
    var i := 0;
    while i < r.Length
      invariant 0 <= i <= r.Length
      invariant forall j :: 0 <= j < i ==> r[j] == Int16(old(a[j] as int) - old(b[j] as int))
      invariant forall j :: i <= j < r.Length ==> r[j] == old(r[j]) && a[j] == old(a[j]) && b[j] == old(b[j])
    {
      r[i] := Int16(a[i] as int - b[i] as int);
      i := i + 1;
    }
  }

  // 2^32 modulo Q
  const TOMONT_FACTOR := 1353

  method PolyToMont(r: array<int16>)
    modifies r
    ensures Res(r[..]) == ScaleQ(0x1_0000, old(r[..]))
    ensures forall i :: 0 <= i < r.Length ==> -Q < r[i] < Q
  {
    hide Residue, MontgomeryReduce;
    ghost var p: seq<int> := r[..];
    var i := 0;
    while i < r.Length
      invariant 0 <= i <= r.Length
      invariant forall j :: 0 <= j < i ==> Cong(r[j], 0x1_0000 * p[j]) && -Q < r[j] < Q
      invariant forall j :: i <= j < r.Length ==> r[j] == p[j]
    {
      ToMontFactor(r[i]);
      r[i] := MontgomeryReduce(r[i] * TOMONT_FACTOR);
      i := i + 1;
    }
  }

  lemma ToMontFactor(x: int)
    ensures Cong(R_INV * (x * TOMONT_FACTOR), 0x1_0000 * x)
  {
    CongMul(R_INV * TOMONT_FACTOR, 0x1_0000, x, x);
  }

  method PolyNtt(r: array<int16>)
    requires r.Length == N
    requires forall i :: 0 <= i < N ==> -NTT_INPUT_BOUND <= r[i] <= NTT_INPUT_BOUND
    modifies r
    ensures r[..] == Centre(NttQ(old(r[..])))
  {
    hide Residue, Res, NttQ, Centre;
    Ntt(r);
    ResRes(r[..]);
    CentreRes(r[..], NttQ(old(r[..])));
    PolyReduce(r);
  }

  // ----- products in the transformed domain

  // Products of coefficients of at most this size stay below Q * 2^15.
  const BASEMUL_BOUND := 10443

  lemma SmallProduct(a: int, b: int)
    requires -BASEMUL_BOUND <= a <= BASEMUL_BOUND && -BASEMUL_BOUND <= b <= BASEMUL_BOUND
    ensures -Q * 0x8000 <= a * b < Q * 0x8000
  {
    var c := if b >= 0 then b else -b;
    NonNegativeProduct(BASEMUL_BOUND - a, c);
    NonNegativeProduct(BASEMUL_BOUND + a, c);
    assert (BASEMUL_BOUND - a) * c == BASEMUL_BOUND * c - a * c;
    assert (BASEMUL_BOUND + a) * c == BASEMUL_BOUND * c + a * c;
    assert a * b == a * c || a * b == -(a * c);
  }

  // r is (a * b) / 2^16 modulo X^2 - w.
  ghost predicate PairProduct(a0: int, a1: int, b0: int, b1: int, w: int, r0: int, r1: int) {
    && Cong(r0, R_INV * (a0 * b0 + w * (a1 * b1)))
    && Cong(r1, R_INV * (a0 * b1 + a1 * b0))
  }

  // How basemul arrives at it: s and t are the two reductions of the first
  // coefficient, u, v and x the other three products.
  lemma BaseMulPair(a0: int, a1: int, b0: int, b1: int, zeta: int, w: int, s: int, t: int, u: int, v: int, x: int)
    requires Cong(w, zeta * R_INV)
    requires Cong(s, R_INV * (a1 * b1)) && Cong(t, R_INV * (s * zeta)) && Cong(u, R_INV * (a0 * b0))
    requires Cong(v, R_INV * (a0 * b1)) && Cong(x, R_INV * (a1 * b0))
    ensures PairProduct(a0, a1, b0, b1, w, t + u, v + x)
  {
    hide Residue;
    BaseMulFirst(a0 * b0, a1 * b1, zeta, w, s, t, u);
    CongAdd(v, R_INV * (a0 * b1), x, R_INV * (a1 * b0));
    assert R_INV * (a0 * b1) + R_INV * (a1 * b0) == R_INV * (a0 * b1 + a1 * b0);
  }

  lemma BaseMulFirst(x: int, y: int, zeta: int, w: int, s: int, t: int, u: int)
    requires Cong(w, zeta * R_INV)
    requires Cong(s, R_INV * y) && Cong(t, R_INV * (s * zeta)) && Cong(u, R_INV * x)
    ensures Cong(t + u, R_INV * (x + w * y))
  {
    hide Residue;
    CongMul(s, R_INV * y, zeta * R_INV, w);
    CongAdd(t, R_INV * y * w, u, R_INV * x);
    BaseMulRegroup(x, y, w, s, zeta);
  }

  lemma BaseMulRegroup(x: int, y: int, w: int, s: int, zeta: int)
    ensures R_INV * y * w + R_INV * x == R_INV * (x + w * y)
    ensures s * (zeta * R_INV) == R_INV * (s * zeta)
  {
  }

  predicate BasemulInput(x: int) {
    -BASEMUL_BOUND <= x <= BASEMUL_BOUND
  }

  method BaseMul(r: array<int16>, a: array<int16>, b: array<int16>, o: nat, zeta: int16, ghost w: int)
    requires o + 2 <= r.Length == a.Length == b.Length && r != a && r != b
    requires -Q < zeta < Q && Cong(w, zeta * R_INV)
    requires BasemulInput(a[o]) && BasemulInput(a[o + 1]) && BasemulInput(b[o]) && BasemulInput(b[o + 1])
    modifies r
    ensures forall i :: 0 <= i < r.Length && i != o && i != o + 1 ==> r[i] == old(r[i])
    ensures -2 * Q < r[o] < 2 * Q && -2 * Q < r[o + 1] < 2 * Q
    ensures PairProduct(a[o], a[o + 1], b[o], b[o + 1], w, r[o], r[o + 1])
  {
    hide Residue, Cong, FqMul, MontgomeryReduce, PairProduct;
    SmallProduct(a[o + 1], b[o + 1]);
    r[o] := FqMul(a[o + 1], b[o + 1]);
    ghost var s := r[o];
    ProductInRange(zeta, r[o]);
    r[o] := FqMul(r[o], zeta);
    ghost var t := r[o];
    SmallProduct(a[o], b[o]);
    var u := FqMul(a[o], b[o]);
    r[o] := r[o] + u;
    SmallProduct(a[o], b[o + 1]);
    r[o + 1] := FqMul(a[o], b[o + 1]);
    ghost var v := r[o + 1];
    SmallProduct(a[o + 1], b[o]);
    var x := FqMul(a[o + 1], b[o]);
    r[o + 1] := r[o + 1] + x;
    BaseMulPair(a[o], a[o + 1], b[o], b[o + 1], zeta, w, s, t, u, v, x);
  }

  ghost predicate PairsDone(a: Vec, b: Vec, r: Vec, n: nat) {
    && 2 * n <= |r| == |a| == |b|
    && forall e :: 0 <= e < n ==> PairProduct(a[2 * e], a[2 * e + 1], b[2 * e], b[2 * e + 1], W(128 + e), r[2 * e], r[2 * e + 1])
  }

  lemma PairsDoneNext(a: Vec, b: Vec, r: Vec, r': Vec, n: nat)
    requires PairsDone(a, b, r, n) && |r'| == |r| && 2 * n + 2 <= |r|
    requires forall i :: 0 <= i < 2 * n ==> r'[i] == r[i]
    requires PairProduct(a[2 * n], a[2 * n + 1], b[2 * n], b[2 * n + 1], W(128 + n), r'[2 * n], r'[2 * n + 1])
    ensures PairsDone(a, b, r', n + 1)
  {
    hide PairProduct, W;
  }

  lemma AllPairs(a: Vec, b: Vec, r: Vec)
    requires |r| % 2 == 0 && PairsDone(a, b, r, |r| / 2)
    ensures Res(r) == ScaleQ(R_INV, PairQ(a, b))
  {
    hide Residue, W, PairProducts;
    var p := PairProducts(a, b, 128);
    forall i | 0 <= i < |r|
      ensures Cong(r[i], R_INV * p[i])
    {
      var e := i / 2;
      PairProductsAt(a, b, 128, e);
      assert PairProduct(a[2 * e], a[2 * e + 1], b[2 * e], b[2 * e + 1], W(128 + e), r[2 * e], r[2 * e + 1]);
      assert i == 2 * e || i == 2 * e + 1;
    }
    assert Res(r) == Res(Scale(R_INV, p));
    ResRes(p);
    ResScale(R_INV, R_INV, p, Res(p));
  }

  lemma LeafTwiddle(i: nat)
    requires i < 64
    ensures Cong(W(128 + 2 * i), Zeta(64 + i) * R_INV) && Cong(W(129 + 2 * i), -Zeta(64 + i) * R_INV)
  {
    Unscaled(64 + i);
    assert (128 + 2 * i) / 2 == 64 + i && (129 + 2 * i) / 2 == 64 + i;
  }

  method PolyBasemulMontgomery(r: array<int16>, a: array<int16>, b: array<int16>)
    requires r.Length == a.Length == b.Length == N && r != a && r != b
    requires forall i :: 0 <= i < N ==> BasemulInput(a[i]) && BasemulInput(b[i])
    modifies r
    ensures Res(r[..]) == ScaleQ(R_INV, PairQ(a[..], b[..]))
    ensures forall i :: 0 <= i < N ==> -2 * Q < r[i] < 2 * Q
  {
    hide Residue, Cong, PairProduct, W, Zeta, ScaleQ, PairQ, PairsDone, BasemulInput;
    assert PairsDone(a[..], b[..], r[..], 0) by { NoPairs(a[..], b[..], r[..]); }
    var i := 0;
    while i < N / 4
      invariant 0 <= i <= N / 4
      invariant PairsDone(a[..], b[..], r[..], 2 * i)
      invariant forall j :: 0 <= j < 4 * i ==> -2 * Q < r[j] < 2 * Q
    {
      ZetaSmall(64 + i);
      LeafTwiddle(i);
      ghost var s: seq<int> := r[..];
      BaseMul(r, a, b, 4 * i, Zeta(64 + i), W(128 + 2 * i));
      PairsDoneNext(a[..], b[..], s, r[..], 2 * i);
      s := r[..];
      BaseMul(r, a, b, 4 * i + 2, -Zeta(64 + i), W(129 + 2 * i));
      PairsDoneNext(a[..], b[..], s, r[..], 2 * i + 1);
      i := i + 1;
    }
    AllPairs(a[..], b[..], r[..]);
  }

  lemma NoPairs(a: Vec, b: Vec, r: Vec)
    requires |a| == |b| == |r|
    ensures PairsDone(a, b, r, 0)
  {
  }

  // ----- the kernels together

  lemma CentredTransform(p: Vec, c: Vec)
    requires IsPoly(p) && c == Centre(NttQ(p))
    ensures IsPoly(c) && Res(c) == NttQ(p) && forall i :: 0 <= i < N ==> -(Q / 2) <= c[i] <= Q / 2
  {
    CentredRange(NttQ(p));
    hide Residue, Res, NttQ, Centre;
    NttQIsReduced(p);
    CentreRes(NttQ(p), NttQ(p));
  }

  lemma CentredRange(p: Vec)
    ensures forall i :: 0 <= i < |p| ==> -(Q / 2) <= Centre(p)[i] <= Q / 2
  {
    hide Residue, Cong;
  }

  // Transform both factors, multiply them pairwise and transform back: r is the
  // schoolbook product modulo X^256 + 1.
  method Multiply(r: array<int16>, a: array<int16>, b: array<int16>)
    requires r.Length == a.Length == b.Length == N && r != a && r != b && a != b
    requires forall i :: 0 <= i < N ==> -NTT_INPUT_BOUND <= a[i] <= NTT_INPUT_BOUND
    requires forall i :: 0 <= i < N ==> -NTT_INPUT_BOUND <= b[i] <= NTT_INPUT_BOUND
    modifies r, a, b
    ensures forall k :: 0 <= k < N ==> Residue(r[k]) == Residue(Schoolbook(old(a[..]), old(b[..]), -1, k))
    ensures forall k :: 0 <= k < N ==> -Q < r[k] < Q
  {
    hide Residue, Res, NttQ, Centre, ScaleQ, PairQ, InvQ, Schoolbook;
    ghost var p: Vec, q: Vec := a[..], b[..];
    PolyNtt(a);
    PolyNtt(b);
    CentredTransform(p, a[..]);
    CentredTransform(q, b[..]);
    assert forall i :: 0 <= i < N ==> a[..][i] == a[i] && b[..][i] == b[i];
    PolyBasemulMontgomery(r, a, b);
    ghost var c: Vec := r[..];
    InvNtt(r);
    ProductThroughTransforms(p, q, a[..], b[..], c, r[..]);
  }

  // poly_ntt and then poly_invntt_tomont.
  method ThereAndBack(r: array<int16>)
    requires r.Length == N && forall i :: 0 <= i < N ==> -NTT_INPUT_BOUND <= r[i] <= NTT_INPUT_BOUND
    modifies r
    ensures Res(r[..]) == ScaleQ(0x1_0000, old(r[..]))
    ensures forall i :: 0 <= i < N ==> -Q < r[i] < Q
  {
    hide Residue, Res, NttQ, Centre, ScaleQ, InvQ;
    ghost var p: Vec := r[..];
    PolyNtt(r);
    CentredTransform(p, r[..]);
    assert forall i :: 0 <= i < N ==> r[..][i] == r[i];
    ghost var c: Vec := r[..];
    InvNtt(r);
    NttThenInverse(p, c, r[..]);
  }
}
