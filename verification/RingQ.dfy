// The ring Z_q[X]/(X^256 + 1) and its transform, on residues.
module RingQ {
  import opened Reduce
  import opened PolyRing
  import opened Zetas
  import opened NttSpec

  const N := 256
  // 1/128 modulo Q.
  const INV_128 := 3303

  predicate IsPoly(p: Vec) {
    |p| == N
  }

  function AddQ(a: Vec, b: Vec): (r: Vec)
    requires |a| == |b|
    ensures |r| == |a|
  {
    Res(Add(a, b))
  }

  function SubQ(a: Vec, b: Vec): (r: Vec)
    requires |a| == |b|
    ensures |r| == |a|
  {
    Res(Sub(a, b))
  }

  function ScaleQ(c: int, a: Vec): (r: Vec)
    ensures |r| == |a|
  {
    Res(Scale(c, a))
  }

  // The product modulo X^256 + 1.
  function MulQ(a: Vec, b: Vec): (r: Vec)
    ensures |r| == |b|
  {
    Res(Mul(a, b, -1))
  }

  function NttQ(a: Vec): (r: Vec)
    ensures |r| == |a|
  {
    Res(Layers(a, 7, 1))
  }

  function InvQ(x: Vec): (r: Vec)
    ensures |r| == |x|
  {
    Res(Scale(INV_128, Unlayers(x, 7, 1)))
  }

  // The product of two transforms, pair by pair.
  function PairQ(x: Vec, y: Vec): (r: Vec)
    requires |x| == |y|
    ensures |r| == |x|
  {
    Res(PairProducts(x, y, 128))
  }

  lemma Constants()
    ensures Size(7) == 256 && Leaf(1, 7) == 128 && Pow2(7) == 128 && Cong(INV_128 * 128, 1)
  {
    assert Size(1) == 4 && Size(2) == 8 && Size(3) == 16 && Size(4) == 32 && Size(5) == 64 && Size(6) == 128;
    assert Leaf(64, 1) == 128 && Leaf(32, 2) == 128 && Leaf(16, 3) == 128;
    assert Leaf(8, 4) == 128 && Leaf(4, 5) == 128 && Leaf(2, 6) == 128;
    assert Pow2(2) == 4 && Pow2(4) == 16 && Pow2(6) == 64;
  }

  // ----- operations depend on residues only

  lemma AddQRes(a: Vec, a': Vec, b: Vec, b': Vec)
    requires |a| == |b| && Res(a) == Res(a') && Res(b) == Res(b')
    ensures |a'| == |b'| && AddQ(a, b) == AddQ(a', b')
  {
    ResAdd(a, a', b, b');
  }

  lemma ScaleQRes(c: int, c': int, a: Vec, a': Vec)
    requires Cong(c, c') && Res(a) == Res(a')
    ensures ScaleQ(c, a) == ScaleQ(c', a')
  {
    ResScale(c, c', a, a');
  }

  lemma ScaleQTwice(c: int, d: int, a: Vec)
    ensures ScaleQ(c, ScaleQ(d, a)) == ScaleQ(c * d, a)
  {
    hide Res, Scale;
    ResRes(Scale(d, a));
    ResScale(c, c, ScaleQ(d, a), Scale(d, a));
    ScaleScale(c, d, a);
  }

  lemma InvQRes(x: Vec, x': Vec)
    requires Res(x) == Res(x')
    ensures InvQ(x) == InvQ(x')
  {
    hide Residue, Scale, Unlayers;
    ResUnlayers(x, x', 7, 1);
    ResScale(INV_128, INV_128, Unlayers(x, 7, 1), Unlayers(x', 7, 1));
  }

  lemma {:induction false} PairProductsRes(x: Vec, x': Vec, y: Vec, y': Vec, k: int)
    requires |x| == |y| && |x| % 2 == 0 && Res(x) == Res(x') && Res(y) == Res(y')
    ensures |x'| == |y'| == |x| && Res(PairProducts(x, y, k)) == Res(PairProducts(x', y', k))
  {
    hide Residue, Mul, W;
    assert |Res(x)| == |Res(x')| && |Res(y)| == |Res(y')|;
    if |x| >= 2 {
      ResSlice(x, x', 0, 2);
      ResSlice(x, x', 2, |x|);
      ResSlice(y, y', 0, 2);
      ResSlice(y, y', 2, |y|);
      assert x[0..2] == x[..2] && x'[0..2] == x'[..2] && y[0..2] == y[..2] && y'[0..2] == y'[..2];
      assert x[2..|x|] == x[2..] && x'[2..|x|] == x'[2..] && y[2..|y|] == y[2..] && y'[2..|y|] == y'[2..];
      ResMul(x[..2], x'[..2], y[..2], y'[..2], W(k), W(k));
      PairProductsRes(x[2..], x'[2..], y[2..], y'[2..], k + 1);
      ResConcat(Mul(x[..2], y[..2], W(k)), PairProducts(x[2..], y[2..], k + 1));
      ResConcat(Mul(x'[..2], y'[..2], W(k)), PairProducts(x'[2..], y'[2..], k + 1));
    }
  }

  lemma PairQRes(x: Vec, x': Vec, y: Vec, y': Vec)
    requires |x| == |y| && |x| % 2 == 0 && Res(x) == Res(x') && Res(y) == Res(y')
    ensures |x'| == |y'| && PairQ(x, y) == PairQ(x', y')
  {
    PairProductsRes(x, x', y, y', 128);
  }

  // ----- main laws of the transform

  // Every coefficient of a product, from the definition of the ring.
  lemma MulQIsSchoolbook(a: Vec, b: Vec, k: nat)
    requires IsPoly(a) && IsPoly(b) && k < N
    ensures MulQ(a, b)[k] == Residue(Schoolbook(a, b, -1, k))
  {
    MulIsSchoolbook(a, b, -1, k);
  }

  // The transform of a product is the pairwise product of the transforms.
  lemma NttOfProduct(a: Vec, b: Vec)
    requires IsPoly(a) && IsPoly(b)
    ensures NttQ(MulQ(a, b)) == PairQ(NttQ(a), NttQ(b))
  {
    hide Residue, Layers, PairProducts, Mul, Size, Leaf, Pow2, Res;
    Constants();
    LayersMul(a, b, 7, 1);
    var c := Mul(a, b, -1);
    ResRes(c);
    ResLayers(c, Res(c), 7, 1);
    ResRes(Layers(a, 7, 1));
    ResRes(Layers(b, 7, 1));
    PairProductsRes(Layers(a, 7, 1), NttQ(a), Layers(b, 7, 1), NttQ(b), 128);
  }

  lemma InverseOfNtt(a: Vec)
    requires IsPoly(a)
    ensures InvQ(NttQ(a)) == Res(a)
  {
    hide Residue, Layers, Unlayers, Size, Leaf, Pow2, Res, Scale;
    Constants();
    UnlayersOfLayers(a, 7, 1, 1);
    var x := Layers(a, 7, 1);
    ResRes(x);
    ResUnlayers(Res(x), x, 7, 1);
    ResScale(INV_128, INV_128, Unlayers(Res(x), 7, 1), Scale(128, a));
    ScaleScale(INV_128, 128, a);
    ResScale(INV_128 * 128, 1, a, a);
    ScaleOne(a);
  }

  lemma ScaleOne(a: Vec)
    ensures Scale(1, a) == a
  {
  }

  lemma NttOfInverse(x: Vec)
    requires IsPoly(x)
    ensures NttQ(InvQ(x)) == Res(x)
  {
    hide Residue, Layers, Unlayers, Size, Leaf, Pow2, Res, Scale;
    Constants();
    LayersOfUnlayers(x, 7, 1, 1);
    var u := Unlayers(x, 7, 1);
    ResRes(Scale(INV_128, u));
    ResLayers(InvQ(x), Scale(INV_128, u), 7, 1);
    LayersScale(INV_128, u, 7, 1);
    ResScale(INV_128, INV_128, Layers(u, 7, 1), Scale(128, x));
    ScaleScale(INV_128, 128, x);
    ResScale(INV_128 * 128, 1, x, x);
    ScaleOne(x);
  }

  // Multiplication in the ring, done through the transform.
  lemma Convolution(a: Vec, b: Vec)
    requires IsPoly(a) && IsPoly(b)
    ensures InvQ(PairQ(NttQ(a), NttQ(b))) == MulQ(a, b)
  {
    hide Res, NttQ, PairQ, InvQ, Mul;
    NttOfProduct(a, b);
    InverseOfNtt(MulQ(a, b));
    ResRes(Mul(a, b, -1));
  }

  lemma NttOfSum(a: Vec, b: Vec)
    requires IsPoly(a) && IsPoly(b)
    ensures NttQ(AddQ(a, b)) == AddQ(NttQ(a), NttQ(b))
  {
    hide Residue, Layers, Res, Add;
    ResRes(Add(a, b));
    ResLayers(AddQ(a, b), Add(a, b), 7, 1);
    LayersAdd(a, b, 7, 1);
    ResRes(Layers(a, 7, 1));
    ResRes(Layers(b, 7, 1));
    ResAdd(NttQ(a), Layers(a, 7, 1), NttQ(b), Layers(b, 7, 1));
  }

  lemma InverseOfSum(x: Vec, y: Vec)
    requires IsPoly(x) && IsPoly(y)
    ensures InvQ(AddQ(x, y)) == AddQ(InvQ(x), InvQ(y))
  {
    hide Residue, Layers, Unlayers, Res, Add, Scale;
    var s := AddQ(InvQ(x), InvQ(y));
    NttOfSum(InvQ(x), InvQ(y));
    NttOfInverse(x);
    NttOfInverse(y);
    ResRes(x);
    ResRes(y);
    AddQRes(Res(x), x, Res(y), y);
    InverseOfNtt(s);
    ResRes(Add(InvQ(x), InvQ(y)));
  }

  // ----- pairwise multiplication is a commutative, associative, bilinear product

  lemma PairFormula(a: Vec, b: Vec, w: int)
    requires |a| == |b| == 2
    ensures Mul(a, b, w) == [a[0] * b[0] + w * (a[1] * b[1]), a[0] * b[1] + a[1] * b[0]]
  {
    assert Mul(a[2..], b, w) == [0, 0];
    var u := Mul(a[1..], b, w);
    assert a[1..][1..] == a[2..];
    assert MulX([0, 0], w) == [w * 0, 0];
    assert u == [a[1] * b[0], a[1] * b[1]];
    assert MulX(u, w) == [w * (a[1] * b[1]), a[1] * b[0]];
  }

  lemma {:induction false} PairProductsAt(x: Vec, y: Vec, k: int, e: nat)
    requires |x| == |y| && 2 * e + 1 < |x|
    ensures PairProducts(x, y, k)[2 * e] == x[2 * e] * y[2 * e] + W(k + e) * (x[2 * e + 1] * y[2 * e + 1])
    ensures PairProducts(x, y, k)[2 * e + 1] == x[2 * e] * y[2 * e + 1] + x[2 * e + 1] * y[2 * e]
  {
    hide Mul, W;
    if e == 0 {
      PairFormula(x[..2], y[..2], W(k));
    } else {
      PairProductsAt(x[2..], y[2..], k + 1, e - 1);
    }
  }

  lemma PairMulComm(a: Vec, b: Vec, w: int)
    requires |a| == |b| == 2
    ensures Mul(a, b, w) == Mul(b, a, w)
  {
    hide Mul;
    PairFormula(a, b, w);
    PairFormula(b, a, w);
  }

  lemma AssocLow(a0: int, a1: int, b0: int, b1: int, c0: int, c1: int, w: int)
    ensures (a0 * b0 + w * (a1 * b1)) * c0 + w * ((a0 * b1 + a1 * b0) * c1) ==
            a0 * (b0 * c0 + w * (b1 * c1)) + w * (a1 * (b0 * c1 + b1 * c0))
  {
  }

  lemma AssocHigh(a0: int, a1: int, b0: int, b1: int, c0: int, c1: int, w: int)
    ensures (a0 * b0 + w * (a1 * b1)) * c1 + (a0 * b1 + a1 * b0) * c0 ==
            a0 * (b0 * c1 + b1 * c0) + a1 * (b0 * c0 + w * (b1 * c1))
  {
  }

  lemma PairMulAssoc(a: Vec, b: Vec, c: Vec, w: int)
    requires |a| == |b| == |c| == 2
    ensures Mul(Mul(a, b, w), c, w) == Mul(a, Mul(b, c, w), w)
  {
    hide Mul;
    PairFormula(a, b, w);
    PairFormula(b, c, w);
    PairFormula(Mul(a, b, w), c, w);
    PairFormula(a, Mul(b, c, w), w);
    AssocLow(a[0], a[1], b[0], b[1], c[0], c[1], w);
    AssocHigh(a[0], a[1], b[0], b[1], c[0], c[1], w);
  }

  lemma {:induction false} PairProductsComm(x: Vec, y: Vec, k: int)
    requires |x| == |y| && |x| % 2 == 0
    ensures PairProducts(x, y, k) == PairProducts(y, x, k)
  {
    hide Mul, W;
    if |x| >= 2 {
      PairMulComm(x[..2], y[..2], W(k));
      PairProductsComm(x[2..], y[2..], k + 1);
    }
  }

  lemma {:induction false} PairProductsAssoc(x: Vec, y: Vec, z: Vec, k: int)
    requires |x| == |y| == |z| && |x| % 2 == 0
    ensures PairProducts(PairProducts(x, y, k), z, k) == PairProducts(x, PairProducts(y, z, k), k)
  {
    hide Mul, W;
    if |x| >= 2 {
      var xy, yz := PairProducts(x, y, k), PairProducts(y, z, k);
      assert xy[..2] == Mul(x[..2], y[..2], W(k)) && xy[2..] == PairProducts(x[2..], y[2..], k + 1);
      assert yz[..2] == Mul(y[..2], z[..2], W(k)) && yz[2..] == PairProducts(y[2..], z[2..], k + 1);
      PairMulAssoc(x[..2], y[..2], z[..2], W(k));
      PairProductsAssoc(x[2..], y[2..], z[2..], k + 1);
    }
  }

  lemma {:induction false} PairProductsAdd(x: Vec, x': Vec, y: Vec, k: int)
    requires |x| == |x'| == |y| && |x| % 2 == 0
    ensures PairProducts(Add(x, x'), y, k) == Add(PairProducts(x, y, k), PairProducts(x', y, k))
  {
    hide Mul, W;
    if |x| >= 2 {
      assert Add(x, x')[..2] == Add(x[..2], x'[..2]) && Add(x, x')[2..] == Add(x[2..], x'[2..]);
      MulAddLeft(x[..2], x'[..2], y[..2], W(k));
      PairProductsAdd(x[2..], x'[2..], y[2..], k + 1);
      AddConcat(Mul(x[..2], y[..2], W(k)), PairProducts(x[2..], y[2..], k + 1),
                Mul(x'[..2], y[..2], W(k)), PairProducts(x'[2..], y[2..], k + 1));
    }
  }

  lemma PairQComm(x: Vec, y: Vec)
    requires IsPoly(x) && IsPoly(y)
    ensures PairQ(x, y) == PairQ(y, x)
  {
    PairProductsComm(x, y, 128);
  }

  lemma PairQAssoc(x: Vec, y: Vec, z: Vec)
    requires IsPoly(x) && IsPoly(y) && IsPoly(z)
    ensures PairQ(PairQ(x, y), z) == PairQ(x, PairQ(y, z))
  {
    hide Res, PairProducts;
    var xy, yz := PairProducts(x, y, 128), PairProducts(y, z, 128);
    ResRes(xy);
    ResRes(yz);
    PairProductsRes(Res(xy), xy, z, z, 128);
    PairProductsRes(x, x, Res(yz), yz, 128);
    PairProductsAssoc(x, y, z, 128);
  }

  lemma PairQAdd(x: Vec, x': Vec, y: Vec)
    requires IsPoly(x) && IsPoly(x') && IsPoly(y)
    ensures PairQ(AddQ(x, x'), y) == AddQ(PairQ(x, y), PairQ(x', y))
  {
    hide Res, PairProducts, Add;
    var p, p' := PairProducts(x, y, 128), PairProducts(x', y, 128);
    ResRes(Add(x, x'));
    PairProductsRes(AddQ(x, x'), Add(x, x'), y, y, 128);
    PairProductsAdd(x, x', y, 128);
    ResRes(p);
    ResRes(p');
    ResAdd(Res(p), p, Res(p'), p');
  }

  lemma InverseOfScaled(c: int, x: Vec)
    requires IsPoly(x)
    ensures InvQ(ScaleQ(c, x)) == ScaleQ(c, InvQ(x))
  {
    hide Residue, Layers, Unlayers, Res, Scale;
    var u := InvQ(x);
    NttOfScaled(c, u);
    NttOfInverse(x);
    ResRes(x);
    ScaleQRes(c, c, Res(x), x);
    InverseOfNtt(ScaleQ(c, u));
    ResRes(Scale(c, u));
  }

  lemma NttOfScaled(c: int, a: Vec)
    requires IsPoly(a)
    ensures NttQ(ScaleQ(c, a)) == ScaleQ(c, NttQ(a))
  {
    hide Residue, Layers, Res, Scale;
    ResRes(Scale(c, a));
    ResLayers(ScaleQ(c, a), Scale(c, a), 7, 1);
    LayersScale(c, a, 7, 1);
    ResRes(Layers(a, 7, 1));
    ResScale(c, c, NttQ(a), Layers(a, 7, 1));
  }

  // Multiplying by 2^-16 and then by 2^16 changes nothing modulo Q.
  lemma MontgomeryCancels(x: Vec)
    ensures ScaleQ(0x1_0000, ScaleQ(R_INV, x)) == Res(x)
  {
    assert Cong(0x1_0000 * R_INV, 1);
    hide Residue, Res, Scale;
    ScaleQTwice(0x1_0000, R_INV, x);
    ScaleQRes(0x1_0000 * R_INV, 1, x, x);
    ScaleOne(x);
  }

  // What ntt, basemul and invntt deliver for a and b, put together: the
  // schoolbook product modulo X^256 + 1, with no Montgomery factor left.
  lemma ProductThroughTransforms(a: Vec, b: Vec, a': Vec, b': Vec, c': Vec, c: Vec)
    requires IsPoly(a) && IsPoly(b) && IsPoly(a') && IsPoly(b') && IsPoly(c') && IsPoly(c)
    requires Res(a') == NttQ(a) && Res(b') == NttQ(b)
    requires Res(c') == ScaleQ(R_INV, PairQ(a', b'))
    requires Res(c) == ScaleQ(0x1_0000, InvQ(c'))
    ensures forall k :: 0 <= k < N ==> Residue(c[k]) == Residue(Schoolbook(a, b, -1, k))
  {
    hide Residue, Res, NttQ, InvQ, PairQ, ScaleQ, MulQ, Schoolbook;
    NttQIsReduced(a);
    NttQIsReduced(b);
    PairQRes(a', NttQ(a), b', NttQ(b));
    Convolution(a, b);
    var p := PairQ(a', b');
    ScaleQIsReduced(R_INV, p);
    InvQRes(c', ScaleQ(R_INV, p));
    InverseOfScaled(R_INV, p);
    MontgomeryCancels(InvQ(p));
    InvQIsReduced(p);
    forall k | 0 <= k < N
      ensures Residue(c[k]) == Residue(Schoolbook(a, b, -1, k))
    {
      MulQIsSchoolbook(a, b, k);
      ResidueAt(c, k);
    }
  }

  lemma ResidueAt(c: Vec, k: nat)
    requires k < |c|
    ensures Res(c)[k] == Residue(c[k])
  {
  }

  lemma NttQIsReduced(a: Vec)
    ensures Res(NttQ(a)) == NttQ(a)
  {
    ResRes(Layers(a, 7, 1));
  }

  lemma InvQIsReduced(x: Vec)
    ensures Res(InvQ(x)) == InvQ(x)
  {
    ResRes(Scale(INV_128, Unlayers(x, 7, 1)));
  }

  lemma ScaleQIsReduced(c: int, x: Vec)
    ensures Res(ScaleQ(c, x)) == ScaleQ(c, x)
  {
    ResRes(Scale(c, x));
  }

  lemma PairQIsReduced(x: Vec, y: Vec)
    requires |x| == |y|
    ensures Res(PairQ(x, y)) == PairQ(x, y)
  {
    ResRes(PairProducts(x, y, 128));
  }

  lemma AddQIsReduced(x: Vec, y: Vec)
    requires |x| == |y|
    ensures Res(AddQ(x, y)) == AddQ(x, y)
  {
    ResRes(Add(x, y));
  }

  // poly_ntt and then poly_invntt_tomont multiply by 2^16.
  lemma NttThenInverse(a: Vec, a': Vec, c: Vec)
    requires IsPoly(a) && Res(a') == NttQ(a) && Res(c) == ScaleQ(0x1_0000, InvQ(a'))
    ensures Res(c) == ScaleQ(0x1_0000, a)
  {
    hide Residue, Res, NttQ, InvQ, ScaleQ;
    NttQIsReduced(a);
    InvQRes(a', NttQ(a));
    InverseOfNtt(a);
    ResRes(a);
    ScaleQRes(0x1_0000, 0x1_0000, Res(a), a);
  }
}
