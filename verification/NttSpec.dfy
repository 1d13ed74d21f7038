// The number-theoretic transform as repeated splitting of the ring
// Z_q[X]/(X^256 + 1), and what it means: it turns multiplication in that ring
// into multiplication of pairs, and the inverse transform undoes it.
module NttSpec {
  import opened Reduce
  import opened PolyRing
  import opened Zetas

  // Residues modulo Q, coefficient by coefficient.
  function Res(p: Vec): (r: Vec)
    ensures |r| == |p|
  {
    seq(|p|, i requires 0 <= i < |p| => Residue(p[i]))
  }

  // The block length of level d: pairs at level 0, the whole ring at level 7.
  function Size(d: nat): (n: nat)
    ensures n >= 2 && n % 2 == 0 && (d > 0 ==> n >= 4)
  {
    if d == 0 then 2 else 2 * Size(d - 1)
  }

  // ----- the forward transform

  // Remainders modulo X^m - y and X^m + y, side by side.
  function Split(p: Vec, y: int): (r: Vec)
    requires |p| % 2 == 0
    ensures |r| == |p|
  {
    Fold(p, y) + Fold(p, -y)
  }

  // Splits the consecutive blocks of length n with Z(k), Z(k + 1), ...
  function SplitLayer(p: Vec, n: nat, k: int): (r: Vec)
    requires n > 0 && n % 2 == 0
    ensures |r| == |p|
  {
    if |p| < n then p else Split(p[..n], Z(k)) + SplitLayer(p[n..], n, k + 1)
  }

  function Layers(p: Vec, d: nat, k: int): (r: Vec)
    ensures |r| == |p|
    decreases d
  {
    if d == 0 then p else Layers(SplitLayer(p, Size(d), k), d - 1, 2 * k)
  }

  lemma ConcatAssoc(x: Vec, y: Vec, z: Vec)
    ensures (x + y) + z == x + (y + z)
  {
    hide Z, Residue, Fold, Mul, Split;
  }

  lemma TakeDrop(a: Vec, b: Vec, n: nat)
    requires n <= |a|
    ensures (a + b)[..n] == a[..n] && (a + b)[n..] == a[n..] + b
  {
    hide Z, Residue, Fold, Mul, Split;
  }

  lemma TimesStep(t: nat, n: nat)
    requires t > 0
    ensures t * n == (t - 1) * n + n && t * n >= n
  {
  }

  lemma {:induction false} SplitLayerConcat(a: Vec, b: Vec, n: nat, k: int, t: nat)
    requires n > 0 && n % 2 == 0 && |a| == t * n
    ensures SplitLayer(a + b, n, k) == SplitLayer(a, n, k) + SplitLayer(b, n, k + t)
    decreases t
  {
    hide Z, Residue, Fold, Mul, Split;
    if t == 0 {
      assert a == [] && a + b == b;
    } else {
      TimesStep(t, n);
      var u, v, w := Split(a[..n], Z(k)), SplitLayer(a[n..], n, k + 1), SplitLayer(b, n, k + t);
      calc {
        SplitLayer(a + b, n, k);
        { TakeDrop(a, b, n); }
        u + SplitLayer(a[n..] + b, n, k + 1);
        { SplitLayerConcat(a[n..], b, n, k + 1, t - 1); }
        u + (v + w);
        { ConcatAssoc(u, v, w); }
        SplitLayer(a, n, k) + w;
      }
    }
  }

  lemma {:induction false} LayersConcat(a: Vec, b: Vec, d: nat, k: int, t: nat)
    requires |a| == t * Size(d)
    ensures Layers(a + b, d, k) == Layers(a, d, k) + Layers(b, d, k + t)
    decreases d
  {
    hide Z, Residue, Fold, Mul, Split, SplitLayer;
    if d > 0 {
      var a', b' := SplitLayer(a, Size(d), k), SplitLayer(b, Size(d), k + t);
      SplitLayerConcat(a, b, Size(d), k, t);
      assert |a'| == (2 * t) * Size(d - 1);
      LayersConcat(a', b', d - 1, 2 * k, 2 * t);
    }
  }

  // A block of level d is split, and both halves are transformed.
  lemma LayersNode(p: Vec, d: nat, k: int)
    requires d > 0 && |p| == Size(d)
    ensures Layers(p, d, k) ==
            Layers(Fold(p, Z(k)), d - 1, 2 * k) + Layers(Fold(p, -Z(k)), d - 1, 2 * k + 1)
  {
    hide Z, Residue, Fold, Mul;
    assert p[..Size(d)] == p;
    assert SplitLayer(p, Size(d), k) == Split(p, Z(k)) + [];
    assert SplitLayer(p, Size(d), k) == Fold(p, Z(k)) + Fold(p, -Z(k));
    LayersConcat(Fold(p, Z(k)), Fold(p, -Z(k)), d - 1, 2 * k, 1);
  }

  // ----- multiplication of transforms

  // Products of consecutive pairs modulo X^2 - W(k), X^2 - W(k + 1), ...
  function PairProducts(x: Vec, y: Vec, k: int): (r: Vec)
    requires |x| == |y|
    ensures |r| == |x|
  {
    if |x| < 2 then x else Mul(x[..2], y[..2], W(k)) + PairProducts(x[2..], y[2..], k + 1)
  }

  // The leaf of the splitting tree where the subtree of node k begins.
  function Leaf(k: int, d: nat): int
    decreases d
  {
    if d == 0 then k else Leaf(2 * k, d - 1)
  }

  lemma {:induction false} LeafNext(k: int, d: nat)
    ensures Leaf(k + 1, d) == Leaf(k, d) + Size(d) / 2
    decreases d
  {
    hide Z, Residue, Fold, Mul, Split;
    if d > 0 {
      LeafNext(2 * k, d - 1);
      LeafNext(2 * k + 1, d - 1);
    }
  }

  lemma {:induction false} PairProductsConcat(x: Vec, x': Vec, y: Vec, y': Vec, k: int)
    requires |x| == |y| && |x'| == |y'| && |x| % 2 == 0
    ensures PairProducts(x + x', y + y', k) == PairProducts(x, y, k) + PairProducts(x', y', k + |x| / 2)
  {
    hide Z, Residue, Fold, Mul, Split;
    if x == [] {
      assert x + x' == x' && y + y' == y';
    } else {
      assert (x + x')[..2] == x[..2] && (y + y')[..2] == y[..2];
      assert (x + x')[2..] == x[2..] + x' && (y + y')[2..] == y[2..] + y';
      PairProductsConcat(x[2..], x', y[2..], y', k + 1);
    }
  }

  // ----- congruence

  lemma ResAt(p: Vec, p': Vec, i: nat)
    requires Res(p) == Res(p') && i < |p|
    ensures |p| == |p'| && Cong(p[i], p'[i])
  {
    hide Z, Residue, Fold, Mul, Split;
    assert |Res(p)| == |Res(p')|;
    assert Res(p)[i] == Res(p')[i];
  }

  lemma ResRes(p: Vec)
    ensures Res(Res(p)) == Res(p)
  {
  }

  lemma ResConcat(a: Vec, b: Vec)
    ensures Res(a + b) == Res(a) + Res(b)
  {
    hide Z, Residue, Fold, Mul, Split;
  }

  lemma ResSlice(a: Vec, a': Vec, i: nat, j: nat)
    requires Res(a) == Res(a') && i <= j <= |a|
    ensures |a| == |a'| && Res(a[i..j]) == Res(a'[i..j])
  {
    hide Z, Residue, Fold, Mul, Split;
    assert |Res(a)| == |Res(a')|;
    assert Res(a[i..j]) == Res(a)[i..j];
    assert Res(a'[i..j]) == Res(a')[i..j];
  }

  lemma ResAdd(a: Vec, a': Vec, b: Vec, b': Vec)
    requires |a| == |b| && Res(a) == Res(a') && Res(b) == Res(b')
    ensures |a'| == |b'| && Res(Add(a, b)) == Res(Add(a', b'))
  {
    hide Z, Residue, Fold, Mul, Split;
    assert |Res(a)| == |Res(a')| && |Res(b)| == |Res(b')|;
    forall i | 0 <= i < |a|
      ensures Res(Add(a, b))[i] == Res(Add(a', b'))[i]
    {
      ResAt(a, a', i);
      ResAt(b, b', i);
      CongAdd(a[i], a'[i], b[i], b'[i]);
    }
  }

  lemma ResSub(a: Vec, a': Vec, b: Vec, b': Vec)
    requires |a| == |b| && Res(a) == Res(a') && Res(b) == Res(b')
    ensures |a'| == |b'| && Res(Sub(a, b)) == Res(Sub(a', b'))
  {
    hide Z, Residue, Fold, Mul, Split;
    assert |Res(a)| == |Res(a')| && |Res(b)| == |Res(b')|;
    forall i | 0 <= i < |a|
      ensures Res(Sub(a, b))[i] == Res(Sub(a', b'))[i]
    {
      ResAt(a, a', i);
      ResAt(b, b', i);
      CongSub(a[i], a'[i], b[i], b'[i]);
    }
  }

  lemma ResScale(c: int, c': int, a: Vec, a': Vec)
    requires Cong(c, c') && Res(a) == Res(a')
    ensures Res(Scale(c, a)) == Res(Scale(c', a'))
  {
    hide Z, Residue, Fold, Mul, Split;
    assert |Res(a)| == |Res(a')|;
    forall i | 0 <= i < |a|
      ensures Res(Scale(c, a))[i] == Res(Scale(c', a'))[i]
    {
      ResAt(a, a', i);
      CongMul(c, c', a[i], a'[i]);
    }
  }

  lemma ResMulX(p: Vec, p': Vec, z: int, z': int)
    requires Cong(z, z') && Res(p) == Res(p')
    ensures Res(MulX(p, z)) == Res(MulX(p', z'))
  {
    hide Z, Residue, Fold, Mul, Split;
    assert |Res(p)| == |Res(p')|;
    forall i | 0 <= i < |p|
      ensures Res(MulX(p, z))[i] == Res(MulX(p', z'))[i]
    {
      if i == 0 {
        ResAt(p, p', |p| - 1);
        CongMul(z, z', p[|p| - 1], p'[|p| - 1]);
      } else {
        ResAt(p, p', i - 1);
      }
    }
  }

  lemma {:induction false} ResMul(a: Vec, a': Vec, b: Vec, b': Vec, z: int, z': int)
    requires Res(a) == Res(a') && Res(b) == Res(b') && Cong(z, z')
    ensures Res(Mul(a, b, z)) == Res(Mul(a', b', z'))
  {
    hide Z, Residue, Fold, Split;
    assert |Res(a)| == |Res(a')| && |Res(b)| == |Res(b')|;
    if a != [] {
      ResAt(a, a', 0);
      ResSlice(a, a', 1, |a|);
      assert a[1..|a|] == a[1..] && a'[1..|a|] == a'[1..];
      ResMul(a[1..], a'[1..], b, b', z, z');
      ResMulX(Mul(a[1..], b, z), Mul(a'[1..], b', z'), z, z');
      ResScale(a[0], a'[0], b, b');
      ResAdd(Scale(a[0], b), Scale(a'[0], b'), MulX(Mul(a[1..], b, z), z), MulX(Mul(a'[1..], b', z'), z'));
    }
  }

  lemma ResFold(p: Vec, p': Vec, y: int)
    requires Res(p) == Res(p') && |p| % 2 == 0
    ensures |p| == |p'| && Res(Fold(p, y)) == Res(Fold(p', y))
  {
    hide Z, Residue, Mul, Split;
    assert |Res(p)| == |Res(p')|;
    forall i | 0 <= i < |p| / 2
      ensures Res(Fold(p, y))[i] == Res(Fold(p', y))[i]
    {
      ResAt(p, p', i);
      ResAt(p, p', |p| / 2 + i);
      CongMul(y, y, p[|p| / 2 + i], p'[|p| / 2 + i]);
      CongAdd(p[i], p'[i], y * p[|p| / 2 + i], y * p'[|p| / 2 + i]);
    }
  }

  lemma {:induction false} ResSplitLayer(p: Vec, p': Vec, n: nat, k: int)
    requires Res(p) == Res(p') && n > 0 && n % 2 == 0
    ensures Res(SplitLayer(p, n, k)) == Res(SplitLayer(p', n, k))
  {
    hide Z, Residue, Fold, Mul;
    assert |Res(p)| == |Res(p')|;
    if |p| >= n {
      ResSlice(p, p', 0, n);
      ResSlice(p, p', n, |p|);
      assert p[n..|p|] == p[n..] && p'[n..|p|] == p'[n..];
      ResFold(p[..n], p'[..n], Z(k));
      ResFold(p[..n], p'[..n], -Z(k));
      ResConcat(Fold(p[..n], Z(k)), Fold(p[..n], -Z(k)));
      ResConcat(Fold(p'[..n], Z(k)), Fold(p'[..n], -Z(k)));
      ResSplitLayer(p[n..], p'[n..], n, k + 1);
      ResConcat(Split(p[..n], Z(k)), SplitLayer(p[n..], n, k + 1));
      ResConcat(Split(p'[..n], Z(k)), SplitLayer(p'[n..], n, k + 1));
    }
  }

  lemma {:induction false} ResLayers(p: Vec, p': Vec, d: nat, k: int)
    requires Res(p) == Res(p')
    ensures Res(Layers(p, d, k)) == Res(Layers(p', d, k))
    decreases d
  {
    hide Z, Residue, Fold, Mul, Split;
    if d > 0 {
      ResSplitLayer(p, p', Size(d), k);
      ResLayers(SplitLayer(p, Size(d), k), SplitLayer(p', Size(d), k), d - 1, 2 * k);
    }
  }

  // ----- the transform is multiplicative

  lemma {:induction false} LayersMul(a: Vec, b: Vec, d: nat, k: int)
    requires |a| == |b| == Size(d) && 1 <= k && (k + 1) * Size(d) <= 512
    ensures Res(Layers(Mul(a, b, W(k)), d, k)) ==
            Res(PairProducts(Layers(a, d, k), Layers(b, d, k), Leaf(k, d)))
    decreases d, 1
  {
    hide Z, Residue, Fold, Mul, Split;
    if d == 0 {
      assert a[..2] == a && b[..2] == b;
      assert PairProducts(a, b, k) == Mul(a, b, W(k)) + [];
    } else {
      var y, s := Z(k), Z(k) * Z(k);
      ProductBound(k + 1, Size(d));
      ChildBound(k, Size(d - 1));
      assert W(2 * k) == y && W(2 * k + 1) == -y;
      NegSquare(y);
      LayersMulSplit(a, b, d, k, s);
      LayersHalf(a, b, d, y, s, 2 * k);
      LayersHalf(a, b, d, -y, s, 2 * k + 1);
      PairNode(a, b, d, k);
    }
  }

  lemma ProductBound(k: int, n: nat)
    requires n >= 4 && k * n <= 512
    ensures k <= 128
  {
  }

  lemma NegSquare(y: int)
    ensures -y * -y == y * y
  {
  }

  lemma ChildBound(k: int, n: nat)
    requires 1 <= k && (k + 1) * (2 * n) <= 512
    ensures (2 * k + 1) * n <= 512 && (2 * k + 2) * n <= 512
  {
    assert (k + 1) * (2 * n) == (2 * k + 2) * n;
    assert (2 * k + 2) * n == (2 * k + 1) * n + n;
  }

  lemma LayersMulSplit(a: Vec, b: Vec, d: nat, k: int, s: int)
    requires d > 0 && |a| == |b| == Size(d) && 1 <= k < 128 && s == Z(k) * Z(k)
    ensures Res(Layers(Mul(a, b, W(k)), d, k)) ==
            Res(Layers(Fold(Mul(a, b, s), Z(k)), d - 1, 2 * k)) +
            Res(Layers(Fold(Mul(a, b, s), -Z(k)), d - 1, 2 * k + 1))
  {
    hide Z, Residue, Fold, Mul, Split, W;
    ZSquare(k);
    ResMul(a, a, b, b, W(k), s);
    ResLayers(Mul(a, b, W(k)), Mul(a, b, s), d, k);
    LayersNode(Mul(a, b, s), d, k);
    ResConcat(Layers(Fold(Mul(a, b, s), Z(k)), d - 1, 2 * k), Layers(Fold(Mul(a, b, s), -Z(k)), d - 1, 2 * k + 1));
  }

  // One half of the inductive step.
  lemma {:induction false} LayersHalf(a: Vec, b: Vec, d: nat, y: int, s: int, child: int)
    requires d > 0 && |a| == |b| == Size(d) && s == y * y
    requires 1 <= child && (child + 1) * Size(d - 1) <= 512 && W(child) == y
    ensures Res(Layers(Fold(Mul(a, b, s), y), d - 1, child)) ==
            Res(PairProducts(Layers(Fold(a, y), d - 1, child), Layers(Fold(b, y), d - 1, child), Leaf(child, d - 1)))
    decreases d, 0
  {
    hide Z, Residue, Fold, Mul, Split, W;
    FoldMul(a, b, y);
    LayersMul(Fold(a, y), Fold(b, y), d - 1, child);
  }

  lemma PairNode(a: Vec, b: Vec, d: nat, k: int)
    requires d > 0 && |a| == |b| == Size(d)
    ensures var y := Z(k);
            Res(PairProducts(Layers(a, d, k), Layers(b, d, k), Leaf(k, d))) ==
            Res(PairProducts(Layers(Fold(a, y), d - 1, 2 * k), Layers(Fold(b, y), d - 1, 2 * k), Leaf(2 * k, d - 1))) +
            Res(PairProducts(Layers(Fold(a, -y), d - 1, 2 * k + 1), Layers(Fold(b, -y), d - 1, 2 * k + 1), Leaf(2 * k + 1, d - 1)))
  {
    hide Z, Residue, Res, Fold, Mul, Split, W, SplitLayer, PairProducts;
    var y := Z(k);
    LayersNode(a, d, k);
    LayersNode(b, d, k);
    LeafNext(2 * k, d - 1);
    PairHalves(Layers(Fold(a, y), d - 1, 2 * k), Layers(Fold(a, -y), d - 1, 2 * k + 1),
               Layers(Fold(b, y), d - 1, 2 * k), Layers(Fold(b, -y), d - 1, 2 * k + 1),
               Leaf(k, d), Leaf(2 * k + 1, d - 1));
  }

  lemma PairHalves(x: Vec, x': Vec, y: Vec, y': Vec, k: int, k': int)
    requires |x| == |y| && |x'| == |y'| && |x| % 2 == 0 && k' == k + |x| / 2
    ensures Res(PairProducts(x + x', y + y', k)) == Res(PairProducts(x, y, k)) + Res(PairProducts(x', y', k'))
  {
    hide *;
    PairProductsConcat(x, x', y, y', k);
    ResConcat(PairProducts(x, y, k), PairProducts(x', y', k'));
  }

  // ----- the inverse transform

  // Undoes Split(_, y), up to a factor 2, when y' is -1/y.
  function Merge(p: Vec, y': int): (r: Vec)
    requires |p| % 2 == 0
    ensures |r| == |p|
  {
    var m := |p| / 2;
    Add(p[..m], p[m..]) + Scale(y', Sub(p[m..], p[..m]))
  }

  // Merges the consecutive blocks of length n with Z(k), Z(k - 1), ...
  function MergeLayer(p: Vec, n: nat, k: int): (r: Vec)
    requires n > 0 && n % 2 == 0
    ensures |r| == |p|
  {
    if |p| < n then p else Merge(p[..n], Z(k)) + MergeLayer(p[n..], n, k - 1)
  }

  // All merges up to level d, whose first block is merged with Z(k).
  function Unlayers(p: Vec, d: nat, k: int): (r: Vec)
    ensures |r| == |p|
    decreases d
  {
    if d == 0 then p else MergeLayer(Unlayers(p, d - 1, 2 * k + 1), Size(d), k)
  }

  lemma {:induction false} MergeLayerConcat(a: Vec, b: Vec, n: nat, k: int, t: nat)
    requires n > 0 && n % 2 == 0 && |a| == t * n
    ensures MergeLayer(a + b, n, k) == MergeLayer(a, n, k) + MergeLayer(b, n, k - t)
    decreases t
  {
    hide Z, Residue, Fold, Mul, Merge;
    if t == 0 {
      assert a == [] && a + b == b;
    } else {
      TimesStep(t, n);
      var u, v, w := Merge(a[..n], Z(k)), MergeLayer(a[n..], n, k - 1), MergeLayer(b, n, k - t);
      calc {
        MergeLayer(a + b, n, k);
        { TakeDrop(a, b, n); }
        u + MergeLayer(a[n..] + b, n, k - 1);
        { MergeLayerConcat(a[n..], b, n, k - 1, t - 1); }
        u + (v + w);
        { ConcatAssoc(u, v, w); }
        MergeLayer(a, n, k) + w;
      }
    }
  }

  lemma {:induction false} UnlayersConcat(a: Vec, b: Vec, d: nat, k: int, t: nat)
    requires |a| == t * Size(d)
    ensures Unlayers(a + b, d, k) == Unlayers(a, d, k) + Unlayers(b, d, k - t)
    decreases d
  {
    hide Z, Residue, Fold, Mul, Merge, MergeLayer;
    if d > 0 {
      assert |a| == (2 * t) * Size(d - 1);
      UnlayersConcat(a, b, d - 1, 2 * k + 1, 2 * t);
      MergeLayerConcat(Unlayers(a, d - 1, 2 * k + 1), Unlayers(b, d - 1, 2 * (k - t) + 1), Size(d), k, t);
    }
  }

  // Both halves of a block of level d are merged first.
  lemma UnlayersNode(a: Vec, b: Vec, d: nat, k: int)
    requires d > 0 && |a| == |b| == Size(d - 1)
    ensures Unlayers(a + b, d, k) == Merge(Unlayers(a, d - 1, 2 * k + 1) + Unlayers(b, d - 1, 2 * k), Z(k))
  {
    hide Z, Residue, Fold, Mul, Merge;
    UnlayersConcat(a, b, d - 1, 2 * k + 1, 1);
    var u := Unlayers(a, d - 1, 2 * k + 1) + Unlayers(b, d - 1, 2 * k);
    assert u[..Size(d)] == u;
    assert MergeLayer(u, Size(d), k) == Merge(u, Z(k)) + [];
  }

  function Pow2(d: nat): (r: nat) {
    if d == 0 then 1 else 2 * Pow2(d - 1)
  }

  lemma MirrorChildren(k: nat)
    requires 1 <= k < 64
    ensures Mirror(2 * k) == 2 * Mirror(k) + 1 && Mirror(2 * k + 1) == 2 * Mirror(k)
  {
  }

  // ----- the two transforms are inverse to each other

  lemma ResMerge(p: Vec, p': Vec, y': int)
    requires Res(p) == Res(p') && |p| % 2 == 0
    ensures |p| == |p'| && Res(Merge(p, y')) == Res(Merge(p', y'))
  {
    hide Z, Residue;
    assert |Res(p)| == |Res(p')|;
    var m := |p| / 2;
    ResSlice(p, p', 0, m);
    ResSlice(p, p', m, 2 * m);
    assert p[..m] == p[0..m] && p'[..m] == p'[0..m] && p[m..] == p[m..2 * m] && p'[m..] == p'[m..2 * m];
    ResAdd(p[..m], p'[..m], p[m..], p'[m..]);
    ResSub(p[m..], p'[m..], p[..m], p'[..m]);
    ResScale(y', y', Sub(p[m..], p[..m]), Sub(p'[m..], p'[..m]));
    ResConcat(Add(p[..m], p[m..]), Scale(y', Sub(p[m..], p[..m])));
    ResConcat(Add(p'[..m], p'[m..]), Scale(y', Sub(p'[m..], p'[..m])));
  }

  lemma {:induction false} ResMergeLayer(p: Vec, p': Vec, n: nat, k: int)
    requires Res(p) == Res(p') && n > 0 && n % 2 == 0
    ensures Res(MergeLayer(p, n, k)) == Res(MergeLayer(p', n, k))
  {
    hide Z, Residue, Merge;
    assert |Res(p)| == |Res(p')|;
    if |p| >= n {
      ResSlice(p, p', 0, n);
      ResSlice(p, p', n, |p|);
      assert p[n..|p|] == p[n..] && p'[n..|p|] == p'[n..];
      ResMerge(p[..n], p'[..n], Z(k));
      ResMergeLayer(p[n..], p'[n..], n, k - 1);
      ResConcat(Merge(p[..n], Z(k)), MergeLayer(p[n..], n, k - 1));
      ResConcat(Merge(p'[..n], Z(k)), MergeLayer(p'[n..], n, k - 1));
    }
  }

  lemma {:induction false} ResUnlayers(p: Vec, p': Vec, d: nat, k: int)
    requires Res(p) == Res(p')
    ensures Res(Unlayers(p, d, k)) == Res(Unlayers(p', d, k))
    decreases d
  {
    hide Z, Residue, Merge, MergeLayer;
    if d > 0 {
      ResUnlayers(p, p', d - 1, 2 * k + 1);
      ResMergeLayer(Unlayers(p, d - 1, 2 * k + 1), Unlayers(p', d - 1, 2 * k + 1), Size(d), k);
    }
  }

  lemma MergeAt(l: Vec, r: Vec, y': int, i: nat)
    requires |l| == |r| && i < 2 * |l|
    ensures Merge(l + r, y')[i] == if i < |l| then l[i] + r[i] else y' * (r[i - |l|] - l[i - |l|])
  {
    assert (l + r)[..|l|] == l && (l + r)[|l|..] == r;
  }

  lemma MergeOfSplit(p: Vec, c: int, y: int, y': int)
    requires |p| % 2 == 0 && Cong(y * y', -1)
    ensures Res(Merge(Scale(c, Fold(p, y)) + Scale(c, Fold(p, -y)), y')) == Res(Scale(2 * c, p))
  {
    hide Z, Residue, Merge;
    var l, r := Scale(c, Fold(p, y)), Scale(c, Fold(p, -y));
    forall i | 0 <= i < |p|
      ensures Cong(Merge(l + r, y')[i], Scale(2 * c, p)[i])
    {
      MergeAt(l, r, y', i);
      if i < |l| {
        MergeLow(c, y, p[i], p[|l| + i]);
      } else {
        MergeHigh(c, y, y', p[i - |l|], p[i]);
      }
    }
  }

  lemma MergeLow(c: int, y: int, a: int, b: int)
    ensures c * (a + y * b) + c * (a + -y * b) == 2 * c * a
  {
  }

  lemma MergeHigh(c: int, y: int, y': int, a: int, b: int)
    requires Cong(y * y', -1)
    ensures Cong(y' * (c * (a + -y * b) - c * (a + y * b)), 2 * c * b)
  {
    hide Residue;
    var e := -2 * c * b;
    CongMul(y * y', -1, e, e);
    MergeHighExact(c, y, y', a, b);
  }

  lemma MergeHighExact(c: int, y: int, y': int, a: int, b: int)
    ensures y' * (c * (a + -y * b) - c * (a + y * b)) == y * y' * (-2 * c * b)
  {
    assert c * (a + -y * b) - c * (a + y * b) == -2 * c * b * y;
    assert y' * (-2 * c * b * y) == y * y' * (-2 * c * b);
  }

  lemma FoldOfMerge(l: Vec, r: Vec, y: int, y': int)
    requires |l| == |r| && Cong(y * y', -1)
    ensures Res(Fold(Merge(l + r, y'), y)) == Res(Scale(2, l))
    ensures Res(Fold(Merge(l + r, y'), -y)) == Res(Scale(2, r))
  {
    hide Z, Residue, Merge;
    var p := Merge(l + r, y');
    forall i | 0 <= i < |l|
      ensures Cong(Fold(p, y)[i], 2 * l[i]) && Cong(Fold(p, -y)[i], 2 * r[i])
    {
      MergeAt(l, r, y', i);
      MergeAt(l, r, y', |l| + i);
      FoldMergeScalar(l[i], r[i], y, y');
    }
  }

  lemma FoldMergeScalar(a: int, b: int, y: int, y': int)
    requires Cong(y * y', -1)
    ensures Cong(a + b + y * (y' * (b - a)), 2 * a)
    ensures Cong(a + b + -y * (y' * (b - a)), 2 * b)
  {
    hide Residue;
    var e := b - a;
    CongMul(y * y', -1, e, e);
    CongAdd(a + b, a + b, y * y' * e, -1 * e);
    CongSub(a + b, a + b, y * y' * e, -1 * e);
    assert y * (y' * e) == y * y' * e && -y * (y' * e) == -(y * y' * e);
  }

  // The inverse transform undoes the forward one, up to 2^d.
  lemma {:induction false} UnlayersOfLayers(p: Vec, d: nat, k: nat, k': nat)
    requires |p| == Size(d) && 1 <= k && (k + 1) * Size(d) <= 512
    requires d > 0 ==> k < 128 && k' == Mirror(k)
    ensures Res(Unlayers(Layers(p, d, k), d, k')) == Res(Scale(Pow2(d), p))
    decreases d
  {
    hide Z, Residue, Fold, Merge, MergeLayer, SplitLayer, Mirror;
    if d == 0 {
      assert Scale(1, p) == p;
    } else {
      var y, c := Z(k), Pow2(d - 1);
      var l, r := Fold(p, y), Fold(p, -y);
      var l', r' := Layers(l, d - 1, 2 * k), Layers(r, d - 1, 2 * k + 1);
      NodeBounds(k, d);
      LayersNode(p, d, k);
      UnlayersNode(l', r', d, k');
      UnlayersOfLayers(l, d - 1, 2 * k, 2 * k' + 1);
      UnlayersOfLayers(r, d - 1, 2 * k + 1, 2 * k');
      var u, v := Unlayers(l', d - 1, 2 * k' + 1), Unlayers(r', d - 1, 2 * k');
      ResConcat(u, v);
      ResConcat(Scale(c, l), Scale(c, r));
      ResMerge(u + v, Scale(c, l) + Scale(c, r), Z(k'));
      ZMirror(k);
      MergeOfSplit(p, c, y, Z(k'));
    }
  }

  lemma NodeBounds(k: nat, d: nat)
    requires d > 0 && 1 <= k < 128 && (k + 1) * Size(d) <= 512
    ensures (2 * k + 1) * Size(d - 1) <= 512 && (2 * k + 2) * Size(d - 1) <= 512
    ensures d > 1 ==> k < 64 && Mirror(2 * k) == 2 * Mirror(k) + 1 && Mirror(2 * k + 1) == 2 * Mirror(k)
  {
    ChildBound(k, Size(d - 1));
    if d > 1 {
      HalfBound(k, Size(d - 1));
      MirrorChildren(k);
    }
  }

  lemma HalfBound(k: nat, n: nat)
    requires n >= 4 && (2 * k + 2) * n <= 512
    ensures k < 64
  {
    ProductBound(2 * k + 2, n);
  }

  // And the forward transform undoes the inverse one, up to 2^d.
  lemma {:induction false} LayersOfUnlayers(x: Vec, d: nat, k: nat, k': nat)
    requires |x| == Size(d) && 1 <= k && (k + 1) * Size(d) <= 512
    requires d > 0 ==> k < 128 && k' == Mirror(k)
    ensures Res(Layers(Unlayers(x, d, k'), d, k)) == Res(Scale(Pow2(d), x))
    decreases d, 0
  {
    hide Z, Residue, Fold, Merge, MergeLayer, SplitLayer, Mirror;
    if d == 0 {
      assert Scale(1, x) == x;
    } else {
      var h := Size(d - 1);
      var l, r := x[..h], x[h..];
      var l', r' := Unlayers(l, d - 1, 2 * k' + 1), Unlayers(r, d - 1, 2 * k');
      var p := Merge(l' + r', Z(k'));
      assert x == l + r;
      NodeBounds(k, d);
      UnlayersNode(l, r, d, k');
      LayersNode(p, d, k);
      ZMirror(k);
      FoldOfMerge(l', r', Z(k), Z(k'));
      HalfOfUnlayers(Fold(p, Z(k)), l', l, d - 1, 2 * k, 2 * k' + 1);
      HalfOfUnlayers(Fold(p, -Z(k)), r', r, d - 1, 2 * k + 1, 2 * k');
      ResConcat(Layers(Fold(p, Z(k)), d - 1, 2 * k), Layers(Fold(p, -Z(k)), d - 1, 2 * k + 1));
      ScaleConcat(Pow2(d), l, r);
      ResConcat(Scale(Pow2(d), l), Scale(Pow2(d), r));
    }
  }

  lemma ScaleConcat(c: int, a: Vec, b: Vec)
    ensures Scale(c, a + b) == Scale(c, a) + Scale(c, b)
  {
  }

  lemma {:induction false} HalfOfUnlayers(q: Vec, l': Vec, l: Vec, d: nat, k: nat, k': nat)
    requires |l| == Size(d) && 1 <= k && (k + 1) * Size(d) <= 512
    requires d > 0 ==> k < 128 && k' == Mirror(k)
    requires l' == Unlayers(l, d, k') && Res(q) == Res(Scale(2, l'))
    ensures Res(Layers(q, d, k)) == Res(Scale(Pow2(d + 1), l))
    decreases d, 1
  {
    hide Z, Residue, Fold, Merge, MergeLayer, SplitLayer, Mirror, Scale;
    ResLayers(q, Scale(2, l'), d, k);
    LayersScale(2, l', d, k);
    LayersOfUnlayers(l, d, k, k');
    ResScale(2, 2, Layers(l', d, k), Scale(Pow2(d), l));
    ScaleScale(2, Pow2(d), l);
  }

  // ----- linearity

  lemma {:induction false} SplitLayerScale(c: int, p: Vec, n: nat, k: int)
    requires n > 0 && n % 2 == 0
    ensures SplitLayer(Scale(c, p), n, k) == Scale(c, SplitLayer(p, n, k))
  {
    hide Z, Fold;
    if |p| >= n {
      assert Scale(c, p)[..n] == Scale(c, p[..n]) && Scale(c, p)[n..] == Scale(c, p[n..]);
      FoldScale(c, p[..n], Z(k));
      FoldScale(c, p[..n], -Z(k));
      SplitLayerScale(c, p[n..], n, k + 1);
      ScaleConcat(c, Fold(p[..n], Z(k)), Fold(p[..n], -Z(k)));
      ScaleConcat(c, Split(p[..n], Z(k)), SplitLayer(p[n..], n, k + 1));
    }
  }

  lemma {:induction false} LayersScale(c: int, p: Vec, d: nat, k: int)
    ensures Layers(Scale(c, p), d, k) == Scale(c, Layers(p, d, k))
    decreases d
  {
    hide Z, Fold, Split, SplitLayer, Scale;
    if d > 0 {
      SplitLayerScale(c, p, Size(d), k);
      LayersScale(c, SplitLayer(p, Size(d), k), d - 1, 2 * k);
    }
  }

  lemma AddConcat(a: Vec, a': Vec, b: Vec, b': Vec)
    requires |a| == |b| && |a'| == |b'|
    ensures Add(a + a', b + b') == Add(a, b) + Add(a', b')
  {
  }

  lemma {:induction false} SplitLayerAdd(p: Vec, q: Vec, n: nat, k: int)
    requires |p| == |q| && n > 0 && n % 2 == 0
    ensures SplitLayer(Add(p, q), n, k) == Add(SplitLayer(p, n, k), SplitLayer(q, n, k))
  {
    hide Z, Fold;
    if |p| >= n {
      assert Add(p, q)[..n] == Add(p[..n], q[..n]) && Add(p, q)[n..] == Add(p[n..], q[n..]);
      FoldAdd(p[..n], q[..n], Z(k));
      FoldAdd(p[..n], q[..n], -Z(k));
      SplitLayerAdd(p[n..], q[n..], n, k + 1);
      AddConcat(Fold(p[..n], Z(k)), Fold(p[..n], -Z(k)), Fold(q[..n], Z(k)), Fold(q[..n], -Z(k)));
      AddConcat(Split(p[..n], Z(k)), SplitLayer(p[n..], n, k + 1), Split(q[..n], Z(k)), SplitLayer(q[n..], n, k + 1));
    }
  }

  lemma {:induction false} LayersAdd(p: Vec, q: Vec, d: nat, k: int)
    requires |p| == |q|
    ensures Layers(Add(p, q), d, k) == Add(Layers(p, d, k), Layers(q, d, k))
    decreases d
  {
    hide Z, Fold, Split, SplitLayer, Add;
    if d > 0 {
      SplitLayerAdd(p, q, Size(d), k);
      LayersAdd(SplitLayer(p, Size(d), k), SplitLayer(q, Size(d), k), d - 1, 2 * k);
    }
  }
}
