// Polynomials over the integers as coefficient sequences, lowest degree first,
// and multiplication modulo X^n - z for a sequence of length n.  The NTT is
// this ring split in two, layer by layer.
module PolyRing {
  type Vec = seq<int>

  function Zero(n: nat): (r: Vec)
    ensures |r| == n
  {
    seq(n, _ => 0)
  }

  function Add(a: Vec, b: Vec): (r: Vec)
    requires |a| == |b|
    ensures |r| == |a|
  {
    seq(|a|, i requires 0 <= i < |a| => a[i] + b[i])
  }

  function Sub(a: Vec, b: Vec): (r: Vec)
    requires |a| == |b|
    ensures |r| == |a|
  {
    seq(|a|, i requires 0 <= i < |a| => a[i] - b[i])
  }

  function Scale(c: int, a: Vec): (r: Vec)
    ensures |r| == |a|
  {
    seq(|a|, i requires 0 <= i < |a| => c * a[i])
  }

  // X * p modulo X^|p| - z.
  function MulX(p: Vec, z: int): (r: Vec)
    ensures |r| == |p|
  {
    if p == [] then [] else [z * p[|p| - 1]] + p[..|p| - 1]
  }

  // a * b modulo X^|b| - z, by Horner's rule on the coefficients of a.
  function Mul(a: Vec, b: Vec, z: int): (r: Vec)
    ensures |r| == |b|
  {
    if a == [] then Zero(|b|) else Add(Scale(a[0], b), MulX(Mul(a[1..], b, z), z))
  }

  // Coefficient k of X^i * b modulo X^|b| - z.
  function Rotated(b: Vec, z: int, i: nat, k: nat): int
    requires i <= |b| && k < |b|
  {
    if i <= k then b[k - i] else z * b[|b| + k - i]
  }

  // Coefficient k of the schoolbook product: every pair of coefficients whose
  // degrees add to k, or to |b| + k, the latter weighted with z = X^|b|.
  function Schoolbook(a: Vec, b: Vec, z: int, k: nat): int
    requires |a| <= |b| && k < |b|
  {
    SchoolbookFrom(a, b, z, k, 0)
  }

  function SchoolbookFrom(a: Vec, b: Vec, z: int, k: nat, i: nat): int
    requires |a| <= |b| && k < |b| && i <= |a|
    decreases |a| - i
  {
    if i == |a| then 0 else a[i] * Rotated(b, z, i, k) + SchoolbookFrom(a, b, z, k, i + 1)
  }

  function MulXPow(j: nat, p: Vec, z: int): (r: Vec)
    ensures |r| == |p|
  {
    if j == 0 then p else MulX(MulXPow(j - 1, p, z), z)
  }

  // ----- multiplication by X and linearity

  lemma Distribute(c: int, x: int, y: int)
    ensures c * (x + y) == c * x + c * y
  {
  }

  lemma Commute(c: int, d: int, x: int)
    ensures c * (d * x) == d * (c * x)
  {
  }

  lemma MulXAdd(p: Vec, q: Vec, z: int)
    requires |p| == |q|
    ensures MulX(Add(p, q), z) == Add(MulX(p, z), MulX(q, z))
  {
    if p != [] {
      Distribute(z, p[|p| - 1], q[|p| - 1]);
      var l, r := MulX(Add(p, q), z), Add(MulX(p, z), MulX(q, z));
      forall i | 0 <= i < |p|
        ensures l[i] == r[i]
      {
      }
    }
  }

  lemma MulXScale(c: int, p: Vec, z: int)
    ensures MulX(Scale(c, p), z) == Scale(c, MulX(p, z))
  {
    if p != [] {
      assert z * (c * p[|p| - 1]) == c * (z * p[|p| - 1]);
    }
  }

  lemma {:induction false} MulXPowAdd(j: nat, p: Vec, q: Vec, z: int)
    requires |p| == |q|
    ensures MulXPow(j, Add(p, q), z) == Add(MulXPow(j, p, z), MulXPow(j, q, z))
  {
    if j > 0 {
      MulXPowAdd(j - 1, p, q, z);
      MulXAdd(MulXPow(j - 1, p, z), MulXPow(j - 1, q, z), z);
    }
  }

  lemma {:induction false} MulXPowAt(j: nat, p: Vec, z: int, k: nat)
    requires j <= |p| && k < |p|
    ensures MulXPow(j, p, z)[k] == Rotated(p, z, j, k)
  {
    if j > 0 {
      MulXPowAt(j - 1, p, z, if k == 0 then |p| - 1 else k - 1);
    }
  }

  // X^n acts as z modulo X^n - z.
  lemma MulXPowFull(p: Vec, z: int)
    ensures MulXPow(|p|, p, z) == Scale(z, p)
  {
    forall k | 0 <= k < |p|
      ensures MulXPow(|p|, p, z)[k] == Scale(z, p)[k]
    {
      MulXPowAt(|p|, p, z, k);
    }
  }

  // Coefficientwise laws used below.

  lemma AddSwap(a: Vec, b: Vec, c: Vec, d: Vec)
    requires |a| == |b| == |c| == |d|
    ensures Add(Add(a, b), Add(c, d)) == Add(Add(a, c), Add(b, d))
  {
  }

  lemma AddAssoc(a: Vec, b: Vec, c: Vec)
    requires |a| == |b| == |c|
    ensures Add(Add(a, b), c) == Add(a, Add(b, c))
  {
  }

  lemma ScaleAdd(c: int, a: Vec, b: Vec)
    requires |a| == |b|
    ensures Scale(c, Add(a, b)) == Add(Scale(c, a), Scale(c, b))
  {
    forall i | 0 <= i < |a|
      ensures c * (a[i] + b[i]) == c * a[i] + c * b[i]
    {
    }
  }

  lemma ScaleSum(c: int, d: int, a: Vec)
    ensures Scale(c + d, a) == Add(Scale(c, a), Scale(d, a))
  {
    forall i | 0 <= i < |a|
      ensures (c + d) * a[i] == c * a[i] + d * a[i]
    {
    }
  }

  lemma ScaleScale(c: int, d: int, a: Vec)
    ensures Scale(c, Scale(d, a)) == Scale(c * d, a)
  {
    forall i | 0 <= i < |a|
      ensures c * (d * a[i]) == (c * d) * a[i]
    {
    }
  }

  // ----- multiplication is bilinear

  lemma {:induction false} MulAddLeft(a: Vec, a': Vec, b: Vec, z: int)
    requires |a| == |a'|
    ensures Mul(Add(a, a'), b, z) == Add(Mul(a, b, z), Mul(a', b, z))
  {
    if a != [] {
      assert Add(a, a')[1..] == Add(a[1..], a'[1..]);
      MulAddLeft(a[1..], a'[1..], b, z);
      MulXAdd(Mul(a[1..], b, z), Mul(a'[1..], b, z), z);
      ScaleSum(a[0], a'[0], b);
      AddSwap(Scale(a[0], b), Scale(a'[0], b), MulX(Mul(a[1..], b, z), z), MulX(Mul(a'[1..], b, z), z));
    }
  }

  lemma {:induction false} MulScaleLeft(c: int, a: Vec, b: Vec, z: int)
    ensures Mul(Scale(c, a), b, z) == Scale(c, Mul(a, b, z))
  {
    if a != [] {
      assert Scale(c, a)[1..] == Scale(c, a[1..]);
      MulScaleLeft(c, a[1..], b, z);
      MulXScale(c, Mul(a[1..], b, z), z);
      ScaleScale(c, a[0], b);
      ScaleAdd(c, Scale(a[0], b), MulX(Mul(a[1..], b, z), z));
    } else {
      assert Scale(c, a) == [];
    }
  }

  lemma {:induction false} MulConcat(a: Vec, a': Vec, b: Vec, z: int)
    ensures Mul(a + a', b, z) == Add(Mul(a, b, z), MulXPow(|a|, Mul(a', b, z), z))
  {
    if a == [] {
      assert a + a' == a';
    } else {
      assert (a + a')[1..] == a[1..] + a';
      MulConcat(a[1..], a', b, z);
      var u, v := Mul(a[1..], b, z), MulXPow(|a| - 1, Mul(a', b, z), z);
      MulXAdd(u, v, z);
      AddAssoc(Scale(a[0], b), MulX(u, z), MulX(v, z));
    }
  }

  // Horner's rule computes the schoolbook product.
  lemma MulIsSchoolbook(a: Vec, b: Vec, z: int, k: nat)
    requires |a| <= |b| && k < |b|
    ensures Mul(a, b, z)[k] == Schoolbook(a, b, z, k)
  {
    MulFromSchoolbook(a, b, z, k, 0);
    assert a[0..] == a;
  }

  lemma {:induction false} MulFromSchoolbook(a: Vec, b: Vec, z: int, k: nat, i: nat)
    requires |a| <= |b| && k < |b| && i <= |a|
    ensures MulXPow(i, Mul(a[i..], b, z), z)[k] == SchoolbookFrom(a, b, z, k, i)
    decreases |a| - i
  {
    if i == |a| {
      MulXPowAt(i, Zero(|b|), z, k);
    } else {
      var rest := Mul(a[i + 1..], b, z);
      assert a[i..][1..] == a[i + 1..];
      MulFromSchoolbook(a, b, z, k, i + 1);
      MulXPowAdd(i, Scale(a[i], b), MulX(rest, z), z);
      MulXPowShift(i, rest, z);
      MulXPowAt(i, Scale(a[i], b), z, k);
      RotatedScale(a[i], b, z, i, k);
    }
  }

  lemma RotatedScale(c: int, b: Vec, z: int, i: nat, k: nat)
    requires i <= |b| && k < |b|
    ensures Rotated(Scale(c, b), z, i, k) == c * Rotated(b, z, i, k)
  {
    if i > k {
      Commute(z, c, b[|b| + k - i]);
    }
  }

  lemma {:induction false} MulXPowShift(j: nat, p: Vec, z: int)
    ensures MulXPow(j, MulX(p, z), z) == MulXPow(j + 1, p, z)
  {
    hide MulX;
    if j > 0 {
      MulXPowShift(j - 1, p, z);
    }
  }

  // ----- splitting: X^2m - y^2 = (X^m - y)(X^m + y)

  // The remainder of p modulo X^m - y, for p of length 2m.
  function Fold(p: Vec, y: int): (r: Vec)
    requires |p| % 2 == 0
    ensures |r| == |p| / 2
  {
    var m := |p| / 2;
    seq(m, i requires 0 <= i < m => p[i] + y * p[m + i])
  }

  lemma FoldAdd(p: Vec, q: Vec, y: int)
    requires |p| == |q| && |p| % 2 == 0
    ensures Fold(Add(p, q), y) == Add(Fold(p, y), Fold(q, y))
  {
    var m := |p| / 2;
    forall i | 0 <= i < m
      ensures Fold(Add(p, q), y)[i] == Add(Fold(p, y), Fold(q, y))[i]
    {
      Distribute(y, p[m + i], q[m + i]);
    }
  }

  lemma FoldScale(c: int, p: Vec, y: int)
    requires |p| % 2 == 0
    ensures Fold(Scale(c, p), y) == Scale(c, Fold(p, y))
  {
    var m := |p| / 2;
    forall i | 0 <= i < m
      ensures Fold(Scale(c, p), y)[i] == Scale(c, Fold(p, y))[i]
    {
      Commute(y, c, p[m + i]);
      Distribute(c, p[i], y * p[m + i]);
    }
  }

  lemma Square(y: int, x: int)
    ensures (y * y) * x == y * (y * x)
  {
  }

  lemma FoldMulX(p: Vec, y: int)
    requires |p| % 2 == 0 && |p| > 0
    ensures Fold(MulX(p, y * y), y) == MulX(Fold(p, y), y)
  {
    var m := |p| / 2;
    Distribute(y, p[m - 1], y * p[2 * m - 1]);
    Square(y, p[2 * m - 1]);
    var l, r := Fold(MulX(p, y * y), y), MulX(Fold(p, y), y);
    forall i | 0 <= i < m
      ensures l[i] == r[i]
    {
    }
  }

  lemma {:induction false} FoldMulRight(a: Vec, b: Vec, y: int)
    requires |b| % 2 == 0 && |b| > 0
    ensures Fold(Mul(a, b, y * y), y) == Mul(a, Fold(b, y), y)
  {
    if a == [] {
      assert Fold(Zero(|b|), y) == Zero(|b| / 2);
    } else {
      FoldMulRight(a[1..], b, y);
      var rest := Mul(a[1..], b, y * y);
      FoldAdd(Scale(a[0], b), MulX(rest, y * y), y);
      FoldScale(a[0], b, y);
      FoldMulX(rest, y);
    }
  }

  lemma FoldMulLeft(a: Vec, c: Vec, y: int)
    requires |a| == 2 * |c|
    ensures Mul(a, c, y) == Mul(Fold(a, y), c, y)
  {
    var lo, hi := a[..|c|], a[|c|..];
    calc {
      Mul(a, c, y);
      { assert a == lo + hi; }
      Mul(lo + hi, c, y);
      { MulConcat(lo, hi, c, y); }
      Add(Mul(lo, c, y), MulXPow(|c|, Mul(hi, c, y), y));
      { MulXPowFull(Mul(hi, c, y), y); }
      Add(Mul(lo, c, y), Scale(y, Mul(hi, c, y)));
      { MulScaleLeft(y, hi, c, y); }
      Add(Mul(lo, c, y), Mul(Scale(y, hi), c, y));
      { MulAddLeft(lo, Scale(y, hi), c, y); }
      Mul(Add(lo, Scale(y, hi)), c, y);
      { FoldHalves(a, |c|, y); }
      Mul(Fold(a, y), c, y);
    }
  }

  lemma FoldHalves(a: Vec, m: nat, y: int)
    requires |a| == 2 * m
    ensures Fold(a, y) == Add(a[..m], Scale(y, a[m..]))
  {
  }

  // Taking remainders modulo X^m - y is a ring homomorphism.
  lemma FoldMul(a: Vec, b: Vec, y: int)
    requires |a| == |b| && |a| % 2 == 0 && |a| > 0
    ensures Fold(Mul(a, b, y * y), y) == Mul(Fold(a, y), Fold(b, y), y)
  {
    FoldMulRight(a, b, y);
    FoldMulLeft(a, Fold(b, y), y);
  }
}
