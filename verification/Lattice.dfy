// The algebra behind encryption: vectors and matrices over Z_q[X]/(X^256 + 1),
// and what remains of a ciphertext after decryption.
module Lattice {
  import opened Reduce
  import opened PolyRing
  import opened NttSpec
  import opened RingQ

  type Polys = seq<Vec>

  ghost predicate AllPolys(v: Polys) {
    forall i :: 0 <= i < |v| ==> IsPoly(v[i])
  }

  ghost predicate IsMatrix(a: seq<Polys>, n: nat) {
    |a| == n && forall i :: 0 <= i < n ==> |a[i]| == n && AllPolys(a[i])
  }

  // Sum of pairwise products of transforms.
  ghost function Dot(x: Polys, y: Polys): (r: Vec)
    requires |x| == |y| && AllPolys(x) && AllPolys(y)
    ensures IsPoly(r)
  {
    if |x| == 0 then Zero(N) else AddQ(Dot(x[..|x| - 1], y[..|x| - 1]), PairQ(x[|x| - 1], y[|x| - 1]))
  }

  // Sum of ring products.
  ghost function DotMul(a: Polys, b: Polys): (r: Vec)
    requires |a| == |b| && AllPolys(a) && AllPolys(b)
    ensures IsPoly(r)
  {
    if |a| == 0 then Zero(N) else AddQ(DotMul(a[..|a| - 1], b[..|a| - 1]), MulQ(a[|a| - 1], b[|a| - 1]))
  }

  ghost function NttV(v: Polys): (r: Polys)
    requires AllPolys(v)
    ensures |r| == |v| && AllPolys(r)
  {
    seq(|v|, i requires 0 <= i < |v| => NttQ(v[i]))
  }

  ghost function AddV(v: Polys, w: Polys): (r: Polys)
    requires |v| == |w| && AllPolys(v) && AllPolys(w)
    ensures |r| == |v| && AllPolys(r)
  {
    seq(|v|, i requires 0 <= i < |v| => AddQ(v[i], w[i]))
  }

  // The rows of a, each multiplied with x.
  ghost function Rows(a: seq<Polys>, x: Polys): (r: Polys)
    requires AllPolys(x) && forall i :: 0 <= i < |a| ==> |a[i]| == |x| && AllPolys(a[i])
    ensures |r| == |a| && AllPolys(r)
  {
    seq(|a|, i requires 0 <= i < |a| => Dot(a[i], x))
  }

  ghost function Column(a: seq<Polys>, n: nat, i: nat): (r: Polys)
    requires forall j :: 0 <= j < |a| ==> |a[j]| == n && AllPolys(a[j])
    requires i < n
    ensures |r| == |a| && AllPolys(r)
  {
    assert forall j :: 0 <= j < |a| ==> AllPolys(a[j]) && IsPoly(a[j][i]);
    seq(|a|, j requires 0 <= j < |a| => a[j][i])
  }

  ghost function Transpose(a: seq<Polys>, n: nat): (r: seq<Polys>)
    requires forall j :: 0 <= j < |a| ==> |a[j]| == n && AllPolys(a[j])
    ensures |r| == n && forall i :: 0 <= i < n ==> |r[i]| == |a| && AllPolys(r[i])
  {
    seq(n, i requires 0 <= i < n => Column(a, n, i))
  }

  // ----- the laws of a commutative group, on residues

  lemma ZeroReduced()
    ensures Res(Zero(N)) == Zero(N)
  {
  }

  lemma AddQZero(a: Vec)
    requires IsPoly(a)
    ensures AddQ(Zero(N), a) == Res(a)
  {
    assert Add(Zero(N), a) == a;
  }

  // Regrouping (a + b) + (c + d), whatever was reduced on the way.
  lemma AddQSwap(a: Vec, b: Vec, c: Vec, d: Vec)
    requires IsPoly(a) && IsPoly(b) && IsPoly(c) && IsPoly(d)
    ensures AddQ(AddQ(a, b), AddQ(c, d)) == AddQ(AddQ(a, c), AddQ(b, d))
  {
    hide Res;
    ResRes(Add(a, b));
    ResRes(Add(c, d));
    ResRes(Add(a, c));
    ResRes(Add(b, d));
    ResAdd(AddQ(a, b), Add(a, b), AddQ(c, d), Add(c, d));
    ResAdd(AddQ(a, c), Add(a, c), AddQ(b, d), Add(b, d));
    AddSwap(a, b, c, d);
  }

  lemma PairQZero(y: Vec)
    requires IsPoly(y)
    ensures PairQ(Zero(N), y) == Zero(N)
  {
    hide Res, PairProducts;
    ZeroReduced();
    assert Scale(0, Zero(N)) == Zero(N);
    var z := PairProducts(Zero(N), y, 128);
    assert Add(Zero(N), Zero(N)) == Zero(N);
    PairProductsAdd(Zero(N), Zero(N), y, 128);
    assert forall i :: 0 <= i < N ==> z[i] == Add(z, z)[i];
    assert z == Zero(N);
  }

  // ----- Dot is bilinear and symmetric

  lemma {:induction false} DotComm(x: Polys, y: Polys)
    requires |x| == |y| && AllPolys(x) && AllPolys(y)
    ensures Dot(x, y) == Dot(y, x)
  {
    hide AddQ, PairQ;
    if |x| > 0 {
      var n := |x| - 1;
      DotComm(x[..n], y[..n]);
      PairQComm(x[n], y[n]);
    }
  }

  lemma {:induction false} DotAdd(x: Polys, x': Polys, y: Polys)
    requires |x| == |x'| == |y| && AllPolys(x) && AllPolys(x') && AllPolys(y)
    ensures Dot(AddV(x, x'), y) == AddQ(Dot(x, y), Dot(x', y))
  {
    hide AddQ, PairQ;
    if |x| == 0 {
      AddQZero(Zero(N));
      ZeroReduced();
    } else {
      var n := |x| - 1;
      assert AddV(x, x')[..n] == AddV(x[..n], x'[..n]);
      DotAdd(x[..n], x'[..n], y[..n]);
      PairQAdd(x[n], x'[n], y[n]);
      AddQSwap(Dot(x[..n], y[..n]), Dot(x'[..n], y[..n]), PairQ(x[n], y[n]), PairQ(x'[n], y[n]));
    }
  }

  lemma {:induction false} DotRes(x: Polys, x': Polys, y: Polys, y': Polys)
    requires |x| == |x'| == |y| == |y'| && AllPolys(x) && AllPolys(x') && AllPolys(y) && AllPolys(y')
    requires forall i :: 0 <= i < |x| ==> Res(x[i]) == Res(x'[i]) && Res(y[i]) == Res(y'[i])
    ensures Dot(x, y) == Dot(x', y')
  {
    hide Res, AddQ, PairQ;
    if |x| > 0 {
      var n := |x| - 1;
      DotRes(x[..n], x'[..n], y[..n], y'[..n]);
      PairQRes(x[n], x'[n], y[n], y'[n]);
    }
  }

  // A common factor can be taken out.
  ghost function Times(a: Polys, r: Vec): (v: Polys)
    requires AllPolys(a) && IsPoly(r)
    ensures |v| == |a| && AllPolys(v)
  {
    seq(|a|, i requires 0 <= i < |a| => PairQ(a[i], r))
  }

  lemma {:induction false} DotTimes(s: Polys, a: Polys, r: Vec)
    requires |s| == |a| && AllPolys(s) && AllPolys(a) && IsPoly(r)
    ensures Dot(s, Times(a, r)) == PairQ(Dot(a, s), r)
  {
    hide AddQ, PairQ;
    if |s| == 0 {
      PairQZero(r);
    } else {
      var n := |s| - 1;
      assert Times(a, r)[..n] == Times(a[..n], r);
      DotTimes(s[..n], a[..n], r);
      PairQAssoc(s[n], a[n], r);
      PairQComm(s[n], a[n]);
      PairQAdd(Dot(a[..n], s[..n]), PairQ(a[n], s[n]), r);
    }
  }

  // Summing a matrix by rows or by columns: (A s) . r == s . (A^T r).
  lemma {:induction false} RowsAndColumns(a: seq<Polys>, s: Polys, r: Polys)
    requires |a| == |r| && AllPolys(s) && AllPolys(r)
    requires forall j :: 0 <= j < |a| ==> |a[j]| == |s| && AllPolys(a[j])
    ensures Dot(Rows(a, s), r) == Dot(s, Rows(Transpose(a, |s|), r))
  {
    hide AddQ, PairQ;
    var k := |s|;
    if |a| == 0 {
      NoRows(a, s, r);
    } else {
      var n := |a| - 1;
      var a', r' := a[..n], r[..n];
      RowsAndColumns(a', s, r');
      assert Rows(a, s)[..n] == Rows(a', s);
      var next := Times(a[n], r[n]);
      assert Rows(Transpose(a, k), r) == AddV(Rows(Transpose(a', k), r'), next) by {
        forall i | 0 <= i < k
          ensures Rows(Transpose(a, k), r)[i] == AddQ(Rows(Transpose(a', k), r')[i], next[i])
        {
          assert Column(a, k, i)[..n] == Column(a', k, i);
        }
      }
      DotComm(s, AddV(Rows(Transpose(a', k), r'), next));
      DotAdd(Rows(Transpose(a', k), r'), next, s);
      DotComm(Rows(Transpose(a', k), r'), s);
      DotComm(next, s);
      DotTimes(s, a[n], r[n]);
    }
  }

  lemma NoRows(a: seq<Polys>, s: Polys, r: Polys)
    requires |a| == |r| == 0 && AllPolys(s)
    ensures Dot(Rows(a, s), r) == Dot(s, Rows(Transpose(a, |s|), r))
  {
    hide AddQ, PairQ;
    var z := Rows(Transpose(a, |s|), r);
    assert forall i :: 0 <= i < |z| ==> z[i] == Zero(N);
    DotZeros(s, z);
  }

  lemma {:induction false} DotZeros(s: Polys, z: Polys)
    requires |s| == |z| && AllPolys(s) && forall i :: 0 <= i < |z| ==> z[i] == Zero(N)
    ensures AllPolys(z) && Dot(s, z) == Zero(N)
  {
    hide AddQ, PairQ;
    if |s| > 0 {
      var n := |s| - 1;
      DotZeros(s[..n], z[..n]);
      PairQComm(s[n], z[n]);
      PairQZero(s[n]);
      AddQZero(Zero(N));
      ZeroReduced();
    }
  }

  // ----- back from the transformed domain

  lemma {:induction false} InverseOfDot(a: Polys, b: Polys)
    requires |a| == |b| && AllPolys(a) && AllPolys(b)
    ensures InvQ(Dot(NttV(a), NttV(b))) == DotMul(a, b)
  {
    hide AddQ, PairQ, InvQ, NttQ, MulQ;
    if |a| == 0 {
      InverseOfZero();
    } else {
      var n := |a| - 1;
      assert NttV(a)[..n] == NttV(a[..n]) && NttV(b)[..n] == NttV(b[..n]);
      InverseOfDot(a[..n], b[..n]);
      InverseOfSum(Dot(NttV(a[..n]), NttV(b[..n])), PairQ(NttQ(a[n]), NttQ(b[n])));
      Convolution(a[n], b[n]);
    }
  }

  lemma InverseOfZero()
    ensures InvQ(Zero(N)) == Zero(N)
  {
    hide InvQ, Res;
    var z := InvQ(Zero(N));
    ZeroReduced();
    AddQZero(Zero(N));
    InverseOfSum(Zero(N), Zero(N));
    InvQIsReduced(Zero(N));
    DoubleIsZero(z);
  }

  lemma DoubleIsZero(z: Vec)
    requires IsPoly(z) && Res(z) == z && z == AddQ(z, z)
    ensures z == Zero(N)
  {
    forall i | 0 <= i < N
      ensures z[i] == 0
    {
      assert z[i] == Residue(z[i]);
      assert z[i] == AddQ(z, z)[i] == Residue(z[i] + z[i]);
    }
  }

  // ----- encryption and decryption, without the encoding of bytes

  // t = A s + e, in the transformed domain.
  ghost function PublicVector(a: seq<Polys>, s: Polys, e: Polys): (t: Polys)
    requires IsMatrix(a, |s|) && |e| == |s| && AllPolys(s) && AllPolys(e)
    ensures |t| == |s| && AllPolys(t)
  {
    AddV(Rows(a, NttV(s)), NttV(e))
  }

  // u = A^T r + e1.
  ghost function CipherVector(a: seq<Polys>, r: Polys, e1: Polys): (u: Polys)
    requires IsMatrix(a, |r|) && |e1| == |r| && AllPolys(r) && AllPolys(e1)
    ensures |u| == |r| && AllPolys(u)
  {
    var p := Rows(Transpose(a, |r|), NttV(r));
    seq(|r|, i requires 0 <= i < |r| => AddQ(InvQ(p[i]), e1[i]))
  }

  // v = t . r + e2 + k.
  ghost function CipherPoly(t: Polys, r: Polys, e2: Vec, k: Vec): (v: Vec)
    requires |t| == |r| && AllPolys(t) && AllPolys(r) && IsPoly(e2) && IsPoly(k)
    ensures IsPoly(v)
  {
    AddQ(AddQ(InvQ(Dot(t, NttV(r))), e2), k)
  }

  // The polynomials of the ring whose transforms are x.
  ghost function InvV(x: Polys): (v: Polys)
    requires AllPolys(x)
    ensures |v| == |x| && AllPolys(v)
  {
    seq(|x|, i requires 0 <= i < |x| => InvQ(x[i]))
  }

  lemma InverseOfMixedDot(x: Polys, b: Polys)
    requires |x| == |b| && AllPolys(x) && AllPolys(b)
    ensures InvQ(Dot(x, NttV(b))) == DotMul(InvV(x), b)
  {
    hide AddQ, PairQ, InvQ, NttQ, MulQ, Res, DotMul, Dot;
    forall i | 0 <= i < |x|
      ensures Res(NttV(InvV(x))[i]) == Res(x[i])
    {
      NttOfInverse(x[i]);
      ResRes(x[i]);
    }
    DotRes(x, NttV(InvV(x)), NttV(b), NttV(b));
    InverseOfDot(InvV(x), b);
  }

  // Entry i of t = A s + e as an equation between polynomials: the sum over j of
  // A[i][j] s[j], plus e[i], where a holds the transforms of A.
  lemma PublicVectorInRing(a: seq<Polys>, s: Polys, e: Polys, i: nat)
    requires IsMatrix(a, |s|) && |e| == |s| && AllPolys(s) && AllPolys(e) && i < |s|
    ensures InvQ(PublicVector(a, s, e)[i]) == AddQ(DotMul(InvV(a[i]), s), e[i])
  {
    hide PairQ, InvQ, NttQ, MulQ, Res, DotMul, Dot, InvV;
    InverseOfSum(Dot(a[i], NttV(s)), NttQ(e[i]));
    InverseOfMixedDot(a[i], s);
    InverseOfNtt(e[i]);
    ResRes(e[i]);
    AddQRes(DotMul(InvV(a[i]), s), DotMul(InvV(a[i]), s), Res(e[i]), e[i]);
  }

  // Entry i of u = A^T r + e1, the sum over j of A[j][i] r[j] plus e1[i], and
  // v = t . r + e2 + k.
  lemma CipherInRing(a: seq<Polys>, t: Polys, r: Polys, e1: Polys, e2: Vec, k: Vec, i: nat)
    requires IsMatrix(a, |r|) && |t| == |e1| == |r| && AllPolys(t) && AllPolys(r) && AllPolys(e1) && IsPoly(e2) && IsPoly(k)
    requires i < |r|
    ensures var c := seq(|r|, j requires 0 <= j < |r| => a[j][i]);
            AllPolys(c) && CipherVector(a, r, e1)[i] == AddQ(DotMul(InvV(c), r), e1[i])
    ensures CipherPoly(t, r, e2, k) == AddQ(AddQ(DotMul(InvV(t), r), e2), k)
  {
    hide AddQ, PairQ, InvQ, NttQ, MulQ, Res, DotMul, Dot, InvV;
    assert seq(|r|, j requires 0 <= j < |r| => a[j][i]) == Transpose(a, |r|)[i];
    InverseOfMixedDot(Transpose(a, |r|)[i], r);
    InverseOfMixedDot(t, r);
  }

  // v - s . u, with s already transformed.
  ghost function Decrypted(s': Polys, u: Polys, v: Vec): (m: Vec)
    requires |s'| == |u| && AllPolys(s') && AllPolys(u) && IsPoly(v)
    ensures IsPoly(m)
  {
    SubQ(v, InvQ(Dot(s', NttV(u))))
  }

  // What decryption adds to the encoded message: e . r + e2 + cv - s . (e1 + cu),
  // where cu and cv are the rounding errors of the ciphertext.
  ghost function Noise(s: Polys, e: Polys, r: Polys, e1: Polys, e2: Vec, cu: Polys, cv: Vec): (w: Vec)
    requires |s| == |e| == |r| == |e1| == |cu|
    requires AllPolys(s) && AllPolys(e) && AllPolys(r) && AllPolys(e1) && AllPolys(cu) && IsPoly(e2) && IsPoly(cv)
    ensures IsPoly(w)
  {
    SubQ(AddQ(AddQ(DotMul(e, r), e2), cv), DotMul(s, AddV(e1, cu)))
  }

  // The transform of a rounded cipher vector: A^T r once more, plus the errors.
  lemma NttOfCipher(a: seq<Polys>, r: Polys, e1: Polys, cu: Polys)
    requires IsMatrix(a, |r|) && |e1| == |cu| == |r| && AllPolys(r) && AllPolys(e1) && AllPolys(cu)
    ensures NttV(AddV(CipherVector(a, r, e1), cu)) == AddV(Rows(Transpose(a, |r|), NttV(r)), NttV(AddV(e1, cu)))
  {
    hide Res, InvQ, NttQ, Dot, Add;
    var p := Rows(Transpose(a, |r|), NttV(r));
    forall i | 0 <= i < |r|
      ensures NttQ(AddQ(AddQ(InvQ(p[i]), e1[i]), cu[i])) == AddQ(p[i], NttQ(AddQ(e1[i], cu[i])))
    {
      var x := InvQ(p[i]);
      AddQAssoc(x, e1[i], cu[i]);
      NttOfSum(x, AddQ(e1[i], cu[i]));
      NttOfInverse(p[i]);
      ResRes(p[i]);
      AddQRes(Res(p[i]), p[i], NttQ(AddQ(e1[i], cu[i])), NttQ(AddQ(e1[i], cu[i])));
    }
  }

  lemma AddQAssoc(a: Vec, b: Vec, c: Vec)
    requires IsPoly(a) && IsPoly(b) && IsPoly(c)
    ensures AddQ(AddQ(a, b), c) == AddQ(a, AddQ(b, c))
  {
    hide Res;
    ResRes(Add(a, b));
    ResRes(Add(b, c));
    ResAdd(AddQ(a, b), Add(a, b), c, c);
    ResAdd(a, a, AddQ(b, c), Add(b, c));
    AddAssoc(a, b, c);
  }

  // Decrypting a rounded ciphertext gives the message plus the noise.
  lemma DecryptionResidue(a: seq<Polys>, s: Polys, e: Polys, r: Polys, e1: Polys, e2: Vec, k: Vec, cu: Polys, cv: Vec)
    requires IsMatrix(a, |s|) && |s| == |e| == |r| == |e1| == |cu|
    requires AllPolys(s) && AllPolys(e) && AllPolys(r) && AllPolys(e1) && AllPolys(cu)
    requires IsPoly(e2) && IsPoly(k) && IsPoly(cv)
    ensures var u := AddV(CipherVector(a, r, e1), cu);
            var v := AddQ(CipherPoly(PublicVector(a, s, e), r, e2, k), cv);
            Decrypted(NttV(s), u, v) == AddQ(k, Noise(s, e, r, e1, e2, cu, cv))
  {
    hide Res, InvQ, NttQ, Dot, DotMul, AddQ, SubQ, Rows, Transpose, NttV, AddV, CipherVector, PairQ;
    var s', r' := NttV(s), NttV(r);
    var f := AddV(e1, cu);
    var x, y := Dot(Rows(a, s'), r'), Dot(NttV(e), r');
    var z := Dot(s', NttV(f));
    // the two occurrences of A cancel
    DotAdd(Rows(a, s'), NttV(e), r');
    NttOfCipher(a, r, e1, cu);
    var p := Rows(Transpose(a, |s|), r');
    DotComm(s', AddV(p, NttV(f)));
    DotAdd(p, NttV(f), s');
    DotComm(p, s');
    DotComm(NttV(f), s');
    RowsAndColumns(a, s', r');
    // back to the plain domain
    InverseOfSum(x, y);
    InverseOfSum(x, z);
    InverseOfDot(e, r);
    InverseOfDot(s, f);
    Cancel(InvQ(x), DotMul(e, r), e2, k, cv, DotMul(s, f));
  }

  lemma Cancel(x: Vec, e: Vec, e2: Vec, k: Vec, cv: Vec, s: Vec)
    requires IsPoly(x) && IsPoly(e) && IsPoly(e2) && IsPoly(k) && IsPoly(cv) && IsPoly(s)
    ensures SubQ(AddQ(AddQ(AddQ(AddQ(x, e), e2), k), cv), AddQ(x, s)) ==
            AddQ(k, SubQ(AddQ(AddQ(e, e2), cv), s))
  {
    hide Res;
    var xe := Add(x, e);
    var xee := Add(xe, e2);
    var xeek := Add(xee, k);
    var l := Add(xeek, cv);
    Step(x, x, e, xe);
    Step(AddQ(x, e), xe, e2, xee);
    Step(AddQ(AddQ(x, e), e2), xee, k, xeek);
    Step(AddQ(AddQ(AddQ(x, e), e2), k), xeek, cv, l);
    ResRes(Add(x, s));
    ResSub(AddQ(AddQ(AddQ(AddQ(x, e), e2), k), cv), l, AddQ(x, s), Add(x, s));
    var ee := Add(e, e2);
    var eec := Add(ee, cv);
    Step(e, e, e2, ee);
    Step(AddQ(e, e2), ee, cv, eec);
    ResSub(AddQ(AddQ(e, e2), cv), eec, s, s);
    ResRes(Sub(eec, s));
    ResAdd(k, k, SubQ(AddQ(AddQ(e, e2), cv), s), Sub(eec, s));
    CancelExact(x, e, e2, k, cv, s);
  }

  lemma Step(a: Vec, a': Vec, b: Vec, c: Vec)
    requires IsPoly(a) && IsPoly(a') && IsPoly(b) && Res(a) == Res(a') && c == Add(a', b)
    ensures Res(AddQ(a, b)) == Res(c)
  {
    hide Res;
    ResAdd(a, a', b, b);
    ResRes(Add(a, b));
  }

  lemma CancelExact(x: Vec, e: Vec, e2: Vec, k: Vec, cv: Vec, s: Vec)
    requires IsPoly(x) && IsPoly(e) && IsPoly(e2) && IsPoly(k) && IsPoly(cv) && IsPoly(s)
    ensures Sub(Add(Add(Add(Add(x, e), e2), k), cv), Add(x, s)) == Add(k, Sub(Add(Add(e, e2), cv), s))
  {
  }
}
