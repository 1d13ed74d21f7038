// Vectors of polynomials (components/polyvec/polyvec.c).  A polynomial that is
// being worked on is an array; a finished one is kept as the sequence of its
// coefficients.
module Polyvec {
  import opened Reduce
  import opened PolyRing
  import opened NttSpec
  import opened RingQ
  import opened InPlaceNtt
  import opened Poly
  import opened Lattice

  type Coeffs = seq<int16>

  ghost predicate Bounded(p: Coeffs, b: int) {
    |p| == N && forall j :: 0 <= j < N ==> -b <= p[j] <= b
  }

  ghost predicate Within(v: seq<Coeffs>, b: int) {
    forall i :: 0 <= i < |v| ==> Bounded(v[i], b)
  }

  method Load(p: Coeffs) returns (r: array<int16>)
    ensures fresh(r) && r[..] == p
  {
    r := new int16[|p|](i requires 0 <= i < |p| => p[i]);
  }

  method PolyvecNtt(v: seq<Coeffs>) returns (w: seq<Coeffs>)
    requires Within(v, NTT_INPUT_BOUND)
    ensures |w| == |v| && AllPolys(w)
    ensures forall i :: 0 <= i < |v| ==> w[i] == Centre(NttQ(v[i]))
  {
    hide Centre, NttQ;
    w := [];
    for i := 0 to |v|
      invariant |w| == i && AllPolys(w)
      invariant forall l :: 0 <= l < i ==> w[l] == Centre(NttQ(v[l]))
    {
      var r := Load(v[i]);
      PolyNtt(r);
      w := w + [r[..]];
    }
  }

  method PolyvecInvNttToMont(v: seq<Coeffs>) returns (w: seq<Coeffs>)
    requires Within(v, INVNTT_INPUT_BOUND)
    ensures |w| == |v| && Within(w, Q - 1)
    ensures forall i :: 0 <= i < |v| ==> Res(w[i]) == ScaleQ(0x1_0000, InvQ(v[i]))
  {
    hide Res, ScaleQ, InvQ;
    w := [];
    for i := 0 to |v|
      invariant |w| == i && Within(w, Q - 1)
      invariant forall l :: 0 <= l < i ==> Res(w[l]) == ScaleQ(0x1_0000, InvQ(v[l]))
    {
      var r := Load(v[i]);
      InvNtt(r);
      w := w + [r[..]];
    }
  }

  // Sums that stay in range are sums.
  lemma SumInRange(r: Coeffs, a: Coeffs, b: Coeffs, x: int, y: int)
    requires |r| == |a| == |b| && 0 <= x && 0 <= y && x + y <= 0x7fff
    requires forall i :: 0 <= i < |r| ==> r[i] == Int16(a[i] as int + b[i] as int)
    requires forall i :: 0 <= i < |r| ==> -x <= a[i] <= x && -y <= b[i] <= y
    ensures r == Add(a, b)
  {
  }

  lemma DifferenceInRange(r: Coeffs, a: Coeffs, b: Coeffs, x: int, y: int)
    requires |r| == |a| == |b| && 0 <= x && 0 <= y && x + y <= 0x7fff
    requires forall i :: 0 <= i < |r| ==> r[i] == Int16(a[i] as int - b[i] as int)
    requires forall i :: 0 <= i < |r| ==> -x <= a[i] <= x && -y <= b[i] <= y
    ensures r == Sub(a, b)
  {
  }

  // One step of the accumulation.
  lemma Accumulate(s': Vec, s: Vec, t: Vec, d: Vec, p: Vec)
    requires IsPoly(s) && IsPoly(t) && IsPoly(d) && IsPoly(p) && s' == Add(s, t)
    requires Res(s) == ScaleQ(R_INV, d) && Res(t) == ScaleQ(R_INV, p)
    ensures Res(s') == ScaleQ(R_INV, AddQ(d, p))
  {
    hide Res, Scale;
    ResRes(Scale(R_INV, d));
    ResRes(Scale(R_INV, p));
    ResAdd(s, Scale(R_INV, d), t, Scale(R_INV, p));
    ScaleAdd(R_INV, d, p);
    ResRes(Add(d, p));
    ResScale(R_INV, R_INV, AddQ(d, p), Add(d, p));
  }

  lemma FirstProduct(a: seq<Coeffs>, b: seq<Coeffs>, s: Vec)
    requires |a| == |b| && |a| > 0 && AllPolys(a) && AllPolys(b) && Res(s) == ScaleQ(R_INV, PairQ(a[0], b[0]))
    ensures Res(s) == ScaleQ(R_INV, Dot(a[..1], b[..1]))
  {
    hide Res, PairQ, AddQ, ScaleQ;
    assert Dot(a[..1][..0], b[..1][..0]) == Zero(N);
    AddQZero(PairQ(a[0], b[0]));
    PairQIsReduced(a[0], b[0]);
  }

  lemma NextDot(a: seq<Coeffs>, b: seq<Coeffs>, i: nat)
    requires |a| == |b| && i < |a| && AllPolys(a) && AllPolys(b)
    ensures Dot(a[..i + 1], b[..i + 1]) == AddQ(Dot(a[..i], b[..i]), PairQ(a[i], b[i]))
  {
    hide PairQ, AddQ;
    assert a[..i + 1][..i] == a[..i] && b[..i + 1][..i] == b[..i];
  }

  method PolyvecBasemulAccMontgomery(a: seq<Coeffs>, b: seq<Coeffs>) returns (w: Coeffs)
    requires 1 <= |a| == |b| <= 4 && Within(a, BASEMUL_BOUND) && Within(b, BASEMUL_BOUND)
    ensures AllPolys(a) && AllPolys(b) && w == Centre(ScaleQ(R_INV, Dot(a, b)))
  {
    hide Res, Centre, ScaleQ, Dot, PairQ, AddQ, Int16;
    var r, t := new int16[N](_ => 0), new int16[N](_ => 0);
    var x := Load(a[0]);
    var y := Load(b[0]);
    PolyBasemulMontgomery(r, x, y);
    FirstProduct(a, b, r[..]);
    for i := 1 to |a|
      invariant r.Length == t.Length == N
      invariant Res(r[..]) == ScaleQ(R_INV, Dot(a[..i], b[..i]))
      invariant forall j :: 0 <= j < N ==> -(2 * Q - 1) * i <= r[j] <= (2 * Q - 1) * i
    {
      x := Load(a[i]);
      y := Load(b[i]);
      PolyBasemulMontgomery(t, x, y);
      ghost var s: Coeffs := r[..];
      PolyAdd(r, r, t);
      SumInRange(r[..], s, t[..], (2 * Q - 1) * i, 2 * Q - 1);
      Accumulate(r[..], s, t[..], Dot(a[..i], b[..i]), PairQ(a[i], b[i]));
      NextDot(a, b, i);
      assert forall j :: 0 <= j < N ==> r[..][j] == Add(s, t[..])[j];
    }
    assert a[..|a|] == a && b[..|b|] == b;
    ghost var d := ScaleQ(R_INV, Dot(a, b));
    ScaleQIsReduced(R_INV, Dot(a, b));
    CentreRes(r[..], d);
    PolyReduce(r);
    w := r[..];
  }

  method PolyvecAddReduce(v: seq<Coeffs>, w: seq<Coeffs>) returns (s: seq<Coeffs>)
    requires |v| == |w| && Within(v, Q) && Within(w, Q)
    ensures |s| == |v| && AllPolys(s)
    ensures forall i :: 0 <= i < |v| ==> s[i] == Centre(Add(v[i], w[i]))
  {
    hide Centre, Int16;
    s := [];
    for i := 0 to |v|
      invariant |s| == i && AllPolys(s)
      invariant forall l :: 0 <= l < i ==> s[l] == Centre(Add(v[l], w[l]))
    {
      var x := Load(v[i]);
      var y := Load(w[i]);
      PolyAdd(x, x, y);
      SumInRange(x[..], v[i], w[i], Q, Q);
      PolyReduce(x);
      s := s + [x[..]];
    }
  }
}
