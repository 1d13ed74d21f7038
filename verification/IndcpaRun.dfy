// The statements of indcpa_keypair, indcpa_enc and indcpa_dec, and the proof
// that they compute PublicKey, SecretKey, Encrypt and Decrypt without any
// int16 overflow (components/indcpa/indcpa.c:349-383, 556-595, 707-725).
module IndcpaRun {
  import opened Reduce
  import opened PolyRing
  import opened NttSpec
  import opened RingQ
  import opened InPlaceNtt
  import opened Poly
  import opened Lattice
  import opened Polyvec
  import opened Packing
  import opened Buffers
  import opened Codec
  import opened Serialize
  import opened Message
  import opened Indcpa

  // ----- centred vectors stand for their residues

  ghost predicate Centres(w: seq<Coeffs>, v: Polys) {
    |w| == |v| && AllPolys(v) && forall i :: 0 <= i < |v| ==> w[i] == Centre(v[i])
  }

  lemma CentresWithin(w: seq<Coeffs>, v: Polys)
    requires Centres(w, v)
    ensures Within(w, Q / 2) && AllPolys(w) && forall i :: 0 <= i < |w| ==> Res(w[i]) == Res(v[i])
  {
    forall i | 0 <= i < |w|
      ensures Bounded(w[i], Q / 2) && IsPoly(w[i]) && Res(w[i]) == Res(v[i])
    {
      CentreRes(v[i], v[i]);
    }
  }

  // The transform of a sampled vector, as PolyvecNtt leaves it.
  lemma CentresNtt(w: seq<Coeffs>, v: seq<Coeffs>)
    requires AllPolys(v) && |w| == |v| && forall i :: 0 <= i < |v| ==> w[i] == Centre(NttQ(v[i]))
    ensures Centres(w, NttV(v))
  {
    hide Centre, NttQ;
  }

  lemma DotOfCentres(a: Polys, w: seq<Coeffs>, v: Polys)
    requires Centres(w, v) && |a| == |v| && AllPolys(a)
    ensures AllPolys(w) && Dot(a, w) == Dot(a, v) && Dot(w, a) == Dot(v, a)
  {
    CentresWithin(w, v);
    DotRes(a, a, w, v);
    DotRes(w, v, a, a);
  }

  // ----- packing and unpacking whole vectors

  method PackPolyvec(r: array<byte>, o: nat, v: seq<Coeffs>, d: nat)
    requires IsWidth(d) && o + |v| * (32 * d) <= r.Length
    requires forall i :: 0 <= i < |v| ==> Reduced(v[i])
    modifies r
    ensures r[..] == Overwrite(old(r[..]), o, EncodeV(v, d))
  {
    hide EncodePoly, Reduced, Overwrite, IsWidth;
    ghost var was, done := r[..], EncodeV(v[..0], d);
    OverwriteNothing(was, o, done);
    var i, pos := 0, o;
    while i < |v|
      invariant 0 <= i <= |v| && pos == o + i * (32 * d)
      invariant done == EncodeV(v[..i], d)
      invariant i * (32 * d) <= |v| * (32 * d)
      invariant r[..] == Overwrite(was, o, done)
    {
      BlockInside(i, |v|, 32 * d);
      PackPoly(r, pos, v[i], d);
      Append(was, o, done, EncodePoly(v[i], d));
      assert v[..i + 1][..i] == v[..i];
      done := done + EncodePoly(v[i], d);
      i := i + 1;
      pos := pos + 32 * d;
    }
    assert v[..|v|] == v;
  }

  method UnpackPolyvec(a: seq<byte>, d: nat, k: nat) returns (v: seq<Coeffs>)
    requires IsWidth(d) && |a| == k * (32 * d)
    ensures v == DecodeV(a, d, k)
  {
    hide DecodePoly, IsWidth;
    v := [];
    var i, pos := 0, 0;
    while i < k
      invariant 0 <= i <= k && pos == i * (32 * d) && pos <= |a|
      invariant v == DecodeV(a[..pos], d, i)
    {
      BlockInside(i, k, 32 * d);
      var r := new int16[N](_ => 0);
      UnpackPoly(r, a[pos..pos + 32 * d], d);
      assert a[..pos + 32 * d][..pos] == a[..pos];
      assert a[..pos + 32 * d][pos..] == a[pos..pos + 32 * d];
      v := v + [r[..]];
      i := i + 1;
      pos := pos + 32 * d;
    }
    assert a[..pos] == a;
  }

  lemma {:induction false} EncodeCentres(w: seq<Coeffs>, v: Polys, d: nat)
    requires IsWidth(d) && Centres(w, v) && AllResidues(v)
    ensures (forall i :: 0 <= i < |w| ==> Reduced(w[i])) && EncodeV(w, d) == EncodeV(v, d)
  {
    hide Res, Centre, EncodePoly, Reduced;
    if |v| > 0 {
      var n := |v| - 1;
      EncodeCentres(w[..n], v[..n], d);
      EncodeCentre(v[n], d);
    }
  }

  // ----- the loops of the three algorithms

  // used lists the nonces in the order in which they were taken.
  method GetNoise(g: (seq<byte>, nat) -> Coeffs, seed: seq<byte>, nonce: nat, k: nat)
    returns (v: seq<Coeffs>, next: nat, ghost used: seq<nat>)
    ensures |v| == |used| == k && next == nonce + k
    ensures forall i :: 0 <= i < k ==> v[i] == g(seed, nonce + i)
    ensures forall i :: 0 <= i < k ==> used[i] == nonce + i
  {
    v, next, used := [], nonce, [];
    for i := 0 to k
      invariant |v| == |used| == i && next == nonce + i
      invariant forall j :: 0 <= j < i ==> used[j] == nonce + j && v[j] == g(seed, nonce + j)
    {
      v := v + [g(seed, next)];
      used := used + [next];
      next := next + 1;
    }
  }

  ghost predicate SmallMatrix(a: seq<seq<Coeffs>>, n: nat) {
    IsMatrix(a, n) && forall i :: 0 <= i < n ==> Within(a[i], BASEMUL_BOUND)
  }

  // basemul_acc and then tomont: the row product itself.
  lemma RowValue(t: Vec, c: Vec, p: Vec)
    requires IsPoly(t) && IsPoly(p) && c == Centre(ScaleQ(R_INV, p)) && Res(t) == ScaleQ(0x1_0000, c)
    ensures Res(t) == Res(p)
  {
    hide Res, Centre, Scale, ScaleQ;
    var q := ScaleQ(R_INV, p);
    CentreRes(q, q);
    ScaleQRes(0x1_0000, 0x1_0000, c, q);
    MontgomeryCancels(p);
  }

  method MatrixVector(a: seq<seq<Coeffs>>, s: seq<Coeffs>) returns (w: seq<Coeffs>)
    requires 1 <= |s| <= 4 && SmallMatrix(a, |s|) && Within(s, BASEMUL_BOUND) && AllPolys(s)
    ensures |w| == |s| && Within(w, Q - 1)
    ensures forall i :: 0 <= i < |w| ==> Res(w[i]) == Res(Dot(a[i], s))
  {
    hide Res, Centre, ScaleQ, Dot;
    w := [];
    for i := 0 to |s|
      invariant |w| == i && Within(w, Q - 1)
      invariant forall j :: 0 <= j < i ==> Res(w[j]) == Res(Dot(a[j], s))
    {
      var c := PolyvecBasemulAccMontgomery(a[i], s);
      var t := Load(c);
      PolyToMont(t);
      RowValue(t[..], c, Dot(a[i], s));
      w := w + [t[..]];
    }
  }

  // poly_add and then poly_reduce, on representatives of p and q.
  lemma SumRepresents(x: Vec, y: Vec, p: Vec, q: Vec, z: Vec)
    requires IsPoly(x) && IsPoly(y) && IsPoly(p) && IsPoly(q) && Res(x) == Res(p) && Res(y) == Res(q)
    requires z == Centre(Add(x, y))
    ensures z == Centre(AddQ(p, q))
  {
    hide Res, Centre;
    ResAdd(x, p, y, q);
    ResRes(Add(p, q));
    CentreRes(Add(x, y), AddQ(p, q));
  }

  lemma PublicVectorRepresents(w: seq<Coeffs>, a: seq<seq<Coeffs>>, s: Polys, e: Polys, s': seq<Coeffs>, e': seq<Coeffs>, t: seq<Coeffs>)
    requires IsMatrix(a, |s|) && |e| == |s| && AllPolys(s) && AllPolys(e)
    requires Centres(s', NttV(s)) && Centres(e', NttV(e)) && AllPolys(s')
    requires |w| == |s| && AllPolys(w) && forall i :: 0 <= i < |w| ==> Res(w[i]) == Res(Dot(a[i], s'))
    requires |t| == |s| && forall i :: 0 <= i < |t| ==> t[i] == Centre(Add(w[i], e'[i]))
    ensures Centres(t, PublicVector(a, s, e))
  {
    hide Res, Centre, Dot, NttQ, AddQ, Add;
    forall i | 0 <= i < |t|
      ensures t[i] == Centre(PublicVector(a, s, e)[i])
    {
      DotOfCentres(a[i], s', NttV(s));
      CentresWithin(e', NttV(e));
      SumRepresents(w[i], e'[i], Dot(a[i], NttV(s)), NttV(e)[i], t[i]);
    }
  }

  // s and e are the sampled vectors and used the nonces taken for them: both come
  // from the second half of expand(d), and nonce number i is i, so none is taken twice.
  method IndcpaKeypair(f: Primitives, l: Level, d: seq<byte>)
    returns (pk: seq<byte>, sk: seq<byte>, ghost s: seq<Coeffs>, ghost e: seq<Coeffs>, ghost used: seq<nat>)
    requires Suitable(f, l.K())
    ensures pk == PublicKey(f, l, d) && sk == SecretKey(f, l, d)
    ensures |s| == |e| == l.K() && |used| == 2 * l.K()
    ensures forall i :: 0 <= i < l.K() ==> s[i] == f.noise1(f.expand(d)[32..], i)
    ensures forall i :: 0 <= i < l.K() ==> e[i] == f.noise1(f.expand(d)[32..], l.K() + i)
    ensures forall i :: 0 <= i < |used| ==> used[i] == i
    ensures pk[l.K() * 384..] == f.expand(d)[..32]
  {
    hide Centre, NttQ, Reduced, EncodeV, Res, Dot, PublicVector, Overwrite, Bounded, IsResidue, AddQ, Add;
    var k := l.K();
    var buf := f.expand(d);
    var publicseed, noiseseed := buf[..SYM_BYTES], buf[SYM_BYTES..];
    var a := f.matrix(publicseed);
    SampledPolys(f, l, d, []);
    MatrixSmall(f, l, publicseed);
    ghost var used', used'';
    var sv, ev, nonce, nonce';
    sv, nonce, used' := GetNoise(f.noise1, noiseseed, 0, k);
    ev, nonce', used'' := GetNoise(f.noise1, noiseseed, nonce, k);
    s, e, used := sv, ev, used' + used'';
    assert s == SecretS(f, l, d) && e == ErrorE(f, l, d);
    WithinMore(s, NOISE_BOUND, NTT_INPUT_BOUND);
    WithinMore(e, NOISE_BOUND, NTT_INPUT_BOUND);
    var skpv := PolyvecNtt(sv);
    var ehat := PolyvecNtt(ev);
    CentresNtt(skpv, s);
    CentresNtt(ehat, e);
    CentresWithin(skpv, NttV(s));
    CentresWithin(ehat, NttV(e));
    WithinMore(skpv, Q / 2, BASEMUL_BOUND);
    WithinMore(ehat, Q / 2, Q);
    var w := MatrixVector(a, skpv);
    WithinMore(w, Q - 1, Q);
    AllPolysWithin(w, Q - 1);
    var pkpv := PolyvecAddReduce(w, ehat);
    PublicVectorRepresents(w, a, s, e, skpv, ehat, pkpv);
    VectorsReduced(a, s, e);
    sk := PackToBytes(skpv, NttV(s));
    var t := PackToBytes(pkpv, PublicVector(a, s, e));
    pk := t + publicseed;
  }

  lemma MatrixSmall(f: Primitives, l: Level, seed: seq<byte>)
    requires Suitable(f, l.K())
    ensures SmallMatrix(f.matrix(seed), l.K()) && SmallMatrix(TransposeOf(f.matrix(seed), l.K()), l.K())
  {
    var a, n := f.matrix(seed), l.K();
    forall i | 0 <= i < n
      ensures Within(a[i], BASEMUL_BOUND) && Within(TransposeOf(a, n)[i], BASEMUL_BOUND)
    {
      WithinMore(a[i], Q - 1, BASEMUL_BOUND);
      forall j | 0 <= j < n
        ensures Bounded(TransposeOf(a, n)[i][j], BASEMUL_BOUND)
      {
        assert Within(a[j], Q - 1) && Bounded(a[j][i], Q - 1);
      }
      AllPolysWithin(TransposeOf(a, n)[i], BASEMUL_BOUND);
    }
  }

  // gen_at: entry (i, j) of the transpose is entry (j, i) of the matrix.
  function TransposeOf(a: seq<seq<Coeffs>>, n: nat): (r: seq<seq<Coeffs>>)
    requires |a| == n && forall i :: 0 <= i < n ==> |a[i]| == n
    ensures |r| == n && forall i :: 0 <= i < n ==> |r[i]| == n && forall j :: 0 <= j < n ==> r[i][j] == a[j][i]
  {
    seq(n, i requires 0 <= i < n => seq(n, j requires 0 <= j < n => a[j][i]))
  }

  lemma WithinMore(v: seq<Coeffs>, b: int, c: int)
    requires Within(v, b) && b <= c
    ensures Within(v, c)
  {
    forall i | 0 <= i < |v|
      ensures Bounded(v[i], c)
    {
      assert Bounded(v[i], b);
    }
  }

  // pack_sk, and pack_pk without the seed.
  method PackToBytes(w: seq<Coeffs>, ghost v: Polys) returns (b: seq<byte>)
    requires Centres(w, v) && AllResidues(v)
    ensures b == EncodeV(v, 12)
  {
    hide EncodePoly, Reduced, Centre;
    EncodeCentres(w, v, 12);
    var r := new byte[|w| * 384](_ => 0);
    PackPolyvec(r, 0, w, 12);
    b := r[..];
  }

  // basemul_acc and then invntt: the inverse transform of the row product.
  lemma InverseRow(t: Vec, c: Vec, p: Vec)
    requires IsPoly(t) && IsPoly(p) && c == Centre(ScaleQ(R_INV, p)) && Res(t) == ScaleQ(0x1_0000, InvQ(c))
    ensures Res(t) == Res(InvQ(p))
  {
    hide Res, Centre, ScaleQ, InvQ;
    var q := ScaleQ(R_INV, p);
    CentreRes(q, q);
    InvQRes(c, q);
    InverseOfScaled(R_INV, p);
    MontgomeryCancels(InvQ(p));
  }

  method RowProducts(a: seq<seq<Coeffs>>, s: seq<Coeffs>) returns (b: seq<Coeffs>)
    requires 1 <= |s| <= 4 && SmallMatrix(a, |s|) && Within(s, BASEMUL_BOUND) && AllPolys(s)
    ensures |b| == |s| && Within(b, Q / 2)
    ensures forall i :: 0 <= i < |b| ==> b[i] == Centre(ScaleQ(R_INV, Dot(a[i], s)))
  {
    hide Centre, ScaleQ, Dot;
    b := [];
    for i := 0 to |s|
      invariant |b| == i && Within(b, Q / 2)
      invariant forall j :: 0 <= j < i ==> b[j] == Centre(ScaleQ(R_INV, Dot(a[j], s)))
    {
      var c := PolyvecBasemulAccMontgomery(a[i], s);
      CentreBounded(c, ScaleQ(R_INV, Dot(a[i], s)));
      b := b + [c];
    }
  }

  lemma CentreBounded(c: Coeffs, p: Vec)
    requires IsPoly(p) && c == Centre(p)
    ensures Bounded(c, Q / 2)
  {
  }

  // The polynomials of u, from the rows of the transposed matrix.
  lemma CipherVectorRepresents(a: seq<seq<Coeffs>>, r: Polys, e1: seq<Coeffs>, r': seq<Coeffs>, c: seq<Coeffs>, b: seq<Coeffs>, u: seq<Coeffs>)
    requires IsMatrix(a, |r|) && |e1| == |r| && AllPolys(r) && AllPolys(e1) && Centres(r', NttV(r)) && AllPolys(r')
    requires var at := TransposeOf(a, |r|);
             && |c| == |b| == |u| == |r| && AllPolys(b) && IsMatrix(at, |r|)
             && (forall i :: 0 <= i < |r| ==> c[i] == Centre(ScaleQ(R_INV, Dot(at[i], r'))))
             && (forall i :: 0 <= i < |r| ==> Res(b[i]) == ScaleQ(0x1_0000, InvQ(c[i])))
             && (forall i :: 0 <= i < |r| ==> u[i] == Centre(Add(b[i], e1[i])))
    ensures Centres(u, CipherVector(a, r, e1))
  {
    hide Res, Centre, Dot, NttQ, InvQ, AddQ, Add, ScaleQ;
    var at := TransposeOf(a, |r|);
    forall i | 0 <= i < |r|
      ensures u[i] == Centre(CipherVector(a, r, e1)[i])
    {
      assert at[i] == Column(a, |r|, i);
      DotOfCentres(at[i], r', NttV(r));
      InverseRow(b[i], c[i], Dot(at[i], r'));
      SumRepresents(b[i], e1[i], InvQ(Dot(at[i], NttV(r))), e1[i], u[i]);
    }
  }

  lemma CipherPolyRepresents(t: Polys, r: Polys, e2: Vec, k: Vec, r': seq<Coeffs>, c: Vec, b: Vec, v: Vec)
    requires |t| == |r| && AllPolys(t) && AllPolys(r) && IsPoly(e2) && IsPoly(k) && Centres(r', NttV(r)) && AllPolys(r')
    requires IsPoly(b) && c == Centre(ScaleQ(R_INV, Dot(t, r'))) && Res(b) == ScaleQ(0x1_0000, InvQ(c))
    requires v == Centre(Add(Add(b, e2), k))
    ensures v == Centre(CipherPoly(t, r, e2, k))
  {
    hide Res, Centre, Dot, NttQ, InvQ, Add, ScaleQ;
    DotOfCentres(t, r', NttV(r));
    InverseRow(b, c, Dot(t, r'));
    var p := InvQ(Dot(t, NttV(r)));
    ResAdd(b, p, e2, e2);
    ResRes(Add(p, e2));
    SumRepresents(Add(b, e2), k, AddQ(p, e2), k, v);
  }

  method InverseAndAdd(c: Coeffs, e: Coeffs, k: Coeffs) returns (v: Coeffs)
    requires Bounded(c, Q / 2) && Bounded(e, NOISE_BOUND) && Bounded(k, Q)
    ensures exists b: Vec :: IsPoly(b) && Res(b) == ScaleQ(0x1_0000, InvQ(c)) && v == Centre(Add(Add(b, e), k))
  {
    hide Res, Centre, ScaleQ, InvQ, Int16;
    var r := Load(c);
    InvNtt(r);
    ghost var b: Coeffs := r[..];
    var x := Load(e);
    PolyAdd(r, r, x);
    SumInRange(r[..], b, e, Q, NOISE_BOUND);
    ghost var b': Coeffs := r[..];
    var y := Load(k);
    PolyAdd(r, r, y);
    SumInRange(r[..], b', k, Q + NOISE_BOUND, Q);
    PolyReduce(r);
    v := r[..];
  }

  lemma TwoParts(s: seq<byte>, x: seq<byte>, y: seq<byte>)
    requires |s| == |x| + |y|
    ensures Overwrite(Overwrite(s, 0, x), |x|, y) == x + y
  {
  }

  // pack_ciphertext.
  method PackCiphertext(l: Level, u: seq<Coeffs>, v: Coeffs, ghost u': Polys, ghost v': Vec) returns (c: seq<byte>)
    requires Centres(u, u') && |u'| == l.K() && AllResidues(u') && IsResidue(v') && Reduced(v') && v == Centre(v')
    ensures c == EncodeV(u', l.Du()) + EncodePoly(v', l.Dv())
  {
    hide EncodePoly, EncodeV, Reduced, Centre, Overwrite, Res;
    EncodeCentres(u, u', l.Du());
    EncodeCentre(v', l.Dv());
    var r := new byte[l.CipherBytes()](_ => 0);
    ghost var s := r[..];
    PackPolyvec(r, 0, u, l.Du());
    PackPoly(r, l.K() * (32 * l.Du()), v, l.Dv());
    TwoParts(s, EncodeV(u, l.Du()), EncodePoly(v, l.Dv()));
    c := r[..];
  }

  lemma InOrder(a: seq<nat>, b: seq<nat>)
    requires |a| == |b|
    requires (forall i :: 0 <= i < |a| ==> a[i] == i) && (forall i :: 0 <= i < |b| ==> b[i] == |a| + i)
    ensures forall i :: 0 <= i <= 2 * |a| ==> (a + b + [2 * |a|])[i] == i
  {
  }

  // The noise of one encryption. used lists the nonces: number i is i, so none is
  // taken twice.
  method EncNoise(f: Primitives, coins: seq<byte>, k: nat)
    returns (r: seq<Coeffs>, e1: seq<Coeffs>, e2: Coeffs, ghost used: seq<nat>)
    ensures |r| == |e1| == k && |used| == 2 * k + 1
    ensures forall i :: 0 <= i < k ==> r[i] == f.noise1(coins, i)
    ensures forall i :: 0 <= i < k ==> e1[i] == f.noise2(coins, k + i)
    ensures e2 == f.noise2(coins, 2 * k)
    ensures forall i :: 0 <= i < |used| ==> used[i] == i
  {
    ghost var used', used'';
    var nonce, nonce';
    r, nonce, used' := GetNoise(f.noise1, coins, 0, k);
    e1, nonce', used'' := GetNoise(f.noise2, coins, nonce, k);
    assert nonce == k && nonce' == 2 * k;
    assert forall i :: 0 <= i < k ==> e1[i] == f.noise2(coins, k + i);
    e2 := f.noise2(coins, nonce');
    used := used' + used'' + [nonce'];
    InOrder(used', used'');
  }

  method IndcpaEnc(f: Primitives, l: Level, pk: seq<byte>, m: seq<byte>, coins: seq<byte>)
    returns (c: seq<byte>, ghost r: seq<Coeffs>, ghost e1: seq<Coeffs>, ghost e2: Coeffs, ghost used: seq<nat>)
    requires Suitable(f, l.K()) && |pk| == l.PublicKeyBytes() && |m| == MSG_BYTES
    ensures c == Encrypt(f, l, pk, m, coins)
    ensures |r| == |e1| == l.K() && |used| == 2 * l.K() + 1
    ensures forall i :: 0 <= i < l.K() ==> r[i] == f.noise1(coins, i)
    ensures forall i :: 0 <= i < l.K() ==> e1[i] == f.noise2(coins, l.K() + i)
    ensures e2 == f.noise2(coins, 2 * l.K())
    ensures forall i :: 0 <= i < |used| ==> used[i] == i
  {
    hide Centre, NttQ, InvQ, Reduced, EncodeV, EncodePoly, Res, Dot, Bounded, IsResidue, AddQ, Add, ScaleQ, FromMsg, DecodeV;
    hide CipherVector, CipherPoly;
    var k := l.K();
    var pkpv := UnpackPolyvec(pk[..k * 384], 12, k);
    var seed := pk[k * 384..];
    var kp := new int16[N](_ => 0);
    PolyFromMsg(kp, m);
    var at := TransposeOf(f.matrix(seed), k);
    SampledPolys(f, l, [], coins);
    MatrixSmall(f, l, seed);
    UnpackedSmall(pkpv, pk[..k * 384], 12, k, BASEMUL_BOUND);
    MessageBounded(kp[..], m);
    var rv, ep, epp;
    rv, ep, epp, used := EncNoise(f, coins, k);
    r, e1, e2 := rv, ep, epp;
    assert r == SecretR(f, l, coins) && e1 == ErrorE1(f, l, coins);
    WithinMore(r, NOISE_BOUND, NTT_INPUT_BOUND);
    var sp := PolyvecNtt(rv);
    CentresNtt(sp, r);
    CentresWithin(sp, NttV(r));
    WithinMore(sp, Q / 2, BASEMUL_BOUND);
    var bhat := RowProducts(at, sp);
    var vhat := PolyvecBasemulAccMontgomery(pkpv, sp);
    CentreBounded(vhat, ScaleQ(R_INV, Dot(pkpv, sp)));
    WithinMore(bhat, Q / 2, INVNTT_INPUT_BOUND);
    var b := PolyvecInvNttToMont(bhat);
    AllPolysWithin(b, Q - 1);
    WithinMore(b, Q - 1, Q);
    WithinMore(ep, NOISE_BOUND, Q);
    var u := PolyvecAddReduce(b, ep);
    CipherVectorRepresents(f.matrix(seed), r, ep, sp, bhat, b, u);
    var v := InverseAndAdd(vhat, epp, kp[..]);
    ghost var b' :| IsPoly(b') && Res(b') == ScaleQ(0x1_0000, InvQ(vhat)) && v == Centre(Add(Add(b', epp), kp[..]));
    CipherPolyRepresents(pkpv, r, epp, FromMsg(m), sp, vhat, b', v);
    c := PackCiphertext(l, u, v, CipherU(f, l, seed, coins), CipherV(f, l, pkpv, m, coins));
  }

  lemma UnpackedSmall(v: seq<Coeffs>, a: seq<byte>, d: nat, k: nat, b: int)
    requires IsWidth(d) && |a| == k * (32 * d) && v == DecodeV(a, d, k) && b >= if d == 12 then 4095 else Q
    ensures Within(v, b) && AllPolys(v)
  {
    forall i | 0 <= i < |v|
      ensures Bounded(v[i], b)
    {
      assert IsPoly(v[i]);
      assert forall j :: 0 <= j < N ==> 0 <= v[i][j] < 4096 && (d != 12 ==> v[i][j] < Q);
    }
  }

  lemma MessageBounded(p: Coeffs, m: seq<byte>)
    requires |m| == MSG_BYTES && p == FromMsg(m)
    ensures Bounded(p, Q)
  {
    hide MsgBitOf;
  }

  lemma DifferenceRepresents(v: Vec, b: Vec, s': Polys, u: Polys, u': seq<Coeffs>, c: Vec, p: Vec)
    requires |s'| == |u| && AllPolys(s') && AllPolys(u) && Centres(u', NttV(u)) && AllPolys(u') && IsPoly(v) && IsPoly(b)
    requires c == Centre(ScaleQ(R_INV, Dot(s', u'))) && Res(b) == ScaleQ(0x1_0000, InvQ(c))
    requires p == Centre(Sub(v, b))
    ensures p == Centre(Decrypted(s', u, v))
  {
    hide Res, Centre, Dot, NttQ, InvQ, Sub, ScaleQ;
    DotOfCentres(s', u', NttV(u));
    InverseRow(b, c, Dot(s', u'));
    var q := InvQ(Dot(s', NttV(u)));
    ResSub(v, v, b, q);
    ResRes(Sub(v, q));
    CentreRes(Sub(v, b), SubQ(v, q));
  }

  method IndcpaDec(l: Level, c: seq<byte>, sk: seq<byte>) returns (m: seq<byte>)
    requires |sk| == l.K() * 384 && |c| == l.CipherBytes()
    ensures m == Decrypt(l, sk, c)
  {
    hide Centre, NttQ, InvQ, Reduced, Res, Dot, Bounded, ScaleQ, DecodeV, DecodePoly, ToMsg, Sub, Int16, Decrypted;
    var k, n := l.K(), l.K() * (32 * l.Du());
    var b := UnpackPolyvec(c[..n], l.Du(), k);
    UnpackedSmall(b, c[..n], l.Du(), k, NTT_INPUT_BOUND);
    var v := new int16[N](_ => 0);
    UnpackPoly(v, c[n..], l.Dv());
    var skpv := UnpackPolyvec(sk, 12, k);
    UnpackedSmall(skpv, sk, 12, k, BASEMUL_BOUND);
    var bhat := PolyvecNtt(b);
    CentresNtt(bhat, b);
    CentresWithin(bhat, NttV(b));
    WithinMore(bhat, Q / 2, BASEMUL_BOUND);
    var acc := PolyvecBasemulAccMontgomery(skpv, bhat);
    CentreBounded(acc, ScaleQ(R_INV, Dot(skpv, bhat)));
    assert Bounded(acc, INVNTT_INPUT_BOUND) by { BoundedMore(acc, Q / 2, INVNTT_INPUT_BOUND); }
    var mp := Load(acc);
    BoundedMeans(acc, INVNTT_INPUT_BOUND);
    InvNtt(mp);
    ghost var p: Coeffs := mp[..];
    PolySub(mp, v, mp);
    DifferenceInRange(mp[..], v[..], p, Q, Q);
    DifferenceRepresents(v[..], p, skpv, b, bhat, acc, Centre(Sub(v[..], p)));
    PolyReduce(mp);
    CentreReduced(Sub(v[..], p));
    var msg := new byte[MSG_BYTES](_ => 0);
    PolyToMsg(msg, mp[..]);
    m := msg[..];
  }

  lemma BoundedMore(p: Coeffs, b: int, c: int)
    requires Bounded(p, b) && b <= c
    ensures Bounded(p, c)
  {
  }

  lemma BoundedMeans(p: Coeffs, b: int)
    requires Bounded(p, b)
    ensures |p| == N && forall i :: 0 <= i < N ==> -b <= p[i] <= b
  {
  }

  lemma CentreReduced(p: Vec)
    requires IsPoly(p)
    ensures Reduced(Centre(p))
  {
  }
}
