// With calls that meet the contracts proved for them, what the dual-core tasks
// compute is PublicKey, SecretKey, Encrypt and Decrypt.
module DualCoreCorrect {
  import opened Reduce
  import opened PolyRing
  import opened NttSpec
  import opened RingQ
  import opened InPlaceNtt
  import opened Poly
  import opened Lattice
  import opened Polyvec
  import opened Packing
  import opened Codec
  import opened Message
  import opened Indcpa
  import opened IndcpaRun
  import opened DualCore
  import opened DualCoreResult
  import opened Wrappers

  // ----- the contracts of the calls

  ghost predicate SamePrimitives(g: Kernels, f: Primitives, l: Level)
    requires Suitable(f, l.K())
  {
    && g.hashG == f.expand && g.genA == f.matrix && g.noise1 == f.noise1 && g.noise2 == f.noise2
    && forall seed :: g.genAt(seed) == TransposeOf(f.matrix(seed), l.K())
  }

  ghost predicate NttKernel(g: Kernels) {
    forall p: Coeffs :: Bounded(p, NTT_INPUT_BOUND) ==> g.ntt(p) == Centre(NttQ(p))
  }

  ghost predicate InverseKernel(g: Kernels) {
    forall p: Coeffs :: Bounded(p, INVNTT_INPUT_BOUND) ==>
      Bounded(g.inverse(p), Q - 1) && Res(g.inverse(p)) == ScaleQ(0x1_0000, InvQ(p))
  }

  ghost predicate ToMontKernel(g: Kernels) {
    forall p: Coeffs :: IsPoly(p) ==> Bounded(g.toMont(p), Q - 1) && Res(g.toMont(p)) == ScaleQ(0x1_0000, p)
  }

  ghost predicate ReduceKernel(g: Kernels) {
    forall p: Coeffs :: g.reduce(p) == Centre(p)
  }

  ghost predicate AccInput(a: seq<Coeffs>, b: seq<Coeffs>) {
    1 <= |a| == |b| <= 4 && Within(a, BASEMUL_BOUND) && Within(b, BASEMUL_BOUND) && AllPolys(a) && AllPolys(b)
  }

  ghost predicate AccKernel(g: Kernels) {
    forall a: seq<Coeffs>, b: seq<Coeffs> :: AccInput(a, b) ==> g.acc(a, b) == Centre(ScaleQ(R_INV, Dot(a, b)))
  }

  ghost predicate AllReduced(v: seq<Coeffs>) {
    forall i :: 0 <= i < |v| ==> Reduced(v[i])
  }

  ghost predicate PackKernels(g: Kernels, l: Level) {
    && (forall v: seq<Coeffs>, seed :: AllReduced(v) ==> g.packPk(v, seed) == EncodeV(v, 12) + seed)
    && (forall v: seq<Coeffs> :: AllReduced(v) ==> g.packSk(v) == EncodeV(v, 12))
    && (forall b: seq<Coeffs>, v: Coeffs :: AllReduced(b) && Reduced(v) ==>
         g.packCiphertext(b, v) == EncodeV(b, l.Du()) + EncodePoly(v, l.Dv()))
  }

  ghost predicate UnpackKernels(g: Kernels, l: Level) {
    && (forall pk :: |pk| == l.PublicKeyBytes() ==>
         g.unpackPk(pk).0 == DecodeV(pk[..l.K() * 384], 12, l.K()) && g.unpackPk(pk).1 == pk[l.K() * 384..])
    && (forall sk :: |sk| == l.K() * 384 ==> g.unpackSk(sk) == DecodeV(sk, 12, l.K()))
    && (forall c :: |c| == l.CipherBytes() ==>
         g.decompressB(c) == CipherParts(l, c).0 && g.decompressV(c) == CipherParts(l, c).1)
  }

  ghost predicate MessageKernels(g: Kernels) {
    && (forall m :: |m| == MSG_BYTES ==> g.fromMsg(m) == FromMsg(m))
    && (forall p: Coeffs :: Reduced(p) ==> g.toMsg(p) == ToMsg(p))
  }

  ghost predicate Implements(g: Kernels, f: Primitives, l: Level) {
    && Suitable(f, l.K()) && SamePrimitives(g, f, l)
    && NttKernel(g) && InverseKernel(g) && ToMontKernel(g) && ReduceKernel(g) && AccKernel(g)
    && PackKernels(g, l) && UnpackKernels(g, l) && MessageKernels(g)
  }

  // ----- the contracts on whole vectors

  lemma TransformedNoise(g: Kernels, v: seq<Coeffs>)
    requires NttKernel(g) && Within(v, NTT_INPUT_BOUND) && AllPolys(v)
    ensures Centres(Each(g.ntt, v), NttV(v))
    ensures Within(Each(g.ntt, v), Q / 2) && AllPolys(Each(g.ntt, v))
  {
    hide Centre, NttQ, Bounded;
    CentresNtt(Each(g.ntt, v), v);
    CentresWithin(Each(g.ntt, v), NttV(v));
  }

  lemma ReducedSum(g: Kernels, v: seq<Coeffs>, w: seq<Coeffs>)
    requires ReduceKernel(g) && |v| == |w| && Within(v, Q) && Within(w, Q)
    ensures var s := Each(g.reduce, PlusV(v, w)); |s| == |v| && forall i :: 0 <= i < |v| ==> s[i] == Centre(Add(v[i], w[i]))
  {
    hide Centre;
    forall i | 0 <= i < |v|
      ensures Each(g.reduce, PlusV(v, w))[i] == Centre(Add(v[i], w[i]))
    {
      PlusIsAdd(v[i], w[i], Q, Q);
    }
  }

  lemma PlusIsAdd(p: Coeffs, q: Coeffs, b: nat, c: nat)
    requires Bounded(p, b) && Bounded(q, c) && b + c <= 0x7fff
    ensures Plus(p, q) == Add(p, q) && Bounded(Plus(p, q), b + c)
  {
    hide Int16;
    SumInRange(Plus(p, q), p, q, b, c);
  }

  lemma ProductRows(g: Kernels, a: seq<seq<Coeffs>>, s: seq<Coeffs>)
    requires AccKernel(g) && 1 <= |s| <= 4 && SmallMatrix(a, |s|) && Within(s, BASEMUL_BOUND) && AllPolys(s)
    ensures var c := RowsOf(g.acc, a, s);
            Within(c, Q / 2) && forall i :: 0 <= i < |s| ==> c[i] == Centre(ScaleQ(R_INV, Dot(a[i], s)))
  {
    hide Centre, ScaleQ, Dot, Within;
    var c := RowsOf(g.acc, a, s);
    forall i | 0 <= i < |s|
      ensures c[i] == Centre(ScaleQ(R_INV, Dot(a[i], s))) && Bounded(c[i], Q / 2)
    {
      assert AccInput(a[i], s);
      CentreBounded(c[i], ScaleQ(R_INV, Dot(a[i], s)));
    }
    WithinMeans(c, Q / 2);
  }

  lemma WithinMeans(v: seq<Coeffs>, b: int)
    requires forall i :: 0 <= i < |v| ==> Bounded(v[i], b)
    ensures Within(v, b)
  {
  }

  lemma MontgomeryRows(g: Kernels, a: seq<seq<Coeffs>>, s: seq<Coeffs>)
    requires AccKernel(g) && ToMontKernel(g)
    requires 1 <= |s| <= 4 && SmallMatrix(a, |s|) && Within(s, BASEMUL_BOUND) && AllPolys(s)
    ensures var w := Each(g.toMont, RowsOf(g.acc, a, s));
            && |w| == |s| && Within(w, Q) && AllPolys(w)
            && forall i :: 0 <= i < |s| ==> Res(w[i]) == Res(Dot(a[i], s))
  {
    hide Centre, ScaleQ, Dot, Res, Within, AccKernel;
    var c := RowsOf(g.acc, a, s);
    var w := Each(g.toMont, c);
    ProductRows(g, a, s);
    forall i | 0 <= i < |s|
      ensures Bounded(w[i], Q - 1) && Res(w[i]) == Res(Dot(a[i], s))
    {
      WithinAt(c, Q / 2, i);
      RowValue(w[i], c[i], Dot(a[i], s));
    }
    WithinMeans(w, Q - 1);
    AllPolysWithin(w, Q - 1);
    WithinMore(w, Q - 1, Q);
  }

  lemma WithinAt(v: seq<Coeffs>, b: int, i: nat)
    requires Within(v, b) && i < |v|
    ensures Bounded(v[i], b) && IsPoly(v[i])
  {
  }

  lemma PackedCentres(g: Kernels, l: Level, w: seq<Coeffs>, v: Polys, seed: seq<byte>)
    requires PackKernels(g, l) && Centres(w, v) && AllResidues(v)
    ensures g.packSk(w) == EncodeV(v, 12) && g.packPk(w, seed) == EncodeV(v, 12) + seed
  {
    hide EncodeV, Reduced, Centre, IsResidue;
    EncodeCentres(w, v, 12);
    assert AllReduced(w);
  }

  // ----- key generation

  lemma KeypairIsSpec(g: Kernels, f: Primitives, l: Level)
    requires Implements(g, f, l)
    ensures SequentialPk(g, l) == PublicKey(f, l, g.entropy) && SequentialSk(g, l) == SecretKey(f, l, g.entropy)
  {
    hide NttKernel, InverseKernel, ToMontKernel, ReduceKernel, AccKernel, PackKernels, UnpackKernels, MessageKernels;
    hide Centre, NttQ, Reduced, EncodeV, Res, Dot, PublicVector, Bounded, IsResidue, AddQ, Add, Within, Each, RowsOf, PlusV, Samples, Centres;
    var d, k := g.entropy, l.K();
    var buf := f.expand(d);
    var a := f.matrix(buf[..SYM_BYTES]);
    var s, e := SecretS(f, l, d), ErrorE(f, l, d);
    SampledPolys(f, l, d, []);
    MatrixSmall(f, l, buf[..SYM_BYTES]);
    WithinMore(s, NOISE_BOUND, NTT_INPUT_BOUND);
    WithinMore(e, NOISE_BOUND, NTT_INPUT_BOUND);
    TransformedNoise(g, s);
    TransformedNoise(g, e);
    var s', e' := SeqSecret(g, l), SeqError(g, l);
    assert s' == Each(g.ntt, s) && e' == Each(g.ntt, e);
    WithinMore(s', Q / 2, BASEMUL_BOUND);
    WithinMore(e', Q / 2, Q);
    CentresLength(s', NttV(s));
    CentresLength(e', NttV(e));
    MontgomeryRows(g, a, s');
    var w := SeqProduct(g, l);
    ReducedSum(g, w, e');
    var t := Each(g.reduce, PlusV(w, e'));
    PublicVectorRepresents(w, a, s, e, s', e', t);
    VectorsReduced(a, s, e);
    PackedCentres(g, l, s', NttV(s), []);
    PackedCentres(g, l, t, PublicVector(a, s, e), buf[..SYM_BYTES]);
  }

  lemma CentresLength(w: seq<Coeffs>, v: Polys)
    requires Centres(w, v)
    ensures |w| == |v|
  {
  }

  // ----- encryption

  lemma InverseRows(g: Kernels, c: seq<Coeffs>)
    requires InverseKernel(g) && Within(c, INVNTT_INPUT_BOUND)
    ensures var b := Each(g.inverse, c);
            && Within(b, Q) && AllPolys(b)
            && forall i :: 0 <= i < |c| ==> Res(b[i]) == ScaleQ(0x1_0000, InvQ(c[i]))
  {
    hide Res, ScaleQ, InvQ, Within;
    var b := Each(g.inverse, c);
    forall i | 0 <= i < |c|
      ensures Bounded(b[i], Q - 1) && Res(b[i]) == ScaleQ(0x1_0000, InvQ(c[i]))
    {
      WithinAt(c, INVNTT_INPUT_BOUND, i);
    }
    WithinMeans(b, Q - 1);
    AllPolysWithin(b, Q - 1);
    WithinMore(b, Q - 1, Q);
  }

  lemma CipherVectorOf(g: Kernels, f: Primitives, l: Level, seed: seq<byte>, coins: seq<byte>, sp: seq<Coeffs>)
    requires Implements(g, f, l) && Centres(sp, NttV(SecretR(f, l, coins)))
    requires Within(sp, BASEMUL_BOUND) && AllPolys(sp)
    ensures Centres(Each(g.reduce, PlusV(Each(g.inverse, RowsOf(g.acc, g.genAt(seed), sp)), ErrorE1(f, l, coins))), CipherU(f, l, seed, coins))
  {
    hide NttKernel, InverseKernel, ToMontKernel, ReduceKernel, AccKernel, PackKernels, UnpackKernels, MessageKernels;
    hide Centre, NttQ, Reduced, Res, Dot, CipherVector, IsResidue, AddQ, Add, Within, Each, RowsOf, PlusV, Samples, Centres, ScaleQ, InvQ;
    var k := l.K();
    var a, at := f.matrix(seed), g.genAt(seed);
    var r, e1 := SecretR(f, l, coins), ErrorE1(f, l, coins);
    SampledPolys(f, l, [], coins);
    MatrixSmall(f, l, seed);
    CentresLength(sp, NttV(r));
    ProductRows(g, at, sp);
    var c := RowsOf(g.acc, at, sp);
    WithinMore(c, Q / 2, INVNTT_INPUT_BOUND);
    InverseRows(g, c);
    var b := Each(g.inverse, c);
    WithinMore(e1, NOISE_BOUND, Q);
    ReducedSum(g, b, e1);
    CipherVectorRepresents(a, r, e1, sp, c, b, Each(g.reduce, PlusV(b, e1)));
  }

  lemma CipherPolyOf(g: Kernels, f: Primitives, l: Level, t: seq<Coeffs>, m: seq<byte>, coins: seq<byte>, sp: seq<Coeffs>)
    requires Implements(g, f, l) && |m| == MSG_BYTES && |t| == l.K() && Within(t, BASEMUL_BOUND) && AllPolys(t)
    requires Centres(sp, NttV(SecretR(f, l, coins))) && Within(sp, BASEMUL_BOUND) && AllPolys(sp)
    ensures g.reduce(Plus(Plus(g.inverse(g.acc(t, sp)), ErrorE2(f, l, coins)), g.fromMsg(m))) == Centre(CipherV(f, l, t, m, coins))
  {
    hide ToMontKernel, PackKernels, UnpackKernels, NttKernel;
    hide Centre, NttQ, Reduced, Res, Dot, CipherPoly, IsResidue, AddQ, Add, Within, Samples, Centres, ScaleQ, InvQ, Bounded, Plus, FromMsg;
    var r, e2 := SecretR(f, l, coins), ErrorE2(f, l, coins);
    SampledPolys(f, l, [], coins);
    CentresLength(sp, NttV(r));
    assert AccInput(t, sp);
    var c := g.acc(t, sp);
    CentreBounded(c, ScaleQ(R_INV, Dot(t, sp)));
    BoundedMore(c, Q / 2, INVNTT_INPUT_BOUND);
    var b := g.inverse(c);
    assert Bounded(b, Q - 1);
    MessageBounded(g.fromMsg(m), m);
    BoundedIsPoly(b, Q - 1);
    PlusIsAdd(b, e2, Q - 1, NOISE_BOUND);
    PlusIsAdd(Plus(b, e2), g.fromMsg(m), Q - 1 + NOISE_BOUND, Q);
    CipherPolyRepresents(t, r, e2, FromMsg(m), sp, c, b, Centre(Add(Add(b, e2), FromMsg(m))));
  }

  lemma BoundedIsPoly(p: Coeffs, b: int)
    requires Bounded(p, b)
    ensures IsPoly(p)
  {
  }

  lemma PackedCiphertext(g: Kernels, l: Level, u: seq<Coeffs>, v: Coeffs, u': Polys, v': Vec)
    requires PackKernels(g, l) && Centres(u, u') && AllResidues(u') && IsResidue(v') && Reduced(v') && v == Centre(v')
    ensures g.packCiphertext(u, v) == EncodeV(u', l.Du()) + EncodePoly(v', l.Dv())
  {
    hide EncodeV, EncodePoly, Reduced, Centre, Res;
    EncodeCentres(u, u', l.Du());
    EncodeCentre(v', l.Dv());
    assert AllReduced(u);
  }

  lemma EncIsSpec(g: Kernels, f: Primitives, l: Level, pk: seq<byte>, m: seq<byte>, coins: seq<byte>)
    requires Implements(g, f, l) && |pk| == l.PublicKeyBytes() && |m| == MSG_BYTES
    ensures SequentialC(g, l, pk, m, coins) == Encrypt(f, l, pk, m, coins)
  {
    hide InverseKernel, ToMontKernel, ReduceKernel, AccKernel, PackKernels, MessageKernels, NttKernel;
    hide Centre, NttQ, Reduced, EncodeV, EncodePoly, DecodeV, IsResidue, AllResidues, Within, Each, RowsOf, Plus, PlusV, Samples, Centres, CipherU, CipherV, SmallMatrix;
    var t, seed := DecodeV(pk[..l.K() * 384], 12, l.K()), pk[l.K() * 384..];
    var t' := g.unpackPk(pk).0;
    UnpackedSmall(t', pk[..l.K() * 384], 12, l.K(), BASEMUL_BOUND);
    var r := SecretR(f, l, coins);
    SampledPolys(f, l, [], coins);
    WithinMore(r, NOISE_BOUND, NTT_INPUT_BOUND);
    TransformedNoise(g, r);
    var sp := SeqSp(g, l, coins);
    WithinMore(sp, Q / 2, BASEMUL_BOUND);
    CipherVectorOf(g, f, l, seed, coins, sp);
    CipherPolyOf(g, f, l, t', m, coins, sp);
    var u := Each(g.reduce, PlusV(SeqB(g, l, pk, coins), ErrorE1(f, l, coins)));
    var v := g.reduce(Plus(Plus(SeqV(g, l, pk, coins), ErrorE2(f, l, coins)), g.fromMsg(m)));
    PackedCiphertext(g, l, u, v, CipherU(f, l, seed, coins), CipherV(f, l, t, m, coins));
  }

  // ----- decryption

  lemma DecIsSpec(g: Kernels, f: Primitives, l: Level, c: seq<byte>, sk: seq<byte>)
    requires Implements(g, f, l) && |sk| == l.K() * 384 && |c| == l.CipherBytes()
    ensures SequentialM(g, c, sk) == Decrypt(l, sk, c)
  {
    hide ToMontKernel, PackKernels, NttKernel, SamePrimitives, Suitable;
    hide Centre, NttQ, InvQ, Reduced, Res, Dot, Bounded, ScaleQ, DecodeV, DecodePoly, ToMsg, Sub, Int16, Decrypted, Within, Each, Minus, Centres;
    var b, v, s := g.decompressB(c), g.decompressV(c), g.unpackSk(sk);
    var n := l.K() * (32 * l.Du());
    UnpackedSmall(b, c[..n], l.Du(), l.K(), NTT_INPUT_BOUND);
    UnpackedSmall(s, sk, 12, l.K(), BASEMUL_BOUND);
    UnpackedPoly(l, c, v);
    TransformedNoise(g, b);
    var bhat := Each(g.ntt, b);
    WithinMore(bhat, Q / 2, BASEMUL_BOUND);
    CentresLength(bhat, NttV(b));
    assert AccInput(s, bhat);
    var acc := g.acc(s, bhat);
    CentreBounded(acc, ScaleQ(R_INV, Dot(s, bhat)));
    BoundedMore(acc, Q / 2, INVNTT_INPUT_BOUND);
    var p := g.inverse(acc);
    assert Bounded(p, Q - 1);
    BoundedIsPoly(p, Q - 1);
    MinusIsSub(v, p, Q, Q - 1);
    DifferenceRepresents(v, p, s, b, bhat, acc, Centre(Sub(v, p)));
    CentreReduced(Sub(v, p));
  }

  lemma UnpackedPoly(l: Level, c: seq<byte>, v: Coeffs)
    requires |c| == l.CipherBytes() && v == CipherParts(l, c).1
    ensures Bounded(v, Q) && IsPoly(v)
  {
  }

  lemma MinusIsSub(p: Coeffs, q: Coeffs, b: nat, c: nat)
    requires Bounded(p, b) && Bounded(q, c) && b + c <= 0x7fff
    ensures Minus(p, q) == Sub(p, q)
  {
    hide Int16;
    DifferenceInRange(Minus(p, q), p, q, b, c);
  }

  // ----- the three theorems: every completed dual-core run, from any memory

  lemma DualKeypair(g: Kernels, f: Primitives, l: Level, late: set<nat>, s: Store, sched: seq<Actor>)
    requires Implements(g, f, l)
    ensures Run(Keypair, late, sched).Some? && Completed(Keypair, Run(Keypair, late, sched).value) ==>
              var t := Memory(Keypair, g, l, late, s, sched); t.pk == PublicKey(f, l, g.entropy) && t.sk == SecretKey(f, l, g.entropy)
  {
    hide *;
    if Run(Keypair, late, sched).Some? && Completed(Keypair, Run(Keypair, late, sched).value) {
      KeypairCompleted(g, l, late, s, sched);
      KeypairIsSpec(g, f, l);
    }
  }

  lemma DualEnc(g: Kernels, f: Primitives, l: Level, late: set<nat>, s: Store, sched: seq<Actor>)
    requires Implements(g, f, l) && |s.pk| == l.PublicKeyBytes() && |s.m| == MSG_BYTES
    ensures late !! WAITS && Run(Enc, late, sched).Some? && Completed(Enc, Run(Enc, late, sched).value) ==>
              Memory(Enc, g, l, late, s, sched).c == Encrypt(f, l, s.pk, s.m, s.coins)
  {
    hide *;
    if late !! WAITS && Run(Enc, late, sched).Some? && Completed(Enc, Run(Enc, late, sched).value) {
      EncCompleted(g, l, late, s, sched);
      EncIsSpec(g, f, l, s.pk, s.m, s.coins);
    }
  }

  lemma DualDec(g: Kernels, f: Primitives, l: Level, late: set<nat>, s: Store, sched: seq<Actor>)
    requires Implements(g, f, l) && |s.sk| == l.K() * 384 && |s.c| == l.CipherBytes()
    ensures Run(Dec, late, sched).Some? && Completed(Dec, Run(Dec, late, sched).value) ==>
              Memory(Dec, g, l, late, s, sched).m == Decrypt(l, s.sk, s.c)
  {
    hide *;
    if Run(Dec, late, sched).Some? && Completed(Dec, Run(Dec, late, sched).value) {
      DecCompleted(g, l, late, s, sched);
      DecIsSpec(g, f, l, s.c, s.sk);
    }
  }
}
