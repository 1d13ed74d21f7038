// Calls that meet the contracts of the dual-core tasks exist for all suitable
// primitives: the ones that compute what their contracts say.
module DualCoreKernels {
  import opened Reduce
  import opened PolyRing
  import opened NttSpec
  import opened RingQ
  import opened InPlaceNtt
  import opened Poly
  import opened Lattice
  import opened Polyvec
  import opened Packing
  import opened Codec
  import opened Message
  import opened Indcpa
  import opened IndcpaRun
  import opened DualCore
  import opened DualCoreResult
  import opened DualCoreCorrect

  function CentreOf(p: Vec): (c: Coeffs)
    ensures c == Centre(p)
  {
    CentreRange(p);
    Centre(p)
  }

  lemma CentreRange(p: Vec)
    ensures forall i :: 0 <= i < |p| ==> IsInt16(Centre(p)[i])
  {
  }

  ghost function AccOf(a: seq<Coeffs>, b: seq<Coeffs>): Coeffs {
    if AccInput(a, b) then CentreOf(ScaleQ(R_INV, Dot(a, b))) else []
  }

  ghost function PackedSk(v: seq<Coeffs>): seq<byte> {
    if AllReduced(v) then EncodeV(v, 12) else []
  }

  ghost function PackedCipher(l: Level, b: seq<Coeffs>, v: Coeffs): seq<byte> {
    if AllReduced(b) && Reduced(v) then EncodeV(b, l.Du()) + EncodePoly(v, l.Dv()) else []
  }

  function SmallPoly(p: Vec): (c: Coeffs)
    requires forall i :: 0 <= i < |p| ==> 0 <= p[i] < 4096
    ensures c == p
  {
    p
  }

  function SmallPolys(v: Polys): (c: seq<Coeffs>)
    requires forall i, j :: 0 <= i < |v| && 0 <= j < |v[i]| ==> 0 <= v[i][j] < 4096
    ensures c == v
  {
    seq(|v|, i requires 0 <= i < |v| => SmallPoly(v[i]))
  }

  function UnpackedSk(sk: seq<byte>, k: nat): seq<Coeffs> {
    if |sk| == k * (32 * 12) then SmallPolys(DecodeV(sk, 12, k)) else []
  }

  ghost function UnpackedB(l: Level, c: seq<byte>): seq<Coeffs> {
    if |c| == l.CipherBytes() then SmallPolys(CipherPartsSmall(l, c).0) else []
  }

  ghost function UnpackedV(l: Level, c: seq<byte>): Coeffs {
    if |c| == l.CipherBytes() then SmallPoly(CipherPartsSmall(l, c).1) else []
  }

  ghost function CipherPartsSmall(l: Level, c: seq<byte>): (r: (Polys, Vec))
    requires |c| == l.CipherBytes()
    ensures r == CipherParts(l, c)
    ensures forall i, j :: 0 <= i < |r.0| && 0 <= j < |r.0[i]| ==> 0 <= r.0[i][j] < 4096
    ensures forall i :: 0 <= i < |r.1| ==> 0 <= r.1[i] < 4096
  {
    CipherParts(l, c)
  }

  function FromMsgOf(m: seq<byte>): Coeffs {
    if |m| == MSG_BYTES then SmallPoly(FromMsg(m)) else []
  }

  ghost function ToMsgOf(p: Coeffs): seq<byte> {
    if Reduced(p) then ToMsg(p) else []
  }

  ghost function SpecKernels(f: Primitives, l: Level, entropy: seq<byte>): Kernels
    requires Suitable(f, l.K())
  {
    Kernels(
      entropy, f.expand, f.matrix, seed => TransposeOf(f.matrix(seed), l.K()), f.noise1, f.noise2,
      p => CentreOf(NttQ(p)),
      p => CentreOf(ScaleQ(0x1_0000, InvQ(p))),
      p => CentreOf(ScaleQ(0x1_0000, p)),
      p => CentreOf(p),
      (a, b) => AccOf(a, b),
      (v, seed) => PackedSk(v) + seed,
      v => PackedSk(v),
      (b, v) => PackedCipher(l, b, v),
      pk => if |pk| == l.PublicKeyBytes() then (UnpackedSk(pk[..l.K() * 384], l.K()), pk[l.K() * 384..]) else ([], []),
      sk => UnpackedSk(sk, l.K()),
      c => UnpackedB(l, c),
      c => UnpackedV(l, c),
      m => FromMsgOf(m),
      p => ToMsgOf(p))
  }

  lemma CentreRepresents(x: Vec)
    requires IsPoly(x)
    ensures Bounded(CentreOf(Res(x)), Q - 1) && Res(CentreOf(Res(x))) == Res(x)
  {
    hide Centre, Bounded;
    CentreRes(Res(x), Res(x));
    ResRes(x);
    CentreBounded(CentreOf(Res(x)), Res(x));
    assert Bounded(CentreOf(Res(x)), Q / 2);
    BoundedMore(CentreOf(Res(x)));
  }

  lemma BoundedMore(p: Coeffs)
    requires Bounded(p, Q / 2)
    ensures Bounded(p, Q - 1)
  {
  }

  lemma ArithmeticKernels(f: Primitives, l: Level, entropy: seq<byte>)
    requires Suitable(f, l.K())
    ensures var g := SpecKernels(f, l, entropy); NttKernel(g) && InverseKernel(g) && ToMontKernel(g) && ReduceKernel(g) && AccKernel(g)
  {
    hide Centre, CentreOf, NttQ, InvQ, Bounded, Dot, Suitable;
    var g := SpecKernels(f, l, entropy);
    forall p: Coeffs | Bounded(p, INVNTT_INPUT_BOUND) ensures Bounded(g.inverse(p), Q - 1) && Res(g.inverse(p)) == ScaleQ(0x1_0000, InvQ(p)) {
      BoundedIsPoly(p, INVNTT_INPUT_BOUND);
      CentreRepresents(Scale(0x1_0000, InvQ(p)));
    }
    forall p: Coeffs | IsPoly(p) ensures Bounded(g.toMont(p), Q - 1) && Res(g.toMont(p)) == ScaleQ(0x1_0000, p) {
      CentreRepresents(Scale(0x1_0000, p));
    }
  }

  lemma BoundedIsPoly(p: Coeffs, b: int)
    requires Bounded(p, b)
    ensures IsPoly(p)
  {
  }

  lemma CodingKernels(f: Primitives, l: Level, entropy: seq<byte>)
    requires Suitable(f, l.K())
    ensures var g := SpecKernels(f, l, entropy); PackKernels(g, l) && UnpackKernels(g, l) && MessageKernels(g)
  {
    hide EncodeV, EncodePoly, DecodeV, CipherParts, FromMsg, ToMsg, Reduced, Suitable;
  }

  // The hypothesis about the calls can be met, whatever the entropy is.
  lemma KernelsExist(f: Primitives, l: Level, entropy: seq<byte>)
    requires Suitable(f, l.K())
    ensures Implements(SpecKernels(f, l, entropy), f, l) && SpecKernels(f, l, entropy).entropy == entropy
  {
    hide NttKernel, InverseKernel, ToMontKernel, ReduceKernel, AccKernel, PackKernels, UnpackKernels, MessageKernels, Suitable;
    ArithmeticKernels(f, l, entropy);
    CodingKernels(f, l, entropy);
  }
}
