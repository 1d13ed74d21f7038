// The CPA-secure encryption scheme (components/indcpa/indcpa.c), sequential
// version.
module Indcpa {
  import opened Reduce
  import opened PolyRing
  import opened NttSpec
  import opened RingQ
  import opened InPlaceNtt
  import opened Poly
  import opened Lattice
  import opened Polyvec
  import opened Packing
  import opened Codec
  import opened Serialize
  import opened Message

  const SYM_BYTES := 32

  // The three parameter sets (components/common/params.h).
  datatype Level = Kyber512 | Kyber768 | Kyber1024 {
    function K(): (k: nat)
      ensures 2 <= k <= 4
    {
      match this case Kyber512 => 2 case Kyber768 => 3 case Kyber1024 => 4
    }

    function Du(): (d: nat)
      ensures IsRounding(d) && IsWidth(d)
    {
      if Kyber1024? then 11 else 10
    }

    function Dv(): (d: nat)
      ensures IsRounding(d) && IsWidth(d)
    {
      if Kyber1024? then 5 else 4
    }

    function PublicKeyBytes(): nat {
      K() * 384 + SYM_BYTES
    }

    function CipherBytes(): nat {
      K() * (32 * Du()) + 32 * Dv()
    }
  }

  // The symmetric primitives: hash_g, the matrix that gen_a derives from a seed,
  // and the noise polynomials poly_getnoise_eta1 and poly_getnoise_eta2 derive
  // from a seed and a nonce.
  datatype Primitives = Primitives(
    expand: seq<byte> -> seq<byte>,
    matrix: seq<byte> -> seq<seq<Coeffs>>,
    noise1: (seq<byte>, nat) -> Coeffs,
    noise2: (seq<byte>, nat) -> Coeffs
  )

  const NOISE_BOUND := 3

  ghost predicate Suitable(f: Primitives, n: nat) {
    && (forall x :: |f.expand(x)| == 2 * SYM_BYTES)
    && (forall x :: IsMatrix(f.matrix(x), n) && forall i :: 0 <= i < n ==> Within(f.matrix(x)[i], Q - 1))
    && (forall x, j :: Bounded(f.noise1(x, j), NOISE_BOUND) && Bounded(f.noise2(x, j), NOISE_BOUND))
  }

  // ----- vectors as bytes

  function EncodeV(v: Polys, d: nat): (r: seq<byte>)
    requires IsWidth(d) && forall i :: 0 <= i < |v| ==> Reduced(v[i])
    ensures |r| == |v| * (32 * d)
  {
    if v == [] then [] else
      LastChunk(|v|, 32 * d);
      EncodeV(v[..|v| - 1], d) + EncodePoly(v[|v| - 1], d)
  }

  function DecodeV(a: seq<byte>, d: nat, k: nat): (v: Polys)
    requires IsWidth(d) && |a| == k * (32 * d)
    ensures |v| == k && AllPolys(v)
    ensures forall i, j :: 0 <= i < k && 0 <= j < N ==> 0 <= v[i][j] < 4096 && (d != 12 ==> v[i][j] < Q)
  {
    if k == 0 then [] else
      LastChunk(k, 32 * d);
      DecodeV(a[..(k - 1) * (32 * d)], d, k - 1) + [DecodePoly(a[(k - 1) * (32 * d)..], d)]
  }

  lemma LastChunk(k: nat, n: nat)
    requires k > 0
    ensures 0 <= (k - 1) * n <= k * n && k * n - (k - 1) * n == n
  {
  }

  ghost function RestoredV(v: Polys, d: nat): (w: Polys)
    requires IsWidth(d) && forall i :: 0 <= i < |v| ==> Reduced(v[i])
    ensures |w| == |v|
  {
    seq(|v|, i requires 0 <= i < |v| => RestoredPoly(v[i], d))
  }

  ghost function RestoredPoly(p: Vec, d: nat): (q: Vec)
    requires IsWidth(d) && Reduced(p)
    ensures IsPoly(q)
  {
    seq(N, j requires 0 <= j < N => Restored(p[j], d))
  }

  lemma {:induction false} DecodeEncodeV(v: Polys, d: nat)
    requires IsWidth(d) && forall i :: 0 <= i < |v| ==> Reduced(v[i])
    ensures DecodeV(EncodeV(v, d), d, |v|) == RestoredV(v, d)
  {
    hide EncodePoly, DecodePoly, Restored, Reduced;
    if |v| > 0 {
      var k, a := |v|, EncodeV(v, d);
      LastChunk(k, 32 * d);
      DecodeEncodeV(v[..k - 1], d);
      DecodeEncode(v[k - 1], d);
      assert a[..(k - 1) * (32 * d)] == EncodeV(v[..k - 1], d);
      assert a[(k - 1) * (32 * d)..] == EncodePoly(v[k - 1], d);
      assert DecodePoly(EncodePoly(v[k - 1], d), d) == RestoredPoly(v[k - 1], d);
    }
  }

  // Packing looks at residues only: a centred polynomial gives the same bytes.
  lemma EncodeCentre(p: Vec, d: nat)
    requires IsPoly(p) && IsWidth(d)
    ensures Reduced(Centre(p)) && Reduced(Res(p)) && EncodePoly(Centre(p), d) == EncodePoly(Res(p), d)
  {
    forall i | 0 <= i < N
      ensures -Q < Centre(p)[i] < Q && -Q < Res(p)[i] < Q
      ensures FieldNumber(Centre(p)[i], d) == FieldNumber(Res(p)[i], d)
    {
      PositiveCentred(p[i]);
    }
    hide Centre, Res, FieldNumber;
    assert Fields(Centre(p), d) == Fields(Res(p), d);
  }

  lemma PositiveCentred(x: int)
    ensures Positive(Centred(x)) == Residue(x) == Positive(Residue(x))
  {
  }

  // ----- what the three algorithms compute

  ghost function Samples(f: (seq<byte>, nat) -> Coeffs, seed: seq<byte>, nonce: nat, k: nat): (v: seq<Coeffs>)
    ensures |v| == k && forall i :: 0 <= i < k ==> v[i] == f(seed, nonce + i)
  {
    seq(k, i requires 0 <= i < k => f(seed, nonce + i))
  }

  lemma SamplesWithin(f: Primitives, n: nat, seed: seq<byte>, nonce: nat, k: nat)
    requires Suitable(f, n)
    ensures Within(Samples(f.noise1, seed, nonce, k), NOISE_BOUND) && Within(Samples(f.noise2, seed, nonce, k), NOISE_BOUND)
  {
    hide Bounded;
    forall i | 0 <= i < k
      ensures Bounded(Samples(f.noise1, seed, nonce, k)[i], NOISE_BOUND)
      ensures Bounded(Samples(f.noise2, seed, nonce, k)[i], NOISE_BOUND)
    {
    }
  }

  // The randomness of one key pair and one encryption.
  ghost function SecretS(f: Primitives, l: Level, d: seq<byte>): seq<Coeffs>
    requires Suitable(f, l.K())
  {
    Samples(f.noise1, f.expand(d)[SYM_BYTES..], 0, l.K())
  }

  ghost function ErrorE(f: Primitives, l: Level, d: seq<byte>): seq<Coeffs>
    requires Suitable(f, l.K())
  {
    Samples(f.noise1, f.expand(d)[SYM_BYTES..], l.K(), l.K())
  }

  ghost function SecretR(f: Primitives, l: Level, coins: seq<byte>): seq<Coeffs> {
    Samples(f.noise1, coins, 0, l.K())
  }

  ghost function ErrorE1(f: Primitives, l: Level, coins: seq<byte>): seq<Coeffs> {
    Samples(f.noise2, coins, l.K(), l.K())
  }

  ghost function ErrorE2(f: Primitives, l: Level, coins: seq<byte>): Coeffs {
    f.noise2(coins, 2 * l.K())
  }

  lemma AllPolysWithin(v: seq<Coeffs>, b: int)
    requires Within(v, b)
    ensures AllPolys(v)
  {
  }

  lemma SampledPolys(f: Primitives, l: Level, d: seq<byte>, coins: seq<byte>)
    requires Suitable(f, l.K())
    ensures Within(SecretS(f, l, d), NOISE_BOUND) && Within(ErrorE(f, l, d), NOISE_BOUND)
    ensures Within(SecretR(f, l, coins), NOISE_BOUND) && Within(ErrorE1(f, l, coins), NOISE_BOUND)
    ensures Bounded(ErrorE2(f, l, coins), NOISE_BOUND)
    ensures AllPolys(SecretS(f, l, d)) && AllPolys(ErrorE(f, l, d))
    ensures AllPolys(SecretR(f, l, coins)) && AllPolys(ErrorE1(f, l, coins)) && IsPoly(ErrorE2(f, l, coins))
  {
    SamplesWithin(f, l.K(), f.expand(d)[SYM_BYTES..], 0, l.K());
    SamplesWithin(f, l.K(), f.expand(d)[SYM_BYTES..], l.K(), l.K());
    SamplesWithin(f, l.K(), coins, 0, l.K());
    SamplesWithin(f, l.K(), coins, l.K(), l.K());
  }

  // Residues are packed as they are.
  ghost predicate IsResidue(p: Vec) {
    IsPoly(p) && Res(p) == p
  }

  lemma ResidueReduced(p: Vec)
    requires IsResidue(p)
    ensures Reduced(p) && forall i :: 0 <= i < N ==> 0 <= p[i] < Q
  {
    assert forall i :: 0 <= i < N ==> p[i] == Res(p)[i] == Residue(p[i]);
  }

  ghost predicate AllResidues(v: Polys) {
    forall i :: 0 <= i < |v| ==> IsResidue(v[i]) && Reduced(v[i])
  }

  lemma VectorsReduced(a: seq<Polys>, s: Polys, e: Polys)
    requires IsMatrix(a, |s|) && |e| == |s| && AllPolys(s) && AllPolys(e)
    ensures AllResidues(NttV(s)) && AllResidues(PublicVector(a, s, e)) && AllResidues(CipherVector(a, s, e))
  {
    forall i | 0 <= i < |s|
      ensures IsResidue(NttV(s)[i]) && Reduced(NttV(s)[i])
      ensures IsResidue(PublicVector(a, s, e)[i]) && Reduced(PublicVector(a, s, e)[i])
      ensures IsResidue(CipherVector(a, s, e)[i]) && Reduced(CipherVector(a, s, e)[i])
    {
      hide Res, Add, Layers, InvQ, Dot;
      NttQIsReduced(s[i]);
      ResidueReduced(NttV(s)[i]);
      AddQIsReduced(Rows(a, NttV(s))[i], NttV(e)[i]);
      ResidueReduced(PublicVector(a, s, e)[i]);
      AddQIsReduced(InvQ(Rows(Transpose(a, |s|), NttV(s))[i]), e[i]);
      ResidueReduced(CipherVector(a, s, e)[i]);
    }
  }

  ghost function SecretKey(f: Primitives, l: Level, d: seq<byte>): (sk: seq<byte>)
    requires Suitable(f, l.K())
    ensures |sk| == l.K() * 384
  {
    var s := SecretS(f, l, d);
    SampledPolys(f, l, d, []);
    VectorsReduced(f.matrix([]), s, s);
    EncodeV(NttV(s), 12)
  }

  ghost function PublicKey(f: Primitives, l: Level, d: seq<byte>): (pk: seq<byte>)
    requires Suitable(f, l.K())
    ensures |pk| == l.PublicKeyBytes()
  {
    var seed := f.expand(d)[..SYM_BYTES];
    SampledPolys(f, l, d, []);
    VectorsReduced(f.matrix(seed), SecretS(f, l, d), ErrorE(f, l, d));
    EncodeV(PublicVector(f.matrix(seed), SecretS(f, l, d), ErrorE(f, l, d)), 12) + seed
  }

  // The two parts of a ciphertext before rounding, from the unpacked public key.
  ghost function CipherU(f: Primitives, l: Level, seed: seq<byte>, coins: seq<byte>): (u: Polys)
    requires Suitable(f, l.K())
    ensures |u| == l.K() && AllResidues(u) && AllPolys(u)
  {
    SampledPolys(f, l, [], coins);
    VectorsReduced(f.matrix(seed), SecretR(f, l, coins), ErrorE1(f, l, coins));
    CipherVector(f.matrix(seed), SecretR(f, l, coins), ErrorE1(f, l, coins))
  }

  ghost function CipherV(f: Primitives, l: Level, t: Polys, m: seq<byte>, coins: seq<byte>): (v: Vec)
    requires Suitable(f, l.K()) && |t| == l.K() && AllPolys(t) && |m| == MSG_BYTES
    ensures IsResidue(v) && Reduced(v)
  {
    SampledPolys(f, l, [], coins);
    var v := CipherPoly(t, SecretR(f, l, coins), ErrorE2(f, l, coins), FromMsg(m));
    AddQIsReduced(AddQ(InvQ(Dot(t, NttV(SecretR(f, l, coins)))), ErrorE2(f, l, coins)), FromMsg(m));
    ResidueReduced(v);
    v
  }

  ghost function Encrypt(f: Primitives, l: Level, pk: seq<byte>, m: seq<byte>, coins: seq<byte>): (c: seq<byte>)
    requires Suitable(f, l.K()) && |pk| == l.PublicKeyBytes() && |m| == MSG_BYTES
    ensures |c| == l.CipherBytes()
  {
    var t := DecodeV(pk[..l.K() * 384], 12, l.K());
    EncodeV(CipherU(f, l, pk[l.K() * 384..], coins), l.Du()) + EncodePoly(CipherV(f, l, t, m, coins), l.Dv())
  }

  ghost function CipherParts(l: Level, c: seq<byte>): (r: (Polys, Vec))
    requires |c| == l.CipherBytes()
    ensures |r.0| == l.K() && AllPolys(r.0) && IsPoly(r.1)
  {
    var n := l.K() * (32 * l.Du());
    (DecodeV(c[..n], l.Du(), l.K()), DecodePoly(c[n..], l.Dv()))
  }

  ghost function Decrypt(l: Level, sk: seq<byte>, c: seq<byte>): (m: seq<byte>)
    requires |sk| == l.K() * 384 && |c| == l.CipherBytes()
    ensures |m| == MSG_BYTES
  {
    var p := Centre(Decrypted(DecodeV(sk, 12, l.K()), CipherParts(l, c).0, CipherParts(l, c).1));
    ToMsg(p)
  }

  // ----- which noise goes where

  // The two keys from the matrix of the first half of expand(d) and from noise of
  // the second half: nonces 0 to k - 1 for s, k to 2k - 1 for e.
  lemma KeysFrom(f: Primitives, l: Level, d: seq<byte>, s: seq<Coeffs>, e: seq<Coeffs>)
    requires Suitable(f, l.K()) && |s| == |e| == l.K()
    requires forall i :: 0 <= i < l.K() ==> s[i] == f.noise1(f.expand(d)[32..], i)
    requires forall i :: 0 <= i < l.K() ==> e[i] == f.noise1(f.expand(d)[32..], l.K() + i)
    ensures AllPolys(s) && AllPolys(e)
    ensures var t := PublicVector(f.matrix(f.expand(d)[..32]), s, e);
            && AllResidues(NttV(s)) && AllResidues(t)
            && SecretKey(f, l, d) == EncodeV(NttV(s), 12)
            && PublicKey(f, l, d) == EncodeV(t, 12) + f.expand(d)[..32]
  {
    hide EncodeV, PublicVector, NttV, Reduced, IsResidue;
    SampledPolys(f, l, d, []);
    assert s == SecretS(f, l, d) && e == ErrorE(f, l, d);
    VectorsReduced(f.matrix(f.expand(d)[..32]), s, e);
  }

  // A ciphertext from noise of the coins: nonces 0 to k - 1 for r, k to 2k - 1 for
  // e1 and 2k for e2.
  lemma CiphertextFrom(f: Primitives, l: Level, pk: seq<byte>, m: seq<byte>, coins: seq<byte>,
                       r: seq<Coeffs>, e1: seq<Coeffs>, e2: Coeffs)
    requires Suitable(f, l.K()) && |pk| == l.PublicKeyBytes() && |m| == MSG_BYTES && |r| == |e1| == l.K()
    requires forall i :: 0 <= i < l.K() ==> r[i] == f.noise1(coins, i) && e1[i] == f.noise2(coins, l.K() + i)
    requires e2 == f.noise2(coins, 2 * l.K())
    ensures AllPolys(r) && AllPolys(e1) && IsPoly(e2)
    ensures var n := l.K() * 384;
            var u := CipherVector(f.matrix(pk[n..]), r, e1);
            var v := CipherPoly(DecodeV(pk[..n], 12, l.K()), r, e2, FromMsg(m));
            && AllResidues(u) && IsResidue(v) && Reduced(v)
            && Encrypt(f, l, pk, m, coins) == EncodeV(u, l.Du()) + EncodePoly(v, l.Dv())
  {
    hide EncodeV, EncodePoly, DecodeV, CipherVector, CipherPoly, NttV, Reduced, IsResidue, FromMsg;
    SampledPolys(f, l, [], coins);
    assert r == SecretR(f, l, coins) && e1 == ErrorE1(f, l, coins) && e2 == ErrorE2(f, l, coins);
    var u := CipherU(f, l, pk[l.K() * 384..], coins);
    var v := CipherV(f, l, DecodeV(pk[..l.K() * 384], 12, l.K()), m, coins);
  }

  // ----- when decryption undoes encryption

  ghost function RoundingErrors(p: Vec, d: nat): (e: Vec)
    requires IsRounding(d) && Reduced(p)
    ensures IsPoly(e)
  {
    SubQ(RestoredPoly(p, d), p)
  }

  ghost function RoundingErrorsV(v: Polys, d: nat): (e: Polys)
    requires IsRounding(d) && forall i :: 0 <= i < |v| ==> Reduced(v[i])
    ensures |e| == |v| && AllPolys(e)
  {
    seq(|v|, i requires 0 <= i < |v| => RoundingErrors(v[i], d))
  }

  // Rounding errors are at most half a step of the compression.
  lemma RoundingErrorsSmall(p: Vec, d: nat, j: nat)
    requires IsRounding(d) && Reduced(p) && j < N
    ensures -RoundingError(d) <= Centred(RoundingErrors(p, d)[j]) <= RoundingError(d)
  {
    hide Compress, Decompress, RoundingError, Residue, Centred;
    CompressError(p[j], d);
    CentredResidue(RestoredPoly(p, d)[j] - p[j]);
  }

  // What is unpacked is what was packed plus the rounding error.
  lemma RestoredIsSum(p: Vec, d: nat)
    requires IsRounding(d) && Reduced(p)
    ensures AddQ(p, RoundingErrors(p, d)) == RestoredPoly(p, d)
  {
    var q := RestoredPoly(p, d);
    hide Compress, Decompress, Residue, Res;
    ResRes(Sub(q, p));
    ResAdd(p, p, SubQ(q, p), Sub(q, p));
    assert Add(p, Sub(q, p)) == q;
    RestoredIsResidue(p, d);
  }

  lemma RestoredIsResidue(p: Vec, d: nat)
    requires IsRounding(d) && Reduced(p)
    ensures Res(RestoredPoly(p, d)) == RestoredPoly(p, d)
  {
    hide Compress, Decompress;
    forall j | 0 <= j < N
      ensures Residue(RestoredPoly(p, d)[j]) == RestoredPoly(p, d)[j]
    {
      var x := Decompress(Compress(p[j], d), d);
      assert 0 <= x < Q;
    }
  }

  lemma RestoredVIsSum(v: Polys, d: nat)
    requires IsRounding(d) && AllPolys(v) && forall i :: 0 <= i < |v| ==> Reduced(v[i])
    ensures RestoredV(v, d) == AddV(v, RoundingErrorsV(v, d))
  {
    hide Reduced, AddQ, RestoredPoly, RoundingErrors;
    forall i | 0 <= i < |v|
      ensures RestoredV(v, d)[i] == AddV(v, RoundingErrorsV(v, d))[i]
    {
      RestoredIsSum(v[i], d);
    }
  }

  // Twelve bits keep a residue exactly.
  lemma Exact12(v: Polys)
    requires AllResidues(v)
    ensures RestoredV(v, 12) == v
  {
    forall i | 0 <= i < |v|
      ensures RestoredPoly(v[i], 12) == v[i]
    {
      ResidueReduced(v[i]);
      hide Res;
      assert forall j :: 0 <= j < N ==> RestoredPoly(v[i], 12)[j] == v[i][j];
    }
  }

  lemma SecretKeyDecodes(f: Primitives, l: Level, d: seq<byte>)
    requires Suitable(f, l.K())
    ensures AllPolys(SecretS(f, l, d)) && DecodeV(SecretKey(f, l, d), 12, l.K()) == NttV(SecretS(f, l, d))
  {
    var s := SecretS(f, l, d);
    SampledPolys(f, l, d, []);
    VectorsReduced(f.matrix([]), s, s);
    hide NttQ, Reduced, EncodeV, DecodeV, IsResidue;
    DecodeEncodeV(NttV(s), 12);
    Exact12(NttV(s));
  }

  lemma PublicKeyDecodes(f: Primitives, l: Level, d: seq<byte>)
    requires Suitable(f, l.K())
    ensures var pk, seed := PublicKey(f, l, d), f.expand(d)[..SYM_BYTES];
            && pk[l.K() * 384..] == seed
            && AllPolys(SecretS(f, l, d)) && AllPolys(ErrorE(f, l, d))
            && DecodeV(pk[..l.K() * 384], 12, l.K()) == PublicVector(f.matrix(seed), SecretS(f, l, d), ErrorE(f, l, d))
  {
    var seed := f.expand(d)[..SYM_BYTES];
    SampledPolys(f, l, d, []);
    VectorsReduced(f.matrix(seed), SecretS(f, l, d), ErrorE(f, l, d));
    var t := PublicVector(f.matrix(seed), SecretS(f, l, d), ErrorE(f, l, d));
    hide PublicVector, Reduced, EncodeV, DecodeV, IsResidue;
    DecodeEncodeV(t, 12);
    Exact12(t);
    var pk := PublicKey(f, l, d);
    assert pk == EncodeV(t, 12) + seed;
    assert pk[..l.K() * 384] == EncodeV(t, 12);
  }

  lemma CipherDecodes(f: Primitives, l: Level, pk: seq<byte>, m: seq<byte>, coins: seq<byte>)
    requires Suitable(f, l.K()) && |pk| == l.PublicKeyBytes() && |m| == MSG_BYTES
    ensures var u := CipherU(f, l, pk[l.K() * 384..], coins);
            var v := CipherV(f, l, DecodeV(pk[..l.K() * 384], 12, l.K()), m, coins);
            CipherParts(l, Encrypt(f, l, pk, m, coins)) ==
            (AddV(u, RoundingErrorsV(u, l.Du())), AddQ(v, RoundingErrors(v, l.Dv())))
  {
    var u := CipherU(f, l, pk[l.K() * 384..], coins);
    var v := CipherV(f, l, DecodeV(pk[..l.K() * 384], 12, l.K()), m, coins);
    var c := Encrypt(f, l, pk, m, coins);
    var n := l.K() * (32 * l.Du());
    hide CipherU, CipherV, Reduced, EncodeV, DecodeV, EncodePoly, DecodePoly, AddQ, RestoredPoly, RoundingErrors, IsResidue;
    assert c[..n] == EncodeV(u, l.Du()) && c[n..] == EncodePoly(v, l.Dv());
    DecodeEncodeV(u, l.Du());
    RestoredVIsSum(u, l.Du());
    DecodedPoly(v, l.Dv());
    RestoredIsSum(v, l.Dv());
  }

  lemma DecodedPoly(p: Vec, d: nat)
    requires IsWidth(d) && Reduced(p)
    ensures DecodePoly(EncodePoly(p, d), d) == RestoredPoly(p, d)
  {
    hide EncodePoly, DecodePoly, Restored;
    DecodeEncode(p, d);
  }

  // e . r + e2 + cv - s . (e1 + cu) for one key pair, message and coins.
  ghost function DecryptionNoise(f: Primitives, l: Level, d: seq<byte>, m: seq<byte>, coins: seq<byte>): (w: Vec)
    requires Suitable(f, l.K()) && |m| == MSG_BYTES
    ensures IsPoly(w)
  {
    SampledPolys(f, l, d, coins);
    var seed := f.expand(d)[..SYM_BYTES];
    var u := CipherU(f, l, seed, coins);
    var v := CipherV(f, l, PublicVector(f.matrix(seed), SecretS(f, l, d), ErrorE(f, l, d)), m, coins);
    Noise(SecretS(f, l, d), ErrorE(f, l, d), SecretR(f, l, coins), ErrorE1(f, l, coins), ErrorE2(f, l, coins),
          RoundingErrorsV(u, l.Du()), RoundingErrors(v, l.Dv()))
  }

  // Decryption returns the message exactly when every coefficient of the noise
  // is tolerable for the message bit it disturbs.
  lemma DecryptEncrypt(f: Primitives, l: Level, d: seq<byte>, m: seq<byte>, coins: seq<byte>)
    requires Suitable(f, l.K()) && |m| == MSG_BYTES
    ensures Decrypt(l, SecretKey(f, l, d), Encrypt(f, l, PublicKey(f, l, d), m, coins)) == m <==>
            forall i :: 0 <= i < N ==> Tolerable(DecryptionNoise(f, l, d, m, coins)[i], MsgBitOf(m, i))
  {
    SampledPolys(f, l, d, coins);
    var seed := f.expand(d)[..SYM_BYTES];
    var s, e := SecretS(f, l, d), ErrorE(f, l, d);
    var r, e1, e2 := SecretR(f, l, coins), ErrorE1(f, l, coins), ErrorE2(f, l, coins);
    var t := PublicVector(f.matrix(seed), s, e);
    var u, v := CipherU(f, l, seed, coins), CipherV(f, l, t, m, coins);
    var cu, cv := RoundingErrorsV(u, l.Du()), RoundingErrors(v, l.Dv());
    SecretKeyDecodes(f, l, d);
    PublicKeyDecodes(f, l, d);
    CipherDecodes(f, l, PublicKey(f, l, d), m, coins);
    assert u == CipherVector(f.matrix(seed), r, e1) && v == CipherPoly(t, r, e2, FromMsg(m));
    var w := DecryptionNoise(f, l, d, m, coins);
    assert w == Noise(s, e, r, e1, e2, cu, cv);
    hide SecretS, ErrorE, SecretR, ErrorE1, ErrorE2, PublicVector, CipherU, CipherV, CipherVector, CipherPoly;
    hide Noise, AddQ, AddV, RoundingErrors, RoundingErrorsV, Tolerable, MsgBitOf, SecretKey, PublicKey, Encrypt;
    hide Reduced, DecryptionNoise, Decrypted, Suitable, DecodeV, CipherParts, Bounded, Within, IsResidue, AllResidues, ToMsg;
    DecryptionResidue(f.matrix(seed), s, e, r, e1, e2, FromMsg(m), cu, cv);
    EncodeCentre(AddQ(FromMsg(m), w), 12);
    NoisyMessage(m, w, Centre(AddQ(FromMsg(m), w)));
  }

  // In particular every message survives noise between -832 and 831.
  lemma DecryptEncryptSafely(f: Primitives, l: Level, d: seq<byte>, m: seq<byte>, coins: seq<byte>)
    requires Suitable(f, l.K()) && |m| == MSG_BYTES
    requires forall i :: 0 <= i < N ==> -832 <= Centred(DecryptionNoise(f, l, d, m, coins)[i]) <= 831
    ensures Decrypt(l, SecretKey(f, l, d), Encrypt(f, l, PublicKey(f, l, d), m, coins)) == m
  {
    hide DecryptionNoise, Decrypt, SecretKey, PublicKey, Encrypt, Centred, MsgBitOf;
    DecryptEncrypt(f, l, d, m, coins);
  }
}
