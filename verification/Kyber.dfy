// Kyber with the symmetric primitives it is built with (components/symmetric/symmetric.h:53-69,
// components/symmetric/symmetric-shake.c:18-51, components/poly/poly.c:208-232).
module Kyber {
  import opened Reduce
  import opened RingQ
  import opened Polyvec
  import opened Packing
  import opened Buffers
  import opened Cbd
  import opened MatrixSampling
  import opened Sponge
  import opened Fips202
  import opened Indcpa
  import opened Kem
  import opened Message

  function Eta1(l: Level): (eta: nat)
    ensures eta == 2 || eta == 3
  {
    if l.Kyber512? then 3 else 2
  }

  const ETA2 := 2

  function HashH(x: seq<byte>): (y: seq<byte>)
    ensures |y| == SYM_BYTES
  {
    Output(SHA3_256_RATE, x, SHA3_DOMAIN, SYM_BYTES)
  }

  function HashG(x: seq<byte>): (y: seq<byte>)
    ensures |y| == 2 * SYM_BYTES
  {
    Output(SHA3_512_RATE, x, SHA3_DOMAIN, 2 * SYM_BYTES)
  }

  function Kdf(x: seq<byte>): (y: seq<byte>)
    ensures |y| == SYM_BYTES
  {
    Output(SHAKE256_RATE, x, SHAKE_DOMAIN, SYM_BYTES)
  }

  function Prf(key: seq<byte>, nonce: nat, n: nat): (y: seq<byte>)
    ensures |y| == n
  {
    Output(SHAKE256_RATE, key + [Low8(nonce)], SHAKE_DOMAIN, n)
  }

  function NoisePoly(eta: nat, seed: seq<byte>, nonce: nat): (p: Coeffs)
    requires eta == 2 || eta == 3
    ensures Bounded(p, NOISE_BOUND)
  {
    hide Binomial;
    seq(N, n requires 0 <= n < N => Binomial(Prf(seed, nonce, eta * N / 4), eta, n))
  }

  // poly_getnoise_eta1 and poly_getnoise_eta2
  method PolyGetnoise(r: array<int16>, eta: nat, seed: seq<byte>, nonce: nat)
    requires r.Length == N && (eta == 2 || eta == 3)
    modifies r
    ensures r[..] == NoisePoly(eta, seed, nonce)
  {
    hide Binomial, Output, Overwrite;
    var buf := new byte[eta * N / 4](_ => 0);
    ghost var was := buf[..];
    Shake(SHAKE256_RATE, buf, 0, eta * N / 4, seed + [Low8(nonce)]);
    WholeBuffer(was, Prf(seed, nonce, eta * N / 4));
    if eta == 2 {
      Cbd2(r, buf[..]);
    } else {
      Cbd3(r, buf[..]);
    }
  }

  ghost function KyberPrimitives(l: Level): Primitives {
    Primitives(
      x => HashG(x),
      seed => Matrix(seed, l.K()),
      (seed, nonce) => NoisePoly(Eta1(l), seed, nonce),
      (seed, nonce) => NoisePoly(ETA2, seed, nonce))
  }

  ghost function KyberHashes(): Hashes {
    Hashes(x => HashH(x), x => HashG(x), x => Kdf(x))
  }

  lemma EntryBounded(seed: seq<byte>, k: nat, i: nat, j: nat)
    requires i < k && j < k
    ensures Bounded(MatrixEntry(seed, k, i, j), Q - 1)
  {
    hide MatrixEntry;
  }

  // What the proofs about encryption and key exchange ask of the primitives holds of
  // the ones Kyber uses.
  lemma KyberIsSuitable(l: Level)
    ensures Suitable(KyberPrimitives(l), l.K()) && Sized(KyberHashes())
  {
    hide Bounded, Output, MatrixEntry, NoisePoly;
    var f, n := KyberPrimitives(l), l.K();
    forall seed: seq<byte>
      ensures Lattice.IsMatrix(f.matrix(seed), n) && forall i :: 0 <= i < n ==> Within(f.matrix(seed)[i], Q - 1)
    {
      forall i | 0 <= i < n
        ensures Within(f.matrix(seed)[i], Q - 1) && Lattice.AllPolys(f.matrix(seed)[i])
      {
        forall j | 0 <= j < n ensures Bounded(f.matrix(seed)[i][j], Q - 1) {
          EntryBounded(seed, n, i, j);
        }
        AllPolysWithin(f.matrix(seed)[i], Q - 1);
      }
    }
  }

  // Kyber, end to end: both sides hold the same secret whenever the noise of this
  // key pair and this encapsulation is tolerable for every message bit.
  lemma KyberSharesSecret(l: Level, d: seq<byte>, z: seq<byte>, seed: seq<byte>)
    requires |z| == SYM_BYTES
    ensures Suitable(KyberPrimitives(l), l.K()) && Sized(KyberHashes())
    ensures var f, s := KyberPrimitives(l), KyberHashes();
            (forall i :: 0 <= i < N ==> Tolerable(KemNoise(f, s, l, d, seed)[i], MsgBitOf(s.h(seed), i))) ==>
            var (c, k) := Encapsulated(f, s, l, PublicKey(f, l, d), seed);
            |KemSecretKey(f, s, l, d, z)| == SecretKeyBytes(l) &&
            Decapsulated(f, s, l, KemSecretKey(f, s, l, d, z), c) == k
  {
    KyberIsSuitable(l);
    var f, s := KyberPrimitives(l), KyberHashes();
    hide *;
    CorrectWhenQuiet(f, s, l, d, seed);
    if DecryptsCorrectly(f, s, l, d, seed) {
      DecapsulateEncapsulate(f, s, l, d, z, seed);
    }
  }
}
