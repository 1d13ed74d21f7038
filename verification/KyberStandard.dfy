// Kyber in the numbers and bytes of its specification (round 3, sections 1.1 to 1.4;
// components/common/params.h, components/symmetric/symmetric.h:53-69,
// components/symmetric/symmetric-shake.c, components/indcpa/indcpa.c:135-203,
// components/kem/kem.c): sizes, hash functions as padded sponges, sampling from bytes,
// and where the parts of keys and hash inputs go.
module KyberStandard {
  import opened RingQ
  import opened Polyvec
  import opened Packing
  import opened PackingBits
  import opened Sampling
  import opened MatrixSampling
  import opened KeccakF
  import opened Sponge
  import opened Fips202
  import opened Message
  import opened Cbd
  import opened Indcpa
  import opened Kem
  import opened Kyber

  // ----- parameters

  lemma Sizes()
    ensures Kyber512.K() == 2 && Kyber768.K() == 3 && Kyber1024.K() == 4
    ensures Kyber512.Du() == Kyber768.Du() == 10 && Kyber1024.Du() == 11
    ensures Kyber512.Dv() == Kyber768.Dv() == 4 && Kyber1024.Dv() == 5
    ensures Eta1(Kyber512) == 3 && Eta1(Kyber768) == Eta1(Kyber1024) == 2 && ETA2 == 2
    ensures Kyber512.PublicKeyBytes() == 800 && Kyber768.PublicKeyBytes() == 1184 && Kyber1024.PublicKeyBytes() == 1568
    ensures SecretKeyBytes(Kyber512) == 1632 && SecretKeyBytes(Kyber768) == 2400 && SecretKeyBytes(Kyber1024) == 3168
    ensures Kyber512.CipherBytes() == 768 && Kyber768.CipherBytes() == 1088 && Kyber1024.CipherBytes() == 1568
  {
  }

  // ----- the hash functions

  // Byte i of what a sponge of this rate and domain gives for x.
  function SpongeByte(rate: nat, domain: byte, x: seq<byte>, i: nat): byte
    requires IsRate(rate)
  {
    BlockByte(AbsorbBlocks(Initial(), rate, Padded(rate, x, domain)), rate, i)
  }

  function SpongeBytes(rate: nat, domain: byte, x: seq<byte>, n: nat): (y: seq<byte>)
    requires IsRate(rate)
    ensures |y| == n
  {
    seq(n, i requires 0 <= i < n => SpongeByte(rate, domain, x, i))
  }

  lemma OutputBytes(rate: nat, x: seq<byte>, domain: byte, n: nat)
    requires IsRate(rate)
    ensures Output(rate, x, domain, n) == SpongeBytes(rate, domain, x, n)
  {
    hide Output, BlockByte, AbsorbBlocks, Padded, Initial;
    forall i | 0 <= i < n
      ensures Output(rate, x, domain, n)[i] == SpongeBytes(rate, domain, x, n)[i]
    {
      OutputIsSponge(rate, x, domain, n, i);
    }
  }

  // H is SHA3-256, G is SHA3-512, the KDF is SHAKE256 with 32 bytes and the PRF
  // SHAKE256 of the key followed by the nonce.
  lemma HashFunctions(x: seq<byte>, nonce: nat, n: nat)
    requires nonce < 256
    ensures HashH(x) == SpongeBytes(136, 0x06, x, 32)
    ensures HashG(x) == SpongeBytes(72, 0x06, x, 64)
    ensures Kdf(x) == SpongeBytes(136, 0x1f, x, 32)
    ensures Prf(x, nonce, n) == SpongeBytes(136, 0x1f, x + [nonce as byte], n)
  {
    hide Output, SpongeBytes;
    OutputBytes(136, x, 0x06, 32);
    OutputBytes(72, x, 0x06, 64);
    OutputBytes(136, x, 0x1f, 32);
    OutputBytes(136, x + [nonce as byte], 0x1f, n);
  }

  // The functions the schemes are built with are these.
  lemma SchemeFunctions(l: Level, x: seq<byte>)
    ensures var f, s := KyberPrimitives(l), KyberHashes();
            s.h(x) == HashH(x) && s.g(x) == HashG(x) && s.kdf(x) == Kdf(x) && f.expand(x) == HashG(x)
    ensures KyberPrimitives(l).matrix(x) == Matrix(x, match l case Kyber512 => 2 case Kyber768 => 3 case Kyber1024 => 4)
  {
  }

  // ----- sampling

  // The numbers below q among the twelve-bit numbers of the groups of three bytes.
  function BelowQ(s: seq<byte>): seq<int> {
    if |s| < 3 then [] else
      var d1 := s[0] as int + 256 * (s[1] as int % 16);
      var d2 := s[1] as int / 16 + 16 * (s[2] as int);
      (if d1 < 3329 then [d1] else []) + (if d2 < 3329 then [d2] else []) + BelowQ(s[3..])
  }

  lemma LowCandidate(a: bv8, b: bv8)
    ensures (((a as bv16) | ((b as bv16) << 8)) & 0xfff) as int == (a as int) + 256 * ((b as int) % 16)
  {
  }

  lemma HighCandidate(a: bv8, b: bv8)
    ensures ((((a as bv16) >> 4) | ((b as bv16) << 4)) & 0xfff) as int == (a as int) / 16 + 16 * (b as int)
  {
  }

  lemma Candidates(s: seq<byte>)
    requires |s| == 3
    ensures Candidate(s, 0) == s[0] as int + 256 * (s[1] as int % 16)
    ensures Candidate(s, 1) == s[1] as int / 16 + 16 * (s[2] as int)
  {
    LowCandidate(s[0], s[1]);
    HighCandidate(s[1], s[2]);
    Masked((Wide(s[0]) | (Wide(s[1]) << 8)) & 0xfff);
    Masked(((Wide(s[1]) >> 4) | (Wide(s[2]) << 4)) & 0xfff);
  }

  lemma Masked(w: bv16)
    requires w <= 0xfff
    ensures w & 0xfff == w
  {
  }

  lemma {:induction false} AcceptedIsBelowQ(s: seq<byte>)
    ensures Accepted(s) == BelowQ(s)
  {
    hide Candidate;
    if |s| >= 3 {
      Candidates(s[..3]);
      AcceptedIsBelowQ(s[3..]);
    }
  }

  // Entry (i, j) of the matrix: the first 256 numbers below q in the SHAKE128 output
  // for the seed, the byte j and the byte i.
  lemma MatrixEntries(seed: seq<byte>, k: nat, i: nat, j: nat, n: nat)
    requires AllProductive(seed, k) && i < k <= 256 && j < k
    ensures var v := BelowQ(SpongeBytes(168, 0x1f, seed + [j as byte, i as byte], n));
            |v| >= 256 ==> Matrix(seed, k)[i][j] == v[..256]
  {
    hide Accepted, Absorbed, StreamByte, Prefix, Uniform, SpongeBytes, BelowQ, Productive;
    var f := XofStream(168, seed, j, i);
    var s := SpongeBytes(168, 0x1f, seed + [j as byte, i as byte], n);
    BlocksReadStream(168, seed, j, i, n);
    OutputBytes(168, seed + [j as byte, i as byte], 0x1f, n);
    AcceptedIsBelowQ(s);
    if |BelowQ(s)| >= 256 {
      UniformIsPrefix(f, n);
    }
  }

  // Bits of the buffer, counted from the least significant one of its first byte.
  function BitNumber(a: seq<byte>, p: nat): int
    requires p < 8 * |a|
  {
    if StringBit(a, p) then 1 else 0
  }

  lemma SameBit(a: seq<byte>, p: nat)
    requires p < 8 * |a|
    ensures BitAt(a, p) == BitNumber(a, p)
  {
    BitsAgree(a[p / 8], p % 8);
  }

  lemma BitsAgree(b: byte, k: nat)
    requires k < 8
    ensures Bit(b, k) == BitOfByte(b, k)
  {
  }

  lemma BinomialBits(buf: seq<byte>, n: nat)
    ensures 4 * n + 4 <= 8 * |buf| ==>
              Binomial(buf, 2, n) == BitNumber(buf, 4 * n) + BitNumber(buf, 4 * n + 1) - BitNumber(buf, 4 * n + 2) - BitNumber(buf, 4 * n + 3)
    ensures 6 * n + 6 <= 8 * |buf| ==>
              Binomial(buf, 3, n) == BitNumber(buf, 6 * n) + BitNumber(buf, 6 * n + 1) + BitNumber(buf, 6 * n + 2)
                                     - BitNumber(buf, 6 * n + 3) - BitNumber(buf, 6 * n + 4) - BitNumber(buf, 6 * n + 5)
  {
    hide BitAt, BitNumber;
    if 4 * n + 4 <= 8 * |buf| {
      PairCount(buf, 4 * n);
      PairCount(buf, 4 * n + 2);
    }
    if 6 * n + 6 <= 8 * |buf| {
      TripleCount(buf, 6 * n);
      TripleCount(buf, 6 * n + 3);
    }
  }

  lemma PairCount(buf: seq<byte>, k: nat)
    requires k + 2 <= 8 * |buf|
    ensures BitCount(buf, k, 2) == BitNumber(buf, k) + BitNumber(buf, k + 1)
  {
    hide BitAt, BitNumber;
    SameBit(buf, k);
    SameBit(buf, k + 1);
    assert BitCount(buf, k + 1, 1) == BitAt(buf, k + 1) + BitCount(buf, k + 2, 0);
  }

  lemma TripleCount(buf: seq<byte>, k: nat)
    requires k + 3 <= 8 * |buf|
    ensures BitCount(buf, k, 3) == BitNumber(buf, k) + BitNumber(buf, k + 1) + BitNumber(buf, k + 2)
  {
    hide BitAt, BitNumber;
    SameBit(buf, k);
    PairCount(buf, k + 1);
  }

  // Coefficient n of a noise polynomial: with eta 2, two bits of the SHAKE256 output
  // for the seed and the nonce minus the next two; with eta 3, used for the secrets of
  // the smallest level, three and three.
  lemma NoiseCoefficients(l: Level, seed: seq<byte>, nonce: nat, n: nat)
    requires nonce < 256 && n < 256
    ensures var f, x := KyberPrimitives(l), seed + [nonce as byte];
            var b, b3 := SpongeBytes(136, 0x1f, x, 128), SpongeBytes(136, 0x1f, x, 192);
            var two := BitNumber(b, 4 * n) + BitNumber(b, 4 * n + 1) - BitNumber(b, 4 * n + 2) - BitNumber(b, 4 * n + 3);
            var three := BitNumber(b3, 6 * n) + BitNumber(b3, 6 * n + 1) + BitNumber(b3, 6 * n + 2)
                         - BitNumber(b3, 6 * n + 3) - BitNumber(b3, 6 * n + 4) - BitNumber(b3, 6 * n + 5);
            && |f.noise2(seed, nonce)| == 256 && f.noise2(seed, nonce)[n] == two
            && |f.noise1(seed, nonce)| == 256 && f.noise1(seed, nonce)[n] == if l.Kyber512? then three else two
  {
    hide Output, SpongeBytes, BitNumber, Binomial, Prf;
    HashFunctions(seed, nonce, 128);
    HashFunctions(seed, nonce, 192);
    BinomialBits(Prf(seed, nonce, 128), n);
    BinomialBits(Prf(seed, nonce, 192), n);
    NoiseAt(2, seed, nonce, n);
    NoiseAt(3, seed, nonce, n);
  }

  lemma NoiseAt(eta: nat, seed: seq<byte>, nonce: nat, n: nat)
    requires (eta == 2 || eta == 3) && n < 256
    ensures |NoisePoly(eta, seed, nonce)| == 256
    ensures NoisePoly(eta, seed, nonce)[n] == Binomial(Prf(seed, nonce, 64 * eta), eta, n)
  {
    hide Prf, Binomial;
  }

  // Bit i of a message as coefficient i: 1665, half of q rounded up, or 0.
  lemma MessageCoefficients(msg: seq<byte>, i: nat)
    requires |msg| == 32 && i < 256
    ensures FromMsg(msg)[i] == if StringBit(msg, i) then 1665 else 0
  {
    BitsAgree(msg[i / 8], i % 8);
  }

  // ----- the parts of keys and hash inputs, in order

  // A secret key: s, the public key, its hash, z.
  lemma SecretKeyParts(l: Level, d: seq<byte>, z: seq<byte>)
    ensures Suitable(KyberPrimitives(l), l.K())
    ensures var f := KyberPrimitives(l);
            var pk := PublicKey(f, l, d);
            KemSecretKey(f, KyberHashes(), l, d, z) == SecretKey(f, l, d) + pk + SpongeBytes(136, 0x06, pk, 32) + z
  {
    hide PublicKey, SecretKey, SpongeBytes, KyberPrimitives, Suitable;
    KyberIsSuitable(l);
    HashFunctions(PublicKey(KyberPrimitives(l), l, d), 0, 0);
  }

  // Encapsulation: the message is H(seed); G of the message and then H(pk) gives the
  // pre-key and then the coins; the secret is the KDF of the pre-key and then H(c).
  lemma EncapsulationParts(l: Level, pk: seq<byte>, seed: seq<byte>)
    requires |pk| == l.PublicKeyBytes()
    ensures Suitable(KyberPrimitives(l), l.K()) && Sized(KyberHashes())
    ensures var (c, k) := Encapsulated(KyberPrimitives(l), KyberHashes(), l, pk, seed);
            var m := SpongeBytes(136, 0x06, seed, 32);
            var kr := SpongeBytes(72, 0x06, m + SpongeBytes(136, 0x06, pk, 32), 64);
            && c == Encrypt(KyberPrimitives(l), l, pk, m, kr[32..])
            && k == SpongeBytes(136, 0x1f, kr[..32] + SpongeBytes(136, 0x06, c, 32), 32)
  {
    hide Encrypt, SpongeBytes, KyberPrimitives, Suitable;
    KyberIsSuitable(l);
    var m := HashH(seed);
    var kr := HashG(m + HashH(pk));
    var c := Encrypt(KyberPrimitives(l), l, pk, m, kr[32..]);
    HashFunctions(seed, 0, 0);
    HashFunctions(pk, 0, 0);
    HashFunctions(m + HashH(pk), 0, 0);
    HashFunctions(c, 0, 0);
    HashFunctions(kr[..32] + HashH(c), 0, 0);
  }

  // Decapsulation with the secret key s, pk, h, z: the same with the decrypted message
  // and h in the place of H(pk), and with z for the pre-key when the ciphertext does
  // not come out again.
  lemma DecapsulationParts(l: Level, s: seq<byte>, pk: seq<byte>, h: seq<byte>, z: seq<byte>, c: seq<byte>)
    requires |s| == l.K() * 384 && |pk| == l.PublicKeyBytes() && |h| == |z| == 32 && |c| == l.CipherBytes()
    ensures Suitable(KyberPrimitives(l), l.K()) && Sized(KyberHashes()) && |s + pk + h + z| == SecretKeyBytes(l)
    ensures var m := Decrypt(l, s, c);
            var kr := SpongeBytes(72, 0x06, m + h, 64);
            var k := if Encrypt(KyberPrimitives(l), l, pk, m, kr[32..]) == c then kr[..32] else z;
            Decapsulated(KyberPrimitives(l), KyberHashes(), l, s + pk + h + z, c) ==
            SpongeBytes(136, 0x1f, k + SpongeBytes(136, 0x06, c, 32), 32)
  {
    hide Encrypt, Decrypt, SpongeBytes, KyberPrimitives, Suitable, Decapsulated;
    KyberIsSuitable(l);
    FourParts(s, pk, h, z);
    DecapsulatedFrom(KyberPrimitives(l), KyberHashes(), l, s, pk, h, z, c);
    var m := Decrypt(l, s, c);
    var kr := HashG(m + h);
    var k := if Encrypt(KyberPrimitives(l), l, pk, m, kr[32..]) == c then kr[..32] else z;
    HashFunctions(m + h, 0, 0);
    HashFunctions(c, 0, 0);
    HashFunctions(k + HashH(c), 0, 0);
  }

  lemma DecapsulatedFrom(f: Primitives, g: Hashes, l: Level, s: seq<byte>, pk: seq<byte>, h: seq<byte>, z: seq<byte>, c: seq<byte>)
    requires Suitable(f, l.K()) && Sized(g)
    requires |s| == l.K() * 384 && |pk| == l.PublicKeyBytes() && |h| == |z| == 32 && |c| == l.CipherBytes()
    ensures |s + pk + h + z| == SecretKeyBytes(l)
    ensures var m := Decrypt(l, s, c);
            var kr := g.g(m + h);
            var k := if Encrypt(f, l, pk, m, kr[32..]) == c then kr[..32] else z;
            Decapsulated(f, g, l, s + pk + h + z, c) == g.kdf(k + g.h(c))
  {
    hide Encrypt, Decrypt, Suitable;
    FourParts(s, pk, h, z);
  }

  lemma FourParts(s: seq<byte>, pk: seq<byte>, h: seq<byte>, z: seq<byte>)
    requires |h| == |z| == 32
    ensures var sk, n := s + pk + h + z, |s|;
            && |sk| == n + |pk| + 64
            && sk[..n] == s && sk[n..n + |pk|] == pk && sk[|sk| - 64..|sk| - 32] == h && sk[|sk| - 32..] == z
  {
  }
}
