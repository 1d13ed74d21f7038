// The CCA-secure key encapsulation mechanism: the Fujisaki-Okamoto transform
// with implicit rejection (components/kem/kem.c, components/verify/verify.c).
module Kem {
  import opened Packing
  import opened Buffers
  import opened PolyRing
  import opened RingQ
  import opened Message
  import opened Indcpa
  import opened IndcpaRun

  datatype Hashes = Hashes(h: seq<byte> -> seq<byte>, g: seq<byte> -> seq<byte>, kdf: seq<byte> -> seq<byte>)

  ghost predicate Sized(s: Hashes) {
    && (forall x :: |s.h(x)| == SYM_BYTES)
    && (forall x :: |s.g(x)| == 2 * SYM_BYTES)
    && (forall x :: |s.kdf(x)| == SYM_BYTES)
  }

  // ----- comparison and conditional copy without branches

  lemma OrZero(r: byte, a: byte, b: byte)
    ensures r | (a ^ b) == 0 <==> r == 0 && a == b
  {
  }

  lemma SignOfNegated(r: byte)
    ensures (0 - (r as bv64)) >> 63 == if r == 0 then 0 else 1
  {
  }

  method Verify(a: seq<byte>, b: seq<byte>) returns (fail: bv64)
    requires |a| == |b|
    ensures fail == if a == b then 0 else 1
  {
    var r: byte := 0;
    var i := 0;
    while i < |a|
      invariant 0 <= i <= |a|
      invariant r == 0 <==> a[..i] == b[..i]
    {
      OrZero(r, a[i], b[i]);
      assert a[..i + 1] == a[..i] + [a[i]] && b[..i + 1] == b[..i] + [b[i]];
      r := r | (a[i] ^ b[i]);
      i := i + 1;
    }
    assert a[..i] == a && b[..i] == b;
    SignOfNegated(r);
    fail := (0 - (r as bv64)) >> 63;
  }

  lemma SelectByte(r: byte, x: byte, b: byte)
    ensures b == 0 ==> r ^ ((0 - b) & (r ^ x)) == r
    ensures b == 1 ==> r ^ ((0 - b) & (r ^ x)) == x
  {
  }

  method Cmov(r: array<byte>, x: seq<byte>, b: byte)
    requires |x| <= r.Length && (b == 0 || b == 1)
    modifies r
    ensures r[..] == if b == 1 then x + old(r[|x|..]) else old(r[..])
  {
    var mask: byte := 0 - b;
    var i := 0;
    while i < |x|
      invariant 0 <= i <= |x|
      invariant forall j :: 0 <= j < i ==> r[j] == if b == 1 then x[j] else old(r[j])
      invariant forall j :: i <= j < r.Length ==> r[j] == old(r[j])
    {
      SelectByte(r[i], x[i], b);
      r[i] := r[i] ^ (mask & (r[i] ^ x[i]));
      i := i + 1;
    }
  }

  // ----- what the three algorithms compute

  // Secret key, public key, hash of the public key, and the rejection secret z.
  ghost function KemSecretKey(f: Primitives, s: Hashes, l: Level, d: seq<byte>, z: seq<byte>): seq<byte>
    requires Suitable(f, l.K())
  {
    SecretKey(f, l, d) + PublicKey(f, l, d) + s.h(PublicKey(f, l, d)) + z
  }

  function SecretKeyBytes(l: Level): nat {
    l.K() * 384 + l.PublicKeyBytes() + 2 * SYM_BYTES
  }

  // The pre-key and the coins derived from a message for a public key.
  function PreKey(s: Hashes, hpk: seq<byte>, m: seq<byte>): seq<byte> {
    s.g(m + hpk)
  }

  ghost function Encapsulated(f: Primitives, s: Hashes, l: Level, pk: seq<byte>, seed: seq<byte>): (r: (seq<byte>, seq<byte>))
    requires Suitable(f, l.K()) && Sized(s) && |pk| == l.PublicKeyBytes()
    ensures |r.0| == l.CipherBytes()
  {
    var m := s.h(seed);
    var kr := PreKey(s, s.h(pk), m);
    var c := Encrypt(f, l, pk, m, kr[SYM_BYTES..]);
    (c, s.kdf(kr[..SYM_BYTES] + s.h(c)))
  }

  ghost function Decapsulated(f: Primitives, s: Hashes, l: Level, sk: seq<byte>, c: seq<byte>): seq<byte>
    requires Suitable(f, l.K()) && Sized(s) && |sk| == SecretKeyBytes(l) && |c| == l.CipherBytes()
  {
    var n := l.K() * 384;
    var pk, hpk := sk[n..n + l.PublicKeyBytes()], sk[|sk| - 2 * SYM_BYTES..|sk| - SYM_BYTES];
    var kr := PreKey(s, hpk, Decrypt(l, sk[..n], c));
    var c' := Encrypt(f, l, pk, Decrypt(l, sk[..n], c), kr[SYM_BYTES..]);
    s.kdf((if c == c' then kr[..SYM_BYTES] else sk[|sk| - SYM_BYTES..]) + s.h(c))
  }

  method KemKeypair(f: Primitives, s: Hashes, l: Level, d: seq<byte>, z: seq<byte>) returns (pk: seq<byte>, sk: seq<byte>)
    requires Suitable(f, l.K()) && Sized(s) && |z| == SYM_BYTES
    ensures pk == PublicKey(f, l, d) && sk == KemSecretKey(f, s, l, d, z)
    ensures |sk| == SecretKeyBytes(l)
  {
    hide PublicKey, SecretKey;
    var sk0;
    ghost var s0, e0, used;
    pk, sk0, s0, e0, used := IndcpaKeypair(f, l, d);
    sk := sk0 + pk + s.h(pk) + z;
  }

  lemma Halves(a: seq<byte>, b: seq<byte>, s: seq<byte>)
    requires |s| == |a| + |b|
    ensures Overwrite(Overwrite(s, 0, a), |a|, b) == a + b
  {
  }

  lemma SecondHalf(s: seq<byte>, b: seq<byte>)
    requires |b| <= |s|
    ensures Overwrite(s, |s| - |b|, b) == s[..|s| - |b|] + b
  {
  }

  method KemEnc(f: Primitives, s: Hashes, l: Level, pk: seq<byte>, seed: seq<byte>) returns (ct: seq<byte>, ss: seq<byte>)
    requires Suitable(f, l.K()) && Sized(s) && |pk| == l.PublicKeyBytes()
    ensures (ct, ss) == Encapsulated(f, s, l, pk, seed)
  {
    hide Encrypt, Overwrite;
    var buf, kr := new byte[2 * SYM_BYTES](_ => 0), new byte[2 * SYM_BYTES](_ => 0);
    ghost var b0, k0 := buf[..], kr[..];
    StoreBytes(buf, 0, s.h(seed));
    StoreBytes(buf, SYM_BYTES, s.h(pk));
    Halves(s.h(seed), s.h(pk), b0);
    StoreBytes(kr, 0, s.g(buf[..]));
    Whole(k0, s.g(buf[..]));
    ghost var pre := s.g(s.h(seed) + s.h(pk));
    ghost var r, e1, e2, used;
    ct, r, e1, e2, used := IndcpaEnc(f, l, pk, buf[..SYM_BYTES], kr[SYM_BYTES..]);
    StoreBytes(kr, SYM_BYTES, s.h(ct));
    SecondHalf(pre, s.h(ct));
    ss := s.kdf(kr[..]);
  }

  lemma Whole(s: seq<byte>, b: seq<byte>)
    requires |s| == |b|
    ensures Overwrite(s, 0, b) == b
  {
  }

  method KemDec(f: Primitives, s: Hashes, l: Level, ct: seq<byte>, sk: seq<byte>) returns (ss: seq<byte>)
    requires Suitable(f, l.K()) && Sized(s) && |sk| == SecretKeyBytes(l) && |ct| == l.CipherBytes()
    ensures ss == Decapsulated(f, s, l, sk, ct)
  {
    hide Encrypt, Decrypt, Overwrite;
    var n := l.K() * 384;
    var pk := sk[n..n + l.PublicKeyBytes()];
    var buf, kr := new byte[2 * SYM_BYTES](_ => 0), new byte[2 * SYM_BYTES](_ => 0);
    ghost var b0, k0 := buf[..], kr[..];
    var m := IndcpaDec(l, ct, sk[..n]);
    StoreBytes(buf, 0, m);
    var hpk := sk[|sk| - 2 * SYM_BYTES..|sk| - SYM_BYTES];
    StoreBytes(buf, SYM_BYTES, hpk);
    Halves(m, hpk, b0);
    StoreBytes(kr, 0, s.g(buf[..]));
    Whole(k0, s.g(buf[..]));
    ghost var pre := s.g(m + hpk);
    var cmp;
    ghost var r, e1, e2, used;
    cmp, r, e1, e2, used := IndcpaEnc(f, l, pk, buf[..SYM_BYTES], kr[SYM_BYTES..]);
    var fail := Verify(ct, cmp);
    StoreBytes(kr, SYM_BYTES, s.h(ct));
    SecondHalf(pre, s.h(ct));
    var z := sk[|sk| - SYM_BYTES..];
    Cmov(kr, z, if fail == 1 then 1 else 0);
    assert kr[..] == (if ct == cmp then pre[..SYM_BYTES] else z) + s.h(ct);
    ss := s.kdf(kr[..]);
  }

  // ----- correctness

  lemma Fields(f: Primitives, s: Hashes, l: Level, d: seq<byte>, z: seq<byte>)
    requires Suitable(f, l.K()) && Sized(s) && |z| == SYM_BYTES
    ensures var sk, pk, n := KemSecretKey(f, s, l, d, z), PublicKey(f, l, d), l.K() * 384;
            && |sk| == SecretKeyBytes(l) && sk[..n] == SecretKey(f, l, d) && sk[n..n + l.PublicKeyBytes()] == pk
            && sk[|sk| - 2 * SYM_BYTES..|sk| - SYM_BYTES] == s.h(pk) && sk[|sk| - SYM_BYTES..] == z
  {
    hide SecretKey, PublicKey;
  }

  // The pre-key and coins a receiver derives from a ciphertext.
  ghost function Rederived(f: Primitives, s: Hashes, l: Level, d: seq<byte>, c: seq<byte>): (kr: seq<byte>)
    requires Suitable(f, l.K()) && Sized(s) && |c| == l.CipherBytes()
    ensures |kr| == 2 * SYM_BYTES
  {
    PreKey(s, s.h(PublicKey(f, l, d)), Decrypt(l, SecretKey(f, l, d), c))
  }

  ghost predicate Reencrypts(f: Primitives, s: Hashes, l: Level, d: seq<byte>, c: seq<byte>)
    requires Suitable(f, l.K()) && Sized(s) && |c| == l.CipherBytes()
  {
    Encrypt(f, l, PublicKey(f, l, d), Decrypt(l, SecretKey(f, l, d), c), Rederived(f, s, l, d, c)[SYM_BYTES..]) == c
  }

  // Decapsulation with a generated key: the same derivation as encapsulation on
  // the decrypted message when re-encryption gives the ciphertext back, and a
  // secret derived from z exactly when it does not.
  lemma DecapsulatedCases(f: Primitives, s: Hashes, l: Level, d: seq<byte>, z: seq<byte>, c: seq<byte>)
    requires Suitable(f, l.K()) && Sized(s) && |z| == SYM_BYTES && |c| == l.CipherBytes()
    ensures |KemSecretKey(f, s, l, d, z)| == SecretKeyBytes(l)
    ensures Decapsulated(f, s, l, KemSecretKey(f, s, l, d, z), c) ==
            s.kdf((if Reencrypts(f, s, l, d, c) then Rederived(f, s, l, d, c)[..SYM_BYTES] else z) + s.h(c))
  {
    hide Encrypt, Decrypt, SecretKey, PublicKey, KemSecretKey;
    Fields(f, s, l, d, z);
  }

  // Whenever the message is decrypted correctly both sides hold the same secret.
  lemma DecapsulateEncapsulate(f: Primitives, s: Hashes, l: Level, d: seq<byte>, z: seq<byte>, seed: seq<byte>)
    requires Suitable(f, l.K()) && Sized(s) && |z| == SYM_BYTES
    ensures DecryptsCorrectly(f, s, l, d, seed) ==>
              var (c, k) := Encapsulated(f, s, l, PublicKey(f, l, d), seed);
              |KemSecretKey(f, s, l, d, z)| == SecretKeyBytes(l) &&
              Decapsulated(f, s, l, KemSecretKey(f, s, l, d, z), c) == k
  {
    hide Encrypt, Decrypt, SecretKey, PublicKey, KemSecretKey;
    DecapsulatedCases(f, s, l, d, z, Encapsulated(f, s, l, PublicKey(f, l, d), seed).0);
  }

  ghost predicate DecryptsCorrectly(f: Primitives, s: Hashes, l: Level, d: seq<byte>, seed: seq<byte>)
    requires Suitable(f, l.K()) && Sized(s)
  {
    var (c, _) := Encapsulated(f, s, l, PublicKey(f, l, d), seed);
    Decrypt(l, SecretKey(f, l, d), c) == s.h(seed)
  }

  ghost function Coins(f: Primitives, s: Hashes, l: Level, d: seq<byte>, seed: seq<byte>): (r: seq<byte>)
    requires Suitable(f, l.K()) && Sized(s)
  {
    PreKey(s, s.h(PublicKey(f, l, d)), s.h(seed))[SYM_BYTES..]
  }

  // The noise of this key pair with the message and coins of this encapsulation.
  ghost function KemNoise(f: Primitives, s: Hashes, l: Level, d: seq<byte>, seed: seq<byte>): (w: Vec)
    requires Suitable(f, l.K()) && Sized(s)
    ensures IsPoly(w)
  {
    DecryptionNoise(f, l, d, s.h(seed), Coins(f, s, l, d, seed))
  }

  // It alone decides whether the message is decrypted correctly.
  lemma CorrectWhenQuiet(f: Primitives, s: Hashes, l: Level, d: seq<byte>, seed: seq<byte>)
    requires Suitable(f, l.K()) && Sized(s)
    ensures DecryptsCorrectly(f, s, l, d, seed) <==>
            forall i :: 0 <= i < N ==> Tolerable(KemNoise(f, s, l, d, seed)[i], MsgBitOf(s.h(seed), i))
  {
    hide Encrypt, Decrypt, SecretKey, PublicKey, DecryptionNoise, Tolerable, MsgBitOf;
    DecryptEncrypt(f, l, d, s.h(seed), Coins(f, s, l, d, seed));
  }
}
