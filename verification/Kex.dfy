// Key exchange on top of the KEM, with one side or both sides authenticated
// (components/kex/kex.c).
module Kex {
  import opened Packing
  import opened Indcpa
  import opened Kem

  // One party's long-term or ephemeral key generation: seed d, rejection secret z.
  datatype KeySeed = KeySeed(d: seq<byte>, z: seq<byte>)

  ghost predicate Setting(f: Primitives, s: Hashes, l: Level) {
    Suitable(f, l.K()) && Sized(s)
  }

  // kex_uake_initA and kex_ake_initA.
  method InitA(f: Primitives, s: Hashes, l: Level, own: KeySeed, coins: seq<byte>, pkb: seq<byte>)
    returns (send: seq<byte>, tk: seq<byte>, sk: seq<byte>)
    requires Setting(f, s, l) && |own.z| == SYM_BYTES && |pkb| == l.PublicKeyBytes()
    ensures |sk| == SecretKeyBytes(l) && sk == KemSecretKey(f, s, l, own.d, own.z)
    ensures send == PublicKey(f, l, own.d) + Encapsulated(f, s, l, pkb, coins).0
    ensures tk == Encapsulated(f, s, l, pkb, coins).1
  {
    hide PublicKey, Encapsulated, KemSecretKey;
    var pk, ct;
    pk, sk := KemKeypair(f, s, l, own.d, own.z);
    ct, tk := KemEnc(f, s, l, pkb, coins);
    send := pk + ct;
  }

  method UakeSharedB(f: Primitives, s: Hashes, l: Level, recv: seq<byte>, skb: seq<byte>, coins: seq<byte>)
    returns (send: seq<byte>, k: seq<byte>)
    requires Setting(f, s, l) && |recv| == l.PublicKeyBytes() + l.CipherBytes() && |skb| == SecretKeyBytes(l)
    ensures var n := l.PublicKeyBytes();
            var (c, b1) := Encapsulated(f, s, l, recv[..n], coins);
            send == c && k == s.kdf(b1 + Decapsulated(f, s, l, skb, recv[n..]))
  {
    hide Encapsulated, Decapsulated;
    var b1, b2;
    send, b1 := KemEnc(f, s, l, recv[..l.PublicKeyBytes()], coins);
    b2 := KemDec(f, s, l, recv[l.PublicKeyBytes()..], skb);
    k := s.kdf(b1 + b2);
  }

  method UakeSharedA(f: Primitives, s: Hashes, l: Level, recv: seq<byte>, tk: seq<byte>, sk: seq<byte>) returns (k: seq<byte>)
    requires Setting(f, s, l) && |recv| == l.CipherBytes() && |sk| == SecretKeyBytes(l)
    ensures k == s.kdf(Decapsulated(f, s, l, sk, recv) + tk)
  {
    hide Decapsulated;
    var b1 := KemDec(f, s, l, recv, sk);
    k := s.kdf(b1 + tk);
  }

  method AkeSharedB(f: Primitives, s: Hashes, l: Level, recv: seq<byte>, skb: seq<byte>, pka: seq<byte>, coins: seq<byte>, coins': seq<byte>)
    returns (send: seq<byte>, k: seq<byte>)
    requires Setting(f, s, l) && |recv| == l.PublicKeyBytes() + l.CipherBytes() && |skb| == SecretKeyBytes(l) && |pka| == l.PublicKeyBytes()
    ensures var n := l.PublicKeyBytes();
            var (c, b1) := Encapsulated(f, s, l, recv[..n], coins);
            var (c', b2) := Encapsulated(f, s, l, pka, coins');
            send == c + c' && k == s.kdf(b1 + b2 + Decapsulated(f, s, l, skb, recv[n..]))
  {
    hide Encapsulated, Decapsulated;
    var c, c', b1, b2, b3;
    c, b1 := KemEnc(f, s, l, recv[..l.PublicKeyBytes()], coins);
    c', b2 := KemEnc(f, s, l, pka, coins');
    send := c + c';
    b3 := KemDec(f, s, l, recv[l.PublicKeyBytes()..], skb);
    k := s.kdf(b1 + b2 + b3);
  }

  method AkeSharedA(f: Primitives, s: Hashes, l: Level, recv: seq<byte>, tk: seq<byte>, sk: seq<byte>, ska: seq<byte>) returns (k: seq<byte>)
    requires Setting(f, s, l) && |recv| == 2 * l.CipherBytes() && |sk| == SecretKeyBytes(l) && |ska| == SecretKeyBytes(l)
    ensures k == s.kdf(Decapsulated(f, s, l, sk, recv[..l.CipherBytes()]) +
                       Decapsulated(f, s, l, ska, recv[l.CipherBytes()..]) + tk)
  {
    hide Decapsulated;
    var b1 := KemDec(f, s, l, recv[..l.CipherBytes()], sk);
    var b2 := KemDec(f, s, l, recv[l.CipherBytes()..], ska);
    k := s.kdf(b1 + b2 + tk);
  }

  // ----- honest runs end with equal keys

  // A full run of the exchange that authenticates B only; a and b are the keys
  // both sides derive.
  method UakeRun(f: Primitives, s: Hashes, l: Level, eph: KeySeed, bob: KeySeed, coinsA: seq<byte>, coinsB: seq<byte>)
    returns (a: seq<byte>, b: seq<byte>)
    requires Setting(f, s, l) && |eph.z| == SYM_BYTES && |bob.z| == SYM_BYTES
    ensures DecryptsCorrectly(f, s, l, bob.d, coinsA) && DecryptsCorrectly(f, s, l, eph.d, coinsB) ==>
              a == b == s.kdf(Encapsulated(f, s, l, PublicKey(f, l, eph.d), coinsB).1 + Encapsulated(f, s, l, PublicKey(f, l, bob.d), coinsA).1)
  {
    hide PublicKey, Encapsulated, Decapsulated, DecryptsCorrectly, KemSecretKey, Setting;
    assert Setting(f, s, l) ==> Suitable(f, l.K()) && Sized(s) by { SettingMeans(f, s, l); }
    var pkb, skb := KemKeypair(f, s, l, bob.d, bob.z);
    var send, tk, sk := InitA(f, s, l, eph, coinsA, pkb);
    var reply;
    reply, b := UakeSharedB(f, s, l, send, skb, coinsB);
    Pieces(PublicKey(f, l, eph.d), Encapsulated(f, s, l, pkb, coinsA).0);
    DecapsulateEncapsulate(f, s, l, bob.d, bob.z, coinsA);
    DecapsulateEncapsulate(f, s, l, eph.d, eph.z, coinsB);
    a := UakeSharedA(f, s, l, reply, tk, sk);
  }

  // And of the exchange that authenticates both.
  method AkeRun(f: Primitives, s: Hashes, l: Level, eph: KeySeed, alice: KeySeed, bob: KeySeed,
                coinsA: seq<byte>, coinsB: seq<byte>, coinsB': seq<byte>)
    returns (a: seq<byte>, b: seq<byte>)
    requires Setting(f, s, l) && |eph.z| == SYM_BYTES && |alice.z| == SYM_BYTES && |bob.z| == SYM_BYTES
    ensures (DecryptsCorrectly(f, s, l, bob.d, coinsA) && DecryptsCorrectly(f, s, l, eph.d, coinsB)
             && DecryptsCorrectly(f, s, l, alice.d, coinsB')) ==>
              a == b == s.kdf(Encapsulated(f, s, l, PublicKey(f, l, eph.d), coinsB).1 +
                              Encapsulated(f, s, l, PublicKey(f, l, alice.d), coinsB').1 +
                              Encapsulated(f, s, l, PublicKey(f, l, bob.d), coinsA).1)
  {
    hide PublicKey, Encapsulated, Decapsulated, DecryptsCorrectly, KemSecretKey, Setting;
    assert Setting(f, s, l) ==> Suitable(f, l.K()) && Sized(s) by { SettingMeans(f, s, l); }
    var pka, ska := KemKeypair(f, s, l, alice.d, alice.z);
    var pkb, skb := KemKeypair(f, s, l, bob.d, bob.z);
    var send, tk, sk := InitA(f, s, l, eph, coinsA, pkb);
    var reply;
    reply, b := AkeSharedB(f, s, l, send, skb, pka, coinsB, coinsB');
    Pieces(PublicKey(f, l, eph.d), Encapsulated(f, s, l, pkb, coinsA).0);
    Pieces(Encapsulated(f, s, l, PublicKey(f, l, eph.d), coinsB).0, Encapsulated(f, s, l, pka, coinsB').0);
    DecapsulateEncapsulate(f, s, l, bob.d, bob.z, coinsA);
    DecapsulateEncapsulate(f, s, l, eph.d, eph.z, coinsB);
    DecapsulateEncapsulate(f, s, l, alice.d, alice.z, coinsB');
    a := AkeSharedA(f, s, l, reply, tk, sk, ska);
  }

  lemma SettingMeans(f: Primitives, s: Hashes, l: Level)
    ensures Setting(f, s, l) == (Suitable(f, l.K()) && Sized(s))
  {
  }

  lemma Pieces(x: seq<byte>, y: seq<byte>)
    ensures (x + y)[..|x|] == x && (x + y)[|x|..] == y
  {
  }
}
