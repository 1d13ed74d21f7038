// The key schedule of AES-256 and its expansion into bit slices
// (components/aes256ctr/aes256ctr.c:323-411, 522-528).
module AesSchedule {
  import opened AesBits
  import opened AesSbox
  import opened AesField
  import opened Aes
  import opened AesRounds
  import opened AesWords
  import opened AesKeys
  import opened AesCt
  import opened Buffers
  import opened Bytes

  const RCON: seq<bv8> := [0x01, 0x02, 0x04, 0x08, 0x10, 0x20, 0x40, 0x80, 0x1B, 0x36]

  lemma RconIsPower(k: nat)
    requires k < 10
    ensures RCON[k] == RoundConstant(k + 1)
  {
    if k > 0 {
      RconIsPower(k - 1);
      RconStep(k);
    }
  }

  lemma RconStep(k: nat)
    requires 0 < k < 10
    ensures RCON[k] == XTime(RCON[k - 1])
  {
  }

  // ----- operations on words

  function Rotated(x: bv32): bv32 {
    (x << 24) | (x >> 8)
  }

  function XorWords(x: bv32, y: bv32): bv32 {
    x ^ y
  }

  lemma RotatedOctets(x: bv32)
    ensures Octet(Rotated(x), 0) == Octet(x, 1) && Octet(Rotated(x), 1) == Octet(x, 2)
    ensures Octet(Rotated(x), 2) == Octet(x, 3) && Octet(Rotated(x), 3) == Octet(x, 0)
  {
  }

  lemma LeRotated(x: bv32)
    ensures Le(Rotated(x)) == RotWord(Le(x))
  {
    RotatedOctets(x);
    hide Octet, Rotated;
  }

  lemma XorOctets(x: bv32, y: bv32, r: nat)
    requires r < 4
    ensures Octet(XorWords(x, y), r) == ByteXor(Octet(y, r), Octet(x, r))
  {
    match r case 0 => case 1 => case 2 => case 3 =>
  }

  lemma LeXor(x: bv32, y: bv32)
    ensures Le(XorWords(x, y)) == WordXor(Le(y), Le(x))
  {
    hide Octet, XorWords, ByteXor;
    XorOctets(x, y, 0);
    XorOctets(x, y, 1);
    XorOctets(x, y, 2);
    XorOctets(x, y, 3);
  }

  lemma ConstantOctets(b: bv8)
    ensures Octet(b as bv32, 0) == b && Octet(b as bv32, 1) == 0 && Octet(b as bv32, 2) == 0 && Octet(b as bv32, 3) == 0
  {
  }

  lemma LeConstant(b: bv8)
    ensures Le(b as bv32) == [b, 0, 0, 0]
  {
    ConstantOctets(b);
    hide Octet;
  }

  lemma WordXorSwaps(a: KeyWord, b: KeyWord)
    ensures WordXor(a, b) == WordXor(b, a)
  {
  }

  // ----- sub_word

  method SubWordOf(x: bv32) returns (r: bv32)
    ensures Le(r) == SubWord(Le(x))
  {
    hide Ortho, Circuit, Le, SubWord;
    var q := new bv64[8](_ => 0);
    q[0] := x as bv64;
    assert SlicesAt(q[..], 0) == Slices(x as bv64, 0, 0, 0, 0, 0, 0, 0);
    OrthoInPlace(q);
    SboxInPlace(q);
    OrthoInPlace(q);
    assert q[0] == SlicesAt(q[..], 0).q0;
    SubWordSliced(x);
    r := (q[0] & 0xFFFFFFFF) as bv32;
  }

  // ----- br_aes_ct64_keysched

  method Mixer(tmp: bv32, j: nat, k: nat, ghost i: nat) returns (t: bv32)
    requires i >= 8 && i < 60 && j == i % 8 && k + 1 == i / 8
    ensures Le(t) == Temp(Le(tmp), i)
  {
    hide Le, SubWord, Rotated, XorWords, RoundConstant;
    t := tmp;
    if j == 0 {
      LeRotated(tmp);
      t := SubWordOf(Rotated(tmp));
      RconIsPower(k);
      LeConstant(RCON[k]);
      LeXor(t, RCON[k] as bv32);
      WordXorSwaps(Le(t), Le(RCON[k] as bv32));
      t := XorWords(t, RCON[k] as bv32);
    } else if j == 4 {
      t := SubWordOf(t);
    }
  }

  // The words of the key in little-endian order.
  method FirstWords(skey: array<bv32>, key: seq<bv8>)
    requires |key| == 32 && skey.Length == 60
    modifies skey
    ensures forall m :: 0 <= m < 8 ==> Le(skey[m]) == Expanded(key, m)
  {
    hide Le, Decoded, Expanded;
    var i := 0;
    while i < 8
      invariant 0 <= i <= 8
      invariant forall m :: 0 <= m < i ==> Le(skey[m]) == Expanded(key, m)
    {
      skey[i] := Decoded(key[4 * i], key[4 * i + 1], key[4 * i + 2], key[4 * i + 3]);
      KeyPart(key, i);
      i := i + 1;
    }
  }

  // The words derived from them.
  method KeyWords(skey: array<bv32>, key: seq<bv8>)
    requires |key| == 32 && skey.Length == 60
    modifies skey
    ensures forall m :: 0 <= m < 60 ==> Le(skey[m]) == Expanded(key, m)
  {
    hide Le, Temp, Expanded, WordXor, XorWords;
    FirstWords(skey, key);
    var (tmp, j, k, i) := (skey[7], 0, 0, 8);
    while i < 60
      invariant 8 <= i <= 60 && j == i % 8 && k + 1 == i / 8 && tmp == skey[i - 1]
      invariant forall m :: 0 <= m < i ==> Le(skey[m]) == Expanded(key, m)
    {
      NextWord(key, i);
      tmp := Mixer(tmp, j, k, i);
      LeXor(tmp, skey[i - 8]);
      tmp := XorWords(tmp, skey[i - 8]);
      skey[i] := tmp;
      j := j + 1;
      if j == 8 {
        j, k := 0, k + 1;
      }
      i := i + 1;
    }
  }

  lemma NextWord(key: seq<bv8>, i: nat)
    requires |key| == 32 && i >= 8
    ensures Expanded(key, i) == WordXor(Expanded(key, i - 8), Temp(Expanded(key, i - 1), i))
  {
    hide WordXor, Temp;
  }

  lemma KeyPart(key: seq<bv8>, i: nat)
    requires |key| == 32 && i < 8
    ensures Le(Decoded(key[4 * i], key[4 * i + 1], key[4 * i + 2], key[4 * i + 3])) == Expanded(key, i)
  {
    hide Le, Decoded;
    LeDecoded(key[4 * i..4 * i + 4]);
  }

  function KeySlicesAt(skey: seq<bv32>, r: nat): Slices
    requires 4 * r + 4 <= |skey|
  {
    KeySlices(skey[4 * r], skey[4 * r + 1], skey[4 * r + 2], skey[4 * r + 3])
  }

  predicate Compresses(comp: seq<bv64>, skey: seq<bv32>, r: nat)
    requires 4 * r + 4 <= |skey| && 2 * r + 2 <= |comp|
  {
    comp[2 * r] == CompressedLow(KeySlicesAt(skey, r)) && comp[2 * r + 1] == CompressedHigh(KeySlicesAt(skey, r))
  }

  lemma StillCompressed(was: seq<bv64>, now: seq<bv64>, skey: seq<bv32>, r: nat)
    requires 4 * r + 4 <= |skey| && 2 * r + 2 <= |was| == |now| && was[2 * r] == now[2 * r] && was[2 * r + 1] == now[2 * r + 1]
    ensures Compresses(was, skey, r) <==> Compresses(now, skey, r)
  {
  }

  method Compress(comp: array<bv64>, skey: array<bv32>)
    requires comp.Length == 30 && skey.Length == 60 && Apart(comp, skey)
    modifies comp
    ensures forall r :: 0 <= r < 15 ==> Compresses(comp[..], skey[..], r)
  {
    hide CompressedLow, CompressedHigh, KeySlices, Compresses;
    var (i, j) := (0, 0);
    ghost var n := 0;
    while i < 60
      invariant 0 <= n <= 15 && i == 4 * n && j == 2 * n
      invariant forall r :: 0 <= r < n ==> Compresses(comp[..], skey[..], r)
    {
      var q := new bv64[8];
      ghost var was := comp[..];
      CompressOne(comp, skey, q, i, j, n);
      forall r | 0 <= r < n ensures Compresses(comp[..], skey[..], r) {
        StillCompressed(was, comp[..], skey[..], r);
      }
      i, j, n := i + 4, j + 2, n + 1;
    }
  }

  method CompressOne(comp: array<bv64>, skey: array<bv32>, q: array<bv64>, i: nat, j: nat, ghost n: nat)
    requires comp.Length == 30 && skey.Length == 60 && q.Length == 8 && q != comp && Apart(comp, skey) && Apart(q, skey)
    requires n < 15 && i == 4 * n && j == 2 * n
    modifies comp, q
    ensures Compresses(comp[..], skey[..], n)
    ensures forall m :: 0 <= m < 30 && m != j && m != j + 1 ==> comp[m] == old(comp[m])
  {
    hide Interleaved, Ortho, Compressed;
    q[0], q[4] := Interleaved(skey[i], skey[i + 2]), Interleaved(skey[i + 1], skey[i + 3]);
    q[1] := q[0];
    q[2] := q[0];
    q[3] := q[0];
    q[5] := q[4];
    q[6] := q[4];
    q[7] := q[4];
    OrthoInPlace(q);
    comp[j] := Compressed(q[0], q[1], q[2], q[3]);
    comp[j + 1] := Compressed(q[4], q[5], q[6], q[7]);
  }

  predicate ExpandedAt(sk: seq<bv64>, u: nat, x: bv64)
    requires 4 * u + 4 <= |sk|
  {
    sk[4 * u] == Widen(x, 0) && sk[4 * u + 1] == Widen(x, 1) && sk[4 * u + 2] == Widen(x, 2) && sk[4 * u + 3] == Widen(x, 3)
  }

  lemma StillExpanded(was: seq<bv64>, now: seq<bv64>, u: nat, x: bv64)
    requires 4 * u + 4 <= |was| == |now| && now[..4 * u + 4] == was[..4 * u + 4]
    ensures ExpandedAt(was, u, x) <==> ExpandedAt(now, u, x)
  {
    hide Widen;
    var n := 4 * u + 4;
    assert forall k :: 0 <= k < n ==> now[..n][k] == was[..n][k];
  }

  // br_aes_ct64_skey_expand
  method Expand(sk: array<bv64>, comp: array<bv64>)
    requires sk.Length == 120 && comp.Length == 30 && sk != comp
    modifies sk
    ensures forall u :: 0 <= u < 30 ==> ExpandedAt(sk[..], u, comp[u])
  {
    hide Widen, ExpandedAt;
    var (u, v) := (0, 0);
    while u < 30
      invariant 0 <= u <= 30 && v == 4 * u
      invariant forall m :: 0 <= m < u ==> ExpandedAt(sk[..], m, comp[m])
    {
      ghost var was := sk[..];
      ExpandOne(sk, comp[u], u, v);
      forall m | 0 <= m < u ensures ExpandedAt(sk[..], m, comp[m]) {
        assert sk[..][..4 * m + 4] == was[..4 * m + 4];
        StillExpanded(was, sk[..], m, comp[m]);
      }
      u, v := u + 1, v + 4;
    }
  }

  method ExpandOne(sk: array<bv64>, x: bv64, ghost u: nat, v: nat)
    requires v == 4 * u && v + 4 <= sk.Length
    modifies sk
    ensures ExpandedAt(sk[..], u, x)
    ensures forall m :: 0 <= m < sk.Length && !(v <= m < v + 4) ==> sk[m] == old(sk[m])
  {
    hide Widen;
    sk[v] := Widen(x, 0);
    sk[v + 1] := Widen(x, 1);
    sk[v + 2] := Widen(x, 2);
    sk[v + 3] := Widen(x, 3);
  }

  lemma RoundKeyHeld(sk: seq<bv64>, comp: seq<bv64>, skey: seq<bv32>, key: seq<bv8>, r: nat)
    requires |sk| == 120 && |comp| == 30 && |skey| == 60 && |key| == 32 && r < 15
    requires forall u :: 0 <= u < 30 ==> ExpandedAt(sk, u, comp[u])
    requires Compresses(comp, skey, r)
    requires forall m :: 0 <= m < 60 ==> Le(skey[m]) == Expanded(key, m)
    ensures var k := RoundKey(key, r); BlocksOf(SlicesAt(sk, 8 * r)) == AesCt.Four(k, k, k, k)
  {
    hide BlockOf, Le, Expanded, Widen, ExpandedAt, CompressedLow, CompressedHigh, KeySlices;
    RoundKeySlices(sk, comp, r);
    var (w0, w1, w2, w3) := (skey[4 * r], skey[4 * r + 1], skey[4 * r + 2], skey[4 * r + 3]);
    KeyBlock(w0, w1, w2, w3, 0);
    KeyBlock(w0, w1, w2, w3, 1);
    KeyBlock(w0, w1, w2, w3, 2);
    KeyBlock(w0, w1, w2, w3, 3);
  }

  lemma RoundKeySlices(sk: seq<bv64>, comp: seq<bv64>, r: nat)
    requires |sk| == 120 && |comp| == 30 && r < 15
    requires forall u :: 0 <= u < 30 ==> ExpandedAt(sk, u, comp[u])
    ensures SlicesAt(sk, 8 * r) == Expansion(comp[2 * r], comp[2 * r + 1])
  {
    hide Widen;
    assert ExpandedAt(sk, 2 * r, comp[2 * r]) && ExpandedAt(sk, 2 * r + 1, comp[2 * r + 1]);
  }

  // br_aes_ct64_ctr_init: the slices hold the round keys of FIPS 197.
  method CtrInit(sk: array<bv64>, key: seq<bv8>)
    requires sk.Length == 120 && |key| == 32
    modifies sk
    ensures HoldsKeys(sk[..], RoundKeys(key))
  {
    hide Le, Expanded, ExpandedAt, Compresses, BlockOf, RoundKey, SlicesAt;
    var skey := new bv32[60];
    KeyWords(skey, key);
    var comp := new bv64[30];
    Compress(comp, skey);
    Expand(sk, comp);
    forall r | 0 <= r < 15 ensures BlocksOf(SlicesAt(sk[..], 8 * r)) == AesCt.Four(RoundKey(key, r), RoundKey(key, r), RoundKey(key, r), RoundKey(key, r)) {
      RoundKeyHeld(sk[..], comp[..], skey[..], key, r);
    }
  }
}
