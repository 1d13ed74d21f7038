// AES-256 in counter mode as a stream (components/aes256ctr/aes256ctr.c:480-484, 522-586).
module AesCtr {
  import opened Aes
  import opened AesWords
  import opened AesCt
  import opened AesSchedule
  import opened Buffers

  // uint32_t addition
  function Plus(c: bv32, n: bv32): bv32 {
    c + n
  }

  lemma OneOne(c: bv32)
    ensures Plus(Plus(c, 1), 1) == Plus(c, 2)
  {
  }

  lemma TwoOne(c: bv32)
    ensures Plus(Plus(c, 2), 1) == Plus(c, 3)
  {
  }

  lemma ThreeOne(c: bv32)
    ensures Plus(Plus(c, 3), 1) == Plus(c, 4)
  {
  }

  lemma FourOne(c: bv32)
    ensures Plus(Plus(c, 4), 1) == Plus(Plus(c, 1), 4)
  {
  }

  lemma FourTwo(c: bv32)
    ensures Plus(Plus(c, 4), 2) == Plus(Plus(c, 2), 4)
  {
  }

  lemma FourThree(c: bv32)
    ensures Plus(Plus(c, 4), 3) == Plus(Plus(c, 3), 4)
  {
  }

  // ----- the stream

  // The nonce followed by the counter, most significant byte first.
  function CounterBlock(nonce: seq<bv8>, c: bv32): (b: Block)
    requires |nonce| == 12
  {
    nonce + [Octet(c, 3), Octet(c, 2), Octet(c, 1), Octet(c, 0)]
  }

  // n blocks of the stream from counter c on, which wraps around.
  function Stream(key: seq<bv8>, nonce: seq<bv8>, c: bv32, n: nat): (s: seq<bv8>)
    requires |key| == 32 && |nonce| == 12
    ensures |s| == 16 * n
    decreases n
  {
    if n == 0 then [] else Encrypt(key, CounterBlock(nonce, c)) + Stream(key, nonce, Plus(c, 1), n - 1)
  }

  // c after m increments
  function Later(c: bv32, m: nat): bv32
    decreases m
  {
    if m == 0 then c else Later(Plus(c, 1), m - 1)
  }

  lemma {:induction false} StreamSplits(key: seq<bv8>, nonce: seq<bv8>, c: bv32, m: nat, n: nat)
    requires |key| == 32 && |nonce| == 12
    ensures Stream(key, nonce, c, m + n) == Stream(key, nonce, c, m) + Stream(key, nonce, Later(c, m), n)
    decreases m
  {
    hide Encrypt, CounterBlock, Plus;
    if m > 0 {
      StreamSplits(key, nonce, Plus(c, 1), m - 1, n);
    }
  }

  lemma {:induction false} LaterLater(c: bv32, m: nat, n: nat)
    ensures Later(Later(c, m), n) == Later(c, m + n)
    decreases m
  {
    hide Plus;
    if m > 0 {
      LaterLater(Plus(c, 1), m - 1, n);
    }
  }

  lemma LaterTwo(c: bv32)
    ensures Later(c, 2) == Plus(c, 2)
  {
    hide Plus;
    OneOne(c);
    assert Later(c, 2) == Later(Plus(c, 1), 1);
    assert Later(Plus(c, 1), 1) == Later(Plus(c, 2), 0);
  }

  lemma LaterFour(c: bv32)
    ensures Later(c, 4) == Plus(c, 4)
  {
    hide Plus;
    OneOne(c);
    TwoOne(c);
    ThreeOne(c);
    assert Later(c, 4) == Later(Plus(c, 1), 3);
    assert Later(Plus(c, 1), 3) == Later(Plus(c, 2), 2);
    assert Later(Plus(c, 2), 2) == Later(Plus(c, 3), 1);
    assert Later(Plus(c, 3), 1) == Later(Plus(c, 4), 0);
  }

  lemma StreamStep(key: seq<bv8>, nonce: seq<bv8>, c: bv32, n: nat)
    requires |key| == 32 && |nonce| == 12
    ensures Stream(key, nonce, c, 0) == []
    ensures Stream(key, nonce, c, n + 1) == Encrypt(key, CounterBlock(nonce, c)) + Stream(key, nonce, Plus(c, 1), n)
  {
    hide Encrypt, CounterBlock, Plus;
  }

  lemma StreamTwo(key: seq<bv8>, nonce: seq<bv8>, c: bv32)
    requires |key| == 32 && |nonce| == 12
    ensures Stream(key, nonce, c, 2) == Encrypt(key, CounterBlock(nonce, c)) + Encrypt(key, CounterBlock(nonce, Plus(c, 1)))
  {
    hide Encrypt, CounterBlock, Plus, Stream;
    StreamStep(key, nonce, c, 1);
    StreamStep(key, nonce, Plus(c, 1), 0);
    StreamStep(key, nonce, Plus(Plus(c, 1), 1), 0);
  }

  lemma StreamFour(key: seq<bv8>, nonce: seq<bv8>, c: bv32)
    requires |key| == 32 && |nonce| == 12
    ensures Stream(key, nonce, c, 4) ==
            Encrypt(key, CounterBlock(nonce, c)) + Encrypt(key, CounterBlock(nonce, Plus(c, 1)))
            + Encrypt(key, CounterBlock(nonce, Plus(c, 2))) + Encrypt(key, CounterBlock(nonce, Plus(c, 3)))
  {
    hide Encrypt, CounterBlock, Plus, Stream, Later;
    OneOne(c);
    TwoOne(c);
    StreamSplits(key, nonce, c, 2, 2);
    LaterTwo(c);
    StreamTwo(key, nonce, c);
    StreamTwo(key, nonce, Plus(c, 2));
  }

  // ----- the counter words

  predicate IvHolds(ivw: seq<bv32>, o: nat, nonce: seq<bv8>, c: bv32)
    requires o + 4 <= |ivw| && |nonce| == 12
  {
    Le(ivw[o]) + Le(ivw[o + 1]) + Le(ivw[o + 2]) == nonce && ivw[o + 3] == Swapped(c)
  }

  predicate IvIs(ivw: seq<bv32>, nonce: seq<bv8>, c: bv32) {
    && |ivw| == 16 && |nonce| == 12
    && IvHolds(ivw, 0, nonce, c) && IvHolds(ivw, 4, nonce, Plus(c, 1)) && IvHolds(ivw, 8, nonce, Plus(c, 2)) && IvHolds(ivw, 12, nonce, Plus(c, 3))
  }

  lemma LeSwapped(c: bv32)
    ensures Le(Swapped(c)) == [Octet(c, 3), Octet(c, 2), Octet(c, 1), Octet(c, 0)]
  {
    SwappedOctets(c);
    hide Octet, Swapped;
  }

  lemma IvBlock(ivw: seq<bv32>, o: nat, nonce: seq<bv8>, c: bv32)
    requires o + 4 <= |ivw| && |nonce| == 12 && IvHolds(ivw, o, nonce, c)
    ensures BlockOfWords(ivw[o], ivw[o + 1], ivw[o + 2], ivw[o + 3]) == CounterBlock(nonce, c)
  {
    hide Le, Swapped, Octet;
    LeSwapped(c);
  }

  lemma CountedSwapped(c: bv32)
    ensures Counted(Swapped(c)) == Swapped(Plus(c, 4))
  {
    SwappedOctets(c);
    hide Swapped, Octet;
  }

  lemma IvBlockAdvances(ivw: seq<bv32>, o: nat, nonce: seq<bv8>, c: bv32)
    requires |ivw| == 16 && |nonce| == 12 && (o == 0 || o == 4 || o == 8 || o == 12) && IvHolds(ivw, o, nonce, c)
    ensures IvHolds(Advanced(ivw), o, nonce, Plus(c, 4))
  {
    hide Le, Swapped, Counted, Plus;
    CountedSwapped(c);
  }

  lemma IvAdvances(ivw: seq<bv32>, nonce: seq<bv8>, c: bv32)
    requires IvIs(ivw, nonce, c)
    ensures IvIs(Advanced(ivw), nonce, Plus(c, 4))
  {
    hide IvHolds, Plus;
    IvBlockAdvances(ivw, 0, nonce, c);
    IvBlockAdvances(ivw, 4, nonce, Plus(c, 1));
    IvBlockAdvances(ivw, 8, nonce, Plus(c, 2));
    IvBlockAdvances(ivw, 12, nonce, Plus(c, 3));
    FourOne(c);
    FourTwo(c);
    FourThree(c);
  }

  lemma IvBytes(ivw: seq<bv32>, key: seq<bv8>, nonce: seq<bv8>, c: bv32)
    requires |key| == 32 && IvIs(ivw, nonce, c)
    ensures FourBytes(FourCipher(BlocksOfWords(ivw), RoundKeys(key))) == Stream(key, nonce, c, 4)
  {
    hide IvHolds, BlockOfWords, CounterBlock, Cipher, RoundKeys, Stream, Plus;
    IvBlock(ivw, 0, nonce, c);
    IvBlock(ivw, 4, nonce, Plus(c, 1));
    IvBlock(ivw, 8, nonce, Plus(c, 2));
    IvBlock(ivw, 12, nonce, Plus(c, 3));
    StreamFour(key, nonce, c);
  }

  // Four counter words from cc on, for the same nonce.
  method SetIv(ivw: array<bv32>, nonce: seq<bv8>, cc: bv32)
    requires ivw.Length == 16 && |nonce| == 12
    modifies ivw
    ensures IvIs(ivw[..], nonce, cc)
  {
    hide Le, Swapped, Decoded, Plus;
    NonceWords(nonce);
    var a := Decoded(nonce[0], nonce[1], nonce[2], nonce[3]);
    var b := Decoded(nonce[4], nonce[5], nonce[6], nonce[7]);
    var c := Decoded(nonce[8], nonce[9], nonce[10], nonce[11]);
    ivw[0], ivw[1], ivw[2], ivw[3] := a, b, c, Swapped(cc);
    ivw[4], ivw[5], ivw[6], ivw[7] := a, b, c, Swapped(Plus(cc, 1));
    ivw[8], ivw[9], ivw[10], ivw[11] := a, b, c, Swapped(Plus(cc, 2));
    ivw[12], ivw[13], ivw[14], ivw[15] := a, b, c, Swapped(Plus(cc, 3));
  }

  lemma NonceWords(nonce: seq<bv8>)
    requires |nonce| == 12
    ensures Le(Decoded(nonce[0], nonce[1], nonce[2], nonce[3])) + Le(Decoded(nonce[4], nonce[5], nonce[6], nonce[7]))
            + Le(Decoded(nonce[8], nonce[9], nonce[10], nonce[11])) == nonce
  {
    hide Le, Decoded;
    LeDecoded(nonce[..4]);
    LeDecoded(nonce[4..8]);
    LeDecoded(nonce[8..]);
    assert nonce == nonce[..4] + nonce[4..8] + nonce[8..];
  }

  // aes_ctr4x in the middle of a stream
  method NextFour(out: array<bv8>, o: nat, ivw: array<bv32>, sk: array<bv64>, ghost key: seq<bv8>, ghost nonce: seq<bv8>, ghost c: bv32)
    requires o + 64 <= out.Length && ivw.Length == 16 && |key| == 32 && HoldsKeys(sk[..], RoundKeys(key)) && IvIs(ivw[..], nonce, c)
    requires Apart(out, ivw) && Apart(out, sk) && Apart(ivw, sk)
    modifies out, ivw
    ensures out[..] == Overwrite(old(out[..]), o, Stream(key, nonce, c, 4))
    ensures IvIs(ivw[..], nonce, Plus(c, 4))
  {
    hide Overwrite, HoldsKeys, RoundKeys, FourBytes, FourCipher, BlocksOfWords, IvIs, Stream, Advanced, Plus;
    IvBytes(ivw[..], key, nonce, c);
    IvAdvances(ivw[..], nonce, c);
    Ctr4x(out, o, ivw, sk, RoundKeys(key));
  }

  // ----- aes256ctr_ctx

  class Aes256Ctr {
    const sk: array<bv64>
    const ivw: array<bv32>
    ghost const key: seq<bv8>
    ghost const nonce: seq<bv8>
    ghost var c: bv32

    ghost predicate Valid()
      reads this, sk, ivw
    {
      && |key| == 32 && |nonce| == 12 && ivw.Length == 16 && Apart(ivw, sk)
      && HoldsKeys(sk[..], RoundKeys(key)) && IvIs(ivw[..], nonce, c)
    }

    // aes256ctr_init
    constructor (key: seq<bv8>, nonce: seq<bv8>)
      requires |key| == 32 && |nonce| == 12
      ensures Valid() && fresh(sk) && fresh(ivw) && this.key == key && this.nonce == nonce && c == 0
    {
      hide HoldsKeys, RoundKeys, IvIs;
      sk := new bv64[120];
      ivw := new bv32[16];
      this.key, this.nonce, c := key, nonce, 0;
      new;
      CtrInit(sk, key);
      SetIv(ivw, nonce, 0);
    }

    // aes256ctr_squeezeblocks: the next 4 * nblocks blocks of the stream.
    method SqueezeBlocks(out: array<bv8>, nblocks: nat)
      requires Valid() && 64 * nblocks <= out.Length && Apart(out, ivw) && Apart(out, sk) && Apart(out, this)
      modifies this, ivw, out
      ensures Valid() && c == Later(old(c), 4 * nblocks)
      ensures out[..] == Overwrite(old(out[..]), 0, Stream(key, nonce, old(c), 4 * nblocks))
    {
      hide HoldsKeys, RoundKeys, IvIs, Stream, Later, Overwrite;
      SqueezeInto(out, nblocks, ivw, sk, key, nonce, c);
      c := Later(c, 4 * nblocks);
    }
  }

  method SqueezeInto(out: array<bv8>, nblocks: nat, ivw: array<bv32>, sk: array<bv64>, ghost key: seq<bv8>, ghost nonce: seq<bv8>, ghost c0: bv32)
    requires ivw.Length == 16 && |key| == 32 && |nonce| == 12 && HoldsKeys(sk[..], RoundKeys(key)) && IvIs(ivw[..], nonce, c0)
    requires 64 * nblocks <= out.Length && Apart(out, ivw) && Apart(out, sk) && Apart(ivw, sk)
    modifies ivw, out
    ensures IvIs(ivw[..], nonce, Later(c0, 4 * nblocks))
    ensures out[..] == Overwrite(old(out[..]), 0, Stream(key, nonce, c0, 4 * nblocks))
  {
    hide HoldsKeys, RoundKeys, IvIs, Overwrite, Stream, Later, Plus;
    ghost var was, c := out[..], c0;
    OverwriteNothing(was, 0, Stream(key, nonce, c0, 0));
    LaterNothing(c);
    var i := 0;
    while i < nblocks
      invariant 0 <= i <= nblocks && HoldsKeys(sk[..], RoundKeys(key)) && IvIs(ivw[..], nonce, c)
      invariant c == Later(c0, 4 * i)
      invariant out[..] == Overwrite(was, 0, Stream(key, nonce, c0, 4 * i))
    {
      OneMore(was, key, nonce, c0, c, 4 * i);
      NextFour(out, 64 * i, ivw, sk, key, nonce, c);
      c := Plus(c, 4);
      i := i + 1;
    }
  }

  lemma LaterNothing(c: bv32)
    ensures Later(c, 0) == c
  {
  }

  lemma OverwriteAll(was: seq<bv8>, s: seq<bv8>)
    requires |was| == |s|
    ensures Overwrite(was, 0, s) == s
  {
  }

  // Four blocks more, appended to what has been written.
  lemma OneMore(was: seq<bv8>, key: seq<bv8>, nonce: seq<bv8>, c0: bv32, c: bv32, n: nat)
    requires |key| == 32 && |nonce| == 12 && c == Later(c0, n) && 16 * n + 64 <= |was|
    ensures Later(c0, n + 4) == Plus(c, 4)
    ensures Overwrite(Overwrite(was, 0, Stream(key, nonce, c0, n)), 16 * n, Stream(key, nonce, c, 4)) == Overwrite(was, 0, Stream(key, nonce, c0, n + 4))
  {
    hide Stream, Overwrite, Later, Plus;
    LaterLater(c0, n, 4);
    LaterFour(c);
    StreamSplits(key, nonce, c0, n, 4);
    Append(was, 0, Stream(key, nonce, c0, n), Stream(key, nonce, c, 4));
  }

  // ----- aes256ctr_prf

  // The number of groups of four blocks that cover len bytes.
  function Groups(len: nat): nat {
    (len + 63) / 64
  }

  function PrfBytes(key: seq<bv8>, nonce: seq<bv8>, len: nat): (s: seq<bv8>)
    requires |key| == 32 && |nonce| == 12
    ensures |s| == len
  {
    Stream(key, nonce, 0, 4 * Groups(len))[..len]
  }

  // br_aes_ct64_ctr_run with counter 0, after br_aes_ct64_ctr_init.
  method Prf(out: array<bv8>, key: seq<bv8>, nonce: seq<bv8>)
    requires |key| == 32 && |nonce| == 12
    modifies out
    ensures out[..] == PrfBytes(key, nonce, out.Length)
  {
    hide HoldsKeys, RoundKeys, IvIs, Overwrite, Stream, Later, Plus;
    var sk := new bv64[120];
    CtrInit(sk, key);
    var ivw := new bv32[16];
    SetIv(ivw, nonce, 0);
    ghost var was, c := out[..], 0;
    var (pos, len) := (0, out.Length);
    ghost var n := 0;
    OverwriteNothing(was, 0, Stream(key, nonce, 0, 0));
    LaterNothing(0);
    while len > 64
      invariant len >= 0 && pos + len == out.Length == |was| && pos == 64 * n && (out.Length > 0 ==> len > 0)
      invariant HoldsKeys(sk[..], RoundKeys(key)) && IvIs(ivw[..], nonce, c) && c == Later(0, 4 * n)
      invariant out[..] == Overwrite(was, 0, Stream(key, nonce, 0, 4 * n))
    {
      OneMore(was, key, nonce, 0, c, 4 * n);
      NextFour(out, pos, ivw, sk, key, nonce, c);
      c := Plus(c, 4);
      pos, len, n := pos + 64, len - 64, n + 1;
    }
    if len > 0 {
      var tmp := new bv8[64];
      ghost var t := tmp[..];
      NextFour(tmp, 0, ivw, sk, key, nonce, c);
      OverwriteAll(t, Stream(key, nonce, c, 4));
      Append(was, 0, Stream(key, nonce, 0, 4 * n), tmp[..len]);
      StoreBytes(out, pos, tmp[..len]);
      LastBytes(key, nonce, c, n, len);
      OverwriteAll(was, Stream(key, nonce, 0, 4 * n) + tmp[..len]);
    } else {
      OverwriteAll(was, Stream(key, nonce, 0, 4 * n));
    }
  }

  lemma LastBytes(key: seq<bv8>, nonce: seq<bv8>, c: bv32, n: nat, len: nat)
    requires |key| == 32 && |nonce| == 12 && c == Later(0, 4 * n) && 0 < len <= 64
    ensures Stream(key, nonce, 0, 4 * n) + Stream(key, nonce, c, 4)[..len] == PrfBytes(key, nonce, 64 * n + len)
  {
    hide Stream, Later;
    StreamSplits(key, nonce, 0, 4 * n, 4);
    assert Groups(64 * n + len) == n + 1;
  }

  // Output of any length is the front of what squeezeblocks gives for enough blocks.
  lemma PrfIsPrefix(key: seq<bv8>, nonce: seq<bv8>, len: nat, nblocks: nat)
    requires |key| == 32 && |nonce| == 12 && len <= 64 * nblocks
    ensures PrfBytes(key, nonce, len) == Stream(key, nonce, 0, 4 * nblocks)[..len]
  {
    hide Stream, Later;
    var g := Groups(len);
    StreamSplits(key, nonce, 0, 4 * g, 4 * (nblocks - g));
    assert 4 * g + 4 * (nblocks - g) == 4 * nblocks;
  }
}
