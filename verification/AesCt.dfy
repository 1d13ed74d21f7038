// The block function: four blocks at a time in bit slices
// (components/aes256ctr/aes256ctr.c:243-321, 413-520).
module AesCt {
  import opened AesBits
  import opened AesSbox
  import opened Aes
  import opened AesRounds
  import opened AesWords
  import opened Buffers

  // Eight words of a buffer.
  function SlicesAt(s: seq<bv64>, o: nat): Slices
    requires o + 8 <= |s|
  {
    Slices(s[o], s[o + 1], s[o + 2], s[o + 3], s[o + 4], s[o + 5], s[o + 6], s[o + 7])
  }

  // br_aes_ct64_ortho
  method OrthoInPlace(q: array<bv64>)
    requires q.Length == 8
    modifies q
    ensures SlicesAt(q[..], 0) == Ortho(old(SlicesAt(q[..], 0)))
  {
    hide SlicesAt, Swapped1, Swapped2, Swapped4;
    Swap1InPlace(q);
    Swap2InPlace(q);
    Swap4InPlace(q);
  }

  method Swap1InPlace(q: array<bv64>)
    requires q.Length == 8
    modifies q
    ensures SlicesAt(q[..], 0) == Swapped1(old(SlicesAt(q[..], 0)))
  {
    hide Lo1, Hi1;
    q[0], q[1] := Lo1(q[0], q[1]), Hi1(q[0], q[1]);
    q[2], q[3] := Lo1(q[2], q[3]), Hi1(q[2], q[3]);
    q[4], q[5] := Lo1(q[4], q[5]), Hi1(q[4], q[5]);
    q[6], q[7] := Lo1(q[6], q[7]), Hi1(q[6], q[7]);
  }

  method Swap2InPlace(q: array<bv64>)
    requires q.Length == 8
    modifies q
    ensures SlicesAt(q[..], 0) == Swapped2(old(SlicesAt(q[..], 0)))
  {
    hide Lo2, Hi2;
    q[0], q[2] := Lo2(q[0], q[2]), Hi2(q[0], q[2]);
    q[1], q[3] := Lo2(q[1], q[3]), Hi2(q[1], q[3]);
    q[4], q[6] := Lo2(q[4], q[6]), Hi2(q[4], q[6]);
    q[5], q[7] := Lo2(q[5], q[7]), Hi2(q[5], q[7]);
  }

  method Swap4InPlace(q: array<bv64>)
    requires q.Length == 8
    modifies q
    ensures SlicesAt(q[..], 0) == Swapped4(old(SlicesAt(q[..], 0)))
  {
    hide Lo4, Hi4;
    q[0], q[4] := Lo4(q[0], q[4]), Hi4(q[0], q[4]);
    q[1], q[5] := Lo4(q[1], q[5]), Hi4(q[1], q[5]);
    q[2], q[6] := Lo4(q[2], q[6]), Hi4(q[2], q[6]);
    q[3], q[7] := Lo4(q[3], q[7]), Hi4(q[3], q[7]);
  }

  method SboxInPlace(q: array<bv64>)
    requires q.Length == 8
    modifies q
    ensures SlicesAt(q[..], 0) == Circuit(old(SlicesAt(q[..], 0)))
  {
    hide Circuit;
    var s := Circuit(Slices(q[0], q[1], q[2], q[3], q[4], q[5], q[6], q[7]));
    q[0], q[1], q[2], q[3], q[4], q[5], q[6], q[7] := s.q0, s.q1, s.q2, s.q3, s.q4, s.q5, s.q6, s.q7;
  }

  // shift_rows
  method RowsInPlace(q: array<bv64>)
    requires q.Length == 8
    modifies q
    ensures SlicesAt(q[..], 0) == RowsSliced(old(SlicesAt(q[..], 0)))
  {
    hide RowsWord;
    var i := 0;
    while i < 8
      invariant 0 <= i <= 8
      invariant forall k :: 0 <= k < 8 ==> q[k] == if k < i then RowsWord(old(q[k])) else old(q[k])
    {
      q[i] := RowsWord(q[i]);
      i := i + 1;
    }
  }

  // mix_columns
  method MixInPlace(q: array<bv64>)
    requires q.Length == 8
    modifies q
    ensures SlicesAt(q[..], 0) == MixSliced(old(SlicesAt(q[..], 0)))
  {
    hide PlainWord, CarriedWord;
    var (q0, q1, q2, q3, q4, q5, q6, q7) := (q[0], q[1], q[2], q[3], q[4], q[5], q[6], q[7]);
    q[0] := PlainWord(q7, q0);
    q[1] := CarriedWord(q0, q7, q1);
    q[2] := PlainWord(q1, q2);
    q[3] := CarriedWord(q2, q7, q3);
    q[4] := CarriedWord(q3, q7, q4);
    q[5] := PlainWord(q4, q5);
    q[6] := PlainWord(q5, q6);
    q[7] := PlainWord(q6, q7);
  }

  method KeyInPlace(q: array<bv64>, sk: array<bv64>, o: nat)
    requires q.Length == 8 && o + 8 <= sk.Length && q != sk
    modifies q
    ensures SlicesAt(q[..], 0) == KeySliced(old(SlicesAt(q[..], 0)), SlicesAt(sk[..], o))
  {
    hide GXor;
    q[0] := GXor(q[0], sk[o]);
    q[1] := GXor(q[1], sk[o + 1]);
    q[2] := GXor(q[2], sk[o + 2]);
    q[3] := GXor(q[3], sk[o + 3]);
    q[4] := GXor(q[4], sk[o + 4]);
    q[5] := GXor(q[5], sk[o + 5]);
    q[6] := GXor(q[6], sk[o + 6]);
    q[7] := GXor(q[7], sk[o + 7]);
  }

  // ----- the cipher on four blocks

  datatype Four = Four(b0: Block, b1: Block, b2: Block, b3: Block)

  function BlocksOf(s: Slices): Four {
    Four(BlockOf(s, 0), BlockOf(s, 1), BlockOf(s, 2), BlockOf(s, 3))
  }

  // The slices of the round keys hold the keys once for each block.
  predicate HoldsKeys(sk: seq<bv64>, keys: seq<Block>) {
    && |sk| == 120 && |keys| == 15
    && forall r :: 0 <= r < 15 ==> BlocksOf(SlicesAt(sk, 8 * r)) == Four(keys[r], keys[r], keys[r], keys[r])
  }

  function FourRounds(f: Four, keys: seq<Block>, n: nat): Four
    requires n < |keys|
  {
    Four(Rounds(f.b0, keys, n), Rounds(f.b1, keys, n), Rounds(f.b2, keys, n), Rounds(f.b3, keys, n))
  }

  function FourCipher(f: Four, keys: seq<Block>): Four
    requires |keys| == 15
  {
    Four(Cipher(f.b0, keys), Cipher(f.b1, keys), Cipher(f.b2, keys), Cipher(f.b3, keys))
  }

  lemma FirstStep(s: Slices, sk: seq<bv64>, keys: seq<Block>, f: Four)
    requires HoldsKeys(sk, keys) && BlocksOf(s) == f
    ensures BlocksOf(KeySliced(s, SlicesAt(sk, 0))) == FourRounds(f, keys, 0)
  {
    hide BlockOf, KeySliced, SlicesAt, AddRoundKey;
    var k := SlicesAt(sk, 8 * 0);
    KeyRefines(s, k, 0);
    KeyRefines(s, k, 1);
    KeyRefines(s, k, 2);
    KeyRefines(s, k, 3);
  }

  lemma SubStep(s: Slices, i: bv64)
    requires i < 4
    ensures BlockOf(RowsSliced(Circuit(s)), i) == ShiftRows(SubBytes(BlockOf(s, i)))
  {
    hide BlockOf, RowsSliced, Circuit, ShiftRows, SubBytes;
    SubRefines(s, i);
    RowsRefine(Circuit(s), i);
  }

  lemma MiddleBlock(s: Slices, k: Slices, i: bv64)
    requires i < 4
    ensures BlockOf(KeySliced(MixSliced(RowsSliced(Circuit(s))), k), i) == AddRoundKey(MixColumns(ShiftRows(SubBytes(BlockOf(s, i)))), BlockOf(k, i))
  {
    hide BlockOf, RowsSliced, Circuit, ShiftRows, SubBytes, MixSliced, MixColumns, KeySliced, AddRoundKey;
    SubStep(s, i);
    MixRefines(RowsSliced(Circuit(s)), i);
    KeyRefines(MixSliced(RowsSliced(Circuit(s))), k, i);
  }

  lemma MiddleStep(s: Slices, sk: seq<bv64>, keys: seq<Block>, f: Four, n: nat)
    requires HoldsKeys(sk, keys) && 0 < n < 15 && BlocksOf(s) == FourRounds(f, keys, n - 1)
    ensures BlocksOf(KeySliced(MixSliced(RowsSliced(Circuit(s))), SlicesAt(sk, 8 * n))) == FourRounds(f, keys, n)
  {
    hide BlockOf, RowsSliced, Circuit, ShiftRows, SubBytes, MixSliced, MixColumns, KeySliced, AddRoundKey, SlicesAt;
    var k := SlicesAt(sk, 8 * n);
    MiddleBlock(s, k, 0);
    MiddleBlock(s, k, 1);
    MiddleBlock(s, k, 2);
    MiddleBlock(s, k, 3);
  }

  lemma LastBlock(s: Slices, k: Slices, i: bv64)
    requires i < 4
    ensures BlockOf(KeySliced(RowsSliced(Circuit(s)), k), i) == AddRoundKey(ShiftRows(SubBytes(BlockOf(s, i))), BlockOf(k, i))
  {
    hide BlockOf, RowsSliced, Circuit, ShiftRows, SubBytes, KeySliced, AddRoundKey;
    SubStep(s, i);
    KeyRefines(RowsSliced(Circuit(s)), k, i);
  }

  lemma LastStep(s: Slices, sk: seq<bv64>, keys: seq<Block>, f: Four)
    requires HoldsKeys(sk, keys) && BlocksOf(s) == FourRounds(f, keys, 13)
    ensures BlocksOf(KeySliced(RowsSliced(Circuit(s)), SlicesAt(sk, 112))) == FourCipher(f, keys)
  {
    hide BlockOf, RowsSliced, Circuit, ShiftRows, SubBytes, KeySliced, AddRoundKey, SlicesAt, Rounds;
    var k := SlicesAt(sk, 8 * 14);
    LastBlock(s, k, 0);
    LastBlock(s, k, 1);
    LastBlock(s, k, 2);
    LastBlock(s, k, 3);
  }

  method Encrypt4(q: array<bv64>, sk: array<bv64>, ghost keys: seq<Block>)
    requires q.Length == 8 && q != sk && HoldsKeys(sk[..], keys)
    modifies q
    ensures BlocksOf(SlicesAt(q[..], 0)) == FourCipher(old(BlocksOf(SlicesAt(q[..], 0))), keys)
  {
    hide BlocksOf, KeySliced, MixSliced, RowsSliced, Circuit, SlicesAt, FourRounds, FourCipher;
    ghost var f := BlocksOf(SlicesAt(q[..], 0));
    FirstStep(SlicesAt(q[..], 0), sk[..], keys, f);
    KeyInPlace(q, sk, 0);
    var i := 1;
    while i < 14
      invariant 1 <= i <= 14 && HoldsKeys(sk[..], keys)
      invariant BlocksOf(SlicesAt(q[..], 0)) == FourRounds(f, keys, i - 1)
    {
      MiddleStep(SlicesAt(q[..], 0), sk[..], keys, f, i);
      SboxInPlace(q);
      RowsInPlace(q);
      MixInPlace(q);
      KeyInPlace(q, sk, 8 * i);
      i := i + 1;
    }
    LastStep(SlicesAt(q[..], 0), sk[..], keys, f);
    SboxInPlace(q);
    RowsInPlace(q);
    KeyInPlace(q, sk, 112);
  }

  // ----- words in and out

  function BlocksOfWords(w: seq<bv32>): Four
    requires |w| == 16
  {
    Four(BlockOfWords(w[0], w[1], w[2], w[3]), BlockOfWords(w[4], w[5], w[6], w[7]),
         BlockOfWords(w[8], w[9], w[10], w[11]), BlockOfWords(w[12], w[13], w[14], w[15]))
  }

  predicate LoadedFrom(s: Slices, w: seq<bv32>)
    requires |w| == 16
  {
    && s.q0 == Interleaved(w[0], w[2]) && s.q4 == Interleaved(w[1], w[3])
    && s.q1 == Interleaved(w[4], w[6]) && s.q5 == Interleaved(w[5], w[7])
    && s.q2 == Interleaved(w[8], w[10]) && s.q6 == Interleaved(w[9], w[11])
    && s.q3 == Interleaved(w[12], w[14]) && s.q7 == Interleaved(w[13], w[15])
  }

  lemma SelectPairs(s: Slices)
    ensures Select(s, 0) == s.q0 && Select(s, 1) == s.q1 && Select(s, 2) == s.q2 && Select(s, 3) == s.q3
    ensures Select(s, 0 | 4) == s.q4 && Select(s, 1 | 4) == s.q5 && Select(s, 2 | 4) == s.q6 && Select(s, 3 | 4) == s.q7
  {
  }

  lemma LoadedBlocks(s: Slices, w: seq<bv32>)
    requires |w| == 16 && LoadedFrom(s, w)
    ensures BlocksOf(Ortho(s)) == BlocksOfWords(w)
  {
    hide BlockOf, BlockOfWords, Ortho, Interleaved, Select;
    SelectPairs(s);
    LoadedBlock(s, 0, w[0], w[1], w[2], w[3]);
    LoadedBlock(s, 1, w[4], w[5], w[6], w[7]);
    LoadedBlock(s, 2, w[8], w[9], w[10], w[11]);
    LoadedBlock(s, 3, w[12], w[13], w[14], w[15]);
  }

  predicate PairLoaded(q: seq<bv64>, w: seq<bv32>, k: nat)
    requires k + 5 <= |q| && 4 * k + 4 <= |w|
  {
    q[k] == Interleaved(w[4 * k], w[4 * k + 2]) && q[k + 4] == Interleaved(w[4 * k + 1], w[4 * k + 3])
  }

  lemma LoadAll(q: seq<bv64>, w: seq<bv32>)
    requires |q| == 8 && |w| == 16 && forall k :: 0 <= k < 4 ==> PairLoaded(q, w, k)
    ensures LoadedFrom(SlicesAt(q, 0), w)
  {
    hide Interleaved;
    assert PairLoaded(q, w, 0) && PairLoaded(q, w, 1) && PairLoaded(q, w, 2) && PairLoaded(q, w, 3);
  }

  method Load(q: array<bv64>, w: seq<bv32>)
    requires q.Length == 8 && |w| == 16
    modifies q
    ensures LoadedFrom(SlicesAt(q[..], 0), w)
  {
    hide Interleaved, LoadedFrom;
    var i := 0;
    while i < 4
      invariant 0 <= i <= 4
      invariant forall k :: 0 <= k < i ==> PairLoaded(q[..], w, k)
    {
      ghost var was := q[..];
      q[i] := Interleaved(w[4 * i], w[4 * i + 2]);
      q[i + 4] := Interleaved(w[4 * i + 1], w[4 * i + 3]);
      forall k | 0 <= k < i ensures PairLoaded(q[..], w, k) {
        assert PairLoaded(was, w, k) && was[k] == q[k] && was[k + 4] == q[k + 4];
      }
      assert PairLoaded(q[..], w, i);
      i := i + 1;
    }
    LoadAll(q[..], w);
  }

  // The words taken out for the pair of words a and b.
  predicate StoredFrom(w: seq<bv32>, o: nat, a: bv64, b: bv64)
    requires o + 4 <= |w|
  {
    w[o] == EvenOut(a) && w[o + 1] == EvenOut(b) && w[o + 2] == OddOut(a) && w[o + 3] == OddOut(b)
  }

  lemma StoredBlocks(s: Slices, t: Slices, w: seq<bv32>)
    requires |w| == 16 && t == Ortho(s)
    requires StoredFrom(w, 0, t.q0, t.q4) && StoredFrom(w, 4, t.q1, t.q5) && StoredFrom(w, 8, t.q2, t.q6) && StoredFrom(w, 12, t.q3, t.q7)
    ensures BlocksOfWords(w) == BlocksOf(s)
  {
    hide BlockOf, BlockOfWords, Ortho, EvenOut, OddOut, Select;
    SelectPairs(t);
    StoredBlock(s, 0);
    StoredBlock(s, 1);
    StoredBlock(s, 2);
    StoredBlock(s, 3);
  }

  method Store(w: array<bv32>, q: array<bv64>)
    requires q.Length == 8 && w.Length == 16 && Apart(w, q)
    modifies w
    ensures forall k :: 0 <= k < 4 ==> StoredFrom(w[..], 4 * k, q[k], q[k + 4])
  {
    hide EvenOut, OddOut;
    var i := 0;
    while i < 4
      invariant 0 <= i <= 4
      invariant forall k :: 0 <= k < i ==> StoredFrom(w[..], 4 * k, q[k], q[k + 4])
    {
      w[4 * i] := EvenOut(q[i]);
      w[4 * i + 1] := EvenOut(q[i + 4]);
      w[4 * i + 2] := OddOut(q[i]);
      w[4 * i + 3] := OddOut(q[i + 4]);
      i := i + 1;
    }
  }

  // ----- bytes out

  function BytesOf(w: seq<bv32>): (b: seq<bv8>)
    ensures |b| == 4 * |w|
  {
    if w == [] then [] else BytesOf(w[..|w| - 1]) + Le(w[|w| - 1])
  }

  function FourBytes(f: Four): (b: seq<bv8>)
    ensures |b| == 64
  {
    f.b0 + f.b1 + f.b2 + f.b3
  }

  lemma {:induction false} BytesConcat(u: seq<bv32>, v: seq<bv32>)
    ensures BytesOf(u + v) == BytesOf(u) + BytesOf(v)
  {
    hide Le;
    if v == [] {
      assert u + v == u;
    } else {
      BytesConcat(u, v[..|v| - 1]);
      assert (u + v)[..|u + v| - 1] == u + v[..|v| - 1];
    }
  }

  lemma BytesOfFour(w: seq<bv32>)
    requires |w| == 4
    ensures BytesOf(w) == BlockOfWords(w[0], w[1], w[2], w[3])
  {
    hide Le;
    assert w[..3][..2] == w[..2] && w[..2][..1] == w[..1] && w[..1][..0] == [];
    assert BytesOf(w[..1]) == BytesOf(w[..1][..0]) + Le(w[0]);
    assert BytesOf(w[..2]) == BytesOf(w[..2][..1]) + Le(w[1]);
    assert BytesOf(w[..3]) == BytesOf(w[..3][..2]) + Le(w[2]);
  }

  lemma BytesOfBlocks(w: seq<bv32>)
    requires |w| == 16
    ensures BytesOf(w) == FourBytes(BlocksOfWords(w))
  {
    hide Le, BytesOf, BlockOfWords;
    BytesOfFour(w[..4]);
    BytesOfFour(w[4..8]);
    BytesOfFour(w[8..12]);
    BytesOfFour(w[12..]);
    BytesConcat(w[..4], w[4..8]);
    BytesConcat(w[..8], w[8..12]);
    BytesConcat(w[..12], w[12..]);
    assert w[..8] == w[..4] + w[4..8] && w[..12] == w[..8] + w[8..12] && w == w[..12] + w[12..];
  }

  // br_range_enc32le
  method Encode(out: array<bv8>, o: nat, w: array<bv32>)
    requires o + 4 * w.Length <= out.Length && Apart(out, w)
    modifies out
    ensures out[..] == Overwrite(old(out[..]), o, BytesOf(w[..]))
  {
    hide Le, Overwrite;
    ghost var was := out[..];
    OverwriteNothing(was, o, BytesOf(w[..0]));
    var i := 0;
    while i < w.Length
      invariant 0 <= i <= w.Length && out.Length == |was| && w[..] == old(w[..])
      invariant out[..] == Overwrite(was, o, BytesOf(w[..i]))
    {
      Append(was, o, BytesOf(w[..i]), Le(w[i]));
      assert w[..i + 1][..i] == w[..i];
      StoreBytes(out, o + 4 * i, Le(w[i]));
      i := i + 1;
    }
    assert w[..w.Length] == w[..];
  }

  // ----- aes_ctr4x

  // inc4_be
  function Counted(x: bv32): bv32 {
    Swapped(Swapped(x) + 4)
  }

  function Advanced(ivw: seq<bv32>): seq<bv32>
    requires |ivw| == 16
  {
    ivw[3 := Counted(ivw[3])][7 := Counted(ivw[7])][11 := Counted(ivw[11])][15 := Counted(ivw[15])]
  }

  // aes_ctr4x without the counters: encrypts the four blocks in w.
  method EncryptWords(w: array<bv32>, sk: array<bv64>, ghost keys: seq<Block>)
    requires w.Length == 16 && HoldsKeys(sk[..], keys) && Apart(w, sk)
    modifies w
    ensures BlocksOfWords(w[..]) == FourCipher(old(BlocksOfWords(w[..])), keys)
  {
    hide Ortho, SlicesAt, BlockOf, BlockOfWords, Cipher, Interleaved, EvenOut, OddOut, HoldsKeys;
    var q := new bv64[8];
    Load(q, w[..]);
    LoadedBlocks(SlicesAt(q[..], 0), w[..]);
    OrthoInPlace(q);
    Encrypt4(q, sk, keys);
    ghost var s := SlicesAt(q[..], 0);
    OrthoInPlace(q);
    Store(w, q);
    StoreAll(w[..], q[..]);
    StoredBlocks(s, SlicesAt(q[..], 0), w[..]);
  }

  lemma StoreAll(w: seq<bv32>, q: seq<bv64>)
    requires |w| == 16 && |q| == 8 && forall k :: 0 <= k < 4 ==> StoredFrom(w, 4 * k, q[k], q[k + 4])
    ensures var t := SlicesAt(q, 0);
            StoredFrom(w, 0, t.q0, t.q4) && StoredFrom(w, 4, t.q1, t.q5) && StoredFrom(w, 8, t.q2, t.q6) && StoredFrom(w, 12, t.q3, t.q7)
  {
    hide StoredFrom;
    assert StoredFrom(w, 4 * 0, q[0], q[0 + 4]) && StoredFrom(w, 4 * 1, q[1], q[1 + 4]);
    assert StoredFrom(w, 4 * 2, q[2], q[2 + 4]) && StoredFrom(w, 4 * 3, q[3], q[3 + 4]);
  }

  method Ctr4x(out: array<bv8>, o: nat, ivw: array<bv32>, sk: array<bv64>, ghost keys: seq<Block>)
    requires o + 64 <= out.Length && ivw.Length == 16 && HoldsKeys(sk[..], keys)
    requires Apart(out, ivw) && Apart(out, sk) && Apart(ivw, sk)
    modifies out, ivw
    ensures out[..] == Overwrite(old(out[..]), o, FourBytes(FourCipher(BlocksOfWords(old(ivw[..])), keys)))
    ensures ivw[..] == Advanced(old(ivw[..]))
  {
    hide Overwrite, FourCipher, BlocksOfWords, HoldsKeys, Counted, FourBytes;
    var w := new bv32[16](k requires 0 <= k < 16 reads ivw => ivw[k]);
    assert w[..] == ivw[..];
    EncryptWords(w, sk, keys);
    BytesOfBlocks(w[..]);
    Encode(out, o, w);
    ivw[3] := Counted(ivw[3]);
    ivw[7] := Counted(ivw[7]);
    ivw[11] := Counted(ivw[11]);
    ivw[15] := Counted(ivw[15]);
  }
}
