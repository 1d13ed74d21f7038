// Round keys in bit slices: compressed, expanded again, and their words
// (components/aes256ctr/aes256ctr.c:327-411).
module AesKeys {
  import opened AesBits
  import opened AesSbox
  import opened Aes
  import opened AesRounds
  import opened AesWords

  // ----- sub_word

  // Through ortho, the S-box and ortho again, a byte of the first word stays where it is.
  lemma SubByte(z: Slices, g: bv64)
    requires g < 64 && g & 7 == 0
    ensures ByteAt(Ortho(Circuit(Ortho(z))).q0, g) == Sbox(ByteAt(z.q0, g))
  {
    hide Ortho, Circuit, Sbox, ByteAt, Gather, Select;
    var s := Ortho(Circuit(Ortho(z)));
    SelectFirst(s, g);
    SelectFirst(z, g);
    FirstPlace(g);
    ByteAtOrtho(Circuit(Ortho(z)), 0, g);
    CircuitIsBytewise(Ortho(z), g);
    GatherOrtho(z, g);
  }

  // The first word after the three steps of sub_word.
  function SubSliced(x: bv32): bv64 {
    Ortho(Circuit(Ortho(Slices(x as bv64, 0, 0, 0, 0, 0, 0, 0)))).q0
  }

  lemma SubSlicedByte(x: bv32, g: bv64)
    requires g < 64 && g & 7 == 0
    ensures ByteAt(SubSliced(x), g) == Sbox(ByteAt(x as bv64, g))
  {
    hide Ortho, Circuit, Sbox, ByteAt;
    SubByte(Slices(x as bv64, 0, 0, 0, 0, 0, 0, 0), g);
  }

  lemma SubOctet(x: bv32, r: nat)
    requires r < 4
    ensures Octet((SubSliced(x) & 0xFFFFFFFF) as bv32, r) == Sbox(Octet(x, r))
  {
    hide SubSliced, Sbox, Octet, ByteAt, LowSpot;
    LowOctet(SubSliced(x), r);
    OctetOfWide(x, r);
    SubSlicedByte(x, LowSpot(r));
  }

  lemma SubWordSliced(x: bv32)
    ensures Le((SubSliced(x) & 0xFFFFFFFF) as bv32) == SubWord(Le(x))
  {
    hide SubSliced, Sbox, Octet;
    SubOctet(x, 0);
    SubOctet(x, 1);
    SubOctet(x, 2);
    SubOctet(x, 3);
  }

  lemma FirstPlace(g: bv64)
    requires g < 64 && g & 7 == 0
    ensures g | 0 == g && g & 0x38 == g
  {
  }

  function LowSpot(r: nat): (g: bv64)
    requires r < 4
    ensures g < 64 && g & 7 == 0 && g & 0x38 == g
  {
    match r case 0 => 0 case 1 => 8 case 2 => 16 case 3 => 24
  }

  lemma LowOctet(q: bv64, r: nat)
    requires r < 4
    ensures Octet((q & 0xFFFFFFFF) as bv32, r) == ByteAt(q, LowSpot(r))
  {
    match r case 0 => case 1 => case 2 => case 3 =>
  }

  lemma OctetOfWide(x: bv32, r: nat)
    requires r < 4
    ensures ByteAt(x as bv64, LowSpot(r)) == Octet(x, r)
  {
    match r case 0 => case 1 => case 2 => case 3 =>
  }

  lemma SelectFirst(s: Slices, g: bv64)
    requires g & 7 == 0
    ensures Select(s, g & 7) == s.q0 && Select(s, 0) == s.q0
  {
  }

  // ----- compression

  // The lowest of every four bits of a, the next of b, c and d.
  function Compressed(a: bv64, b: bv64, c: bv64, d: bv64): bv64 {
    (a & 0x1111111111111111) | (b & 0x2222222222222222) | (c & 0x4444444444444444) | (d & 0x8888888888888888)
  }

  function Mask(k: bv64): bv64
    requires k < 4
  {
    if k == 0 then 0x1111111111111111 else if k == 1 then 0x2222222222222222
    else if k == 2 then 0x4444444444444444 else 0x8888888888888888
  }

  // Bit k of every four bits.
  function Spaced(x: bv64, k: bv64): bv64
    requires k < 4
  {
    (x & Mask(k)) >> k
  }

  function Copies(y: bv64): bv64 {
    (y << 4) - y
  }

  // The same, four times.
  function Widen(x: bv64, k: bv64): bv64
    requires k < 4
  {
    Copies(Spaced(x, k))
  }

  function CompressedLow(q: Slices): bv64 {
    Compressed(q.q0, q.q1, q.q2, q.q3)
  }

  function CompressedHigh(q: Slices): bv64 {
    Compressed(q.q4, q.q5, q.q6, q.q7)
  }

  // br_aes_ct64_skey_expand for one round key
  function Expansion(low: bv64, high: bv64): Slices {
    Slices(Widen(low, 0), Widen(low, 1), Widen(low, 2), Widen(low, 3), Widen(high, 0), Widen(high, 1), Widen(high, 2), Widen(high, 3))
  }

  // All four blocks have the same bits.
  ghost predicate Repeats(x: bv64) {
    forall p: bv64 :: p < 64 ==> Pick(x, p) == Pick(x, p & 0x3c)
  }

  ghost predicate AllRepeat(q: Slices) {
    Repeats(q.q0) && Repeats(q.q1) && Repeats(q.q2) && Repeats(q.q3) && Repeats(q.q4) && Repeats(q.q5) && Repeats(q.q6) && Repeats(q.q7)
  }

  // Each bit of y has three zeros above it, which the difference fills.
  predicate Sparse(y: bv64) {
    y & 0xEEEEEEEEEEEEEEEE == 0
  }

  lemma OrIsSum(a: bv64, b: bv64)
    requires a & b == 0
    ensures a | b == a + b
  {
  }

  lemma SumIsDifference(y: bv64)
    ensures y + (y << 1) + (y << 2) + (y << 3) == (y << 4) - y
  {
  }

  lemma Disjoint(y: bv64)
    requires Sparse(y)
    ensures y & (y << 1) == 0 && (y | (y << 1)) & (y << 2) == 0 && (y | (y << 1) | (y << 2)) & (y << 3) == 0
  {
  }

  function GOr(a: bv64, b: bv64): bv64 {
    a | b
  }

  function Up(y: bv64, n: bv64): bv64
    requires n < 4
  {
    y << n
  }

  function Smeared(y: bv64): bv64 {
    GOr(GOr(GOr(y, Up(y, 1)), Up(y, 2)), Up(y, 3))
  }

  lemma FourTimes(y: bv64)
    requires Sparse(y)
    ensures Copies(y) == Smeared(y)
  {
    Disjoint(y);
    OrIsSum(y, y << 1);
    OrIsSum(y | (y << 1), y << 2);
    OrIsSum(y | (y << 1) | (y << 2), y << 3);
    SumIsDifference(y);
  }

  lemma RawOr(a: bv64, b: bv64, p: bv64)
    requires p < 64
    ensures Pick(a | b, p) == Pick(a, p) | Pick(b, p)
  {
  }

  function OrBit(a: bv8, b: bv8): bv8 {
    a | b
  }

  lemma PickOr(a: bv64, b: bv64, p: bv64)
    requires p < 64
    ensures Pick(GOr(a, b), p) == OrBit(Pick(a, p), Pick(b, p))
  {
    RawOr(a, b, p);
    hide Pick;
  }

  lemma OrOne(v: bv8)
    ensures OrBit(v, 0) == v && OrBit(0, v) == v
  {
  }

  lemma PickSparse(y: bv64, p: bv64)
    requires Sparse(y) && p < 64
    ensures p & 3 != 0 ==> Pick(y, p) == 0
  {
  }

  lemma PickUp(y: bv64, n: bv64, p: bv64)
    requires p < 64 && n < 4
    ensures Pick(Up(y, n), p) == if p < n then 0 else Pick(y, p - n)
  {
  }

  lemma PickUpSparse(y: bv64, n: bv64, p: bv64)
    requires Sparse(y) && p < 64 && n < 4
    ensures p & 0x3c < 64 && Pick(Up(y, n), p) == if p & 3 == n then Pick(y, p & 0x3c) else 0
  {
    hide Pick, Sparse, Up;
    PickUp(y, n, p);
    if p >= n {
      PickSparse(y, p - n);
    }
    GroupOf(p, n);
  }

  lemma GroupOf(p: bv64, n: bv64)
    requires p < 64 && n < 4
    ensures p & 0x3c < 64 && (p & 3 == n <==> p >= n && (p - n) & 3 == 0) && (p & 3 == n ==> p - n == p & 0x3c)
  {
  }

  // Only the shift by p & 3 has a bit at p.
  lemma PickFour(y: bv64, p: bv64)
    requires Sparse(y) && p < 64
    ensures p & 0x3c < 64 && Pick(Smeared(y), p) == Pick(y, p & 0x3c)
  {
    hide Pick, Sparse, Up, GOr, OrBit;
    UpNothing(y);
    PickUpSparse(y, 0, p);
    PickUpSparse(y, 1, p);
    PickUpSparse(y, 2, p);
    PickUpSparse(y, 3, p);
    PickOr(GOr(GOr(y, Up(y, 1)), Up(y, 2)), Up(y, 3), p);
    PickOr(GOr(y, Up(y, 1)), Up(y, 2), p);
    PickOr(y, Up(y, 1), p);
    OrOne(0);
    OrOne(Pick(y, p & 0x3c));
    LowTwo(p);
  }

  lemma UpNothing(y: bv64)
    ensures Up(y, 0) == y
  {
  }

  lemma LowTwo(p: bv64)
    ensures p & 3 == 0 || p & 3 == 1 || p & 3 == 2 || p & 3 == 3
  {
  }

  lemma PickSpaced(x: bv64, k: bv64, p: bv64)
    requires k < 4 && p < 64
    ensures Sparse(Spaced(x, k))
    ensures p & 0x3c < 64 && (p & 0x3c) | k < 64 && Pick(Spaced(x, k), p & 0x3c) == Pick(x, (p & 0x3c) | k)
  {
  }

  lemma PickWiden(x: bv64, k: bv64, p: bv64)
    requires k < 4 && p < 64
    ensures (p & 0x3c) | k < 64 && Pick(Widen(x, k), p) == Pick(x, (p & 0x3c) | k)
  {
    hide Pick, Spaced, Sparse, Smeared, Copies;
    PickSpaced(x, k, p);
    FourTimes(Spaced(x, k));
    PickFour(Spaced(x, k), p);
  }

  lemma PickCompressed(a: bv64, b: bv64, c: bv64, d: bv64, k: bv64, p: bv64)
    requires k < 4 && p < 64
    ensures (p & 0x3c) | k < 64
    ensures Pick(Compressed(a, b, c, d), (p & 0x3c) | k) == Pick(if k == 0 then a else if k == 1 then b else if k == 2 then c else d, (p & 0x3c) | k)
  {
  }

  lemma InGroup(k: bv64, p: bv64)
    requires k < 4 && p < 64
    ensures (p & 0x3c) | k < 64 && ((p & 0x3c) | k) & 0x3c == p & 0x3c
  {
  }

  lemma WidenedWord(a: bv64, b: bv64, c: bv64, d: bv64, k: bv64, x: bv64)
    requires k < 4 && x == (if k == 0 then a else if k == 1 then b else if k == 2 then c else d)
    ensures Widen(Compressed(a, b, c, d), k) == x <==> Repeats(x)
  {
    hide Pick, Widen, Compressed;
    var y := Widen(Compressed(a, b, c, d), k);
    forall p: bv64 | p < 64 ensures Pick(y, p) == Pick(x, (p & 0x3c) | k) {
      PickWiden(Compressed(a, b, c, d), k, p);
      PickCompressed(a, b, c, d, k, p);
    }
    if Repeats(x) {
      forall p: bv64 | p < 64 ensures Pick(y, p) == Pick(x, p) {
        InGroup(k, p);
        assert Pick(x, (p & 0x3c) | k) == Pick(x, ((p & 0x3c) | k) & 0x3c);
        assert Pick(x, p) == Pick(x, p & 0x3c);
      }
      SameWord(y, x);
    }
    if y == x {
      forall p: bv64 | p < 64 ensures Pick(x, p) == Pick(x, p & 0x3c) {
        InGroup(k, p);
        assert (p & 0x3c) & 0x3c == p & 0x3c;
      }
    }
  }

  // Expansion undoes the compression exactly when all blocks have the same bits.
  lemma ExpandUndoesCompress(q: Slices)
    ensures Expansion(CompressedLow(q), CompressedHigh(q)) == q <==> AllRepeat(q)
  {
    hide Widen, Compressed, Repeats;
    WidenedWord(q.q0, q.q1, q.q2, q.q3, 0, q.q0);
    WidenedWord(q.q0, q.q1, q.q2, q.q3, 1, q.q1);
    WidenedWord(q.q0, q.q1, q.q2, q.q3, 2, q.q2);
    WidenedWord(q.q0, q.q1, q.q2, q.q3, 3, q.q3);
    WidenedWord(q.q4, q.q5, q.q6, q.q7, 0, q.q4);
    WidenedWord(q.q4, q.q5, q.q6, q.q7, 1, q.q5);
    WidenedWord(q.q4, q.q5, q.q6, q.q7, 2, q.q6);
    WidenedWord(q.q4, q.q5, q.q6, q.q7, 3, q.q7);
  }

  // ----- the key schedule's slices

  // One round key for all four blocks.
  function KeySlices(w0: bv32, w1: bv32, w2: bv32, w3: bv32): Slices {
    var (a, b) := (Interleaved(w0, w2), Interleaved(w1, w3));
    Ortho(Slices(a, a, a, a, b, b, b, b))
  }

  lemma SelectSame(a: bv64, b: bv64, p: bv64)
    ensures var s := Slices(a, a, a, a, b, b, b, b);
            Select(s, p & 7) == Select(s, (p & 0x3c) & 7) && (p & 0x38) == (p & 0x3c) & 0x38
    ensures p < 4 ==> Select(Slices(a, a, a, a, b, b, b, b), p) == a && Select(Slices(a, a, a, a, b, b, b, b), p | 4) == b
  {
  }

  lemma OrthoRepeats(a: bv64, b: bv64, j: bv64)
    requires j < 8
    ensures Repeats(Select(Ortho(Slices(a, a, a, a, b, b, b, b)), j))
  {
    hide Ortho, Pick, Select;
    var s := Slices(a, a, a, a, b, b, b, b);
    forall p: bv64 | p < 64 ensures Pick(Select(Ortho(s), j), p) == Pick(Select(Ortho(s), j), p & 0x3c) {
      SelectSame(a, b, p);
      OrthoTransposes(s, j, p);
      OrthoTransposes(s, j, p & 0x3c);
    }
  }

  lemma KeySlicesRepeat(w0: bv32, w1: bv32, w2: bv32, w3: bv32)
    ensures AllRepeat(KeySlices(w0, w1, w2, w3))
  {
    var (a, b) := (Interleaved(w0, w2), Interleaved(w1, w3));
    hide Ortho, Repeats, Interleaved;
    SelectAll(Ortho(Slices(a, a, a, a, b, b, b, b)));
    hide Select;
    OrthoRepeats(a, b, 0);
    OrthoRepeats(a, b, 1);
    OrthoRepeats(a, b, 2);
    OrthoRepeats(a, b, 3);
    OrthoRepeats(a, b, 4);
    OrthoRepeats(a, b, 5);
    OrthoRepeats(a, b, 6);
    OrthoRepeats(a, b, 7);
  }

  // What aes_ctr4x adds to each of its blocks is the round key.
  lemma KeyBlock(w0: bv32, w1: bv32, w2: bv32, w3: bv32, i: bv64)
    requires i < 4
    ensures var q := KeySlices(w0, w1, w2, w3);
            BlockOf(Expansion(CompressedLow(q), CompressedHigh(q)), i) == BlockOfWords(w0, w1, w2, w3)
  {
    hide Ortho, Interleaved, BlockOf, BlockOfWords, Expansion, CompressedLow, CompressedHigh, AllRepeat, Select;
    var (a, b) := (Interleaved(w0, w2), Interleaved(w1, w3));
    KeySlicesRepeat(w0, w1, w2, w3);
    ExpandUndoesCompress(KeySlices(w0, w1, w2, w3));
    SelectSame(a, b, i);
    LoadedBlock(Slices(a, a, a, a, b, b, b, b), i, w0, w1, w2, w3);
  }
}
