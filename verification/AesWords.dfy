// Loading 32-bit words into bit slices and storing them again
// (components/aes256ctr/aes256ctr.c:29-66, 273-321).
module AesWords {
  import opened AesBits
  import opened AesSbox
  import opened Aes
  import opened AesRounds

  // Byte r of a word in little-endian order.
  function Octet(w: bv32, r: nat): bv8
    requires r < 4
  {
    match r
    case 0 => (w & 0xff) as bv8
    case 1 => ((w >> 8) & 0xff) as bv8
    case 2 => ((w >> 16) & 0xff) as bv8
    case 3 => ((w >> 24) & 0xff) as bv8
  }

  // br_enc32le
  function Le(w: bv32): (b: KeyWord) {
    [Octet(w, 0), Octet(w, 1), Octet(w, 2), Octet(w, 3)]
  }

  // br_dec32le
  function Decoded(b0: bv8, b1: bv8, b2: bv8, b3: bv8): bv32 {
    (b0 as bv32) | ((b1 as bv32) << 8) | ((b2 as bv32) << 16) | ((b3 as bv32) << 24)
  }

  lemma LeDecoded(b: KeyWord)
    ensures Le(Decoded(b[0], b[1], b[2], b[3])) == b
  {
    DecodedOctets(b[0], b[1], b[2], b[3]);
    hide Octet, Decoded;
  }

  lemma DecodedOctets(b0: bv8, b1: bv8, b2: bv8, b3: bv8)
    ensures var w := Decoded(b0, b1, b2, b3); Octet(w, 0) == b0 && Octet(w, 1) == b1 && Octet(w, 2) == b2 && Octet(w, 3) == b3
  {
  }

  // br_swap32: the bytes in the opposite order.
  function Swapped(w: bv32): bv32 {
    var x := ((w & 0x00FF00FF) << 8) | ((w >> 8) & 0x00FF00FF);
    (x << 16) | (x >> 16)
  }

  lemma SwappedOctets(w: bv32)
    ensures Octet(Swapped(w), 0) == Octet(w, 3) && Octet(Swapped(w), 1) == Octet(w, 2)
    ensures Octet(Swapped(w), 2) == Octet(w, 1) && Octet(Swapped(w), 3) == Octet(w, 0)
    ensures Swapped(Swapped(w)) == w
  {
  }

  function BlockOfWords(w0: bv32, w1: bv32, w2: bv32, w3: bv32): (b: Block) {
    Le(w0) + Le(w1) + Le(w2) + Le(w3)
  }

  // ----- interleaving

  // Every byte of w moves to its own half of 16 bits.
  function Widened(w: bv32): bv64 {
    var x := w as bv64;
    var y := (x | (x << 16)) & 0x0000FFFF0000FFFF;
    (y | (y << 8)) & 0x00FF00FF00FF00FF
  }

  // One of the two words that br_aes_ct64_interleave_in makes of four.
  function Interleaved(u: bv32, v: bv32): bv64 {
    Widened(u) | (Widened(v) << 8)
  }

  function Narrowed(q: bv64): bv32 {
    var x := q & 0x00FF00FF00FF00FF;
    var y := (x | (x >> 8)) & 0x0000FFFF0000FFFF;
    ((y & 0xFFFFFFFF) as bv32) | (((y >> 16) & 0xFFFFFFFF) as bv32)
  }

  // The two words that br_aes_ct64_interleave_out takes from one.
  function EvenOut(q: bv64): bv32 {
    Narrowed(q)
  }

  function OddOut(q: bv64): bv32 {
    Narrowed(q >> 8)
  }

  // interleave_out undoes interleave_in, and the other way round.
  lemma InterleaveRoundTrip(u: bv32, v: bv32, q: bv64)
    ensures EvenOut(Interleaved(u, v)) == u && OddOut(Interleaved(u, v)) == v
    ensures Interleaved(EvenOut(q), OddOut(q)) == q
  {
  }

  // 16 for each row, 8 for the words that come second.
  function Spot(r: nat, odd: bool): (g: bv64)
    requires r < 4
    ensures g < 64
  {
    RowBits(r) | if odd then 8 else 0
  }

  lemma InterleavedBytes(u: bv32, v: bv32, r: nat)
    requires r < 4
    ensures ByteAt(Interleaved(u, v), Spot(r, false)) == Octet(u, r)
    ensures ByteAt(Interleaved(u, v), Spot(r, true)) == Octet(v, r)
  {
    match r case 0 => case 1 => case 2 => case 3 =>
  }

  // ----- a block in the slices

  lemma PlaceParts(s: Slices, r: nat, c: nat, i: bv64)
    requires r < 4 && c < 4 && i < 4
    ensures At(r, c) | i < 64 && (At(r, c) | i) & 0x38 == Spot(r, c >= 2)
    ensures Select(s, (At(r, c) | i) & 7) == Select(s, if c % 2 == 0 then i else i | 4)
  {
    LowPart(RowBits(r), ColumnBits(c), i);
    match c case 0 => case 1 => case 2 => case 3 =>
  }

  lemma LowPart(r: bv64, c: bv64, i: bv64)
    requires r & 15 == 0 && r < 64 && c & 3 == 0 && c < 16 && i < 4
    ensures (r | c | i) < 64 && (r | c | i) & 7 == (c & 4) | i && (r | c | i) & 0x38 == r | (c & 8)
  {
  }

  // The slices of interleaved words hold the block of these words.
  lemma LoadedBlock(s: Slices, i: bv64, w0: bv32, w1: bv32, w2: bv32, w3: bv32)
    requires i < 4 && Select(s, i) == Interleaved(w0, w2) && Select(s, i | 4) == Interleaved(w1, w3)
    ensures BlockOf(Ortho(s), i) == BlockOfWords(w0, w1, w2, w3)
  {
    hide Ortho, Gather, Place, Octet, Interleaved, Select;
    var b := BlockOfWords(w0, w1, w2, w3);
    forall n | 0 <= n < 16 ensures Gather(Ortho(s), Place(n, i)) == b[n] {
      LoadedByte(s, i, w0, w1, w2, w3, n);
    }
    assert forall n :: 0 <= n < 16 ==> BlockOf(Ortho(s), i)[n] == b[n];
  }

  lemma BlockByte(w0: bv32, w1: bv32, w2: bv32, w3: bv32, n: nat)
    requires n < 16
    ensures BlockOfWords(w0, w1, w2, w3)[n] ==
            Octet(if n / 4 == 0 then w0 else if n / 4 == 1 then w1 else if n / 4 == 2 then w2 else w3, n % 4)
  {
    hide Octet;
  }

  lemma LoadedByte(s: Slices, i: bv64, w0: bv32, w1: bv32, w2: bv32, w3: bv32, n: nat)
    requires i < 4 && Select(s, i) == Interleaved(w0, w2) && Select(s, i | 4) == Interleaved(w1, w3) && n < 16
    ensures Gather(Ortho(s), Place(n, i)) == BlockOfWords(w0, w1, w2, w3)[n]
  {
    hide Ortho, Gather, Octet, Interleaved, Select, ByteAt, Spot, At, BlockOfWords, Place;
    var (r, c) := (n % 4, n / 4);
    var word := if c % 2 == 0 then Interleaved(w0, w2) else Interleaved(w1, w3);
    assert Gather(Ortho(s), Place(n, i)) == ByteAt(word, Spot(r, c >= 2)) by {
      PlacedByte(s, i, n);
    }
    InterleavedBytes(w0, w2, r);
    InterleavedBytes(w1, w3, r);
    BlockByte(w0, w1, w2, w3, n);
  }

  lemma PlacedByte(s: Slices, i: bv64, n: nat)
    requires i < 4 && n < 16
    ensures Gather(Ortho(s), Place(n, i)) == ByteAt(Select(s, if n / 4 % 2 == 0 then i else i | 4), Spot(n % 4, n / 4 >= 2))
  {
    hide Ortho, Gather, Select, ByteAt, Spot, At;
    GatherOrtho(s, Place(n, i));
    PlaceParts(s, n % 4, n / 4, i);
  }

  // The words taken from the slices are those of the block.
  lemma StoredBlock(s: Slices, i: bv64)
    requires i < 4
    ensures var (a, b) := (Select(Ortho(s), i), Select(Ortho(s), i | 4));
            BlockOfWords(EvenOut(a), EvenOut(b), OddOut(a), OddOut(b)) == BlockOf(s, i)
  {
    hide Ortho, EvenOut, OddOut, Interleaved, BlockOf, BlockOfWords, Select;
    var (a, b) := (Select(Ortho(s), i), Select(Ortho(s), i | 4));
    InterleaveRoundTrip(0, 0, a);
    InterleaveRoundTrip(0, 0, b);
    OrthoInvolution(s);
    LoadedBlock(Ortho(s), i, EvenOut(a), EvenOut(b), OddOut(a), OddOut(b));
  }
}
