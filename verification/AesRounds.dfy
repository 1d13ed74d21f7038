// The rounds of AES on bit slices refine the rounds on blocks
// (components/aes256ctr/aes256ctr.c:273-321, 413-478).
module AesRounds {
  import opened AesBits
  import opened AesField
  import opened AesSbox
  import opened Aes
  import opened Bytes

  // ----- where the bytes of the four blocks are

  function RowBits(r: nat): (p: bv64)
    requires r < 4
  {
    match r case 0 => 0 case 1 => 16 case 2 => 32 case 3 => 48
  }

  function ColumnBits(c: nat): (p: bv64)
    requires c < 4
  {
    match c case 0 => 0 case 1 => 4 case 2 => 8 case 3 => 12
  }

  function At(r: nat, c: nat): (p: bv64)
    requires r < 4 && c < 4
    ensures p < 64 && p & 3 == 0
  {
    RowBits(r) | ColumnBits(c)
  }

  // The place of byte n of block 0: 16 for each row and 4 for each column.
  function Cell(n: nat): (p: bv64)
    requires n < 16
    ensures p < 64 && p & 3 == 0
  {
    At(n % 4, n / 4)
  }

  function Place(n: nat, i: bv64): (p: bv64)
    requires n < 16 && i < 4
    ensures p < 64
  {
    InRange(Cell(n), i);
    Cell(n) | i
  }

  lemma InRange(p: bv64, i: bv64)
    requires p < 64 && i < 4
    ensures p | i < 64
  {
  }

  // Block i of the four.
  function BlockOf(s: Slices, i: bv64): (b: Block)
    requires i < 4
  {
    seq(16, n requires 0 <= n < 16 => Gather(s, Place(n, i)))
  }

  // ----- the S-box

  lemma SubRefines(s: Slices, i: bv64)
    requires i < 4
    ensures BlockOf(Circuit(s), i) == SubBytes(BlockOf(s, i))
  {
    hide Circuit, Gather, Sbox, Place;
    forall n | 0 <= n < 16 ensures Gather(Circuit(s), Place(n, i)) == Sbox(Gather(s, Place(n, i))) {
      CircuitIsBytewise(s, Place(n, i));
    }
    var t := SubBytes(BlockOf(s, i));
    assert forall n :: 0 <= n < 16 ==> BlockOf(Circuit(s), i)[n] == t[n];
  }

  // ----- shift_rows

  function RowsWord(x: bv64): bv64 {
    (x & 0x000000000000FFFF) | ((x & 0x00000000FFF00000) >> 4) | ((x & 0x00000000000F0000) << 12)
    | ((x & 0x0000FF0000000000) >> 8) | ((x & 0x000000FF00000000) << 8)
    | ((x & 0xF000000000000000) >> 12) | ((x & 0x0FFF000000000000) << 4)
  }

  function RowsSliced(s: Slices): Slices {
    Slices(RowsWord(s.q0), RowsWord(s.q1), RowsWord(s.q2), RowsWord(s.q3), RowsWord(s.q4), RowsWord(s.q5), RowsWord(s.q6), RowsWord(s.q7))
  }

  // The place that moves to p: as many columns to the right as the number of the row.
  function RowSource(p: bv64): (o: bv64)
    requires p < 64
    ensures o < 64
  {
    (p & 0x30) | ((p + ((p & 0x30) >> 2)) & 15)
  }

  lemma PickRows(x: bv64, p: bv64)
    requires p < 64
    ensures Pick(RowsWord(x), p) == Pick(x, RowSource(p))
  {
  }

  lemma GatherRows(s: Slices, p: bv64)
    requires p < 64
    ensures Gather(RowsSliced(s), p) == Gather(s, RowSource(p))
  {
    hide Pick, RowsWord, RowSource, Join;
    PickRows(s.q0, p);
    PickRows(s.q1, p);
    PickRows(s.q2, p);
    PickRows(s.q3, p);
    PickRows(s.q4, p);
    PickRows(s.q5, p);
    PickRows(s.q6, p);
    PickRows(s.q7, p);
  }

  lemma RowAt(r: nat, c: nat)
    requires r < 4 && c < 4
    ensures RowSource(At(r, c)) == At(r, (c + r) % 4)
  {
    hide RowSource;
    RowAtBits(RowBits(r), ColumnBits(c));
    match r {
      case 0 =>
      case 1 => match c { case 0 => case 1 => case 2 => case 3 => }
      case 2 => match c { case 0 => case 1 => case 2 => case 3 => }
      case 3 => match c { case 0 => case 1 => case 2 => case 3 => }
    }
  }

  lemma RowAtBits(r: bv64, c: bv64)
    requires r < 64 && r & 15 == 0 && c < 16
    ensures r | c < 64 && RowSource(r | c) == r | ((c + (r >> 2)) & 15)
  {
  }

  lemma RowCell(n: nat)
    requires n < 16
    ensures RowSource(Cell(n)) == Cell(ShiftedFrom(n))
  {
    hide RowSource, At;
    RowAt(n % 4, n / 4);
    assert ShiftedFrom(n) % 4 == n % 4 && ShiftedFrom(n) / 4 == (n / 4 + n % 4) % 4;
  }

  lemma RowBlock(p: bv64, i: bv64)
    requires p < 64 && p & 3 == 0 && i < 4
    ensures p | i < 64 && RowSource(p | i) == RowSource(p) | i
  {
  }

  lemma RowPlace(n: nat, i: bv64)
    requires n < 16 && i < 4
    ensures RowSource(Place(n, i)) == Place(ShiftedFrom(n), i)
  {
    hide Cell, RowSource, ShiftedFrom;
    RowCell(n);
    RowBlock(Cell(n), i);
  }

  lemma RowsRefine(s: Slices, i: bv64)
    requires i < 4
    ensures BlockOf(RowsSliced(s), i) == ShiftRows(BlockOf(s, i))
  {
    hide RowsSliced, Gather, Place, RowSource, ShiftedFrom;
    forall n | 0 <= n < 16 ensures Gather(RowsSliced(s), Place(n, i)) == Gather(s, Place(ShiftedFrom(n), i)) {
      GatherRows(s, Place(n, i));
      RowPlace(n, i);
    }
    var t := ShiftRows(BlockOf(s, i));
    assert forall n :: 0 <= n < 16 ==> BlockOf(RowsSliced(s), i)[n] == t[n];
  }

  // ----- mix_columns

  function Turned16(x: bv64): bv64 {
    (x >> 16) | (x << 48)
  }

  // rotr32
  function Turned32(x: bv64): bv64 {
    (x << 32) | (x >> 32)
  }

  // A word of the result from the word q and the word below it.
  function PlainWord(below: bv64, q: bv64): bv64 {
    GXor(GXor(GXor(below, Turned16(below)), Turned16(q)), Turned32(GXor(q, Turned16(q))))
  }

  // The same where the polynomial has a term, with the word q7.
  function CarriedWord(below: bv64, top: bv64, q: bv64): bv64 {
    GXor(GXor(GXor(GXor(GXor(below, Turned16(below)), top), Turned16(top)), Turned16(q)), Turned32(GXor(q, Turned16(q))))
  }

  function MixSliced(s: Slices): Slices {
    Slices(PlainWord(s.q7, s.q0), CarriedWord(s.q0, s.q7, s.q1), PlainWord(s.q1, s.q2), CarriedWord(s.q2, s.q7, s.q3),
           CarriedWord(s.q3, s.q7, s.q4), PlainWord(s.q4, s.q5), PlainWord(s.q5, s.q6), PlainWord(s.q6, s.q7))
  }

  lemma PickTurned16(x: bv64, p: bv64)
    requires p < 64
    ensures Pick(Turned16(x), p) == Pick(x, (p + 16) & 63)
  {
  }

  lemma PickTurned32(x: bv64, p: bv64)
    requires p < 64
    ensures Pick(Turned32(x), p) == Pick(x, (p + 32) & 63)
  {
  }

  // Places one, two and three rows below p.
  predicate RowsBelow(p: bv64, p1: bv64, p2: bv64, p3: bv64) {
    p < 64 && p1 == (p + 16) & 63 && p2 == (p + 32) & 63 && p3 == (p + 48) & 63
  }

  lemma Around(p: bv64, p1: bv64, p2: bv64, p3: bv64)
    requires RowsBelow(p, p1, p2, p3)
    ensures p1 < 64 && p2 < 64 && p3 < 64 && p2 == (p + 32) & 63 && (p2 + 16) & 63 == p3 && p1 == (p + 16) & 63
  {
  }

  lemma PickFar(x: bv64, p: bv64, p1: bv64, p2: bv64, p3: bv64)
    requires RowsBelow(p, p1, p2, p3)
    ensures p2 < 64 && p3 < 64 && Pick(Turned32(GXor(x, Turned16(x))), p) == XorBit(Pick(x, p2), Pick(x, p3))
  {
    hide Pick, Turned16, Turned32, GXor, XorBit;
    Around(p, p1, p2, p3);
    PickTurned32(GXor(x, Turned16(x)), p);
    PickXor(x, Turned16(x), p2);
    PickTurned16(x, p2);
  }

  lemma PickPlain(below: bv64, q: bv64, p: bv64, p1: bv64, p2: bv64, p3: bv64)
    requires RowsBelow(p, p1, p2, p3)
    ensures p1 < 64 && p2 < 64 && p3 < 64
    ensures Pick(PlainWord(below, q), p) ==
            XorBit(XorBit(XorBit(Pick(below, p), Pick(below, p1)), Pick(q, p1)), XorBit(Pick(q, p2), Pick(q, p3)))
  {
    hide Pick, Turned16, Turned32, GXor, XorBit;
    Around(p, p1, p2, p3);
    PickFar(q, p, p1, p2, p3);
    PickTurned16(below, p);
    PickTurned16(q, p);
    PickXor(GXor(GXor(below, Turned16(below)), Turned16(q)), Turned32(GXor(q, Turned16(q))), p);
    PickXor(GXor(below, Turned16(below)), Turned16(q), p);
    PickXor(below, Turned16(below), p);
  }

  lemma PickCarried(below: bv64, top: bv64, q: bv64, p: bv64, p1: bv64, p2: bv64, p3: bv64)
    requires RowsBelow(p, p1, p2, p3)
    ensures p1 < 64 && p2 < 64 && p3 < 64
    ensures Pick(CarriedWord(below, top, q), p) ==
            XorBit(XorBit(XorBit(XorBit(XorBit(Pick(below, p), Pick(below, p1)), Pick(top, p)), Pick(top, p1)), Pick(q, p1)), XorBit(Pick(q, p2), Pick(q, p3)))
  {
    hide Pick, Turned16, Turned32, GXor, XorBit;
    Around(p, p1, p2, p3);
    PickFar(q, p, p1, p2, p3);
    PickTurned16(below, p);
    PickTurned16(top, p);
    PickTurned16(q, p);
    var near := GXor(below, Turned16(below));
    PickXor(GXor(GXor(GXor(near, top), Turned16(top)), Turned16(q)), Turned32(GXor(q, Turned16(q))), p);
    PickXor(GXor(GXor(near, top), Turned16(top)), Turned16(q), p);
    PickXor(GXor(near, top), Turned16(top), p);
    PickXor(near, top, p);
    PickXor(below, Turned16(below), p);
  }

  // Bit k of a byte.
  function BitOf(b: bv8, k: bv8): bv8
    requires k < 8
  {
    (b >> k) & 1
  }

  lemma PickSmall(x: bv64, p: bv64)
    requires p < 64
    ensures Pick(x, p) <= 1
  {
  }

  lemma PicksSmall(s: Slices, p: bv64)
    requires p < 64
    ensures && Pick(s.q0, p) <= 1 && Pick(s.q1, p) <= 1 && Pick(s.q2, p) <= 1 && Pick(s.q3, p) <= 1
            && Pick(s.q4, p) <= 1 && Pick(s.q5, p) <= 1 && Pick(s.q6, p) <= 1 && Pick(s.q7, p) <= 1
  {
    hide Pick;
    PickSmall(s.q0, p);
    PickSmall(s.q1, p);
    PickSmall(s.q2, p);
    PickSmall(s.q3, p);
    PickSmall(s.q4, p);
    PickSmall(s.q5, p);
    PickSmall(s.q6, p);
    PickSmall(s.q7, p);
  }

  lemma BitsOfJoin(b0: bv8, b1: bv8, b2: bv8, b3: bv8, b4: bv8, b5: bv8, b6: bv8, b7: bv8)
    requires b0 <= 1 && b1 <= 1 && b2 <= 1 && b3 <= 1 && b4 <= 1 && b5 <= 1 && b6 <= 1 && b7 <= 1
    ensures var b := Join(b0, b1, b2, b3, b4, b5, b6, b7);
            && b0 == BitOf(b, 0) && b1 == BitOf(b, 1) && b2 == BitOf(b, 2) && b3 == BitOf(b, 3)
            && b4 == BitOf(b, 4) && b5 == BitOf(b, 5) && b6 == BitOf(b, 6) && b7 == BitOf(b, 7)
  {
  }

  lemma JoinOfBits(b: bv8)
    ensures Join(BitOf(b, 0), BitOf(b, 1), BitOf(b, 2), BitOf(b, 3), BitOf(b, 4), BitOf(b, 5), BitOf(b, 6), BitOf(b, 7)) == b
  {
  }

  lemma GatherBits(s: Slices, p: bv64)
    requires p < 64
    ensures var b := Gather(s, p);
            && Pick(s.q0, p) == BitOf(b, 0) && Pick(s.q1, p) == BitOf(b, 1) && Pick(s.q2, p) == BitOf(b, 2) && Pick(s.q3, p) == BitOf(b, 3)
            && Pick(s.q4, p) == BitOf(b, 4) && Pick(s.q5, p) == BitOf(b, 5) && Pick(s.q6, p) == BitOf(b, 6) && Pick(s.q7, p) == BitOf(b, 7)
  {
    PicksSmall(s, p);
    hide Pick, BitOf, Join;
    BitsOfJoin(Pick(s.q0, p), Pick(s.q1, p), Pick(s.q2, p), Pick(s.q3, p), Pick(s.q4, p), Pick(s.q5, p), Pick(s.q6, p), Pick(s.q7, p));
  }

  // Bit k of 2 * a + 3 * b + c + d, where j is the bit below k, without and with the
  // reduction.
  function Plain(a: bv8, b: bv8, c: bv8, d: bv8, j: bv8, k: bv8): bv8
    requires j < 8 && k < 8
  {
    XorBit(XorBit(XorBit(BitOf(a, j), BitOf(b, j)), BitOf(b, k)), XorBit(BitOf(c, k), BitOf(d, k)))
  }

  function Carried(a: bv8, b: bv8, c: bv8, d: bv8, j: bv8, k: bv8): bv8
    requires j < 8 && k < 8
  {
    XorBit(XorBit(XorBit(XorBit(XorBit(BitOf(a, j), BitOf(b, j)), BitOf(a, 7)), BitOf(b, 7)), BitOf(b, k)), XorBit(BitOf(c, k), BitOf(d, k)))
  }

  lemma BitOfXor(x: bv8, y: bv8, k: bv8)
    requires k < 8
    ensures BitOf(ByteXor(x, y), k) == XorBit(BitOf(x, k), BitOf(y, k))
  {
  }

  lemma BitOfXTime(b: bv8, j: bv8, k: bv8)
    requires k < 8 && j == (k + 7) & 7
    ensures BitOf(XTime(b), k) == if k == 1 || k == 3 || k == 4 then XorBit(BitOf(b, j), BitOf(b, 7)) else BitOf(b, j)
  {
  }

  lemma BitOfMixed(a: bv8, b: bv8, c: bv8, d: bv8, k: bv8)
    requires k < 8
    ensures BitOf(Mixed(a, b, c, d), k) ==
            XorBit(XorBit(BitOf(XTime(a), k), XorBit(BitOf(XTime(b), k), BitOf(b, k))), XorBit(BitOf(c, k), BitOf(d, k)))
  {
    hide BitOf, ByteXor, XTime, XorBit;
    BitOfXor(ByteXor(XTime(a), ByteXor(XTime(b), b)), ByteXor(c, d), k);
    BitOfXor(XTime(a), ByteXor(XTime(b), b), k);
    BitOfXor(XTime(b), b, k);
    BitOfXor(c, d, k);
  }

  lemma Regrouped(u: bv8, v: bv8, w: bv8, x: bv8, y: bv8)
    ensures XorBit(XorBit(u, v), w) == XorBit(u, XorBit(v, w))
    ensures XorBit(XorBit(u, v), XorBit(XorBit(w, x), y)) == XorBit(XorBit(XorBit(XorBit(u, w), v), x), y)
  {
  }

  lemma PlainIsMixed(a: bv8, b: bv8, c: bv8, d: bv8, j: bv8, k: bv8)
    requires k < 8 && k != 1 && k != 3 && k != 4 && j == (k + 7) & 7
    ensures j < 8 && BitOf(Mixed(a, b, c, d), k) == Plain(a, b, c, d, j, k)
  {
    BitBelow(j, k);
    hide BitOf, Mixed, XTime, XorBit;
    BitOfMixed(a, b, c, d, k);
    BitOfXTime(a, j, k);
    BitOfXTime(b, j, k);
    Regrouped(BitOf(a, j), BitOf(b, j), BitOf(b, k), 0, 0);
  }

  lemma CarriedIsMixed(a: bv8, b: bv8, c: bv8, d: bv8, j: bv8, k: bv8)
    requires (k == 1 || k == 3 || k == 4) && j == (k + 7) & 7
    ensures j < 8 && BitOf(Mixed(a, b, c, d), k) == Carried(a, b, c, d, j, k)
  {
    BitBelow(j, k);
    hide BitOf, Mixed, XTime, XorBit;
    BitOfMixed(a, b, c, d, k);
    BitOfXTime(a, j, k);
    BitOfXTime(b, j, k);
    Regrouped(BitOf(a, j), BitOf(a, 7), BitOf(b, j), BitOf(b, 7), BitOf(b, k));
  }

  lemma BitBelow(j: bv8, k: bv8)
    requires j == (k + 7) & 7
    ensures j < 8
  {
  }

  // The bits at place p of the mixed words.
  predicate IsMixed(t: Slices, p: bv64, a: bv8, b: bv8, c: bv8, d: bv8)
    requires p < 64
  {
    && Pick(t.q0, p) == Plain(a, b, c, d, 7, 0) && Pick(t.q1, p) == Carried(a, b, c, d, 0, 1)
    && Pick(t.q2, p) == Plain(a, b, c, d, 1, 2) && Pick(t.q3, p) == Carried(a, b, c, d, 2, 3)
    && Pick(t.q4, p) == Carried(a, b, c, d, 3, 4) && Pick(t.q5, p) == Plain(a, b, c, d, 4, 5)
    && Pick(t.q6, p) == Plain(a, b, c, d, 5, 6) && Pick(t.q7, p) == Plain(a, b, c, d, 6, 7)
  }

  lemma PlainBits(below: bv64, q: bv64, a: bv8, b: bv8, c: bv8, d: bv8, j: bv8, k: bv8, p: bv64, p1: bv64, p2: bv64, p3: bv64)
    requires RowsBelow(p, p1, p2, p3) && p < 64 && p1 < 64 && p2 < 64 && p3 < 64 && j < 8 && k < 8
    requires Pick(below, p) == BitOf(a, j) && Pick(below, p1) == BitOf(b, j)
    requires Pick(q, p1) == BitOf(b, k) && Pick(q, p2) == BitOf(c, k) && Pick(q, p3) == BitOf(d, k)
    ensures Pick(PlainWord(below, q), p) == Plain(a, b, c, d, j, k)
  {
    hide Pick, PlainWord, XorBit, BitOf, RowsBelow;
    PickPlain(below, q, p, p1, p2, p3);
  }

  lemma CarriedBits(below: bv64, top: bv64, q: bv64, a: bv8, b: bv8, c: bv8, d: bv8, j: bv8, k: bv8, p: bv64, p1: bv64, p2: bv64, p3: bv64)
    requires RowsBelow(p, p1, p2, p3) && p < 64 && p1 < 64 && p2 < 64 && p3 < 64 && j < 8 && k < 8
    requires Pick(below, p) == BitOf(a, j) && Pick(below, p1) == BitOf(b, j) && Pick(top, p) == BitOf(a, 7) && Pick(top, p1) == BitOf(b, 7)
    requires Pick(q, p1) == BitOf(b, k) && Pick(q, p2) == BitOf(c, k) && Pick(q, p3) == BitOf(d, k)
    ensures Pick(CarriedWord(below, top, q), p) == Carried(a, b, c, d, j, k)
  {
    hide Pick, CarriedWord, XorBit, BitOf, RowsBelow;
    PickCarried(below, top, q, p, p1, p2, p3);
  }

  lemma MixWords(s: Slices, p: bv64, p1: bv64, p2: bv64, p3: bv64)
    requires RowsBelow(p, p1, p2, p3)
    ensures p1 < 64 && p2 < 64 && p3 < 64
    ensures IsMixed(MixSliced(s), p, Gather(s, p), Gather(s, p1), Gather(s, p2), Gather(s, p3))
  {
    Around(p, p1, p2, p3);
    hide Pick, PlainWord, CarriedWord, Plain, Carried, BitOf, Gather, RowsBelow;
    GatherBits(s, p);
    GatherBits(s, p1);
    GatherBits(s, p2);
    GatherBits(s, p3);
    var (a, b, c, d) := (Gather(s, p), Gather(s, p1), Gather(s, p2), Gather(s, p3));
    PlainBits(s.q7, s.q0, a, b, c, d, 7, 0, p, p1, p2, p3);
    CarriedBits(s.q0, s.q7, s.q1, a, b, c, d, 0, 1, p, p1, p2, p3);
    PlainBits(s.q1, s.q2, a, b, c, d, 1, 2, p, p1, p2, p3);
    CarriedBits(s.q2, s.q7, s.q3, a, b, c, d, 2, 3, p, p1, p2, p3);
    CarriedBits(s.q3, s.q7, s.q4, a, b, c, d, 3, 4, p, p1, p2, p3);
    PlainBits(s.q4, s.q5, a, b, c, d, 4, 5, p, p1, p2, p3);
    PlainBits(s.q5, s.q6, a, b, c, d, 5, 6, p, p1, p2, p3);
    PlainBits(s.q6, s.q7, a, b, c, d, 6, 7, p, p1, p2, p3);
  }

  lemma MixedByte(t: Slices, p: bv64, a: bv8, b: bv8, c: bv8, d: bv8)
    requires p < 64 && IsMixed(t, p, a, b, c, d)
    ensures Gather(t, p) == Mixed(a, b, c, d)
  {
    hide Pick, Plain, Carried, Mixed, BitOf, Join;
    PlainIsMixed(a, b, c, d, 7, 0);
    CarriedIsMixed(a, b, c, d, 0, 1);
    PlainIsMixed(a, b, c, d, 1, 2);
    CarriedIsMixed(a, b, c, d, 2, 3);
    CarriedIsMixed(a, b, c, d, 3, 4);
    PlainIsMixed(a, b, c, d, 4, 5);
    PlainIsMixed(a, b, c, d, 5, 6);
    PlainIsMixed(a, b, c, d, 6, 7);
    JoinOfBits(Mixed(a, b, c, d));
  }

  lemma GatherMix(s: Slices, p: bv64, p1: bv64, p2: bv64, p3: bv64)
    requires RowsBelow(p, p1, p2, p3)
    ensures p1 < 64 && p2 < 64 && p3 < 64 && p < 64
    ensures Gather(MixSliced(s), p) == Mixed(Gather(s, p), Gather(s, p1), Gather(s, p2), Gather(s, p3))
  {
    Around(p, p1, p2, p3);
    hide Gather, MixSliced, IsMixed, Mixed;
    MixWords(s, p, p1, p2, p3);
    MixedByte(MixSliced(s), p, Gather(s, p), Gather(s, p1), Gather(s, p2), Gather(s, p3));
  }

  lemma BelowAt(r: nat, c: nat, i: bv64)
    requires r < 4 && c < 4 && i < 4
    ensures RowsBelow(At(r, c) | i, At((r + 1) % 4, c) | i, At((r + 2) % 4, c) | i, At((r + 3) % 4, c) | i)
  {
    match r { case 0 => case 1 => case 2 => case 3 => }
  }

  lemma BelowPlace(n: nat, i: bv64)
    requires n < 16 && i < 4
    ensures RowsBelow(Place(n, i), Place(Below(n, 1), i), Place(Below(n, 2), i), Place(Below(n, 3), i))
  {
    hide At, RowsBelow;
    BelowAt(n % 4, n / 4, i);
    assert forall k :: 0 <= k < 4 ==> Below(n, k) % 4 == (n % 4 + k) % 4 && Below(n, k) / 4 == n / 4;
  }

  lemma MixRefines(s: Slices, i: bv64)
    requires i < 4
    ensures BlockOf(MixSliced(s), i) == MixColumns(BlockOf(s, i))
  {
    hide MixSliced, Gather, Place, Mixed, Below, RowsBelow;
    var b := BlockOf(s, i);
    forall n | 0 <= n < 16 ensures Gather(MixSliced(s), Place(n, i)) == Mixed(b[n], b[Below(n, 1)], b[Below(n, 2)], b[Below(n, 3)]) {
      BelowPlace(n, i);
      GatherMix(s, Place(n, i), Place(Below(n, 1), i), Place(Below(n, 2), i), Place(Below(n, 3), i));
    }
    var t := MixColumns(b);
    assert forall n :: 0 <= n < 16 ==> BlockOf(MixSliced(s), i)[n] == t[n];
  }

  // ----- add_round_key

  function KeySliced(s: Slices, k: Slices): Slices {
    Slices(GXor(s.q0, k.q0), GXor(s.q1, k.q1), GXor(s.q2, k.q2), GXor(s.q3, k.q3), GXor(s.q4, k.q4), GXor(s.q5, k.q5), GXor(s.q6, k.q6), GXor(s.q7, k.q7))
  }

  lemma JoinXor(a0: bv8, a1: bv8, a2: bv8, a3: bv8, a4: bv8, a5: bv8, a6: bv8, a7: bv8, b0: bv8, b1: bv8, b2: bv8, b3: bv8, b4: bv8, b5: bv8, b6: bv8, b7: bv8)
    requires a0 <= 1 && a1 <= 1 && a2 <= 1 && a3 <= 1 && a4 <= 1 && a5 <= 1 && a6 <= 1 && a7 <= 1
    requires b0 <= 1 && b1 <= 1 && b2 <= 1 && b3 <= 1 && b4 <= 1 && b5 <= 1 && b6 <= 1 && b7 <= 1
    ensures Join(XorBit(a0, b0), XorBit(a1, b1), XorBit(a2, b2), XorBit(a3, b3), XorBit(a4, b4), XorBit(a5, b5), XorBit(a6, b6), XorBit(a7, b7))
            == ByteXor(Join(a0, a1, a2, a3, a4, a5, a6, a7), Join(b0, b1, b2, b3, b4, b5, b6, b7))
  {
  }

  lemma GatherKey(s: Slices, k: Slices, p: bv64)
    requires p < 64
    ensures Gather(KeySliced(s, k), p) == ByteXor(Gather(s, p), Gather(k, p))
  {
    hide Pick, GXor, XorBit, Join, ByteXor;
    PicksSmall(s, p);
    PicksSmall(k, p);
    PickXor(s.q0, k.q0, p);
    PickXor(s.q1, k.q1, p);
    PickXor(s.q2, k.q2, p);
    PickXor(s.q3, k.q3, p);
    PickXor(s.q4, k.q4, p);
    PickXor(s.q5, k.q5, p);
    PickXor(s.q6, k.q6, p);
    PickXor(s.q7, k.q7, p);
    JoinXor(Pick(s.q0, p), Pick(s.q1, p), Pick(s.q2, p), Pick(s.q3, p), Pick(s.q4, p), Pick(s.q5, p), Pick(s.q6, p), Pick(s.q7, p),
            Pick(k.q0, p), Pick(k.q1, p), Pick(k.q2, p), Pick(k.q3, p), Pick(k.q4, p), Pick(k.q5, p), Pick(k.q6, p), Pick(k.q7, p));
  }

  lemma KeyRefines(s: Slices, k: Slices, i: bv64)
    requires i < 4
    ensures BlockOf(KeySliced(s, k), i) == AddRoundKey(BlockOf(s, i), BlockOf(k, i))
  {
    hide KeySliced, Gather, Place, ByteXor;
    forall n | 0 <= n < 16 ensures Gather(KeySliced(s, k), Place(n, i)) == ByteXor(Gather(s, Place(n, i)), Gather(k, Place(n, i))) {
      GatherKey(s, k, Place(n, i));
    }
    var t := AddRoundKey(BlockOf(s, i), BlockOf(k, i));
    assert forall n :: 0 <= n < 16 ==> BlockOf(KeySliced(s, k), i)[n] == t[n];
  }
}
