// Centred binomial noise, counted in whole words (components/cbd/cbd.c).
module Cbd {
  import opened Reduce
  import opened RingQ
  import opened Packing
  import opened Message

  // Bit k of a buffer, as 0 or 1.
  function BitAt(buf: seq<byte>, k: nat): (r: int)
    requires k < 8 * |buf|
    ensures 0 <= r <= 1
  {
    if Bit(buf[k / 8], k % 8) then 1 else 0
  }

  // The bits from k on, counted.
  function BitCount(buf: seq<byte>, k: nat, n: nat): (r: int)
    requires k + n <= 8 * |buf|
    ensures 0 <= r <= n
    decreases n
  {
    if n == 0 then 0 else BitAt(buf, k) + BitCount(buf, k + 1, n - 1)
  }

  // Coefficient n of the binomial distribution: two runs of eta bits, subtracted.
  function Binomial(buf: seq<byte>, eta: nat, n: nat): (r: int)
    requires 2 * eta * n + 2 * eta <= 8 * |buf|
    ensures -(eta as int) <= r <= eta
  {
    BitCount(buf, 2 * eta * n, eta) - BitCount(buf, 2 * eta * n + eta, eta)
  }

  // ----- eta = 2: eight coefficients from a 32-bit word

  function Load32(x: seq<byte>): bv32
    requires |x| == 4
  {
    (x[0] as bv32) | ((x[1] as bv32) << 8) | ((x[2] as bv32) << 16) | ((x[3] as bv32) << 24)
  }

  // The sums of neighbouring bits.
  function PairSums(t: bv32): bv32 {
    (t & 0x55555555) + ((t >> 1) & 0x55555555)
  }

  // The two-bit field at bit 2 * j.
  function Field2(d: bv32, j: nat): bv32
    requires j < 16
  {
    match j
    case 0 => d & 3 case 1 => (d >> 2) & 3 case 2 => (d >> 4) & 3 case 3 => (d >> 6) & 3
    case 4 => (d >> 8) & 3 case 5 => (d >> 10) & 3 case 6 => (d >> 12) & 3 case 7 => (d >> 14) & 3
    case 8 => (d >> 16) & 3 case 9 => (d >> 18) & 3 case 10 => (d >> 20) & 3 case 11 => (d >> 22) & 3
    case 12 => (d >> 24) & 3 case 13 => (d >> 26) & 3 case 14 => (d >> 28) & 3 case _ => (d >> 30) & 3
  }

  function BitIn(x: seq<byte>, k: nat): bool
    requires k < 8 * |x|
  {
    Bit(x[k / 8], k % 8)
  }

  // Every field counts the two bits it stands for.
  lemma FieldCounts(x: seq<byte>, j: nat)
    requires |x| == 4 && j < 16
    ensures Number(Field2(PairSums(Load32(x)), j)) == One(BitIn(x, 2 * j)) + One(BitIn(x, 2 * j + 1))
  {
    if j < 8 {
      FieldCountsLow(x, j);
    } else if j < 12 {
      FieldCountsHigh(x, j);
    } else {
      FieldCountsTop(x, j);
    }
  }

  lemma FieldCountsLow(x: seq<byte>, j: nat)
    requires |x| == 4 && j < 8
    ensures Number(Field2(PairSums(Load32(x)), j)) == One(BitIn(x, 2 * j)) + One(BitIn(x, 2 * j + 1))
  {
    match j { case 0 => case 1 => case 2 => case 3 => case 4 => case 5 => case 6 => case _ => }
  }

  lemma FieldCountsHigh(x: seq<byte>, j: nat)
    requires |x| == 4 && 8 <= j < 12
    ensures Number(Field2(PairSums(Load32(x)), j)) == One(BitIn(x, 2 * j)) + One(BitIn(x, 2 * j + 1))
  {
    match j { case 8 => case 9 => case 10 => case _ => }
  }

  lemma FieldCountsTop(x: seq<byte>, j: nat)
    requires |x| == 4 && 12 <= j < 16
    ensures Number(Field2(PairSums(Load32(x)), j)) == One(BitIn(x, 2 * j)) + One(BitIn(x, 2 * j + 1))
  {
    match j { case 12 => case 13 => case 14 => case _ => }
  }

  // The conversion of a field to int16_t; fields are below 8.
  function Number(x: bv32): int {
    if x == 0 then 0 else if x == 1 then 1 else if x == 2 then 2 else if x == 3 then 3
    else if x == 4 then 4 else if x == 5 then 5 else if x == 6 then 6 else 7
  }

  function One(b: bool): int {
    if b then 1 else 0
  }

  lemma Coefficient2(buf: seq<byte>, i: nat, j: nat)
    requires |buf| == 128 && i < 32 && j < 8
    ensures var d := PairSums(Load32(buf[4 * i..4 * i + 4]));
            Number(Field2(d, 2 * j)) - Number(Field2(d, 2 * j + 1)) == Binomial(buf, 2, 8 * i + j)
  {
    hide *;
    FieldNumber2(buf, i, 2 * j);
    FieldNumber2(buf, i, 2 * j + 1);
    Runs(buf, 2, 8 * i + j, 32 * i + 4 * j);
  }

  lemma FieldNumber2(buf: seq<byte>, i: nat, l: nat)
    requires 4 * i + 4 <= |buf| && l < 16
    ensures Number(Field2(PairSums(Load32(buf[4 * i..4 * i + 4])), l)) == BitCount(buf, 32 * i + 2 * l, 2)
  {
    hide *;
    FieldCounts(buf[4 * i..4 * i + 4], l);
    WordBits(buf, i, 2 * l);
  }

  lemma Runs(buf: seq<byte>, eta: nat, n: nat, k: nat)
    requires k == 2 * eta * n && k + 2 * eta <= 8 * |buf|
    ensures Binomial(buf, eta, n) == BitCount(buf, k, eta) - BitCount(buf, k + eta, eta)
  {
  }

  lemma WordBits(buf: seq<byte>, i: nat, l: nat)
    requires 4 * i + 4 <= |buf| && l + 2 <= 32
    ensures var x := buf[4 * i..4 * i + 4];
            One(BitIn(x, l)) + One(BitIn(x, l + 1)) == BitCount(buf, 32 * i + l, 2)
  {
    var x := buf[4 * i..4 * i + 4];
    hide *;
    WordBit(buf, i, l);
    WordBit(buf, i, l + 1);
    TwoBits(buf, 32 * i + l);
  }

  lemma WordBit(buf: seq<byte>, i: nat, l: nat)
    requires 4 * i + 4 <= |buf| && l < 32
    ensures BitAt(buf, 32 * i + l) == One(BitIn(buf[4 * i..4 * i + 4], l))
  {
    hide Bit;
    assert (32 * i + l) / 8 == 4 * i + l / 8 && (32 * i + l) % 8 == l % 8;
  }

  lemma FirstBit(buf: seq<byte>, k: nat, n: nat)
    requires k + n <= 8 * |buf| && n > 0
    ensures BitCount(buf, k, n) == BitAt(buf, k) + BitCount(buf, k + 1, n - 1)
  {
    hide BitAt;
  }

  lemma TwoBits(buf: seq<byte>, k: nat)
    requires k + 2 <= 8 * |buf|
    ensures BitCount(buf, k, 2) == BitAt(buf, k) + BitAt(buf, k + 1)
  {
    hide BitAt;
    assert BitCount(buf, k + 1, 1) == BitAt(buf, k + 1) + BitCount(buf, k + 2, 0);
  }

  method Cbd2(r: array<int16>, buf: seq<byte>)
    requires r.Length == N && |buf| == 2 * N / 4
    modifies r
    ensures forall n :: 0 <= n < N ==> r[n] == Binomial(buf, 2, n)
  {
    hide Binomial, Field2, PairSums, Load32, Number;
    var i := 0;
    while i < N / 8
      invariant 0 <= i <= N / 8
      invariant forall n :: 0 <= n < 8 * i ==> r[n] == Binomial(buf, 2, n)
    {
      var d := PairSums(Load32(buf[4 * i..4 * i + 4]));
      var j := 0;
      while j < 8
        invariant 0 <= j <= 8
        invariant forall n :: 0 <= n < 8 * i + j ==> r[n] == Binomial(buf, 2, n)
      {
        Coefficient2(buf, i, j);
        var a, b := Number(Field2(d, 2 * j)), Number(Field2(d, 2 * j + 1));
        r[8 * i + j] := a - b;
        j := j + 1;
      }
      i := i + 1;
    }
  }

  // ----- eta = 3: four coefficients from a 24-bit word

  function Load24(x: seq<byte>): bv32
    requires |x| == 3
  {
    (x[0] as bv32) | ((x[1] as bv32) << 8) | ((x[2] as bv32) << 16)
  }

  function TripleSums(t: bv32): bv32 {
    (t & 0x00249249) + ((t >> 1) & 0x00249249) + ((t >> 2) & 0x00249249)
  }

  // The three-bit field at bit 3 * j.
  function Field3(d: bv32, j: nat): bv32
    requires j < 8
  {
    match j
    case 0 => d & 7 case 1 => (d >> 3) & 7 case 2 => (d >> 6) & 7 case 3 => (d >> 9) & 7
    case 4 => (d >> 12) & 7 case 5 => (d >> 15) & 7 case 6 => (d >> 18) & 7 case _ => (d >> 21) & 7
  }

  // Every field counts the three bits it stands for.
  lemma TripleCounts(x: seq<byte>, j: nat)
    requires |x| == 3 && j < 8
    ensures Number(Field3(TripleSums(Load24(x)), j)) == One(BitIn(x, 3 * j)) + One(BitIn(x, 3 * j + 1)) + One(BitIn(x, 3 * j + 2))
  {
    if j < 2 {
      TripleCounts0(x, j);
    } else if j < 4 {
      TripleCounts2(x, j);
    } else if j < 6 {
      TripleCounts4(x, j);
    } else {
      TripleCounts6(x, j);
    }
  }

  lemma TripleCounts0(x: seq<byte>, j: nat)
    requires |x| == 3 && j < 2
    ensures Number(Field3(TripleSums(Load24(x)), j)) == One(BitIn(x, 3 * j)) + One(BitIn(x, 3 * j + 1)) + One(BitIn(x, 3 * j + 2))
  {
    match j { case 0 => case _ => }
  }

  lemma TripleCounts2(x: seq<byte>, j: nat)
    requires |x| == 3 && 2 <= j < 4
    ensures Number(Field3(TripleSums(Load24(x)), j)) == One(BitIn(x, 3 * j)) + One(BitIn(x, 3 * j + 1)) + One(BitIn(x, 3 * j + 2))
  {
    match j { case 2 => case _ => }
  }

  lemma TripleCounts4(x: seq<byte>, j: nat)
    requires |x| == 3 && 4 <= j < 6
    ensures Number(Field3(TripleSums(Load24(x)), j)) == One(BitIn(x, 3 * j)) + One(BitIn(x, 3 * j + 1)) + One(BitIn(x, 3 * j + 2))
  {
    match j { case 4 => case _ => }
  }

  lemma TripleCounts6(x: seq<byte>, j: nat)
    requires |x| == 3 && 6 <= j < 8
    ensures Number(Field3(TripleSums(Load24(x)), j)) == One(BitIn(x, 3 * j)) + One(BitIn(x, 3 * j + 1)) + One(BitIn(x, 3 * j + 2))
  {
    match j { case 6 => case _ => }
  }

  lemma WindowBit(buf: seq<byte>, i: nat, l: nat)
    requires 3 * i + 3 <= |buf| && l < 24
    ensures BitAt(buf, 24 * i + l) == One(BitIn(buf[3 * i..3 * i + 3], l))
  {
    hide Bit;
    assert (24 * i + l) / 8 == 3 * i + l / 8 && (24 * i + l) % 8 == l % 8;
  }

  lemma ThreeBits(buf: seq<byte>, i: nat, l: nat)
    requires 3 * i + 3 <= |buf| && l + 3 <= 24
    ensures var x := buf[3 * i..3 * i + 3];
            One(BitIn(x, l)) + One(BitIn(x, l + 1)) + One(BitIn(x, l + 2)) == BitCount(buf, 24 * i + l, 3)
  {
    hide *;
    FirstBit(buf, 24 * i + l, 3);
    TwoBits(buf, 24 * i + l + 1);
    WindowBit(buf, i, l);
    WindowBit(buf, i, l + 1);
    WindowBit(buf, i, l + 2);
  }

  lemma Coefficient3(buf: seq<byte>, i: nat, j: nat)
    requires |buf| == 192 && i < 64 && j < 4
    ensures var d := TripleSums(Load24(buf[3 * i..3 * i + 3]));
            Number(Field3(d, 2 * j)) - Number(Field3(d, 2 * j + 1)) == Binomial(buf, 3, 4 * i + j)
  {
    hide *;
    FieldNumber3(buf, i, 2 * j);
    FieldNumber3(buf, i, 2 * j + 1);
    Runs(buf, 3, 4 * i + j, 24 * i + 6 * j);
  }

  lemma FieldNumber3(buf: seq<byte>, i: nat, l: nat)
    requires 3 * i + 3 <= |buf| && l < 8
    ensures Number(Field3(TripleSums(Load24(buf[3 * i..3 * i + 3])), l)) == BitCount(buf, 24 * i + 3 * l, 3)
  {
    hide *;
    TripleCounts(buf[3 * i..3 * i + 3], l);
    ThreeBits(buf, i, 3 * l);
  }

  method Cbd3(r: array<int16>, buf: seq<byte>)
    requires r.Length == N && |buf| == 3 * N / 4
    modifies r
    ensures forall n :: 0 <= n < N ==> r[n] == Binomial(buf, 3, n)
  {
    hide Binomial, Field3, TripleSums, Load24, Number;
    var i := 0;
    while i < N / 4
      invariant 0 <= i <= N / 4
      invariant forall n :: 0 <= n < 4 * i ==> r[n] == Binomial(buf, 3, n)
    {
      var d := TripleSums(Load24(buf[3 * i..3 * i + 3]));
      var j := 0;
      while j < 4
        invariant 0 <= j <= 4
        invariant forall n :: 0 <= n < 4 * i + j ==> r[n] == Binomial(buf, 3, n)
      {
        Coefficient3(buf, i, j);
        var a, b := Number(Field3(d, 2 * j)), Number(Field3(d, 2 * j + 1));
        r[4 * i + j] := a - b;
        j := j + 1;
      }
      i := i + 1;
    }
  }
}
