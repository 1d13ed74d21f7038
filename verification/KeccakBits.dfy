// The round of the permutation bit by bit, as sections 3.2.1 to 3.2.5 of FIPS 202
// define it, and the shift register its constants come from
// (components/fips202/fips202.c:42-68).
module KeccakBits {
  import opened Words
  import opened KeccakF

  // ----- the shift register of algorithm 5

  // One step: the register moves up by one, and what leaves it at the top is added
  // to bits 0, 4, 5 and 6.
  function Shift(r: bv8): bv8 {
    var top := r >> 7;
    (r << 1) ^ (top | (top << 4) | (top << 5) | (top << 6))
  }

  function Register(t: nat): bv8 {
    if t == 0 then 1 else Shift(Register(t - 1))
  }

  function Rc(t: nat): bool {
    Register(t % 255) & 1 == 1
  }

  function Shifted(r: bv8, j: nat): bv8 {
    if j == 0 then r else Shift(Shifted(r, j - 1))
  }

  lemma {:induction false} RegisterSplits(t: nat, j: nat)
    ensures Register(t + j) == Shifted(Register(t), j)
  {
    hide Shift;
    if j > 0 {
      RegisterSplits(t, j - 1);
    }
  }

  function Shift7(r: bv8): bv8 {
    Shift(Shift(Shift(Shift(Shift(Shift(Shift(r)))))))
  }

  lemma ShiftedUpTo7(r: bv8)
    ensures Shifted(r, 0) == r && Shifted(r, 1) == Shift(r) && Shifted(r, 2) == Shift(Shift(r))
    ensures Shifted(r, 3) == Shift(Shift(Shift(r))) && Shifted(r, 4) == Shift(Shift(Shift(Shift(r))))
    ensures Shifted(r, 5) == Shift(Shift(Shift(Shift(Shift(r))))) && Shifted(r, 6) == Shift(Shift(Shift(Shift(Shift(Shift(r))))))
    ensures Shifted(r, 7) == Shift7(r)
  {
    hide Shift;
    assert Shifted(r, 3) == Shift(Shifted(r, 2));
    assert Shifted(r, 5) == Shift(Shifted(r, 4));
  }

  // The register before round i.
  function RegisterAt(i: nat): bv8
    requires i < NROUNDS
  {
    match i
    case 0 => 0x01 case 1 => 0x80 case 2 => 0xd8 case 3 => 0x1a case 4 => 0xdf case 5 => 0x09
    case 6 => 0x35 case 7 => 0x4f case 8 => 0xca case 9 => 0x70 case 10 => 0x41 case 11 => 0xec
    case 12 => 0xd5 case 13 => 0xcd case 14 => 0x63 case 15 => 0xab case 16 => 0xaa case 17 => 0x2a
    case 18 => 0xf2 case 19 => 0xe8 case 20 => 0x37 case 21 => 0x3e case 22 => 0x0b case 23 => 0x44
  }

  lemma NextRegister(i: nat)
    requires 0 < i < NROUNDS
    ensures RegisterAt(i) == Shift7(RegisterAt(i - 1))
  {
    match i {
      case 1 => case 2 => case 3 => case 4 => case 5 => case 6 => case 7 => case 8 =>
      case 9 => case 10 => case 11 => case 12 => case 13 => case 14 => case 15 => case 16 =>
      case 17 => case 18 => case 19 => case 20 => case 21 => case 22 => case 23 =>
    }
  }

  lemma FirstRegister()
    ensures RegisterAt(0) == 1 == Register(0)
  {
  }

  lemma {:induction false} RegisterOfRound(i: nat)
    requires i < NROUNDS
    ensures Register(7 * i) == RegisterAt(i)
  {
    hide Shift, Shift7, RegisterAt, Register;
    FirstRegister();
    if i > 0 {
      RegisterOfRound(i - 1);
      RegisterSplits(7 * (i - 1), 7);
      ShiftedUpTo7(RegisterAt(i - 1));
      NextRegister(i);
    }
  }

  // ----- the round constants

  function Bit(w: Word, z: bv64): bool
    requires z < 64
  {
    (w.bits >> z) & 1 == 1
  }

  function Low(r: bv8): bv64 {
    (r & 1) as bv64
  }

  // Bits 0, 1, 3, 7, 15, 31 and 63 from seven steps of the register.
  function Spread(r: bv8): Word {
    Word(Low(r) | (Low(Shift(r)) << 1) | (Low(Shift(Shift(r))) << 3) | (Low(Shift(Shift(Shift(r)))) << 7) |
         (Low(Shift(Shift(Shift(Shift(r))))) << 15) | (Low(Shift(Shift(Shift(Shift(Shift(r)))))) << 31) |
         (Low(Shift(Shift(Shift(Shift(Shift(Shift(r))))))) << 63))
  }

  lemma ConstantIsSpread(i: nat)
    requires i < NROUNDS
    ensures RoundConstant(i) == Spread(RegisterAt(i))
  {
    match i {
      case 0 => case 1 => case 2 => case 3 => case 4 => case 5 => case 6 => case 7 =>
      case 8 => case 9 => case 10 => case 11 => case 12 => case 13 => case 14 => case 15 =>
      case 16 => case 17 => case 18 => case 19 => case 20 => case 21 => case 22 => case 23 =>
    }
  }

  // Bit z of the constant of a round: rc(j + 7 round) at z = 2^j - 1, and zero
  // everywhere else.
  function IotaBit(round: nat, z: bv64): bool {
    match z
    case 0 => Rc(7 * round)
    case 1 => Rc(1 + 7 * round)
    case 3 => Rc(2 + 7 * round)
    case 7 => Rc(3 + 7 * round)
    case 15 => Rc(4 + 7 * round)
    case 31 => Rc(5 + 7 * round)
    case 63 => Rc(6 + 7 * round)
    case _ => false
  }

  lemma SpreadBits(r: bv8, z: bv64)
    requires z < 64
    ensures Bit(Spread(r), z) ==
      if z == 0 then r & 1 == 1
      else if z == 1 then Shift(r) & 1 == 1
      else if z == 3 then Shift(Shift(r)) & 1 == 1
      else if z == 7 then Shift(Shift(Shift(r))) & 1 == 1
      else if z == 15 then Shift(Shift(Shift(Shift(r)))) & 1 == 1
      else if z == 31 then Shift(Shift(Shift(Shift(Shift(r))))) & 1 == 1
      else if z == 63 then Shift(Shift(Shift(Shift(Shift(Shift(r)))))) & 1 == 1
      else false
  {
    hide Shift;
  }

  lemma RcAt(i: nat, j: nat)
    requires i < NROUNDS && j < 7
    ensures Rc(j + 7 * i) == (Shifted(RegisterAt(i), j) & 1 == 1)
  {
    hide Shift, RegisterAt, Register, Shifted;
    RegisterOfRound(i);
    RegisterSplits(7 * i, j);
  }

  lemma RoundConstantBits(round: nat, z: bv64)
    requires round < NROUNDS && z < 64
    ensures Bit(RoundConstant(round), z) == IotaBit(round, z)
  {
    hide Shift, RegisterAt, Register, Shifted, RoundConstant, Spread, Bit, Rc;
    ConstantIsSpread(round);
    var r := RegisterAt(round);
    SpreadBits(r, z);
    ShiftedUpTo7(r);
    RcAt(round, 0);
    RcAt(round, 1);
    RcAt(round, 2);
    RcAt(round, 3);
    RcAt(round, 4);
    RcAt(round, 5);
    RcAt(round, 6);
  }

  // ----- the five step mappings on bits

  lemma XorBit(a: Word, b: Word, z: bv64)
    requires z < 64
    ensures Bit(Xor(a, b), z) == (Bit(a, z) != Bit(b, z))
  {
  }

  lemma ChiBits(a: Word, b: Word, c: Word, z: bv64)
    requires z < 64
    ensures Bit(ChiLane(a, b, c), z) == (Bit(a, z) != (!Bit(b, z) && Bit(c, z)))
  {
  }

  // Byte k of a word is its bits 8k to 8k + 7, so that lane (x, y) starts at byte
  // 8 (x + 5y) of the state.
  function Start(k: nat): (z: bv64)
    requires k < 8
    ensures z <= 56
  {
    match k case 0 => 0 case 1 => 8 case 2 => 16 case 3 => 24 case 4 => 32 case 5 => 40 case 6 => 48 case 7 => 56
  }

  function BitOfOctet(b: bv8, z: bv64): bool
    requires z < 8
  {
    (b >> z) & 1 == 1
  }

  lemma Octet0(w: Word, z: bv64)
    requires z < 8
    ensures Bit(w, 0 + z) == BitOfOctet(ByteOf(w, 0), z)
  {
  }

  lemma Octet1(w: Word, z: bv64)
    requires z < 8
    ensures Bit(w, 8 + z) == BitOfOctet(ByteOf(w, 1), z)
  {
  }

  lemma Octet2(w: Word, z: bv64)
    requires z < 8
    ensures Bit(w, 16 + z) == BitOfOctet(ByteOf(w, 2), z)
  {
  }

  lemma Octet3(w: Word, z: bv64)
    requires z < 8
    ensures Bit(w, 24 + z) == BitOfOctet(ByteOf(w, 3), z)
  {
  }

  lemma Octet4(w: Word, z: bv64)
    requires z < 8
    ensures Bit(w, 32 + z) == BitOfOctet(ByteOf(w, 4), z)
  {
  }

  lemma Octet5(w: Word, z: bv64)
    requires z < 8
    ensures Bit(w, 40 + z) == BitOfOctet(ByteOf(w, 5), z)
  {
  }

  lemma Octet6(w: Word, z: bv64)
    requires z < 8
    ensures Bit(w, 48 + z) == BitOfOctet(ByteOf(w, 6), z)
  {
  }

  lemma Octet7(w: Word, z: bv64)
    requires z < 8
    ensures Bit(w, 56 + z) == BitOfOctet(ByteOf(w, 7), z)
  {
  }

  lemma ByteBits(w: Word, k: nat, z: bv64)
    requires k < 8 && z < 8
    ensures Bit(w, Start(k) + z) == BitOfOctet(ByteOf(w, k), z)
  {
    hide Bit, ByteOf, BitOfOctet;
    match k {
      case 0 => Octet0(w, z);
      case 1 => Octet1(w, z);
      case 2 => Octet2(w, z);
      case 3 => Octet3(w, z);
      case 4 => Octet4(w, z);
      case 5 => Octet5(w, z);
      case 6 => Octet6(w, z);
      case 7 => Octet7(w, z);
    }
  }

  // The position n below z, in a ring of 64.
  function Below(z: bv64, n: bv7): (r: bv64)
    ensures r < 64
  {
    (z - n as bv64) & 63
  }

  lemma BelowZero(z: bv64)
    requires z < 64
    ensures Below(z, 0) == z
  {
  }

  // A rotation by n moves every bit n places up, for each offset there is: the shifts
  // are by constants, which keeps the proofs small.
  lemma Turn1(a: Word, z: bv64)
    requires z < 64
    ensures Bit(Rotated(a, 1), z) == Bit(a, Below(z, 1))
  {
  }

  lemma Turn2(a: Word, z: bv64)
    requires z < 64
    ensures Bit(Rotated(a, 2), z) == Bit(a, Below(z, 2))
  {
  }

  lemma Turn3(a: Word, z: bv64)
    requires z < 64
    ensures Bit(Rotated(a, 3), z) == Bit(a, Below(z, 3))
  {
  }

  lemma Turn6(a: Word, z: bv64)
    requires z < 64
    ensures Bit(Rotated(a, 6), z) == Bit(a, Below(z, 6))
  {
  }

  lemma Turn8(a: Word, z: bv64)
    requires z < 64
    ensures Bit(Rotated(a, 8), z) == Bit(a, Below(z, 8))
  {
  }

  lemma Turn10(a: Word, z: bv64)
    requires z < 64
    ensures Bit(Rotated(a, 10), z) == Bit(a, Below(z, 10))
  {
  }

  lemma Turn14(a: Word, z: bv64)
    requires z < 64
    ensures Bit(Rotated(a, 14), z) == Bit(a, Below(z, 14))
  {
  }

  lemma Turn15(a: Word, z: bv64)
    requires z < 64
    ensures Bit(Rotated(a, 15), z) == Bit(a, Below(z, 15))
  {
  }

  lemma Turn18(a: Word, z: bv64)
    requires z < 64
    ensures Bit(Rotated(a, 18), z) == Bit(a, Below(z, 18))
  {
  }

  lemma Turn20(a: Word, z: bv64)
    requires z < 64
    ensures Bit(Rotated(a, 20), z) == Bit(a, Below(z, 20))
  {
  }

  lemma Turn21(a: Word, z: bv64)
    requires z < 64
    ensures Bit(Rotated(a, 21), z) == Bit(a, Below(z, 21))
  {
  }

  lemma Turn25(a: Word, z: bv64)
    requires z < 64
    ensures Bit(Rotated(a, 25), z) == Bit(a, Below(z, 25))
  {
  }

  lemma Turn27(a: Word, z: bv64)
    requires z < 64
    ensures Bit(Rotated(a, 27), z) == Bit(a, Below(z, 27))
  {
  }

  lemma Turn28(a: Word, z: bv64)
    requires z < 64
    ensures Bit(Rotated(a, 28), z) == Bit(a, Below(z, 28))
  {
  }

  lemma Turn36(a: Word, z: bv64)
    requires z < 64
    ensures Bit(Rotated(a, 36), z) == Bit(a, Below(z, 36))
  {
  }

  lemma Turn39(a: Word, z: bv64)
    requires z < 64
    ensures Bit(Rotated(a, 39), z) == Bit(a, Below(z, 39))
  {
  }

  lemma Turn41(a: Word, z: bv64)
    requires z < 64
    ensures Bit(Rotated(a, 41), z) == Bit(a, Below(z, 41))
  {
  }

  lemma Turn43(a: Word, z: bv64)
    requires z < 64
    ensures Bit(Rotated(a, 43), z) == Bit(a, Below(z, 43))
  {
  }

  lemma Turn44(a: Word, z: bv64)
    requires z < 64
    ensures Bit(Rotated(a, 44), z) == Bit(a, Below(z, 44))
  {
  }

  lemma Turn45(a: Word, z: bv64)
    requires z < 64
    ensures Bit(Rotated(a, 45), z) == Bit(a, Below(z, 45))
  {
  }

  lemma Turn55(a: Word, z: bv64)
    requires z < 64
    ensures Bit(Rotated(a, 55), z) == Bit(a, Below(z, 55))
  {
  }

  lemma Turn56(a: Word, z: bv64)
    requires z < 64
    ensures Bit(Rotated(a, 56), z) == Bit(a, Below(z, 56))
  {
  }

  lemma Turn61(a: Word, z: bv64)
    requires z < 64
    ensures Bit(Rotated(a, 61), z) == Bit(a, Below(z, 61))
  {
  }

  lemma Turn62(a: Word, z: bv64)
    requires z < 64
    ensures Bit(Rotated(a, 62), z) == Bit(a, Below(z, 62))
  {
  }

  lemma RotatedBit(a: Word, i: nat, z: bv64)
    requires i < 25 && z < 64
    ensures Bit(Rotated(a, RhoOffset(i)), z) == Bit(a, Below(z, RhoOffset(i)))
  {
    hide Rotated, Bit, Below;
    match i {
      case 0 => NoRotation(a); BelowZero(z);
      case 1 => Turn1(a, z);
      case 2 => Turn62(a, z);
      case 3 => Turn28(a, z);
      case 4 => Turn27(a, z);
      case 5 => Turn36(a, z);
      case 6 => Turn44(a, z);
      case 7 => Turn6(a, z);
      case 8 => Turn55(a, z);
      case 9 => Turn20(a, z);
      case 10 => Turn3(a, z);
      case 11 => Turn10(a, z);
      case 12 => Turn43(a, z);
      case 13 => Turn25(a, z);
      case 14 => Turn39(a, z);
      case 15 => Turn41(a, z);
      case 16 => Turn45(a, z);
      case 17 => Turn15(a, z);
      case 18 => Turn21(a, z);
      case 19 => Turn8(a, z);
      case 20 => Turn18(a, z);
      case 21 => Turn2(a, z);
      case 22 => Turn61(a, z);
      case 23 => Turn56(a, z);
      case 24 => Turn14(a, z);
    }
  }

  // ----- the offsets of rho, from the walk of algorithm 2

  // The walk visits lane (x, y) at some step t from here on; lane (0, 0), which it
  // never visits, is not moved.
  function OffsetFrom(x: nat, y: nat, t: nat): (n: bv7)
    ensures n < 64
    decreases 24 - t
  {
    if t >= 24 then 0
    else if RhoPosition(t) == (x, y) then RhoAmount(t).0 & 63
    else OffsetFrom(x, y, t + 1)
  }

  function RhoStep(i: nat): (t: nat)
    requires 0 < i < 25
    ensures t < 24
  {
    match i
    case 1 => 0 case 2 => 18 case 3 => 6 case 4 => 12 case 5 => 7 case 6 => 23
    case 7 => 2 case 8 => 9 case 9 => 22 case 10 => 1 case 11 => 3 case 12 => 17
    case 13 => 16 case 14 => 20 case 15 => 13 case 16 => 8 case 17 => 4 case 18 => 5
    case 19 => 15 case 20 => 19 case 21 => 10 case 22 => 21 case 23 => 14 case 24 => 11
  }

  lemma StepOfIndex(t: nat)
    requires t < 24
    ensures 0 < RhoIndex(t) < 25 && RhoStep(RhoIndex(t)) == t
  {
    match t {
      case 0 => case 1 => case 2 => case 3 => case 4 => case 5 => case 6 => case 7 =>
      case 8 => case 9 => case 10 => case 11 => case 12 => case 13 => case 14 => case 15 =>
      case 16 => case 17 => case 18 => case 19 => case 20 => case 21 => case 22 => case 23 =>
    }
  }

  lemma IndexOfStep(i: nat)
    requires 0 < i < 25
    ensures RhoIndex(RhoStep(i)) == i
  {
    match i {
      case 1 => case 2 => case 3 => case 4 => case 5 => case 6 => case 7 => case 8 =>
      case 9 => case 10 => case 11 => case 12 => case 13 => case 14 => case 15 => case 16 =>
      case 17 => case 18 => case 19 => case 20 => case 21 => case 22 => case 23 => case 24 =>
    }
  }

  lemma SamePlace(x: nat, y: nat, p: (nat, nat))
    requires x < 5 && y < 5 && p.0 < 5 && p.1 < 5
    ensures p == (x, y) <==> p.0 + 5 * p.1 == x + 5 * y
  {
  }

  lemma AmountSmall(n: bv7)
    requires n < 64
    ensures n & 63 == n
  {
  }

  lemma {:induction false} OffsetIs(x: nat, y: nat, t: nat)
    requires x < 5 && y < 5 && (x + 5 * y > 0 ==> t <= RhoStep(x + 5 * y)) && t <= 24
    ensures OffsetFrom(x, y, t) == RhoOffset(x + 5 * y)
    decreases 24 - t
  {
    hide RhoIndex, RhoStep, RhoPosition, RhoAmount, RhoOffset;
    NotMoved();
    if t < 24 {
      RhoPath(t);
      RhoWalk(t);
      StepOfIndex(t);
      SamePlace(x, y, RhoPosition(t));
      AmountSmall(RhoOffset(RhoIndex(t)));
      if RhoPosition(t) != (x, y) {
        if x + 5 * y > 0 {
          IndexOfStep(x + 5 * y);
        }
        OffsetIs(x, y, t + 1);
      }
    }
  }

  lemma NotMoved()
    ensures RhoOffset(0) == 0
  {
  }

  // ----- one round on bits

  function B(s: Lanes, x: nat, y: nat, z: bv64): bool
    requires x < 5 && y < 5 && z < 64
  {
    Bit(s[x + 5 * y], z)
  }

  function Parity(s: Lanes, x: nat, z: bv64): bool
    requires x < 5 && z < 64
  {
    (((B(s, x, 0, z) != B(s, x, 1, z)) != B(s, x, 2, z)) != B(s, x, 3, z)) != B(s, x, 4, z)
  }

  function ThetaBit(s: Lanes, x: nat, y: nat, z: bv64): bool
    requires x < 5 && y < 5 && z < 64
  {
    B(s, x, y, z) != (Parity(s, (x + 4) % 5, z) != Parity(s, (x + 1) % 5, Below(z, 1)))
  }

  function RhoBit(s: Lanes, x: nat, y: nat, z: bv64): bool
    requires x < 5 && y < 5 && z < 64
  {
    ThetaBit(s, x, y, Below(z, OffsetFrom(x, y, 0)))
  }

  function PiBit(s: Lanes, x: nat, y: nat, z: bv64): bool
    requires x < 5 && y < 5 && z < 64
  {
    RhoBit(s, (x + 3 * y) % 5, x, z)
  }

  function ChiBit(s: Lanes, x: nat, y: nat, z: bv64): bool
    requires x < 5 && y < 5 && z < 64
  {
    PiBit(s, x, y, z) != (!PiBit(s, (x + 1) % 5, y, z) && PiBit(s, (x + 2) % 5, y, z))
  }

  function RoundBit(s: Lanes, round: nat, x: nat, y: nat, z: bv64): bool
    requires x < 5 && y < 5 && z < 64
  {
    ChiBit(s, x, y, z) != (x == 0 && y == 0 && IotaBit(round, z))
  }

  lemma LaneBit(s: Lanes, x: nat, y: nat, z: bv64)
    requires y < 5 && z < 64
    ensures Bit(Lane(s, x, y), z) == B(s, x % 5, y, z)
  {
    hide Bit;
  }

  lemma ColumnBit(s: Lanes, x: nat, z: bv64)
    requires z < 64
    ensures Bit(Column(s, x), z) == Parity(s, x % 5, z)
  {
    hide Lane, Xor, Bit, B;
    var c1 := Xor(Lane(s, x, 0), Lane(s, x, 1));
    var c2 := Xor(c1, Lane(s, x, 2));
    var c3 := Xor(c2, Lane(s, x, 3));
    LaneBit(s, x, 0, z);
    LaneBit(s, x, 1, z);
    LaneBit(s, x, 2, z);
    LaneBit(s, x, 3, z);
    LaneBit(s, x, 4, z);
    XorBit(Lane(s, x, 0), Lane(s, x, 1), z);
    XorBit(c1, Lane(s, x, 2), z);
    XorBit(c2, Lane(s, x, 3), z);
    XorBit(c3, Lane(s, x, 4), z);
  }

  lemma Place(x: nat, y: nat)
    requires x < 5 && y < 5
    ensures x + 5 * y < 25 && XOf(x + 5 * y) == x && YOf(x + 5 * y) == y
  {
  }

  lemma ThetaIs(s: Lanes, x: nat, y: nat, z: bv64)
    requires x < 5 && y < 5 && z < 64
    ensures B(Theta(s), x, y, z) == ThetaBit(s, x, y, z)
  {
    hide Column, Parity, Xor, Rotated, Below, Bit, XOf, YOf;
    Place(x, y);
    XorBit(s[x + 5 * y], ThetaEffect(s, x), z);
    XorBit(Column(s, x + 4), Rotated(Column(s, x + 1), 1), z);
    Turn1(Column(s, x + 1), z);
    ColumnBit(s, x + 4, z);
    ColumnBit(s, x + 1, Below(z, 1));
  }

  lemma RhoIs(s: Lanes, x: nat, y: nat, z: bv64)
    requires x < 5 && y < 5 && z < 64
    ensures B(Rho(s), x, y, z) == B(s, x, y, Below(z, OffsetFrom(x, y, 0)))
  {
    hide Rotated, Below, Bit, RhoOffset, OffsetFrom, RhoStep;
    OffsetIs(x, y, 0);
    RotatedBit(s[x + 5 * y], x + 5 * y, z);
  }

  lemma PiIs(s: Lanes, x: nat, y: nat, z: bv64)
    requires x < 5 && y < 5 && z < 64
    ensures B(Pi(s), x, y, z) == B(s, (x + 3 * y) % 5, x, z)
  {
    hide Lane, Bit, XOf, YOf;
    Place(x, y);
    LaneBit(s, x + 3 * y, x, z);
  }

  lemma ChiIs(s: Lanes, x: nat, y: nat, z: bv64)
    requires x < 5 && y < 5 && z < 64
    ensures B(Chi(s), x, y, z) == (B(s, x, y, z) != (!B(s, (x + 1) % 5, y, z) && B(s, (x + 2) % 5, y, z)))
  {
    hide Lane, Bit, XOf, YOf, ChiLane;
    Place(x, y);
    ChiBits(s[x + 5 * y], Lane(s, x + 1, y), Lane(s, x + 2, y), z);
    LaneBit(s, x + 1, y, z);
    LaneBit(s, x + 2, y, z);
  }

  lemma IotaIs(s: Lanes, round: nat, x: nat, y: nat, z: bv64)
    requires round < NROUNDS && x < 5 && y < 5 && z < 64
    ensures B(Iota(s, round), x, y, z) == (B(s, x, y, z) != (x == 0 && y == 0 && IotaBit(round, z)))
  {
    hide Xor, Bit, RoundConstant, IotaBit;
    XorBit(s[0], RoundConstant(round), z);
    RoundConstantBits(round, z);
  }

  lemma BeforeChiIs(s: Lanes, x: nat, y: nat, z: bv64)
    requires x < 5 && y < 5 && z < 64
    ensures B(BeforeChi(s), x, y, z) == PiBit(s, x, y, z)
  {
    hide B, Theta, Rho, Pi, ThetaBit, Below, OffsetFrom;
    var x' := (x + 3 * y) % 5;
    PiIs(Rho(Theta(s)), x, y, z);
    RhoIs(Theta(s), x', x, z);
    ThetaIs(s, x', x, Below(z, OffsetFrom(x', x, 0)));
  }

  // Every bit of a round is the one FIPS 202 defines, and there are 24 rounds.
  lemma RoundBits(s: Lanes, round: nat, x: nat, y: nat, z: bv64)
    requires round < 24 && x < 5 && y < 5 && z < 64
    ensures B(Round(s, round), x, y, z) == RoundBit(s, round, x, y, z)
    ensures Permute(s) == Rounds(s, 24)
  {
    hide Rounds, B, Theta, Rho, Pi, Chi, Iota, PiBit, IotaBit;
    IotaIs(Chi(BeforeChi(s)), round, x, y, z);
    ChiIs(BeforeChi(s), x, y, z);
    BeforeChiIs(s, x, y, z);
    BeforeChiIs(s, (x + 1) % 5, y, z);
    BeforeChiIs(s, (x + 2) % 5, y, z);
  }
}
