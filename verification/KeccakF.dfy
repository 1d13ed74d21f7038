// The Keccak-f[1600] permutation: the five step mappings of sections 3.2 and 3.3
// of FIPS 202 on 25 lanes, and the program's unrolled form that computes two
// rounds per iteration (components/fips202/fips202.c:42-68, 82-344).
module KeccakF {
  import opened Words

  type Lanes = s: seq<Word> | |s| == 25 witness seq(25, i => Word(0))

  // ----- the specification

  const NROUNDS := 24

  function At(s: Lanes, i: nat): Word
    requires i < 25
  {
    s[i]
  }

  function XOf(i: nat): nat {
    i % 5
  }

  function YOf(i: nat): nat {
    i / 5
  }

  // Lane (x, y) is at index x + 5 * y.
  function Lane(s: Lanes, x: nat, y: nat): Word {
    s[x % 5 + 5 * (y % 5)]
  }

  function Column(s: Lanes, x: nat): Word {
    Xor(Xor(Xor(Xor(Lane(s, x, 0), Lane(s, x, 1)), Lane(s, x, 2)), Lane(s, x, 3)), Lane(s, x, 4))
  }

  function ThetaEffect(s: Lanes, x: nat): Word {
    Xor(Column(s, x + 4), Rotated(Column(s, x + 1), 1))
  }

  function Theta(s: Lanes): Lanes {
    seq(25, i requires 0 <= i < 25 => Xor(s[i], ThetaEffect(s, XOf(i))))
  }

  // The position after t steps of (x, y) := (y, 2x + 3y) from (1, 0), and
  // 1 + 2 + ... + (t + 1) modulo 64 with its last summand: algorithm 2 of FIPS 202.
  function RhoPosition(t: nat): (nat, nat) {
    if t == 0 then (1, 0) else
      var p := RhoPosition(t - 1);
      (p.1, (2 * p.0 + 3 * p.1) % 5)
  }

  function RhoAmount(t: nat): (bv7, bv7) {
    if t == 0 then (1, 1) else
      var p := RhoAmount(t - 1);
      ((p.0 + p.1 + 1) & 63, p.1 + 1)
  }

  function Rho(s: Lanes): Lanes {
    seq(25, i requires 0 <= i < 25 => Rotated(s[i], RhoOffset(i)))
  }

  function RhoOffset(i: nat): (n: bv7)
    requires i < 25
    ensures n < 64
  {
    match i
    case 0 => 0 case 1 => 1 case 2 => 62 case 3 => 28 case 4 => 27
    case 5 => 36 case 6 => 44 case 7 => 6 case 8 => 55 case 9 => 20
    case 10 => 3 case 11 => 10 case 12 => 43 case 13 => 25 case 14 => 39
    case 15 => 41 case 16 => 45 case 17 => 15 case 18 => 21 case 19 => 8
    case 20 => 18 case 21 => 2 case 22 => 61 case 23 => 56 case 24 => 14
  }

  // The offset table is the one algorithm 2 computes: the positions and amounts of
  // its steps are these.
  function RhoIndex(t: nat): nat
    requires t < 24
  {
    match t
    case 0 => 1 case 1 => 10 case 2 => 7 case 3 => 11 case 4 => 17 case 5 => 18
    case 6 => 3 case 7 => 5 case 8 => 16 case 9 => 8 case 10 => 21 case 11 => 24
    case 12 => 4 case 13 => 15 case 14 => 23 case 15 => 19 case 16 => 13 case 17 => 12
    case 18 => 2 case 19 => 20 case 20 => 14 case 21 => 22 case 22 => 9 case 23 => 6
  }

  function RhoBits(t: nat): bv7
    requires t < 24
  {
    match t
    case 0 => 1 case 1 => 3 case 2 => 6 case 3 => 10 case 4 => 15 case 5 => 21
    case 6 => 28 case 7 => 36 case 8 => 45 case 9 => 55 case 10 => 2 case 11 => 14
    case 12 => 27 case 13 => 41 case 14 => 56 case 15 => 8 case 16 => 25 case 17 => 43
    case 18 => 62 case 19 => 18 case 20 => 39 case 21 => 61 case 22 => 20 case 23 => 44
  }

  function RhoCount(t: nat): bv7
    requires t < 24
  {
    match t
    case 0 => 1 case 1 => 2 case 2 => 3 case 3 => 4 case 4 => 5 case 5 => 6
    case 6 => 7 case 7 => 8 case 8 => 9 case 9 => 10 case 10 => 11 case 11 => 12
    case 12 => 13 case 13 => 14 case 14 => 15 case 15 => 16 case 16 => 17 case 17 => 18
    case 18 => 19 case 19 => 20 case 20 => 21 case 21 => 22 case 22 => 23 case 23 => 24
  }

  lemma RhoEntry(t: nat)
    requires t < 24
    ensures RhoOffset(RhoIndex(t)) == RhoBits(t)
  {
    match t {
      case 0 => case 1 => case 2 => case 3 => case 4 => case 5 => case 6 => case 7 =>
      case 8 => case 9 => case 10 => case 11 => case 12 => case 13 => case 14 => case 15 =>
      case 16 => case 17 => case 18 => case 19 => case 20 => case 21 => case 22 => case 23 =>
    }
  }

  lemma NextIndex(t: nat)
    requires 0 < t < 24
    ensures var i := RhoIndex(t - 1); i < 25 && RhoIndex(t) == i / 5 + 5 * ((2 * (i % 5) + 3 * (i / 5)) % 5)
  {
    match t {
      case 1 => case 2 => case 3 => case 4 => case 5 => case 6 => case 7 => case 8 =>
      case 9 => case 10 => case 11 => case 12 => case 13 => case 14 => case 15 => case 16 =>
      case 17 => case 18 => case 19 => case 20 => case 21 => case 22 => case 23 =>
    }
  }

  lemma NextBits(t: nat)
    requires 0 < t < 24
    ensures RhoBits(t) == (RhoBits(t - 1) + RhoCount(t - 1) + 1) & 63 && RhoCount(t) == RhoCount(t - 1) + 1
  {
    match t {
      case 1 => case 2 => case 3 => case 4 => case 5 => case 6 => case 7 => case 8 =>
      case 9 => case 10 => case 11 => case 12 => case 13 => case 14 => case 15 => case 16 =>
      case 17 => case 18 => case 19 => case 20 => case 21 => case 22 => case 23 =>
    }
  }

  lemma FirstEntry()
    ensures RhoIndex(0) == 1 && RhoBits(0) == 1 && RhoCount(0) == 1
  {
  }

  lemma {:induction false} RhoPath(t: nat)
    requires t < 24
    ensures var p := RhoPosition(t); p.0 < 5 && p.1 < 5 && p.0 + 5 * p.1 == RhoIndex(t)
  {
    hide RhoIndex;
    FirstEntry();
    if t > 0 {
      RhoPath(t - 1);
      NextIndex(t);
      RowIndex(RhoPosition(t - 1).1, RhoPosition(t - 1).0);
    }
  }

  lemma {:induction false} RhoSums(t: nat)
    requires t < 24
    ensures RhoAmount(t) == (RhoBits(t), RhoCount(t))
  {
    hide RhoBits, RhoCount, RhoIndex;
    FirstEntry();
    if t > 0 {
      RhoSums(t - 1);
      NextBits(t);
    }
  }

  lemma RhoWalk(t: nat)
    requires t < 24
    ensures var p := RhoPosition(t); p.0 < 5 && p.1 < 5 && RhoOffset(p.0 + 5 * p.1) == RhoAmount(t).0
  {
    hide *;
    RhoPath(t);
    RhoSums(t);
    RhoEntry(t);
  }

  function Pi(s: Lanes): Lanes {
    seq(25, i requires 0 <= i < 25 => Lane(s, XOf(i) + 3 * YOf(i), XOf(i)))
  }

  function ChiLane(a: Word, b: Word, c: Word): Word {
    Xor(a, And(Not(b), c))
  }

  function ChiOf(s: Lanes, i: nat): Word
    requires i < 25
  {
    ChiLane(s[i], Lane(s, XOf(i) + 1, YOf(i)), Lane(s, XOf(i) + 2, YOf(i)))
  }

  function Chi(s: Lanes): Lanes {
    seq(25, i requires 0 <= i < 25 => ChiOf(s, i))
  }

  function RoundConstant(round: nat): Word
    requires round < NROUNDS
  {
    match round
    case 0 => Word(0x00000000_00000001)
    case 1 => Word(0x00000000_00008082)
    case 2 => Word(0x80000000_0000808a)
    case 3 => Word(0x80000000_80008000)
    case 4 => Word(0x00000000_0000808b)
    case 5 => Word(0x00000000_80000001)
    case 6 => Word(0x80000000_80008081)
    case 7 => Word(0x80000000_00008009)
    case 8 => Word(0x00000000_0000008a)
    case 9 => Word(0x00000000_00000088)
    case 10 => Word(0x00000000_80008009)
    case 11 => Word(0x00000000_8000000a)
    case 12 => Word(0x00000000_8000808b)
    case 13 => Word(0x80000000_0000008b)
    case 14 => Word(0x80000000_00008089)
    case 15 => Word(0x80000000_00008003)
    case 16 => Word(0x80000000_00008002)
    case 17 => Word(0x80000000_00000080)
    case 18 => Word(0x00000000_0000800a)
    case 19 => Word(0x80000000_8000000a)
    case 20 => Word(0x80000000_80008081)
    case 21 => Word(0x80000000_00008080)
    case 22 => Word(0x00000000_80000001)
    case 23 => Word(0x80000000_80008008)
  }

  function Iota(s: Lanes, round: nat): Lanes
    requires round < NROUNDS
  {
    s[0 := Xor(s[0], RoundConstant(round))]
  }

  function Round(s: Lanes, round: nat): Lanes
    requires round < NROUNDS
  {
    Iota(Chi(Pi(Rho(Theta(s)))), round)
  }

  function Rounds(s: Lanes, n: nat): Lanes
    requires n <= NROUNDS
  {
    if n == 0 then s else Round(Rounds(s, n - 1), n - 1)
  }

  function Permute(s: Lanes): Lanes {
    Rounds(s, NROUNDS)
  }

  // ----- one round, lane by lane

  // Lane i after theta, rotated by n.
  function Moved(s: Lanes, i: nat, n: bv7): Word
    requires i < 25 && n < 64
  {
    Rotated(Xor(s[i], ThetaEffect(s, XOf(i))), n)
  }

  function BeforeChi(s: Lanes): Lanes {
    Pi(Rho(Theta(s)))
  }

  lemma MovedBy(s: Lanes, i: nat)
    requires i < 25
    ensures Rho(Theta(s))[i] == Moved(s, i, RhoOffset(i))
  {
    hide ThetaEffect, Xor, Rotated, RhoOffset;
  }

  lemma PiLane(s: Lanes, x: nat, y: nat)
    requires x < 5 && y < 5
    ensures Pi(s)[5 * y + x] == Lane(s, x + 3 * y, x)
  {
    RowIndex(y, x);
    hide Lane;
  }

  lemma ChiAt(t: Lanes, x: nat, y: nat)
    requires x < 5 && y < 5
    ensures Chi(t)[5 * y + x] == ChiLane(t[5 * y + x], Lane(t, x + 1, y), Lane(t, x + 2, y))
  {
    hide Xor, And, Not, Lane;
    RowIndex(y, x);
  }

  lemma LaneAt(t: Lanes, x: nat, y: nat)
    requires x < 5 && y < 5
    ensures Lane(t, x, y) == t[5 * y + x] && Lane(t, x + 5, y) == t[5 * y + x]
  {
    RowIndex(y, x);
  }

  lemma ChiRow(t: Lanes, y: nat)
    requires y < 5
    ensures Chi(t)[5 * y] == ChiLane(t[5 * y], t[5 * y + 1], t[5 * y + 2])
    ensures Chi(t)[5 * y + 1] == ChiLane(t[5 * y + 1], t[5 * y + 2], t[5 * y + 3])
    ensures Chi(t)[5 * y + 2] == ChiLane(t[5 * y + 2], t[5 * y + 3], t[5 * y + 4])
    ensures Chi(t)[5 * y + 3] == ChiLane(t[5 * y + 3], t[5 * y + 4], t[5 * y])
    ensures Chi(t)[5 * y + 4] == ChiLane(t[5 * y + 4], t[5 * y], t[5 * y + 1])
  {
    hide Chi, ChiLane, Lane;
    LaneAt(t, 0, y);
    LaneAt(t, 1, y);
    LaneAt(t, 2, y);
    LaneAt(t, 3, y);
    LaneAt(t, 4, y);
    ChiAt(t, 0, y);
    ChiAt(t, 1, y);
    ChiAt(t, 2, y);
    ChiAt(t, 3, y);
    ChiAt(t, 4, y);
  }

  lemma RowIndex(y: nat, x: nat)
    requires y < 5 && x < 5
    ensures (5 * y + x) % 5 == x && (5 * y + x) / 5 == y
  {
  }

  lemma LaneOf(t: Lanes, x: nat, y: nat)
    requires y < 5
    ensures Lane(t, x, y) == t[x % 5 + 5 * y]
  {
  }

  // Where pi takes lane (x, y) from, after theta and rho.
  lemma LaneBeforeChi(s: Lanes, x: nat, y: nat)
    requires x < 5 && y < 5
    ensures var i := (x + 3 * y) % 5 + 5 * x; BeforeChi(s)[5 * y + x] == Moved(s, i, RhoOffset(i))
  {
    hide Theta, Rho, Pi, Moved, RhoOffset;
    PiLane(Rho(Theta(s)), x, y);
    LaneOf(Rho(Theta(s)), x + 3 * y, x);
    MovedBy(s, (x + 3 * y) % 5 + 5 * x);
  }

  lemma Row0(s: Lanes)
    ensures BeforeChi(s)[0] == Moved(s, 0, 0)
    ensures BeforeChi(s)[1] == Moved(s, 6, 44)
    ensures BeforeChi(s)[2] == Moved(s, 12, 43)
    ensures BeforeChi(s)[3] == Moved(s, 18, 21)
    ensures BeforeChi(s)[4] == Moved(s, 24, 14)
  {
    hide Theta, Rho, Pi, Moved, BeforeChi;
    LaneBeforeChi(s, 0, 0);
    LaneBeforeChi(s, 1, 0);
    LaneBeforeChi(s, 2, 0);
    LaneBeforeChi(s, 3, 0);
    LaneBeforeChi(s, 4, 0);
  }

  lemma Row1(s: Lanes)
    ensures BeforeChi(s)[5] == Moved(s, 3, 28)
    ensures BeforeChi(s)[6] == Moved(s, 9, 20)
    ensures BeforeChi(s)[7] == Moved(s, 10, 3)
    ensures BeforeChi(s)[8] == Moved(s, 16, 45)
    ensures BeforeChi(s)[9] == Moved(s, 22, 61)
  {
    hide Theta, Rho, Pi, Moved, BeforeChi;
    LaneBeforeChi(s, 0, 1);
    LaneBeforeChi(s, 1, 1);
    LaneBeforeChi(s, 2, 1);
    LaneBeforeChi(s, 3, 1);
    LaneBeforeChi(s, 4, 1);
  }

  lemma Row2(s: Lanes)
    ensures BeforeChi(s)[10] == Moved(s, 1, 1)
    ensures BeforeChi(s)[11] == Moved(s, 7, 6)
    ensures BeforeChi(s)[12] == Moved(s, 13, 25)
    ensures BeforeChi(s)[13] == Moved(s, 19, 8)
    ensures BeforeChi(s)[14] == Moved(s, 20, 18)
  {
    hide Theta, Rho, Pi, Moved, BeforeChi;
    LaneBeforeChi(s, 0, 2);
    LaneBeforeChi(s, 1, 2);
    LaneBeforeChi(s, 2, 2);
    LaneBeforeChi(s, 3, 2);
    LaneBeforeChi(s, 4, 2);
  }

  lemma Row3(s: Lanes)
    ensures BeforeChi(s)[15] == Moved(s, 4, 27)
    ensures BeforeChi(s)[16] == Moved(s, 5, 36)
    ensures BeforeChi(s)[17] == Moved(s, 11, 10)
    ensures BeforeChi(s)[18] == Moved(s, 17, 15)
    ensures BeforeChi(s)[19] == Moved(s, 23, 56)
  {
    hide Theta, Rho, Pi, Moved, BeforeChi;
    LaneBeforeChi(s, 0, 3);
    LaneBeforeChi(s, 1, 3);
    LaneBeforeChi(s, 2, 3);
    LaneBeforeChi(s, 3, 3);
    LaneBeforeChi(s, 4, 3);
  }

  lemma Row4(s: Lanes)
    ensures BeforeChi(s)[20] == Moved(s, 2, 62)
    ensures BeforeChi(s)[21] == Moved(s, 8, 55)
    ensures BeforeChi(s)[22] == Moved(s, 14, 39)
    ensures BeforeChi(s)[23] == Moved(s, 15, 41)
    ensures BeforeChi(s)[24] == Moved(s, 21, 2)
  {
    hide Theta, Rho, Pi, Moved, BeforeChi;
    LaneBeforeChi(s, 0, 4);
    LaneBeforeChi(s, 1, 4);
    LaneBeforeChi(s, 2, 4);
    LaneBeforeChi(s, 3, 4);
    LaneBeforeChi(s, 4, 4);
  }

  lemma RoundLanes(s: Lanes, round: nat)
    requires round < NROUNDS
    ensures var t, c := Round(s, round), Chi(BeforeChi(s)); t[0] == Xor(c[0], RoundConstant(round)) && forall i :: 1 <= i < 25 ==> t[i] == c[i]
  {
    hide Theta, Rho, Pi, Chi, RoundConstant, Xor;
  }

  // The words the program calls Da to Du.
  lemma ThetaWords(s: Lanes)
    ensures ThetaEffect(s, 0) == Xor(Xor(Xor(Xor(Xor(At(s, 4), At(s, 9)), At(s, 14)), At(s, 19)), At(s, 24)), Rol(Xor(Xor(Xor(Xor(At(s, 1), At(s, 6)), At(s, 11)), At(s, 16)), At(s, 21)), 1))
    ensures ThetaEffect(s, 1) == Xor(Xor(Xor(Xor(Xor(At(s, 0), At(s, 5)), At(s, 10)), At(s, 15)), At(s, 20)), Rol(Xor(Xor(Xor(Xor(At(s, 2), At(s, 7)), At(s, 12)), At(s, 17)), At(s, 22)), 1))
    ensures ThetaEffect(s, 2) == Xor(Xor(Xor(Xor(Xor(At(s, 1), At(s, 6)), At(s, 11)), At(s, 16)), At(s, 21)), Rol(Xor(Xor(Xor(Xor(At(s, 3), At(s, 8)), At(s, 13)), At(s, 18)), At(s, 23)), 1))
    ensures ThetaEffect(s, 3) == Xor(Xor(Xor(Xor(Xor(At(s, 2), At(s, 7)), At(s, 12)), At(s, 17)), At(s, 22)), Rol(Xor(Xor(Xor(Xor(At(s, 4), At(s, 9)), At(s, 14)), At(s, 19)), At(s, 24)), 1))
    ensures ThetaEffect(s, 4) == Xor(Xor(Xor(Xor(Xor(At(s, 3), At(s, 8)), At(s, 13)), At(s, 18)), At(s, 23)), Rol(Xor(Xor(Xor(Xor(At(s, 0), At(s, 5)), At(s, 10)), At(s, 15)), At(s, 20)), 1))
  {
    hide Xor, Rol, Rotated, Lane;
    ColumnIs(s, 0);
    RolIsRotation(Column(s, 0), 1);
    ColumnIs(s, 1);
    RolIsRotation(Column(s, 1), 1);
    ColumnIs(s, 2);
    RolIsRotation(Column(s, 2), 1);
    ColumnIs(s, 3);
    RolIsRotation(Column(s, 3), 1);
    ColumnIs(s, 4);
    RolIsRotation(Column(s, 4), 1);
  }

  lemma ColumnIs(s: Lanes, x: nat)
    requires x < 5
    ensures Column(s, x) == Xor(Xor(Xor(Xor(s[x], s[5 + x]), s[10 + x]), s[15 + x]), s[20 + x])
    ensures Column(s, x + 5) == Column(s, x)
  {
    hide Xor;
  }

  // Five lanes from i on.
  predicate Plane(s: Lanes, i: nat, a: Word, b: Word, c: Word, d: Word, e: Word)
    requires i <= 20
  {
    a == At(s, i) && b == At(s, i + 1) && c == At(s, i + 2) && d == At(s, i + 3) && e == At(s, i + 4)
  }

  predicate ThetaDone(s: Lanes, da: Word, de: Word, di: Word, do: Word, du: Word) {
    && da == ThetaEffect(s, 0) && de == ThetaEffect(s, 1) && di == ThetaEffect(s, 2)
    && do == ThetaEffect(s, 3) && du == ThetaEffect(s, 4)
  }

  lemma ThetaWordsDone(s: Lanes, da: Word, de: Word, di: Word, do: Word, du: Word)
    requires da == Xor(Xor(Xor(Xor(Xor(At(s, 4), At(s, 9)), At(s, 14)), At(s, 19)), At(s, 24)), Rol(Xor(Xor(Xor(Xor(At(s, 1), At(s, 6)), At(s, 11)), At(s, 16)), At(s, 21)), 1))
    requires de == Xor(Xor(Xor(Xor(Xor(At(s, 0), At(s, 5)), At(s, 10)), At(s, 15)), At(s, 20)), Rol(Xor(Xor(Xor(Xor(At(s, 2), At(s, 7)), At(s, 12)), At(s, 17)), At(s, 22)), 1))
    requires di == Xor(Xor(Xor(Xor(Xor(At(s, 1), At(s, 6)), At(s, 11)), At(s, 16)), At(s, 21)), Rol(Xor(Xor(Xor(Xor(At(s, 3), At(s, 8)), At(s, 13)), At(s, 18)), At(s, 23)), 1))
    requires do == Xor(Xor(Xor(Xor(Xor(At(s, 2), At(s, 7)), At(s, 12)), At(s, 17)), At(s, 22)), Rol(Xor(Xor(Xor(Xor(At(s, 4), At(s, 9)), At(s, 14)), At(s, 19)), At(s, 24)), 1))
    requires du == Xor(Xor(Xor(Xor(Xor(At(s, 3), At(s, 8)), At(s, 13)), At(s, 18)), At(s, 23)), Rol(Xor(Xor(Xor(Xor(At(s, 0), At(s, 5)), At(s, 10)), At(s, 15)), At(s, 20)), 1))
    ensures ThetaDone(s, da, de, di, do, du)
  {
    hide Xor, Rol, ThetaEffect;
    ThetaWords(s);
  }

  lemma Plane0(s: Lanes, round: nat, da: Word, de: Word, di: Word, do: Word, du: Word, t0: Word, t1: Word, t2: Word, t3: Word, t4: Word)
    requires round < NROUNDS && ThetaDone(s, da, de, di, do, du)
    requires var b0, b1, b2, b3, b4 := Xor(At(s, 0), da), Rol(Xor(At(s, 6), de), 44), Rol(Xor(At(s, 12), di), 43), Rol(Xor(At(s, 18), do), 21), Rol(Xor(At(s, 24), du), 14);
             && t0 == Xor(ChiLane(b0, b1, b2), RoundConstant(round)) && t1 == ChiLane(b1, b2, b3)
             && t2 == ChiLane(b2, b3, b4) && t3 == ChiLane(b3, b4, b0) && t4 == ChiLane(b4, b0, b1)
    ensures var t := Round(s, round); Plane(t, 0, t0, t1, t2, t3, t4)
  {
    hide Xor, Rol, Rotated, Theta, Rho, Pi, Chi, RoundConstant, ChiLane, BeforeChi, ThetaEffect, Round;
    RoundLanes(s, round);
    Row0(s);
    ChiRow(BeforeChi(s), 0);
    NoRotation(Xor(s[0], da));
    RolIsRotation(Xor(s[6], de), 44);
    RolIsRotation(Xor(s[12], di), 43);
    RolIsRotation(Xor(s[18], do), 21);
    RolIsRotation(Xor(s[24], du), 14);
  }

  lemma Plane1(s: Lanes, round: nat, da: Word, de: Word, di: Word, do: Word, du: Word, t0: Word, t1: Word, t2: Word, t3: Word, t4: Word)
    requires round < NROUNDS && ThetaDone(s, da, de, di, do, du)
    requires var b0, b1, b2, b3, b4 := Rol(Xor(At(s, 3), do), 28), Rol(Xor(At(s, 9), du), 20), Rol(Xor(At(s, 10), da), 3), Rol(Xor(At(s, 16), de), 45), Rol(Xor(At(s, 22), di), 61);
             && t0 == ChiLane(b0, b1, b2) && t1 == ChiLane(b1, b2, b3)
             && t2 == ChiLane(b2, b3, b4) && t3 == ChiLane(b3, b4, b0) && t4 == ChiLane(b4, b0, b1)
    ensures var t := Round(s, round); Plane(t, 5, t0, t1, t2, t3, t4)
  {
    hide Xor, Rol, Rotated, Theta, Rho, Pi, Chi, RoundConstant, ChiLane, BeforeChi, ThetaEffect, Round;
    RoundLanes(s, round);
    Row1(s);
    ChiRow(BeforeChi(s), 1);
    RolIsRotation(Xor(s[3], do), 28);
    RolIsRotation(Xor(s[9], du), 20);
    RolIsRotation(Xor(s[10], da), 3);
    RolIsRotation(Xor(s[16], de), 45);
    RolIsRotation(Xor(s[22], di), 61);
  }

  lemma Plane2(s: Lanes, round: nat, da: Word, de: Word, di: Word, do: Word, du: Word, t0: Word, t1: Word, t2: Word, t3: Word, t4: Word)
    requires round < NROUNDS && ThetaDone(s, da, de, di, do, du)
    requires var b0, b1, b2, b3, b4 := Rol(Xor(At(s, 1), de), 1), Rol(Xor(At(s, 7), di), 6), Rol(Xor(At(s, 13), do), 25), Rol(Xor(At(s, 19), du), 8), Rol(Xor(At(s, 20), da), 18);
             && t0 == ChiLane(b0, b1, b2) && t1 == ChiLane(b1, b2, b3)
             && t2 == ChiLane(b2, b3, b4) && t3 == ChiLane(b3, b4, b0) && t4 == ChiLane(b4, b0, b1)
    ensures var t := Round(s, round); Plane(t, 10, t0, t1, t2, t3, t4)
  {
    hide Xor, Rol, Rotated, Theta, Rho, Pi, Chi, RoundConstant, ChiLane, BeforeChi, ThetaEffect, Round;
    RoundLanes(s, round);
    Row2(s);
    ChiRow(BeforeChi(s), 2);
    RolIsRotation(Xor(s[1], de), 1);
    RolIsRotation(Xor(s[7], di), 6);
    RolIsRotation(Xor(s[13], do), 25);
    RolIsRotation(Xor(s[19], du), 8);
    RolIsRotation(Xor(s[20], da), 18);
  }

  lemma Plane3(s: Lanes, round: nat, da: Word, de: Word, di: Word, do: Word, du: Word, t0: Word, t1: Word, t2: Word, t3: Word, t4: Word)
    requires round < NROUNDS && ThetaDone(s, da, de, di, do, du)
    requires var b0, b1, b2, b3, b4 := Rol(Xor(At(s, 4), du), 27), Rol(Xor(At(s, 5), da), 36), Rol(Xor(At(s, 11), de), 10), Rol(Xor(At(s, 17), di), 15), Rol(Xor(At(s, 23), do), 56);
             && t0 == ChiLane(b0, b1, b2) && t1 == ChiLane(b1, b2, b3)
             && t2 == ChiLane(b2, b3, b4) && t3 == ChiLane(b3, b4, b0) && t4 == ChiLane(b4, b0, b1)
    ensures var t := Round(s, round); Plane(t, 15, t0, t1, t2, t3, t4)
  {
    hide Xor, Rol, Rotated, Theta, Rho, Pi, Chi, RoundConstant, ChiLane, BeforeChi, ThetaEffect, Round;
    RoundLanes(s, round);
    Row3(s);
    ChiRow(BeforeChi(s), 3);
    RolIsRotation(Xor(s[4], du), 27);
    RolIsRotation(Xor(s[5], da), 36);
    RolIsRotation(Xor(s[11], de), 10);
    RolIsRotation(Xor(s[17], di), 15);
    RolIsRotation(Xor(s[23], do), 56);
  }

  lemma Plane4(s: Lanes, round: nat, da: Word, de: Word, di: Word, do: Word, du: Word, t0: Word, t1: Word, t2: Word, t3: Word, t4: Word)
    requires round < NROUNDS && ThetaDone(s, da, de, di, do, du)
    requires var b0, b1, b2, b3, b4 := Rol(Xor(At(s, 2), di), 62), Rol(Xor(At(s, 8), do), 55), Rol(Xor(At(s, 14), du), 39), Rol(Xor(At(s, 15), da), 41), Rol(Xor(At(s, 21), de), 2);
             && t0 == ChiLane(b0, b1, b2) && t1 == ChiLane(b1, b2, b3)
             && t2 == ChiLane(b2, b3, b4) && t3 == ChiLane(b3, b4, b0) && t4 == ChiLane(b4, b0, b1)
    ensures var t := Round(s, round); Plane(t, 20, t0, t1, t2, t3, t4)
  {
    hide Xor, Rol, Rotated, Theta, Rho, Pi, Chi, RoundConstant, ChiLane, BeforeChi, ThetaEffect, Round;
    RoundLanes(s, round);
    Row4(s);
    ChiRow(BeforeChi(s), 4);
    RolIsRotation(Xor(s[2], di), 62);
    RolIsRotation(Xor(s[8], do), 55);
    RolIsRotation(Xor(s[14], du), 39);
    RolIsRotation(Xor(s[15], da), 41);
    RolIsRotation(Xor(s[21], de), 2);
  }

  lemma NoRounds(s: Lanes)
    ensures Rounds(s, 0) == s
  {
  }

  lemma TwoRounds(s: Lanes, n: nat)
    requires n + 1 < NROUNDS
    ensures Rounds(s, n + 2) == Round(Round(Rounds(s, n), n), n + 1)
  {
    hide Round;
  }

  predicate Planes(s: Lanes,
      aba: Word, abe: Word, abi: Word, abo: Word, abu: Word,
      aga: Word, age: Word, agi: Word, ago: Word, agu: Word,
      aka: Word, ake: Word, aki: Word, ako: Word, aku: Word,
      ama: Word, ame: Word, ami: Word, amo: Word, amu: Word,
      asa: Word, ase: Word, asi: Word, aso: Word, asu: Word)
  {
    && Plane(s, 0, aba, abe, abi, abo, abu)
    && Plane(s, 5, aga, age, agi, ago, agu)
    && Plane(s, 10, aka, ake, aki, ako, aku)
    && Plane(s, 15, ama, ame, ami, amo, amu)
    && Plane(s, 20, asa, ase, asi, aso, asu)
  }

  method EvenRound(ghost s: Lanes, round: nat,
      aba': Word, abe': Word, abi': Word, abo': Word, abu': Word,
      aga': Word, age': Word, agi': Word, ago': Word, agu': Word,
      aka': Word, ake': Word, aki': Word, ako': Word, aku': Word,
      ama': Word, ame': Word, ami': Word, amo': Word, amu': Word,
      asa': Word, ase': Word, asi': Word, aso': Word, asu': Word)
    returns (
      eba: Word, ebe: Word, ebi: Word, ebo: Word, ebu: Word,
      ega: Word, ege: Word, egi: Word, ego: Word, egu: Word,
      eka: Word, eke: Word, eki: Word, eko: Word, eku: Word,
      ema: Word, eme: Word, emi: Word, emo: Word, emu: Word,
      esa: Word, ese: Word, esi: Word, eso: Word, esu: Word)
    requires round < NROUNDS && Planes(s,
      aba', abe', abi', abo', abu',
      aga', age', agi', ago', agu',
      aka', ake', aki', ako', aku',
      ama', ame', ami', amo', amu',
      asa', ase', asi', aso', asu')
    ensures Planes(Round(s, round),
      eba, ebe, ebi, ebo, ebu,
      ega, ege, egi, ego, egu,
      eka, eke, eki, eko, eku,
      ema, eme, emi, emo, emu,
      esa, ese, esi, eso, esu)
  {
    hide Xor, And, Not, Rol, Round, RoundConstant, ThetaDone, ThetaEffect, Rounds, At;
    var bca, bce, bci, bco, bcu: Word;
    var da, de, di, do, du: Word;
    var aba, abe, abi, abo, abu := aba', abe', abi', abo', abu';
    var aga, age, agi, ago, agu := aga', age', agi', ago', agu';
    var aka, ake, aki, ako, aku := aka', ake', aki', ako', aku';
    var ama, ame, ami, amo, amu := ama', ame', ami', amo', amu';
    var asa, ase, asi, aso, asu := asa', ase', asi', aso', asu';
    bca := Xor(Xor(Xor(Xor(aba, aga), aka), ama), asa);
    bce := Xor(Xor(Xor(Xor(abe, age), ake), ame), ase);
    bci := Xor(Xor(Xor(Xor(abi, agi), aki), ami), asi);
    bco := Xor(Xor(Xor(Xor(abo, ago), ako), amo), aso);
    bcu := Xor(Xor(Xor(Xor(abu, agu), aku), amu), asu);

    da := Xor(bcu, Rol(bce, 1));
    de := Xor(bca, Rol(bci, 1));
    di := Xor(bce, Rol(bco, 1));
    do := Xor(bci, Rol(bcu, 1));
    du := Xor(bco, Rol(bca, 1));
    ThetaWordsDone(s, da, de, di, do, du);

    aba := Xor(aba, da);
    bca := aba;
    age := Xor(age, de);
    bce := Rol(age, 44);
    aki := Xor(aki, di);
    bci := Rol(aki, 43);
    amo := Xor(amo, do);
    bco := Rol(amo, 21);
    asu := Xor(asu, du);
    bcu := Rol(asu, 14);
    eba := Xor(bca, And(Not(bce), bci));
    eba := Xor(eba, RoundConstant(round));
    ebe := Xor(bce, And(Not(bci), bco));
    ebi := Xor(bci, And(Not(bco), bcu));
    ebo := Xor(bco, And(Not(bcu), bca));
    ebu := Xor(bcu, And(Not(bca), bce));
    Plane0(s, round, da, de, di, do, du, eba, ebe, ebi, ebo, ebu);

    abo := Xor(abo, do);
    bca := Rol(abo, 28);
    agu := Xor(agu, du);
    bce := Rol(agu, 20);
    aka := Xor(aka, da);
    bci := Rol(aka, 3);
    ame := Xor(ame, de);
    bco := Rol(ame, 45);
    asi := Xor(asi, di);
    bcu := Rol(asi, 61);
    ega := Xor(bca, And(Not(bce), bci));
    ege := Xor(bce, And(Not(bci), bco));
    egi := Xor(bci, And(Not(bco), bcu));
    ego := Xor(bco, And(Not(bcu), bca));
    egu := Xor(bcu, And(Not(bca), bce));
    Plane1(s, round, da, de, di, do, du, ega, ege, egi, ego, egu);

    abe := Xor(abe, de);
    bca := Rol(abe, 1);
    agi := Xor(agi, di);
    bce := Rol(agi, 6);
    ako := Xor(ako, do);
    bci := Rol(ako, 25);
    amu := Xor(amu, du);
    bco := Rol(amu, 8);
    asa := Xor(asa, da);
    bcu := Rol(asa, 18);
    eka := Xor(bca, And(Not(bce), bci));
    eke := Xor(bce, And(Not(bci), bco));
    eki := Xor(bci, And(Not(bco), bcu));
    eko := Xor(bco, And(Not(bcu), bca));
    eku := Xor(bcu, And(Not(bca), bce));
    Plane2(s, round, da, de, di, do, du, eka, eke, eki, eko, eku);

    abu := Xor(abu, du);
    bca := Rol(abu, 27);
    aga := Xor(aga, da);
    bce := Rol(aga, 36);
    ake := Xor(ake, de);
    bci := Rol(ake, 10);
    ami := Xor(ami, di);
    bco := Rol(ami, 15);
    aso := Xor(aso, do);
    bcu := Rol(aso, 56);
    ema := Xor(bca, And(Not(bce), bci));
    eme := Xor(bce, And(Not(bci), bco));
    emi := Xor(bci, And(Not(bco), bcu));
    emo := Xor(bco, And(Not(bcu), bca));
    emu := Xor(bcu, And(Not(bca), bce));
    Plane3(s, round, da, de, di, do, du, ema, eme, emi, emo, emu);

    abi := Xor(abi, di);
    bca := Rol(abi, 62);
    ago := Xor(ago, do);
    bce := Rol(ago, 55);
    aku := Xor(aku, du);
    bci := Rol(aku, 39);
    ama := Xor(ama, da);
    bco := Rol(ama, 41);
    ase := Xor(ase, de);
    bcu := Rol(ase, 2);
    esa := Xor(bca, And(Not(bce), bci));
    ese := Xor(bce, And(Not(bci), bco));
    esi := Xor(bci, And(Not(bco), bcu));
    eso := Xor(bco, And(Not(bcu), bca));
    esu := Xor(bcu, And(Not(bca), bce));
    Plane4(s, round, da, de, di, do, du, esa, ese, esi, eso, esu);
  }

  method OddRound(ghost s: Lanes, round: nat,
      eba': Word, ebe': Word, ebi': Word, ebo': Word, ebu': Word,
      ega': Word, ege': Word, egi': Word, ego': Word, egu': Word,
      eka': Word, eke': Word, eki': Word, eko': Word, eku': Word,
      ema': Word, eme': Word, emi': Word, emo': Word, emu': Word,
      esa': Word, ese': Word, esi': Word, eso': Word, esu': Word)
    returns (
      aba: Word, abe: Word, abi: Word, abo: Word, abu: Word,
      aga: Word, age: Word, agi: Word, ago: Word, agu: Word,
      aka: Word, ake: Word, aki: Word, ako: Word, aku: Word,
      ama: Word, ame: Word, ami: Word, amo: Word, amu: Word,
      asa: Word, ase: Word, asi: Word, aso: Word, asu: Word)
    requires round < NROUNDS && Planes(s,
      eba', ebe', ebi', ebo', ebu',
      ega', ege', egi', ego', egu',
      eka', eke', eki', eko', eku',
      ema', eme', emi', emo', emu',
      esa', ese', esi', eso', esu')
    ensures Planes(Round(s, round),
      aba, abe, abi, abo, abu,
      aga, age, agi, ago, agu,
      aka, ake, aki, ako, aku,
      ama, ame, ami, amo, amu,
      asa, ase, asi, aso, asu)
  {
    hide Xor, And, Not, Rol, Round, RoundConstant, ThetaDone, ThetaEffect, Rounds, At;
    var bca, bce, bci, bco, bcu: Word;
    var da, de, di, do, du: Word;
    var eba, ebe, ebi, ebo, ebu := eba', ebe', ebi', ebo', ebu';
    var ega, ege, egi, ego, egu := ega', ege', egi', ego', egu';
    var eka, eke, eki, eko, eku := eka', eke', eki', eko', eku';
    var ema, eme, emi, emo, emu := ema', eme', emi', emo', emu';
    var esa, ese, esi, eso, esu := esa', ese', esi', eso', esu';

    bca := Xor(Xor(Xor(Xor(eba, ega), eka), ema), esa);
    bce := Xor(Xor(Xor(Xor(ebe, ege), eke), eme), ese);
    bci := Xor(Xor(Xor(Xor(ebi, egi), eki), emi), esi);
    bco := Xor(Xor(Xor(Xor(ebo, ego), eko), emo), eso);
    bcu := Xor(Xor(Xor(Xor(ebu, egu), eku), emu), esu);

    da := Xor(bcu, Rol(bce, 1));
    de := Xor(bca, Rol(bci, 1));
    di := Xor(bce, Rol(bco, 1));
    do := Xor(bci, Rol(bcu, 1));
    du := Xor(bco, Rol(bca, 1));
    ThetaWordsDone(s, da, de, di, do, du);

    eba := Xor(eba, da);
    bca := eba;
    ege := Xor(ege, de);
    bce := Rol(ege, 44);
    eki := Xor(eki, di);
    bci := Rol(eki, 43);
    emo := Xor(emo, do);
    bco := Rol(emo, 21);
    esu := Xor(esu, du);
    bcu := Rol(esu, 14);
    aba := Xor(bca, And(Not(bce), bci));
    aba := Xor(aba, RoundConstant(round));
    abe := Xor(bce, And(Not(bci), bco));
    abi := Xor(bci, And(Not(bco), bcu));
    abo := Xor(bco, And(Not(bcu), bca));
    abu := Xor(bcu, And(Not(bca), bce));
    Plane0(s, round, da, de, di, do, du, aba, abe, abi, abo, abu);

    ebo := Xor(ebo, do);
    bca := Rol(ebo, 28);
    egu := Xor(egu, du);
    bce := Rol(egu, 20);
    eka := Xor(eka, da);
    bci := Rol(eka, 3);
    eme := Xor(eme, de);
    bco := Rol(eme, 45);
    esi := Xor(esi, di);
    bcu := Rol(esi, 61);
    aga := Xor(bca, And(Not(bce), bci));
    age := Xor(bce, And(Not(bci), bco));
    agi := Xor(bci, And(Not(bco), bcu));
    ago := Xor(bco, And(Not(bcu), bca));
    agu := Xor(bcu, And(Not(bca), bce));
    Plane1(s, round, da, de, di, do, du, aga, age, agi, ago, agu);

    ebe := Xor(ebe, de);
    bca := Rol(ebe, 1);
    egi := Xor(egi, di);
    bce := Rol(egi, 6);
    eko := Xor(eko, do);
    bci := Rol(eko, 25);
    emu := Xor(emu, du);
    bco := Rol(emu, 8);
    esa := Xor(esa, da);
    bcu := Rol(esa, 18);
    aka := Xor(bca, And(Not(bce), bci));
    ake := Xor(bce, And(Not(bci), bco));
    aki := Xor(bci, And(Not(bco), bcu));
    ako := Xor(bco, And(Not(bcu), bca));
    aku := Xor(bcu, And(Not(bca), bce));
    Plane2(s, round, da, de, di, do, du, aka, ake, aki, ako, aku);

    ebu := Xor(ebu, du);
    bca := Rol(ebu, 27);
    ega := Xor(ega, da);
    bce := Rol(ega, 36);
    eke := Xor(eke, de);
    bci := Rol(eke, 10);
    emi := Xor(emi, di);
    bco := Rol(emi, 15);
    eso := Xor(eso, do);
    bcu := Rol(eso, 56);
    ama := Xor(bca, And(Not(bce), bci));
    ame := Xor(bce, And(Not(bci), bco));
    ami := Xor(bci, And(Not(bco), bcu));
    amo := Xor(bco, And(Not(bcu), bca));
    amu := Xor(bcu, And(Not(bca), bce));
    Plane3(s, round, da, de, di, do, du, ama, ame, ami, amo, amu);

    ebi := Xor(ebi, di);
    bca := Rol(ebi, 62);
    ego := Xor(ego, do);
    bce := Rol(ego, 55);
    eku := Xor(eku, du);
    bci := Rol(eku, 39);
    ema := Xor(ema, da);
    bco := Rol(ema, 41);
    ese := Xor(ese, de);
    bcu := Rol(ese, 2);
    asa := Xor(bca, And(Not(bce), bci));
    ase := Xor(bce, And(Not(bci), bco));
    asi := Xor(bci, And(Not(bco), bcu));
    aso := Xor(bco, And(Not(bcu), bca));
    asu := Xor(bcu, And(Not(bca), bce));
    Plane4(s, round, da, de, di, do, du, asa, ase, asi, aso, asu);
  }

  method LoadPlane(state: array<Word>, i: nat) returns (a: Word, b: Word, c: Word, d: Word, e: Word)
    requires state.Length == 25 && i <= 20
    ensures Plane(state[..], i, a, b, c, d, e)
  {
    a, b, c, d, e := state[i], state[i + 1], state[i + 2], state[i + 3], state[i + 4];
  }

  method StorePlane(state: array<Word>, i: nat, a: Word, b: Word, c: Word, d: Word, e: Word, ghost s: Lanes)
    requires state.Length == 25 && i <= 20 && Plane(s, i, a, b, c, d, e) && state[..i] == s[..i]
    modifies state
    ensures state[..i + 5] == s[..i + 5]
  {
    state[i], state[i + 1], state[i + 2], state[i + 3], state[i + 4] := a, b, c, d, e;
    assert state[..i] == s[..i];
    assert forall k :: i <= k < i + 5 ==> state[k] == s[k];
  }

  // KeccakF1600_StatePermute: the state is copied to 25 variables, each
  // iteration takes one round from the a to the e variables and one back, and the
  // result is copied to the state.
  method StatePermute(state: array<Word>)
    requires state.Length == 25
    modifies state
    ensures state[..] == Permute(old(state[..]))
  {
    hide Round, Rounds, Plane;
    var aba, abe, abi, abo, abu := LoadPlane(state, 0);
    var aga, age, agi, ago, agu := LoadPlane(state, 5);
    var aka, ake, aki, ako, aku := LoadPlane(state, 10);
    var ama, ame, ami, amo, amu := LoadPlane(state, 15);
    var asa, ase, asi, aso, asu := LoadPlane(state, 20);
    ghost var was, s: Lanes := state[..], state[..];
    NoRounds(was);
    var round := 0;
    while round < NROUNDS
      invariant round <= NROUNDS && round % 2 == 0 && s == Rounds(was, round) && state[..] == was
      invariant Planes(s,
        aba, abe, abi, abo, abu,
        aga, age, agi, ago, agu,
        aka, ake, aki, ako, aku,
        ama, ame, ami, amo, amu,
        asa, ase, asi, aso, asu)
    {
      var eba, ebe, ebi, ebo, ebu,
          ega, ege, egi, ego, egu,
          eka, eke, eki, eko, eku,
          ema, eme, emi, emo, emu,
          esa, ese, esi, eso, esu := EvenRound(s, round,
        aba, abe, abi, abo, abu,
        aga, age, agi, ago, agu,
        aka, ake, aki, ako, aku,
        ama, ame, ami, amo, amu,
        asa, ase, asi, aso, asu);
      aba, abe, abi, abo, abu,
      aga, age, agi, ago, agu,
      aka, ake, aki, ako, aku,
      ama, ame, ami, amo, amu,
      asa, ase, asi, aso, asu := OddRound(Round(s, round), round + 1,
        eba, ebe, ebi, ebo, ebu,
        ega, ege, egi, ego, egu,
        eka, eke, eki, eko, eku,
        ema, eme, emi, emo, emu,
        esa, ese, esi, eso, esu);
      TwoRounds(was, round);
      s := Round(Round(s, round), round + 1);
      round := round + 2;
    }
    StorePlane(state, 0, aba, abe, abi, abo, abu, s);
    StorePlane(state, 5, aga, age, agi, ago, agu, s);
    StorePlane(state, 10, aka, ake, aki, ako, aku, s);
    StorePlane(state, 15, ama, ame, ami, amo, amu, s);
    StorePlane(state, 20, asa, ase, asi, aso, asu, s);
  }
}
