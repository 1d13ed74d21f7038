// The table of NTT twiddle factors (components/ntt/ntt.c).
module Zetas {
  import opened Reduce

  function Row0(i: nat): int
  {
    match i
    case 0 => -1044 case 1 => -758 case 2 => -359 case 3 => -1517 case 4 => 1493 case 5 => 1422 case 6 => 287 case _ => 202
  }

  function Row1(i: nat): int
  {
    match i
    case 0 => -171 case 1 => 622 case 2 => 1577 case 3 => 182 case 4 => 962 case 5 => -1202 case 6 => -1474 case _ => 1468
  }

  function Row2(i: nat): int
  {
    match i
    case 0 => 573 case 1 => -1325 case 2 => 264 case 3 => 383 case 4 => -829 case 5 => 1458 case 6 => -1602 case _ => -130
  }

  function Row3(i: nat): int
  {
    match i
    case 0 => -681 case 1 => 1017 case 2 => 732 case 3 => 608 case 4 => -1542 case 5 => 411 case 6 => -205 case _ => -1571
  }

  function Row4(i: nat): int
  {
    match i
    case 0 => 1223 case 1 => 652 case 2 => -552 case 3 => 1015 case 4 => -1293 case 5 => 1491 case 6 => -282 case _ => -1544
  }

  function Row5(i: nat): int
  {
    match i
    case 0 => 516 case 1 => -8 case 2 => -320 case 3 => -666 case 4 => -1618 case 5 => -1162 case 6 => 126 case _ => 1469
  }

  function Row6(i: nat): int
  {
    match i
    case 0 => -853 case 1 => -90 case 2 => -271 case 3 => 830 case 4 => 107 case 5 => -1421 case 6 => -247 case _ => -951
  }

  function Row7(i: nat): int
  {
    match i
    case 0 => -398 case 1 => 961 case 2 => -1508 case 3 => -725 case 4 => 448 case 5 => -1065 case 6 => 677 case _ => -1275
  }

  function Row8(i: nat): int
  {
    match i
    case 0 => -1103 case 1 => 430 case 2 => 555 case 3 => 843 case 4 => -1251 case 5 => 871 case 6 => 1550 case _ => 105
  }

  function Row9(i: nat): int
  {
    match i
    case 0 => 422 case 1 => 587 case 2 => 177 case 3 => -235 case 4 => -291 case 5 => -460 case 6 => 1574 case _ => 1653
  }

  function Row10(i: nat): int
  {
    match i
    case 0 => -246 case 1 => 778 case 2 => 1159 case 3 => -147 case 4 => -777 case 5 => 1483 case 6 => -602 case _ => 1119
  }

  function Row11(i: nat): int
  {
    match i
    case 0 => -1590 case 1 => 644 case 2 => -872 case 3 => 349 case 4 => 418 case 5 => 329 case 6 => -156 case _ => -75
  }

  function Row12(i: nat): int
  {
    match i
    case 0 => 817 case 1 => 1097 case 2 => 603 case 3 => 610 case 4 => 1322 case 5 => -1285 case 6 => -1465 case _ => 384
  }

  function Row13(i: nat): int
  {
    match i
    case 0 => -1215 case 1 => -136 case 2 => 1218 case 3 => -1335 case 4 => -874 case 5 => 220 case 6 => -1187 case _ => -1659
  }

  function Row14(i: nat): int
  {
    match i
    case 0 => -1185 case 1 => -1530 case 2 => -1278 case 3 => 794 case 4 => -1510 case 5 => -854 case 6 => -870 case _ => 478
  }

  function Row15(i: nat): int
  {
    match i
    case 0 => -108 case 1 => -308 case 2 => 996 case 3 => 991 case 4 => 958 case 5 => -1460 case 6 => 1522 case _ => 1628
  }

  // Powers of 17 in bit-reversed order, times 2^16, centred modulo Q.
  function Zeta(k: nat): int
    requires k < 128
  {
    var i := k % 8;
    match k / 8
    case 0 => Row0(i)
    case 1 => Row1(i)
    case 2 => Row2(i)
    case 3 => Row3(i)
    case 4 => Row4(i)
    case 5 => Row5(i)
    case 6 => Row6(i)
    case 7 => Row7(i)
    case 8 => Row8(i)
    case 9 => Row9(i)
    case 10 => Row10(i)
    case 11 => Row11(i)
    case 12 => Row12(i)
    case 13 => Row13(i)
    case 14 => Row14(i)
    case _ => Row15(i)
  }

  // The twiddle factor without its Montgomery factor (0 outside the table).
  function Z(k: int): (r: int)
    ensures 0 <= r < Q
  {
    if 0 <= k < 128 then (Zeta(k) * R_INV) % Q else 0
  }

  // Node k of the splitting tree works modulo X^n - W(k): the root modulo
  // X^256 + 1, the children of node k modulo X^(n/2) - Z(k) and X^(n/2) + Z(k).
  function W(k: int): int {
    if k == 1 then -1 else if k % 2 == 0 then Z(k / 2) else -Z(k / 2)
  }

  // The node that mirrors k within its layer.
  function Mirror(k: nat): (r: nat)
    requires 1 <= k < 128
    ensures 1 <= r < 128
  {
    if k < 2 then 1
    else if k < 4 then 5 - k
    else if k < 8 then 11 - k
    else if k < 16 then 23 - k
    else if k < 32 then 47 - k
    else if k < 64 then 95 - k
    else 191 - k
  }

  lemma ZetaSmall(k: nat)
    requires k < 128
    ensures -1664 <= Zeta(k) <= 1664
  {
  }

  // ----- the table in Montgomery form, entry by entry

  lemma SquareEvenLow(k: nat)
    requires 1 <= k < 32
    ensures (Zeta(2 * k) * Zeta(2 * k) - 0x1_0000 * Zeta(k)) % Q == 0
  {
    match k {
      case 1 => case 2 => case 3 => case 4 => case 5 => case 6 => case 7 => case 8 => case 9 => case 10 => case 11 => case 12 => case 13 => case 14 => case 15 => case 16 =>
      case 17 => case 18 => case 19 => case 20 => case 21 => case 22 => case 23 => case 24 => case 25 => case 26 => case 27 => case 28 => case 29 => case 30 => case _ =>
    }
  }

  lemma SquareEvenHigh(k: nat)
    requires 32 <= k < 64
    ensures (Zeta(2 * k) * Zeta(2 * k) - 0x1_0000 * Zeta(k)) % Q == 0
  {
    match k {
      case 32 => case 33 => case 34 => case 35 => case 36 => case 37 => case 38 => case 39 => case 40 => case 41 => case 42 => case 43 => case 44 => case 45 => case 46 => case 47 =>
      case 48 => case 49 => case 50 => case 51 => case 52 => case 53 => case 54 => case 55 => case 56 => case 57 => case 58 => case 59 => case 60 => case 61 => case 62 => case _ =>
    }
  }

  lemma SquareOddLow(k: nat)
    requires 1 <= k < 32
    ensures (Zeta(2 * k + 1) * Zeta(2 * k + 1) + 0x1_0000 * Zeta(k)) % Q == 0
  {
    match k {
      case 1 => case 2 => case 3 => case 4 => case 5 => case 6 => case 7 => case 8 => case 9 => case 10 => case 11 => case 12 => case 13 => case 14 => case 15 => case 16 =>
      case 17 => case 18 => case 19 => case 20 => case 21 => case 22 => case 23 => case 24 => case 25 => case 26 => case 27 => case 28 => case 29 => case 30 => case _ =>
    }
  }

  lemma SquareOddHigh(k: nat)
    requires 32 <= k < 64
    ensures (Zeta(2 * k + 1) * Zeta(2 * k + 1) + 0x1_0000 * Zeta(k)) % Q == 0
  {
    match k {
      case 32 => case 33 => case 34 => case 35 => case 36 => case 37 => case 38 => case 39 => case 40 => case 41 => case 42 => case 43 => case 44 => case 45 => case 46 => case 47 =>
      case 48 => case 49 => case 50 => case 51 => case 52 => case 53 => case 54 => case 55 => case 56 => case 57 => case 58 => case 59 => case 60 => case 61 => case 62 => case _ =>
    }
  }

  lemma MirrorProduct1(k: nat)
    requires 1 <= k < 64
    ensures (Zeta(k) * Zeta(Mirror(k)) + 0x1_0000_0000) % Q == 0
  {
    match k {
      case 1 => case 2 => case 3 => case 4 => case 5 => case 6 => case 7 => case 8 => case 9 => case 10 => case 11 => case 12 => case 13 => case 14 => case 15 => case 16 =>
      case 17 => case 18 => case 19 => case 20 => case 21 => case 22 => case 23 => case 24 => case 25 => case 26 => case 27 => case 28 => case 29 => case 30 => case 31 => case 32 =>
      case 33 => case 34 => case 35 => case 36 => case 37 => case 38 => case 39 => case 40 => case 41 => case 42 => case 43 => case 44 => case 45 => case 46 => case 47 => case 48 =>
      case 49 => case 50 => case 51 => case 52 => case 53 => case 54 => case 55 => case 56 => case 57 => case 58 => case 59 => case 60 => case 61 => case 62 => case _ =>
    }
  }

  lemma MirrorProduct64(k: nat)
    requires 64 <= k < 96
    ensures (Zeta(k) * Zeta(Mirror(k)) + 0x1_0000_0000) % Q == 0
  {
    match k {
      case 64 => case 65 => case 66 => case 67 => case 68 => case 69 => case 70 => case 71 => case 72 => case 73 => case 74 => case 75 => case 76 => case 77 => case 78 => case 79 =>
      case 80 => case 81 => case 82 => case 83 => case 84 => case 85 => case 86 => case 87 => case 88 => case 89 => case 90 => case 91 => case 92 => case 93 => case 94 => case _ =>
    }
  }

  lemma MirrorProduct96(k: nat)
    requires 96 <= k < 128
    ensures (Zeta(k) * Zeta(Mirror(k)) + 0x1_0000_0000) % Q == 0
  {
    match k {
      case 96 => case 97 => case 98 => case 99 => case 100 => case 101 => case 102 => case 103 => case 104 => case 105 => case 106 => case 107 => case 108 => case 109 => case 110 => case 111 =>
      case 112 => case 113 => case 114 => case 115 => case 116 => case 117 => case 118 => case 119 => case 120 => case 121 => case 122 => case 123 => case 124 => case 125 => case 126 => case _ =>
    }
  }

  // ----- the same facts without the Montgomery factors

  lemma CongOfDifference(x: int, y: int)
    requires (x - y) % Q == 0
    ensures Cong(x, y)
  {
  }

  lemma ConstantFactors(x: int, y: int, w: int)
    ensures x * R_INV * (y * R_INV) == x * y * (R_INV * R_INV)
    ensures Cong(0x1_0000 * w * (R_INV * R_INV), w * R_INV)
  {
    CongMultiple(w * R_INV, 3327 * R_INV * w);
  }

  // With x' == x / 2^16 and so on: a product in Montgomery form gives the plain one.
  lemma UnscaleProduct(x: int, y: int, w: int, x': int, y': int, w': int)
    requires Cong(x * y, 0x1_0000 * w)
    requires Cong(x', x * R_INV) && Cong(y', y * R_INV) && Cong(w', w * R_INV)
    ensures Cong(x' * y', w')
  {
    hide Residue;
    CongMul(x', x * R_INV, y', y * R_INV);
    ConstantFactors(x, y, w);
    CongMul(x * y, 0x1_0000 * w, R_INV * R_INV, R_INV * R_INV);
  }

  lemma Unscaled(k: nat)
    requires k < 128
    ensures Cong(Z(k), Zeta(k) * R_INV) && Cong(-Z(k), -Zeta(k) * R_INV)
  {
  }

  lemma ZSquareEven(h: nat)
    requires 1 <= h < 64
    ensures Cong(Z(2 * h) * Z(2 * h), Z(h))
  {
    if h < 32 { SquareEvenLow(h); } else { SquareEvenHigh(h); }
    Unscaled(h);
    Unscaled(2 * h);
    CongOfDifference(Zeta(2 * h) * Zeta(2 * h), 0x1_0000 * Zeta(h));
    hide *;
    UnscaleProduct(Zeta(2 * h), Zeta(2 * h), Zeta(h), Z(2 * h), Z(2 * h), Z(h));
  }

  lemma ZSquareOdd(h: nat)
    requires 1 <= h < 64
    ensures Cong(Z(2 * h + 1) * Z(2 * h + 1), -Z(h))
  {
    if h < 32 { SquareOddLow(h); } else { SquareOddHigh(h); }
    Unscaled(h);
    Unscaled(2 * h + 1);
    CongOfDifference(Zeta(2 * h + 1) * Zeta(2 * h + 1), -0x1_0000 * Zeta(h));
    hide *;
    UnscaleProduct(Zeta(2 * h + 1), Zeta(2 * h + 1), -Zeta(h), Z(2 * h + 1), Z(2 * h + 1), -Z(h));
  }

  // Mirrored twiddle factors are inverse to each other up to sign.
  lemma ZMirror(k: nat)
    requires 1 <= k < 128
    ensures Cong(Z(k) * Z(Mirror(k)), -1)
  {
    if k < 64 { MirrorProduct1(k); } else if k < 96 { MirrorProduct64(k); } else { MirrorProduct96(k); }
    Unscaled(k);
    Unscaled(Mirror(k));
    assert Cong(-1, -0x1_0000 * R_INV);
    CongOfDifference(Zeta(k) * Zeta(Mirror(k)), -0x1_0000_0000);
    hide *;
    UnscaleProduct(Zeta(k), Zeta(Mirror(k)), -0x1_0000, Z(k), Z(Mirror(k)), -1);
  }

  // The square of each twiddle factor is the constant of the node it splits.
  lemma ZSquare(k: nat)
    requires 1 <= k < 128
    ensures Cong(Z(k) * Z(k), W(k))
  {
    hide Z, Residue;
    if k == 1 {
      ZMirror(1);
    } else if k % 2 == 0 {
      assert k == 2 * (k / 2);
      ZSquareEven(k / 2);
    } else {
      assert k == 2 * (k / 2) + 1;
      ZSquareOdd(k / 2);
    }
  }
}
