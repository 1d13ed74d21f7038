// Where every bit of a packed value goes (components/poly/poly.c:18-147,
// components/polyvec/polyvec.c:15-115): the values one after the other, each with its
// least significant bit first.
module PackingBits {
  import opened Packing

  // Bit l of a value.
  function ValueBit(v: bv16, l: nat): bool
    requires l < 16
  {
    match l
    case 0 => v & 0x1 != 0 case 1 => v & 0x2 != 0 case 2 => v & 0x4 != 0 case 3 => v & 0x8 != 0
    case 4 => v & 0x10 != 0 case 5 => v & 0x20 != 0 case 6 => v & 0x40 != 0 case 7 => v & 0x80 != 0
    case 8 => v & 0x100 != 0 case 9 => v & 0x200 != 0 case 10 => v & 0x400 != 0 case 11 => v & 0x800 != 0
    case 12 => v & 0x1000 != 0 case 13 => v & 0x2000 != 0 case 14 => v & 0x4000 != 0 case 15 => v & 0x8000 != 0
  }

  // Bit p of a byte string.
  function BitOfByte(b: byte, k: nat): bool
    requires k < 8
  {
    match k
    case 0 => b & 0x1 != 0 case 1 => b & 0x2 != 0 case 2 => b & 0x4 != 0 case 3 => b & 0x8 != 0
    case 4 => b & 0x10 != 0 case 5 => b & 0x20 != 0 case 6 => b & 0x40 != 0 case 7 => b & 0x80 != 0
  }

  function StringBit(a: seq<byte>, p: nat): bool
    requires p < 8 * |a|
  {
    BitOfByte(a[p / 8], p % 8)
  }

  // Each value of a block, width by width.

  lemma Value4At0(t: seq<bv16>, l: nat)
    requires |t| == 2 && Fits(4, t) && l < 4
    ensures StringBit(PackBlock(4, t), 0 + l) == ValueBit(t[0], l)
  {
    assert t[0] <= 0xf && t[1] <= 0xf;
    match l { case 0 => case 1 => case 2 => case 3 => }
  }

  lemma Value4At1(t: seq<bv16>, l: nat)
    requires |t| == 2 && Fits(4, t) && l < 4
    ensures StringBit(PackBlock(4, t), 4 + l) == ValueBit(t[1], l)
  {
    assert t[0] <= 0xf && t[1] <= 0xf;
    match l { case 0 => case 1 => case 2 => case 3 => }
  }

  lemma Value5At0(t: seq<bv16>, l: nat)
    requires |t| == 8 && Fits(5, t) && l < 5
    ensures StringBit(PackBlock(5, t), 0 + l) == ValueBit(t[0], l)
  {
    assert t[0] <= 0x1f && t[1] <= 0x1f && t[2] <= 0x1f;
    match l { case 0 => case 1 => case 2 => case 3 => case 4 => }
  }

  lemma Value5At1(t: seq<bv16>, l: nat)
    requires |t| == 8 && Fits(5, t) && l < 5
    ensures StringBit(PackBlock(5, t), 5 + l) == ValueBit(t[1], l)
  {
    assert t[0] <= 0x1f && t[1] <= 0x1f && t[2] <= 0x1f && t[3] <= 0x1f;
    match l { case 0 => case 1 => case 2 => case 3 => case 4 => }
  }

  lemma Value5At2(t: seq<bv16>, l: nat)
    requires |t| == 8 && Fits(5, t) && l < 5
    ensures StringBit(PackBlock(5, t), 10 + l) == ValueBit(t[2], l)
  {
    assert t[0] <= 0x1f && t[1] <= 0x1f && t[2] <= 0x1f && t[3] <= 0x1f && t[4] <= 0x1f;
    match l { case 0 => case 1 => case 2 => case 3 => case 4 => }
  }

  lemma Value5At3(t: seq<bv16>, l: nat)
    requires |t| == 8 && Fits(5, t) && l < 5
    ensures StringBit(PackBlock(5, t), 15 + l) == ValueBit(t[3], l)
  {
    assert t[1] <= 0x1f && t[2] <= 0x1f && t[3] <= 0x1f && t[4] <= 0x1f && t[5] <= 0x1f;
    match l { case 0 => case 1 => case 2 => case 3 => case 4 => }
  }

  lemma Value5At4(t: seq<bv16>, l: nat)
    requires |t| == 8 && Fits(5, t) && l < 5
    ensures StringBit(PackBlock(5, t), 20 + l) == ValueBit(t[4], l)
  {
    assert t[2] <= 0x1f && t[3] <= 0x1f && t[4] <= 0x1f && t[5] <= 0x1f && t[6] <= 0x1f;
    match l { case 0 => case 1 => case 2 => case 3 => case 4 => }
  }

  lemma Value5At5(t: seq<bv16>, l: nat)
    requires |t| == 8 && Fits(5, t) && l < 5
    ensures StringBit(PackBlock(5, t), 25 + l) == ValueBit(t[5], l)
  {
    assert t[3] <= 0x1f && t[4] <= 0x1f && t[5] <= 0x1f && t[6] <= 0x1f && t[7] <= 0x1f;
    match l { case 0 => case 1 => case 2 => case 3 => case 4 => }
  }

  lemma Value5At6(t: seq<bv16>, l: nat)
    requires |t| == 8 && Fits(5, t) && l < 5
    ensures StringBit(PackBlock(5, t), 30 + l) == ValueBit(t[6], l)
  {
    assert t[4] <= 0x1f && t[5] <= 0x1f && t[6] <= 0x1f && t[7] <= 0x1f;
    match l { case 0 => case 1 => case 2 => case 3 => case 4 => }
  }

  lemma Value5At7(t: seq<bv16>, l: nat)
    requires |t| == 8 && Fits(5, t) && l < 5
    ensures StringBit(PackBlock(5, t), 35 + l) == ValueBit(t[7], l)
  {
    assert t[5] <= 0x1f && t[6] <= 0x1f && t[7] <= 0x1f;
    match l { case 0 => case 1 => case 2 => case 3 => case 4 => }
  }

  lemma Value10At0(t: seq<bv16>, l: nat)
    requires |t| == 4 && Fits(10, t) && l < 10
    ensures StringBit(PackBlock(10, t), 0 + l) == ValueBit(t[0], l)
  {
    assert t[0] <= 0x3ff && t[1] <= 0x3ff;
    match l { case 0 => case 1 => case 2 => case 3 => case 4 => case 5 => case 6 => case 7 => case 8 => case 9 => }
  }

  lemma Value10At1(t: seq<bv16>, l: nat)
    requires |t| == 4 && Fits(10, t) && l < 10
    ensures StringBit(PackBlock(10, t), 10 + l) == ValueBit(t[1], l)
  {
    assert t[0] <= 0x3ff && t[1] <= 0x3ff && t[2] <= 0x3ff;
    match l { case 0 => case 1 => case 2 => case 3 => case 4 => case 5 => case 6 => case 7 => case 8 => case 9 => }
  }

  lemma Value10At2(t: seq<bv16>, l: nat)
    requires |t| == 4 && Fits(10, t) && l < 10
    ensures StringBit(PackBlock(10, t), 20 + l) == ValueBit(t[2], l)
  {
    assert t[1] <= 0x3ff && t[2] <= 0x3ff && t[3] <= 0x3ff;
    match l { case 0 => case 1 => case 2 => case 3 => case 4 => case 5 => case 6 => case 7 => case 8 => case 9 => }
  }

  lemma Value10At3(t: seq<bv16>, l: nat)
    requires |t| == 4 && Fits(10, t) && l < 10
    ensures StringBit(PackBlock(10, t), 30 + l) == ValueBit(t[3], l)
  {
    assert t[2] <= 0x3ff && t[3] <= 0x3ff;
    match l { case 0 => case 1 => case 2 => case 3 => case 4 => case 5 => case 6 => case 7 => case 8 => case 9 => }
  }

  lemma Value11At0(t: seq<bv16>, l: nat)
    requires |t| == 8 && Fits(11, t) && l < 11
    ensures StringBit(PackBlock(11, t), 0 + l) == ValueBit(t[0], l)
  {
    assert t[0] <= 0x7ff && t[1] <= 0x7ff;
    match l { case 0 => case 1 => case 2 => case 3 => case 4 => case 5 => case 6 => case 7 => case 8 => case 9 => case 10 => }
  }

  lemma Value11At1(t: seq<bv16>, l: nat)
    requires |t| == 8 && Fits(11, t) && l < 11
    ensures StringBit(PackBlock(11, t), 11 + l) == ValueBit(t[1], l)
  {
    assert t[0] <= 0x7ff && t[1] <= 0x7ff && t[2] <= 0x7ff;
    match l { case 0 => case 1 => case 2 => case 3 => case 4 => case 5 => case 6 => case 7 => case 8 => case 9 => case 10 => }
  }

  lemma Value11At2(t: seq<bv16>, l: nat)
    requires |t| == 8 && Fits(11, t) && l < 11
    ensures StringBit(PackBlock(11, t), 22 + l) == ValueBit(t[2], l)
  {
    assert t[1] <= 0x7ff && t[2] <= 0x7ff && t[3] <= 0x7ff;
    match l { case 0 => case 1 => case 2 => case 3 => case 4 => case 5 => case 6 => case 7 => case 8 => case 9 => case 10 => }
  }

  lemma Value11At3(t: seq<bv16>, l: nat)
    requires |t| == 8 && Fits(11, t) && l < 11
    ensures StringBit(PackBlock(11, t), 33 + l) == ValueBit(t[3], l)
  {
    assert t[2] <= 0x7ff && t[3] <= 0x7ff && t[4] <= 0x7ff;
    match l { case 0 => case 1 => case 2 => case 3 => case 4 => case 5 => case 6 => case 7 => case 8 => case 9 => case 10 => }
  }

  lemma Value11At4(t: seq<bv16>, l: nat)
    requires |t| == 8 && Fits(11, t) && l < 11
    ensures StringBit(PackBlock(11, t), 44 + l) == ValueBit(t[4], l)
  {
    assert t[3] <= 0x7ff && t[4] <= 0x7ff && t[5] <= 0x7ff;
    match l { case 0 => case 1 => case 2 => case 3 => case 4 => case 5 => case 6 => case 7 => case 8 => case 9 => case 10 => }
  }

  lemma Value11At5(t: seq<bv16>, l: nat)
    requires |t| == 8 && Fits(11, t) && l < 11
    ensures StringBit(PackBlock(11, t), 55 + l) == ValueBit(t[5], l)
  {
    assert t[4] <= 0x7ff && t[5] <= 0x7ff && t[6] <= 0x7ff;
    match l { case 0 => case 1 => case 2 => case 3 => case 4 => case 5 => case 6 => case 7 => case 8 => case 9 => case 10 => }
  }

  lemma Value11At6(t: seq<bv16>, l: nat)
    requires |t| == 8 && Fits(11, t) && l < 11
    ensures StringBit(PackBlock(11, t), 66 + l) == ValueBit(t[6], l)
  {
    assert t[5] <= 0x7ff && t[6] <= 0x7ff && t[7] <= 0x7ff;
    match l { case 0 => case 1 => case 2 => case 3 => case 4 => case 5 => case 6 => case 7 => case 8 => case 9 => case 10 => }
  }

  lemma Value11At7(t: seq<bv16>, l: nat)
    requires |t| == 8 && Fits(11, t) && l < 11
    ensures StringBit(PackBlock(11, t), 77 + l) == ValueBit(t[7], l)
  {
    assert t[6] <= 0x7ff && t[7] <= 0x7ff;
    match l { case 0 => case 1 => case 2 => case 3 => case 4 => case 5 => case 6 => case 7 => case 8 => case 9 => case 10 => }
  }

  lemma Value12At0(t: seq<bv16>, l: nat)
    requires |t| == 2 && Fits(12, t) && l < 12
    ensures StringBit(PackBlock(12, t), 0 + l) == ValueBit(t[0], l)
  {
    assert t[0] <= 0xfff && t[1] <= 0xfff;
    match l { case 0 => case 1 => case 2 => case 3 => case 4 => case 5 => case 6 => case 7 => case 8 => case 9 => case 10 => case 11 => }
  }

  lemma Value12At1(t: seq<bv16>, l: nat)
    requires |t| == 2 && Fits(12, t) && l < 12
    ensures StringBit(PackBlock(12, t), 12 + l) == ValueBit(t[1], l)
  {
    assert t[0] <= 0xfff && t[1] <= 0xfff;
    match l { case 0 => case 1 => case 2 => case 3 => case 4 => case 5 => case 6 => case 7 => case 8 => case 9 => case 10 => case 11 => }
  }

  lemma Block4Bit(t: seq<bv16>, i: nat, l: nat)
    requires |t| == 2 && Fits(4, t) && i < 2 && l < 4
    ensures StringBit(PackBlock(4, t), 4 * i + l) == ValueBit(t[i], l)
  {
    hide PackBlock, StringBit, ValueBit, Fits;
    match i {
      case 0 => Value4At0(t, l);
      case 1 => Value4At1(t, l);
    }
  }

  lemma Block5Bit(t: seq<bv16>, i: nat, l: nat)
    requires |t| == 8 && Fits(5, t) && i < 8 && l < 5
    ensures StringBit(PackBlock(5, t), 5 * i + l) == ValueBit(t[i], l)
  {
    hide PackBlock, StringBit, ValueBit, Fits;
    match i {
      case 0 => Value5At0(t, l);
      case 1 => Value5At1(t, l);
      case 2 => Value5At2(t, l);
      case 3 => Value5At3(t, l);
      case 4 => Value5At4(t, l);
      case 5 => Value5At5(t, l);
      case 6 => Value5At6(t, l);
      case 7 => Value5At7(t, l);
    }
  }

  lemma Block10Bit(t: seq<bv16>, i: nat, l: nat)
    requires |t| == 4 && Fits(10, t) && i < 4 && l < 10
    ensures StringBit(PackBlock(10, t), 10 * i + l) == ValueBit(t[i], l)
  {
    hide PackBlock, StringBit, ValueBit, Fits;
    match i {
      case 0 => Value10At0(t, l);
      case 1 => Value10At1(t, l);
      case 2 => Value10At2(t, l);
      case 3 => Value10At3(t, l);
    }
  }

  lemma Block11Bit(t: seq<bv16>, i: nat, l: nat)
    requires |t| == 8 && Fits(11, t) && i < 8 && l < 11
    ensures StringBit(PackBlock(11, t), 11 * i + l) == ValueBit(t[i], l)
  {
    hide PackBlock, StringBit, ValueBit, Fits;
    match i {
      case 0 => Value11At0(t, l);
      case 1 => Value11At1(t, l);
      case 2 => Value11At2(t, l);
      case 3 => Value11At3(t, l);
      case 4 => Value11At4(t, l);
      case 5 => Value11At5(t, l);
      case 6 => Value11At6(t, l);
      case 7 => Value11At7(t, l);
    }
  }

  lemma Block12Bit(t: seq<bv16>, i: nat, l: nat)
    requires |t| == 2 && Fits(12, t) && i < 2 && l < 12
    ensures StringBit(PackBlock(12, t), 12 * i + l) == ValueBit(t[i], l)
  {
    hide PackBlock, StringBit, ValueBit, Fits;
    match i {
      case 0 => Value12At0(t, l);
      case 1 => Value12At1(t, l);
    }
  }

  lemma Inside(d: nat, i: nat, l: nat)
    requires IsWidth(d) && i < BlockLen(d) && l < d
    ensures d * i + l < 8 * BlockBytes(d)
  {
  }

  lemma BlockBit(d: nat, t: seq<bv16>, i: nat, l: nat)
    requires IsWidth(d) && |t| == BlockLen(d) && Fits(d, t) && i < BlockLen(d) && l < d
    ensures d * i + l < 8 * BlockBytes(d) && StringBit(PackBlock(d, t), d * i + l) == ValueBit(t[i], l)
  {
    hide PackBlock, StringBit, ValueBit, Fits;
    Inside(d, i, l);
    if d == 4 {
      Block4Bit(t, i, l);
    } else if d == 5 {
      Block5Bit(t, i, l);
    } else if d == 10 {
      Block10Bit(t, i, l);
    } else if d == 11 {
      Block11Bit(t, i, l);
    } else {
      Block12Bit(t, i, l);
    }
  }

  // ----- whole buffers

  lemma StringSplits(a: seq<byte>, b: seq<byte>, p: nat)
    requires p < 8 * (|a| + |b|)
    ensures StringBit(a + b, p) == if p < 8 * |a| then StringBit(a, p) else StringBit(b, p - 8 * |a|)
  {
    hide BitOfByte;
  }

  // Where bit l of value i goes.
  function Place(d: nat, i: nat, l: nat): nat {
    d * i + l
  }

  lemma PlaceInBlock(d: nat, i: nat, l: nat)
    requires IsWidth(d) && l < d
    ensures i < BlockLen(d) ==> Place(d, i, l) < 8 * BlockBytes(d)
    ensures i >= BlockLen(d) ==> Place(d, i, l) == 8 * BlockBytes(d) + Place(d, i - BlockLen(d), l)
  {
  }

  lemma SomeBlock(k: nat, n: nat, i: nat)
    requires i < k * n
    ensures k > 0 && k * n == n + (k - 1) * n
  {
  }

  // Bit l of value i is bit d * i + l of the packed bytes.
  lemma {:induction false} PackedBit(d: nat, t: seq<bv16>, k: nat, i: nat, l: nat)
    requires IsWidth(d) && |t| == k * BlockLen(d) && Fits(d, t) && i < |t| && l < d
    ensures Place(d, i, l) < 8 * |Pack(d, t)| && StringBit(Pack(d, t), Place(d, i, l)) == ValueBit(t[i], l)
  {
    hide PackBlock, StringBit, ValueBit, BlockLen, BlockBytes, Mask, IsWidth, Place;
    var n := BlockLen(d);
    SomeBlock(k, n, i);
    var u, v := t[..n], t[n..];
    PlaceInBlock(d, i, l);
    if i < n {
      FirstPlace(d, u, i, l);
    } else {
      PackedBit(d, v, k - 1, i - n, l);
    }
    StringSplits(PackBlock(d, u), Pack(d, v), Place(d, i, l));
  }

  lemma FirstPlace(d: nat, t: seq<bv16>, i: nat, l: nat)
    requires IsWidth(d) && |t| == BlockLen(d) && Fits(d, t) && i < BlockLen(d) && l < d
    ensures Place(d, i, l) < 8 * BlockBytes(d) && StringBit(PackBlock(d, t), Place(d, i, l)) == ValueBit(t[i], l)
  {
    hide PackBlock, StringBit, ValueBit, BlockLen, BlockBytes, Mask, IsWidth;
    BlockBit(d, t, i, l);
  }

  // Every value that is unpacked has the bits of the string at its place.
  lemma UnpackedBit(d: nat, a: seq<byte>, k: nat, i: nat, l: nat)
    requires IsWidth(d) && |a| == k * BlockBytes(d) && i < k * BlockLen(d) && l < d
    ensures |Unpack(d, a)| == k * BlockLen(d) && Place(d, i, l) < 8 * |a|
    ensures ValueBit(Unpack(d, a)[i], l) == StringBit(a, Place(d, i, l))
  {
    hide Pack, Unpack, StringBit, ValueBit, BlockLen, BlockBytes, Mask, IsWidth, Place;
    UnpackLength(d, a, k);
    PackUnpack(d, a, k);
    PackedBit(d, Unpack(d, a), k, i, l);
  }
}
