// Packing d-bit values into bytes, least significant bit first, exactly as the
// shift-and-or lines of poly.c and polyvec.c do it block by block.
module Packing {
  type byte = bv8

  // The widths the code packs: 4 and 5 bits for v, 10 and 11 for u, 12 for
  // coefficients kept exactly.
  predicate IsWidth(d: nat) {
    d == 4 || d == 5 || d == 10 || d == 11 || d == 12
  }

  // The conversion to uint8_t.
  function Low(x: bv16): byte {
    (x & 0xff) as bv8
  }

  function Wide(b: byte): bv16 {
    b as bv16
  }

  function Mask(d: nat): bv16
    requires IsWidth(d)
  {
    if d == 4 then 0xf else if d == 5 then 0x1f else if d == 10 then 0x3ff else if d == 11 then 0x7ff else 0xfff
  }

  // The code handles this many values, and so many bytes, at a time.
  function BlockLen(d: nat): (n: nat)
    requires IsWidth(d)
    ensures n > 0
  {
    if d == 5 || d == 11 then 8 else if d == 10 then 4 else 2
  }

  function BlockBytes(d: nat): (n: nat)
    requires IsWidth(d)
    ensures n > 0 && 8 * n == d * BlockLen(d)
  {
    if d == 4 then 1 else if d == 5 || d == 10 then 5 else if d == 11 then 11 else 3
  }

  function PackBlock(d: nat, t: seq<bv16>): (r: seq<byte>)
    requires IsWidth(d) && |t| == BlockLen(d)
    ensures |r| == BlockBytes(d)
  {
    if d == 4 then
      [ Low(t[0] | (t[1] << 4)) ]
    else if d == 5 then
      [ Low(t[0] | (t[1] << 5)),
        Low((t[1] >> 3) | (t[2] << 2) | (t[3] << 7)),
        Low((t[3] >> 1) | (t[4] << 4)),
        Low((t[4] >> 4) | (t[5] << 1) | (t[6] << 6)),
        Low((t[6] >> 2) | (t[7] << 3)) ]
    else if d == 10 then
      [ Low(t[0]),
        Low((t[0] >> 8) | (t[1] << 2)),
        Low((t[1] >> 6) | (t[2] << 4)),
        Low((t[2] >> 4) | (t[3] << 6)),
        Low(t[3] >> 2) ]
    else if d == 11 then
      [ Low(t[0]),
        Low((t[0] >> 8) | (t[1] << 3)),
        Low((t[1] >> 5) | (t[2] << 6)),
        Low(t[2] >> 2),
        Low((t[2] >> 10) | (t[3] << 1)),
        Low((t[3] >> 7) | (t[4] << 4)),
        Low((t[4] >> 4) | (t[5] << 7)),
        Low(t[5] >> 1),
        Low((t[5] >> 9) | (t[6] << 2)),
        Low((t[6] >> 6) | (t[7] << 5)),
        Low(t[7] >> 3) ]
    else
      [ Low(t[0]),
        Low((t[0] >> 8) | (t[1] << 4)),
        Low(t[1] >> 4) ]
  }

  function UnpackBlock(d: nat, a: seq<byte>): (t: seq<bv16>)
    requires IsWidth(d) && |a| == BlockBytes(d)
    ensures |t| == BlockLen(d)
  {
    if d == 4 then
      [ Wide(a[0]) & 0xf, Wide(a[0]) >> 4 ]
    else if d == 5 then
      [ Wide(a[0]) & 0x1f,
        ((Wide(a[0]) >> 5) | (Wide(a[1]) << 3)) & 0x1f,
        (Wide(a[1]) >> 2) & 0x1f,
        ((Wide(a[1]) >> 7) | (Wide(a[2]) << 1)) & 0x1f,
        ((Wide(a[2]) >> 4) | (Wide(a[3]) << 4)) & 0x1f,
        (Wide(a[3]) >> 1) & 0x1f,
        ((Wide(a[3]) >> 6) | (Wide(a[4]) << 2)) & 0x1f,
        (Wide(a[4]) >> 3) & 0x1f ]
    else if d == 10 then
      [ (Wide(a[0]) | (Wide(a[1]) << 8)) & 0x3ff,
        ((Wide(a[1]) >> 2) | (Wide(a[2]) << 6)) & 0x3ff,
        ((Wide(a[2]) >> 4) | (Wide(a[3]) << 4)) & 0x3ff,
        ((Wide(a[3]) >> 6) | (Wide(a[4]) << 2)) & 0x3ff ]
    else if d == 11 then
      [ (Wide(a[0]) | (Wide(a[1]) << 8)) & 0x7ff,
        ((Wide(a[1]) >> 3) | (Wide(a[2]) << 5)) & 0x7ff,
        ((Wide(a[2]) >> 6) | (Wide(a[3]) << 2) | (Wide(a[4]) << 10)) & 0x7ff,
        ((Wide(a[4]) >> 1) | (Wide(a[5]) << 7)) & 0x7ff,
        ((Wide(a[5]) >> 4) | (Wide(a[6]) << 4)) & 0x7ff,
        ((Wide(a[6]) >> 7) | (Wide(a[7]) << 1) | (Wide(a[8]) << 9)) & 0x7ff,
        ((Wide(a[8]) >> 2) | (Wide(a[9]) << 6)) & 0x7ff,
        ((Wide(a[9]) >> 5) | (Wide(a[10]) << 3)) & 0x7ff ]
    else
      [ (Wide(a[0]) | (Wide(a[1]) << 8)) & 0xfff,
        ((Wide(a[1]) >> 4) | (Wide(a[2]) << 4)) & 0xfff ]
  }

  ghost predicate Fits(d: nat, t: seq<bv16>)
    requires IsWidth(d)
  {
    forall i :: 0 <= i < |t| ==> t[i] <= Mask(d)
  }

  lemma UnpackPackBlock(d: nat, t: seq<bv16>)
    requires IsWidth(d) && |t| == BlockLen(d) && Fits(d, t)
    ensures UnpackBlock(d, PackBlock(d, t)) == t
  {
    if d == 4 {
      Unpack4(t);
    } else if d == 5 {
      Unpack5(t);
    } else if d == 10 {
      Unpack10(t);
    } else if d == 11 {
      Unpack11(t);
    } else {
      Unpack12(t);
    }
  }

  lemma Unpack4(t: seq<bv16>)
    requires |t| == 2 && Fits(4, t)
    ensures UnpackBlock(4, PackBlock(4, t)) == t
  {
    assert t[0] <= 0xf && t[1] <= 0xf;
  }

  lemma Unpack5(t: seq<bv16>)
    requires |t| == 8 && Fits(5, t)
    ensures UnpackBlock(5, PackBlock(5, t)) == t
  {
    assert t[0] <= 0x1f && t[1] <= 0x1f && t[2] <= 0x1f && t[3] <= 0x1f;
    assert t[4] <= 0x1f && t[5] <= 0x1f && t[6] <= 0x1f && t[7] <= 0x1f;
  }

  lemma Unpack10(t: seq<bv16>)
    requires |t| == 4 && Fits(10, t)
    ensures UnpackBlock(10, PackBlock(10, t)) == t
  {
    assert t[0] <= 0x3ff && t[1] <= 0x3ff && t[2] <= 0x3ff && t[3] <= 0x3ff;
  }

  lemma Unpack11(t: seq<bv16>)
    requires |t| == 8 && Fits(11, t)
    ensures UnpackBlock(11, PackBlock(11, t)) == t
  {
    assert t[0] <= 0x7ff && t[1] <= 0x7ff && t[2] <= 0x7ff && t[3] <= 0x7ff;
    assert t[4] <= 0x7ff && t[5] <= 0x7ff && t[6] <= 0x7ff && t[7] <= 0x7ff;
  }

  lemma Unpack12(t: seq<bv16>)
    requires |t| == 2 && Fits(12, t)
    ensures UnpackBlock(12, PackBlock(12, t)) == t
  {
    assert t[0] <= 0xfff && t[1] <= 0xfff;
  }

  lemma PackUnpackBlock(d: nat, a: seq<byte>)
    requires IsWidth(d) && |a| == BlockBytes(d)
    ensures PackBlock(d, UnpackBlock(d, a)) == a && Fits(d, UnpackBlock(d, a))
  {
    if d == 4 {
      Pack4(a);
    } else if d == 5 {
      Pack5(a);
    } else if d == 10 {
      Pack10(a);
    } else if d == 11 {
      Pack11(a);
    } else {
      Pack12(a);
    }
  }

  lemma Pack4(a: seq<byte>)
    requires |a| == 1
    ensures PackBlock(4, UnpackBlock(4, a)) == a && Fits(4, UnpackBlock(4, a))
  {
  }

  lemma Pack5(a: seq<byte>)
    requires |a| == 5
    ensures PackBlock(5, UnpackBlock(5, a)) == a && Fits(5, UnpackBlock(5, a))
  {
  }

  lemma Pack10(a: seq<byte>)
    requires |a| == 5
    ensures PackBlock(10, UnpackBlock(10, a)) == a && Fits(10, UnpackBlock(10, a))
  {
  }

  lemma Pack11(a: seq<byte>)
    requires |a| == 11
    ensures PackBlock(11, UnpackBlock(11, a)) == a && Fits(11, UnpackBlock(11, a))
  {
  }

  lemma Pack12(a: seq<byte>)
    requires |a| == 3
    ensures PackBlock(12, UnpackBlock(12, a)) == a && Fits(12, UnpackBlock(12, a))
  {
  }

  // ----- whole buffers of k blocks

  function Pack(d: nat, t: seq<bv16>): (r: seq<byte>)
    requires IsWidth(d)
  {
    if |t| < BlockLen(d) then []
    else PackBlock(d, t[..BlockLen(d)]) + Pack(d, t[BlockLen(d)..])
  }

  function Unpack(d: nat, a: seq<byte>): (t: seq<bv16>)
    requires IsWidth(d)
  {
    if |a| < BlockBytes(d) then []
    else UnpackBlock(d, a[..BlockBytes(d)]) + Unpack(d, a[BlockBytes(d)..])
  }

  lemma FirstBlock(k: nat, n: nat)
    requires k > 0
    ensures k * n == n + (k - 1) * n && k * n >= n
  {
  }

  lemma SplitAt<T>(u: seq<T>, v: seq<T>)
    ensures (u + v)[..|u|] == u && (u + v)[|u|..] == v
  {
  }

  lemma {:induction false} PackLength(d: nat, t: seq<bv16>, k: nat)
    requires IsWidth(d) && |t| == k * BlockLen(d)
    ensures |Pack(d, t)| == k * BlockBytes(d)
  {
    hide PackBlock, BlockLen, BlockBytes;
    if k > 0 {
      FirstBlock(k, BlockLen(d));
      FirstBlock(k, BlockBytes(d));
      PackLength(d, t[BlockLen(d)..], k - 1);
    }
  }

  lemma {:induction false} UnpackLength(d: nat, a: seq<byte>, k: nat)
    requires IsWidth(d) && |a| == k * BlockBytes(d)
    ensures |Unpack(d, a)| == k * BlockLen(d)
  {
    hide UnpackBlock, BlockLen, BlockBytes;
    if k > 0 {
      FirstBlock(k, BlockLen(d));
      FirstBlock(k, BlockBytes(d));
      UnpackLength(d, a[BlockBytes(d)..], k - 1);
    }
  }

  lemma {:induction false} UnpackPack(d: nat, t: seq<bv16>, k: nat)
    requires IsWidth(d) && |t| == k * BlockLen(d) && Fits(d, t)
    ensures Unpack(d, Pack(d, t)) == t
  {
    hide PackBlock, UnpackBlock, BlockLen, BlockBytes, Mask;
    if k > 0 {
      FirstBlock(k, BlockLen(d));
      var u, v := t[..BlockLen(d)], t[BlockLen(d)..];
      UnpackPackBlock(d, u);
      UnpackPack(d, v, k - 1);
      SplitAt(PackBlock(d, u), Pack(d, v));
      assert t == u + v;
    }
  }

  lemma {:induction false} PackUnpack(d: nat, a: seq<byte>, k: nat)
    requires IsWidth(d) && |a| == k * BlockBytes(d)
    ensures Pack(d, Unpack(d, a)) == a && Fits(d, Unpack(d, a))
  {
    hide PackBlock, UnpackBlock, BlockLen, BlockBytes, Mask;
    if k > 0 {
      FirstBlock(k, BlockBytes(d));
      var u, v := a[..BlockBytes(d)], a[BlockBytes(d)..];
      PackUnpackBlock(d, u);
      PackUnpack(d, v, k - 1);
      SplitAt(UnpackBlock(d, u), Unpack(d, v));
      assert a == u + v;
    }
  }

  lemma {:induction false} PackNext(d: nat, u: seq<bv16>, v: seq<bv16>, k: nat)
    requires IsWidth(d) && |u| == k * BlockLen(d) && |v| == BlockLen(d)
    ensures Pack(d, u + v) == Pack(d, u) + PackBlock(d, v)
  {
    hide PackBlock, BlockLen, BlockBytes;
    if k == 0 {
      assert u + v == v && v[..|v|] == v && v[|v|..] == [];
    } else {
      FirstBlock(k, BlockLen(d));
      var x, y := u[..BlockLen(d)], u[BlockLen(d)..];
      assert u + v == x + (y + v);
      SplitAt(x, y + v);
      PackNext(d, y, v, k - 1);
      assert PackBlock(d, x) + (Pack(d, y) + PackBlock(d, v)) == (PackBlock(d, x) + Pack(d, y)) + PackBlock(d, v);
    }
  }

  lemma {:induction false} UnpackNext(d: nat, u: seq<byte>, v: seq<byte>, k: nat)
    requires IsWidth(d) && |u| == k * BlockBytes(d) && |v| == BlockBytes(d)
    ensures Unpack(d, u + v) == Unpack(d, u) + UnpackBlock(d, v)
  {
    hide UnpackBlock, BlockLen, BlockBytes;
    if k == 0 {
      assert u + v == v && v[..|v|] == v && v[|v|..] == [];
    } else {
      FirstBlock(k, BlockBytes(d));
      var x, y := u[..BlockBytes(d)], u[BlockBytes(d)..];
      assert u + v == x + (y + v);
      SplitAt(x, y + v);
      UnpackNext(d, y, v, k - 1);
      assert UnpackBlock(d, x) + (Unpack(d, y) + UnpackBlock(d, v)) == (UnpackBlock(d, x) + Unpack(d, y)) + UnpackBlock(d, v);
    }
  }

  // ----- 16-bit words and the numbers they hold

  function Word(c: nat): bv16 {
    if c == 0 then 0 else if c % 2 == 0 then Word(c / 2) << 1 else (Word(c / 2) << 1) | 1
  }

  lemma TopBitClear(v: bv16)
    requires v as int < 0x8000
    ensures v < 0x8000
  {
  }

  lemma ShiftDoubles(v: bv16)
    requires v < 0x8000
    ensures (v << 1) as int == 2 * (v as int) && ((v << 1) | 1) as int == 2 * (v as int) + 1
  {
  }

  lemma {:induction false} WordValue(c: nat)
    requires c < 0x1_0000
    ensures Word(c) as int == c
  {
    if c != 0 {
      WordValue(c / 2);
      TopBitClear(Word(c / 2));
      ShiftDoubles(Word(c / 2));
    }
  }

  lemma WordBack(v: bv16)
    ensures (v as int) as bv16 == v
  {
  }

  // Converting a number below 2^16 to a word and back is the identity.
  lemma WordOfNumber(c: nat)
    requires c < 0x1_0000
    ensures (c as bv16) as int == c
  {
    WordValue(c);
    WordBack(Word(c));
  }

  function Value4(w: bv16): (y: nat)
    ensures y < 16
  {
    (w & 0xf) as int
  }

  lemma Number4(c: nat)
    requires c < 16
    ensures c as bv16 <= 0xf && Value4(c as bv16) == c
  {
    WordOfNumber(c);
    Small4(c as bv16);
  }

  lemma Small4(w: bv16)
    requires w as int < 16
    ensures w <= 0xf && w & 0xf == w
  {
  }

  lemma Back4(w: bv16)
    requires w <= 0xf
    ensures Value4(w) as bv16 == w
  {
    assert w & 0xf == w;
    WordBack(w);
  }

  function Value5(w: bv16): (y: nat)
    ensures y < 32
  {
    (w & 0x1f) as int
  }

  lemma Number5(c: nat)
    requires c < 32
    ensures c as bv16 <= 0x1f && Value5(c as bv16) == c
  {
    WordOfNumber(c);
    Small5(c as bv16);
  }

  lemma Small5(w: bv16)
    requires w as int < 32
    ensures w <= 0x1f && w & 0x1f == w
  {
  }

  lemma Back5(w: bv16)
    requires w <= 0x1f
    ensures Value5(w) as bv16 == w
  {
    assert w & 0x1f == w;
    WordBack(w);
  }

  function Value10(w: bv16): (y: nat)
    ensures y < 1024
  {
    (w & 0x3ff) as int
  }

  lemma Number10(c: nat)
    requires c < 1024
    ensures c as bv16 <= 0x3ff && Value10(c as bv16) == c
  {
    WordOfNumber(c);
    Small10(c as bv16);
  }

  lemma Small10(w: bv16)
    requires w as int < 1024
    ensures w <= 0x3ff && w & 0x3ff == w
  {
  }

  lemma Back10(w: bv16)
    requires w <= 0x3ff
    ensures Value10(w) as bv16 == w
  {
    assert w & 0x3ff == w;
    WordBack(w);
  }

  function Value11(w: bv16): (y: nat)
    ensures y < 2048
  {
    (w & 0x7ff) as int
  }

  lemma Number11(c: nat)
    requires c < 2048
    ensures c as bv16 <= 0x7ff && Value11(c as bv16) == c
  {
    WordOfNumber(c);
    Small11(c as bv16);
  }

  lemma Small11(w: bv16)
    requires w as int < 2048
    ensures w <= 0x7ff && w & 0x7ff == w
  {
  }

  lemma Back11(w: bv16)
    requires w <= 0x7ff
    ensures Value11(w) as bv16 == w
  {
    assert w & 0x7ff == w;
    WordBack(w);
  }

  function Value12(w: bv16): (y: nat)
    ensures y < 4096
  {
    (w & 0xfff) as int
  }

  lemma Number12(c: nat)
    requires c < 4096
    ensures c as bv16 <= 0xfff && Value12(c as bv16) == c
  {
    WordOfNumber(c);
    Small12(c as bv16);
  }

  lemma Small12(w: bv16)
    requires w as int < 4096
    ensures w <= 0xfff && w & 0xfff == w
  {
  }

  lemma Back12(w: bv16)
    requires w <= 0xfff
    ensures Value12(w) as bv16 == w
  {
    assert w & 0xfff == w;
    WordBack(w);
  }

  // 2^d
  function Two(d: nat): (r: nat)
    requires IsWidth(d)
    ensures r > 0 && r % 2 == 0 && r <= 4096
  {
    if d == 4 then 16 else if d == 5 then 32 else if d == 10 then 1024 else if d == 11 then 2048 else 4096
  }

  // The number in the low d bits of a word.
  function MaskedValue(w: bv16, d: nat): (y: nat)
    requires IsWidth(d)
    ensures y < Two(d)
  {
    if d == 4 then Value4(w)
    else if d == 5 then Value5(w)
    else if d == 10 then Value10(w)
    else if d == 11 then Value11(w)
    else Value12(w)
  }

  // A d-bit number fits in the mask and is read back.
  lemma NumberFits(c: nat, d: nat)
    requires IsWidth(d) && c < Two(d)
    ensures c as bv16 <= Mask(d) && MaskedValue(c as bv16, d) == c
  {
    hide Value4, Value5, Value10, Value11, Value12;
    if d == 4 {
      Number4(c);
    } else if d == 5 {
      Number5(c);
    } else if d == 10 {
      Number10(c);
    } else if d == 11 {
      Number11(c);
    } else {
      Number12(c);
    }
  }

  // And a word within the mask is the conversion of its value.
  lemma MaskedBack(w: bv16, d: nat)
    requires IsWidth(d) && w <= Mask(d)
    ensures MaskedValue(w, d) as bv16 == w
  {
    hide Value4, Value5, Value10, Value11, Value12;
    if d == 4 {
      Back4(w);
    } else if d == 5 {
      Back5(w);
    } else if d == 10 {
      Back10(w);
    } else if d == 11 {
      Back11(w);
    } else {
      Back12(w);
    }
  }
}
