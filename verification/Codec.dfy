// Rounding coefficients to d bits and packing them into bytes
// (components/poly/poly.c, components/polyvec/polyvec.c).
module Codec {
  import opened Reduce
  import opened PolyRing
  import opened NttSpec
  import opened RingQ
  import opened Poly
  import opened Packing

  predicate IsRounding(d: nat) {
    d == 4 || d == 5 || d == 10 || d == 11
  }

  // ----- rounding

  // Maps to the positive standard representative: u += (u >> 15) & Q.
  function Positive(x: int): int {
    if x < 0 then x + Q else x
  }

  function Compress(x: int, d: nat): (y: nat)
    requires -Q < x < Q && IsRounding(d)
    ensures y < Two(d)
  {
    (Positive(x) * Two(d) + Q / 2) / Q % Two(d)
  }

  function Decompress(y: nat, d: nat): (x: nat)
    requires IsRounding(d) && y < Two(d)
    ensures x < Q
  {
    (y * Q + Two(d) / 2) / Two(d)
  }

  lemma DecompressCompress(y: nat, d: nat)
    requires IsRounding(d) && y < Two(d)
    ensures Compress(Decompress(y, d), d) == y
  {
    var x := Decompress(y, d);
    if d == 4 {
      Rounded(x, y, 16);
    } else if d == 5 {
      Rounded(x, y, 32);
    } else if d == 10 {
      Rounded(x, y, 1024);
    } else {
      Rounded(x, y, 2048);
    }
  }

  // x is y * Q / n to the nearest integer, so x * n / Q is y to the nearest integer.
  lemma Rounded(x: nat, y: nat, n: nat)
    requires n == 16 || n == 32 || n == 1024 || n == 2048
    requires y < n && x == (y * Q + n / 2) / n
    ensures (x * n + Q / 2) / Q % n == y
  {
    assert n * x <= y * Q + n / 2 < n * x + n;
    Quotient(x * n + Q / 2, y);
  }

  lemma Quotient(a: int, y: int)
    requires y * Q <= a < y * Q + Q
    ensures a / Q == y
  {
  }

  // Half a rounding step, to the nearest integer.
  function RoundingError(d: nat): (r: int)
    requires IsRounding(d)
    ensures 0 <= r <= 104
  {
    (Q + Two(d)) / (2 * Two(d))
  }

  // Rounding moves a coefficient by at most half a step, around the circle.
  lemma CompressError(x: int, d: nat)
    requires -Q < x < Q && IsRounding(d)
    ensures var e := Centred(Decompress(Compress(x, d), d) - x);
            -RoundingError(d) <= e <= RoundingError(d)
  {
    var u := Positive(x);
    if d == 4 {
      RoundTrip4(u);
    } else if d == 5 {
      RoundTrip5(u);
    } else if d == 10 {
      RoundTrip10(u);
    } else {
      RoundTrip11(u);
    }
    var e := Decompress(Compress(x, d), d) - u;
    CentredNear(e, x - u, RoundingError(d));
  }

  lemma CentredNear(e: int, m: int, b: int)
    requires m == 0 || m == -Q
    requires (-b <= e <= b || -b <= e + Q <= b) && b <= 104
    ensures -b <= Centred(e - m) <= b
  {
  }

  lemma RoundTrip4(u: nat)
    requires u < Q
    ensures var e := Decompress(Compress(u, 4), 4) - u; -104 <= e <= 104 || -104 <= e + Q <= 104
  {
  }

  lemma RoundTrip5(u: nat)
    requires u < Q
    ensures var e := Decompress(Compress(u, 5), 5) - u; -52 <= e <= 52 || -52 <= e + Q <= 52
  {
  }

  lemma RoundTrip10(u: nat)
    requires u < Q
    ensures var e := Decompress(Compress(u, 10), 10) - u; -2 <= e <= 2 || -2 <= e + Q <= 2
  {
  }

  lemma RoundTrip11(u: nat)
    requires u < Q
    ensures var e := Decompress(Compress(u, 11), 11) - u; -1 <= e <= 1 || -1 <= e + Q <= 1
  {
  }

  // The number of steps, and the two roundings, to the nearest integer: x * n / q is
  // never a tie, and y * q / n is rounded up when it is.
  lemma CompressIsNearest(x: int, d: nat)
    requires -Q < x < Q && IsRounding(d)
    ensures var n := if d == 4 then 16 else if d == 5 then 32 else if d == 10 then 1024 else 2048;
            var m := if x < 0 then x + 3329 else x;
            var y := Compress(x, d);
            0 <= y < n && (-3329 < 2 * (m * n - y * 3329) < 3329 || (y == 0 && -3329 < 2 * (m * n - n * 3329) < 3329))
  {
  }

  lemma DecompressIsNearest(y: nat, d: nat)
    requires IsRounding(d) && y < Two(d)
    ensures var n := if d == 4 then 16 else if d == 5 then 32 else if d == 10 then 1024 else 2048;
            var x := Decompress(y, d);
            n * (2 * x - 1) <= 2 * 3329 * y < n * (2 * x + 1)
  {
  }

  // ----- a coefficient as the word that is packed

  function Field(x: int, d: nat): bv16
    requires -Q < x < Q && IsWidth(d)
  {
    FieldNumber(x, d) as bv16
  }

  function Unfield(w: bv16, d: nat): (x: int)
    requires IsWidth(d)
    ensures 0 <= x < 4096 && (d != 12 ==> x < Q)
  {
    if d == 12 then MaskedValue(w, d) else Decompress(MaskedValue(w, d), d)
  }

  // The number a coefficient is packed as.
  function FieldNumber(x: int, d: nat): (c: nat)
    requires -Q < x < Q && IsWidth(d)
    ensures c < Two(d)
  {
    if d == 12 then Positive(x) else Compress(x, d)
  }

  // The coefficient that comes back.
  function Restored(x: int, d: nat): int
    requires -Q < x < Q && IsWidth(d)
  {
    if d == 12 then Positive(x) else Decompress(Compress(x, d), d)
  }

  lemma FieldFits(x: int, d: nat)
    requires -Q < x < Q && IsWidth(d)
    ensures Field(x, d) <= Mask(d) && MaskedValue(Field(x, d), d) == FieldNumber(x, d)
  {
    hide FieldNumber, MaskedValue, Mask, Two;
    NumberFits(FieldNumber(x, d), d);
  }

  lemma UnfieldField(x: int, d: nat)
    requires -Q < x < Q && IsWidth(d)
    ensures Unfield(Field(x, d), d) == Restored(x, d)
  {
    hide Compress, Decompress, MaskedValue, Field, Two;
    FieldFits(x, d);
  }

  lemma FieldUnfield(w: bv16, d: nat)
    requires IsRounding(d) && w <= Mask(d)
    ensures Field(Unfield(w, d), d) == w
  {
    DecompressCompress(MaskedValue(w, d), d);
    MaskedBack(w, d);
    hide Compress, Decompress, MaskedValue, Mask, Two;
    assert Unfield(w, d) == Decompress(MaskedValue(w, d), d);
  }

  // ----- whole polynomials

  predicate Reduced(p: Vec) {
    IsPoly(p) && forall i :: 0 <= i < N ==> -Q < p[i] < Q
  }

  function Fields(p: Vec, d: nat): (t: seq<bv16>)
    requires Reduced(p) && IsWidth(d)
    ensures |t| == N
  {
    seq(N, i requires 0 <= i < N => Field(p[i], d))
  }

  function Blocks(d: nat): (k: nat)
    requires IsWidth(d)
    ensures k * BlockLen(d) == N && k * BlockBytes(d) == 32 * d
  {
    if d == 4 || d == 12 then 128 else if d == 10 then 64 else 32
  }

  function EncodePoly(p: Vec, d: nat): (r: seq<byte>)
    requires Reduced(p) && IsWidth(d)
    ensures |r| == 32 * d
  {
    PackLength(d, Fields(p, d), Blocks(d));
    Pack(d, Fields(p, d))
  }

  function DecodePoly(a: seq<byte>, d: nat): (p: Vec)
    requires IsWidth(d) && |a| == 32 * d
    ensures IsPoly(p) && forall i :: 0 <= i < N ==> 0 <= p[i] < 4096 && (d != 12 ==> p[i] < Q)
  {
    UnpackLength(d, a, Blocks(d));
    var t := Unpack(d, a);
    seq(N, i requires 0 <= i < N => Unfield(t[i], d))
  }

  lemma DecodeEncode(p: Vec, d: nat)
    requires Reduced(p) && IsWidth(d)
    ensures forall i :: 0 <= i < N ==> DecodePoly(EncodePoly(p, d), d)[i] == Restored(p[i], d)
  {
    hide Field, Unfield, Restored, Pack, Unpack, BlockLen, BlockBytes, Mask, Blocks;
    forall i | 0 <= i < N
      ensures Fields(p, d)[i] <= Mask(d)
    {
      FieldFits(p[i], d);
    }
    UnpackPack(d, Fields(p, d), Blocks(d));
    forall i | 0 <= i < N
      ensures DecodePoly(EncodePoly(p, d), d)[i] == Restored(p[i], d)
    {
      UnfieldField(p[i], d);
    }
  }

  lemma DecodeAt(a: seq<byte>, d: nat, i: nat)
    requires IsWidth(d) && |a| == 32 * d && i < N
    ensures |Unpack(d, a)| == N && DecodePoly(a, d)[i] == Unfield(Unpack(d, a)[i], d)
  {
    hide Unfield;
    UnpackLength(d, a, Blocks(d));
  }

  lemma FieldsOfDecoded(a: seq<byte>, d: nat)
    requires IsRounding(d) && |a| == 32 * d && Fits(d, Unpack(d, a))
    ensures Reduced(DecodePoly(a, d)) && Fields(DecodePoly(a, d), d) == Unpack(d, a)
  {
    assert IsWidth(d);
    hide Field, Unfield, Unpack, DecodePoly, IsRounding;
    var p := DecodePoly(a, d);
    DecodeAt(a, d, 0);
    forall i | 0 <= i < N
      ensures Fields(p, d)[i] == Unpack(d, a)[i]
    {
      DecodeAt(a, d, i);
      FieldUnfield(Unpack(d, a)[i], d);
    }
  }

  // Rounded buffers survive the trip through coefficients byte for byte.
  lemma EncodeDecode(a: seq<byte>, d: nat)
    requires IsRounding(d) && |a| == 32 * d
    ensures Reduced(DecodePoly(a, d)) && EncodePoly(DecodePoly(a, d), d) == a
  {
    hide Fields, Unfield, Pack, Unpack, BlockLen, BlockBytes, Mask, Blocks, DecodePoly, Fits;
    PackUnpack(d, a, Blocks(d));
    FieldsOfDecoded(a, d);
  }
}
