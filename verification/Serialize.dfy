// Writing polynomials into byte buffers and reading them back, in place
// (components/poly/poly.c, components/polyvec/polyvec.c).  The block formulas
// are PackBlock and UnpackBlock; d selects the #if branch of the source.
module Serialize {
  import opened Reduce
  import opened NttSpec
  import opened RingQ
  import opened Poly
  import opened Packing
  import opened Codec
  import opened Buffers

  lemma BlockInside(i: nat, k: nat, n: nat)
    requires i < k
    ensures 0 <= i * n && i * n + n == (i + 1) * n && i * n + n <= k * n
  {
    assert (k - i - 1) * n == k * n - (i + 1) * n;
    assert (k - i - 1) * n >= 0;
  }

  lemma BlockCount(d: nat)
    requires IsWidth(d)
    ensures N / BlockLen(d) == Blocks(d)
  {
  }

  // The inner loop: the block of values that starts at coefficient s.
  method RoundBlock(t: array<bv16>, a: seq<int16>, s: nat, d: nat)
    requires IsWidth(d) && Reduced(a) && s + t.Length <= N
    modifies t
    ensures t[..] == Fields(a, d)[s..s + t.Length]
  {
    hide Field, IsWidth;
    var k := 0;
    while k < t.Length
      invariant 0 <= k <= t.Length
      invariant forall l :: 0 <= l < k ==> t[l] == Field(a[s + l], d)
    {
      t[k] := Field(a[s + k], d);
      k := k + 1;
    }
  }

  // poly_compress, polyvec_compress (one polynomial) and poly_tobytes.
  method PackPoly(r: array<byte>, o: nat, a: seq<int16>, d: nat)
    requires IsWidth(d) && Reduced(a) && o + 32 * d <= r.Length
    modifies r
    ensures r[..] == Overwrite(old(r[..]), o, EncodePoly(a, d))
  {
    hide Fields, PackBlock, Pack, BlockLen, BlockBytes, Blocks, IsWidth, Overwrite;
    var n, b := BlockLen(d), BlockBytes(d);
    ghost var k, f, was := Blocks(d), Fields(a, d), r[..];
    BlockCount(d);
    var t := new bv16[n];
    var i, pos := 0, o;
    PackLength(d, f[..0], 0);
    ghost var done := Pack(d, f[..0]);
    OverwriteNothing(was, o, done);
    while i < N / n
      invariant 0 <= i <= k && pos == o + i * b && i * b <= 32 * d && i * n <= N
      invariant done == Pack(d, f[..i * n]) && |done| == i * b
      invariant r[..] == Overwrite(was, o, done)
    {
      BlockInside(i, k, n);
      BlockInside(i, k, b);
      RoundBlock(t, a, i * n, d);
      var block := PackBlock(d, t[..]);
      StoreBytes(r, pos, block);
      Append(was, o, done, block);
      PackNext(d, f[..i * n], t[..], i);
      assert f[..i * n] + t[..] == f[..i * n + n];
      done := done + block;
      i := i + 1;
      pos := pos + b;
    }
    assert f[..N] == f;
  }

  // poly_decompress, polyvec_decompress (one polynomial) and poly_frombytes.
  method UnpackPoly(r: array<int16>, a: seq<byte>, d: nat)
    requires IsWidth(d) && |a| == 32 * d && r.Length == N
    modifies r
    ensures r[..] == DecodePoly(a, d)
  {
    hide Unfield, UnpackBlock, Unpack, BlockLen, BlockBytes, Blocks, IsWidth;
    var n, b := BlockLen(d), BlockBytes(d);
    ghost var k := Blocks(d);
    BlockCount(d);
    var i, pos := 0, 0;
    UnpackLength(d, a[..0], 0);
    while i < N / n
      invariant 0 <= i <= k && pos == i * b && pos <= 32 * d && i * n <= N
      invariant |Unpack(d, a[..pos])| == i * n
      invariant forall l :: 0 <= l < i * n ==> r[l] == Unfield(Unpack(d, a[..pos])[l], d)
    {
      BlockInside(i, k, n);
      BlockInside(i, k, b);
      var t := UnpackBlock(d, a[pos..pos + b]);
      UnpackNext(d, a[..pos], a[pos..pos + b], i);
      assert a[..pos] + a[pos..pos + b] == a[..pos + b];
      ghost var done := Unpack(d, a[..pos]);
      ScaleBlock(r, i * n, t, d);
      assert Unpack(d, a[..pos + b]) == done + t;
      i := i + 1;
      pos := pos + b;
    }
    assert a[..pos] == a;
  }

  // The inner loop: masks and scales a block of values into place.
  method ScaleBlock(r: array<int16>, s: nat, t: seq<bv16>, d: nat)
    requires IsWidth(d) && s + |t| <= r.Length
    modifies r
    ensures forall l :: 0 <= l < s ==> r[l] == old(r[l])
    ensures forall l :: s <= l < s + |t| ==> r[l] == Unfield(t[l - s], d)
  {
    hide Unfield, IsWidth;
    var k := 0;
    while k < |t|
      invariant 0 <= k <= |t|
      invariant forall l :: 0 <= l < s ==> r[l] == old(r[l])
      invariant forall l :: s <= l < s + k ==> r[l] == Unfield(t[l - s], d)
    {
      r[s + k] := Unfield(t[k], d);
      k := k + 1;
    }
  }
}
