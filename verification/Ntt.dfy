// The in-place transforms (components/ntt/ntt.c).  An array of int16 is
// assigned only values that fit, so no sum or difference below wraps.
module InPlaceNtt {
  import opened Reduce
  import opened PolyRing
  import opened Zetas
  import opened NttSpec
  import opened RingQ

  function FqMul(a: int16, b: int16): (r: int16)
    requires -Q * 0x8000 <= a * b < Q * 0x8000
    ensures -Q < r < Q
    ensures Cong(r, R_INV * (a * b))
  {
    MontgomeryReduce(a * b)
  }

  lemma NonNegativeProduct(x: int, y: int)
    requires x >= 0 && y >= 0
    ensures x * y >= 0
  {
  }

  lemma ProductInRange(a: int, b: int)
    requires -Q < a < Q && IsInt16(b)
    ensures -Q * 0x8000 < a * b < Q * 0x8000
  {
    var c := if b >= 0 then b else -b;
    NonNegativeProduct(Q - 1 - a, c);
    NonNegativeProduct(Q - 1 + a, c);
    SplitProduct(a, c);
    assert -(Q - 1) * c <= a * c <= (Q - 1) * c;
    assert a * b == a * c || a * b == -(a * c);
  }

  lemma SplitProduct(a: int, c: int)
    ensures (Q - 1 - a) * c == (Q - 1) * c - a * c
    ensures (Q - 1 + a) * c == (Q - 1) * c + a * c
  {
  }

  // Multiplying by a table entry multiplies by the twiddle factor it stands for.
  lemma TwiddleProduct(z: int, zeta: int, x: int, t: int)
    requires Cong(t, R_INV * (zeta * x)) && Cong(z, zeta * R_INV)
    ensures Cong(t, z * x)
  {
    hide Residue;
    CongMul(z, zeta * R_INV, x, x);
    Regroup(zeta, x);
  }

  lemma Regroup(zeta: int, x: int)
    ensures zeta * R_INV * x == R_INV * (zeta * x)
  {
  }

  lemma Butterfly(k: nat, x: int, y: int, t: int)
    requires k < 128 && Cong(t, R_INV * (Zeta(k) * y))
    ensures Cong(x + t, x + Z(k) * y) && Cong(x - t, x + -Z(k) * y)
  {
    Unscaled(k);
    hide *;
    TwiddleProduct(Z(k), Zeta(k), y, t);
    CongAdd(x, x, t, Z(k) * y);
    CongSub(x, x, t, Z(k) * y);
    NegProduct(Z(k), y);
  }

  lemma NegProduct(x: int, y: int)
    ensures -x * y == -(x * y)
  {
  }

  // ----- the forward transform

  // The array with the block of length n at start replaced by block'.
  ghost function Patch(p: seq<int>, start: nat, block': seq<int>): (q: seq<int>)
    requires start + |block'| <= |p|
    ensures |q| == |p|
  {
    p[..start] + block' + p[start + |block'|..]
  }

  lemma PatchedSplit(p: seq<int>, start: nat, len: nat, y: int, j: nat)
    requires start + 2 * len <= |p| && start <= j < start + len
    ensures var q := Patch(p, start, Split(p[start..start + 2 * len], y));
            q[j] == p[j] + y * p[j + len] && q[j + len] == p[j] + -y * p[j + len]
  {
    var block := p[start..start + 2 * len];
    assert Split(block, y)[j - start] == block[j - start] + y * block[len + j - start];
    assert Split(block, y)[len + j - start] == block[j - start] + -y * block[len + j - start];
  }

  lemma ButterflyAt(p: seq<int>, start: nat, len: nat, k: nat, j: nat, t: int)
    requires start + 2 * len <= |p| && start <= j < start + len && k < 128
    requires Cong(t, R_INV * (Zeta(k) * p[j + len]))
    ensures var q := Patch(p, start, Split(p[start..start + 2 * len], Z(k)));
            Cong(p[j] + t, q[j]) && Cong(p[j] - t, q[j + len])
  {
    hide Residue, Z, Zeta, Split, Patch;
    PatchedSplit(p, start, len, Z(k), j);
    Butterfly(k, p[j], p[j + len], t);
  }

  lemma PatchDone(s: seq<int>, p: seq<int>, start: nat, block': seq<int>)
    requires start + |block'| <= |p| == |s|
    requires forall i :: 0 <= i < start || start + |block'| <= i < |p| ==> s[i] == p[i]
    requires forall i :: start <= i < start + |block'| ==> Cong(s[i], Patch(p, start, block')[i])
    ensures Res(s[start..start + |block'|]) == Res(block')
    ensures s[..start] == p[..start] && s[start + |block'|..] == p[start + |block'|..]
  {
    hide Residue;
    var n := |block'|;
    var t := s[start..start + n];
    forall i | 0 <= i < n
      ensures Cong(t[i], block'[i])
    {
      assert Cong(s[start + i], Patch(p, start, block')[start + i]);
    }
  }

  method Butterflies(r: array<int16>, start: nat, len: nat, k: nat, ghost b: int)
    requires start + 2 * len <= r.Length && k < 128
    requires 0 <= b <= 0x7fff - (Q - 1)
    requires forall i :: start <= i < start + 2 * len ==> -b <= r[i] <= b
    modifies r
    ensures forall i :: start <= i < start + 2 * len ==> -b - (Q - 1) <= r[i] <= b + (Q - 1)
    ensures Res(r[start..start + 2 * len]) == Res(Split(old(r[start..start + 2 * len]), Z(k)))
    ensures r[..start] == old(r[..start]) && r[start + 2 * len..] == old(r[start + 2 * len..])
  {
    hide Residue, Cong, Res, Split, Fold, Zeta, Z, FqMul, MontgomeryReduce, Patch;
    ghost var p: seq<int> := r[..];
    ghost var block := Split(p[start..start + 2 * len], Z(k));
    ghost var q := Patch(p, start, block);
    var zeta := Zeta(k);
    ZetaSmall(k);
    var j := start;
    while j < start + len
      invariant start <= j <= start + len
      invariant forall i :: 0 <= i < start || j <= i < start + len || j + len <= i < r.Length ==> r[i] == p[i]
      invariant forall i :: start <= i < j || start + len <= i < j + len ==>
                  Cong(r[i], q[i]) && -b - (Q - 1) <= r[i] <= b + (Q - 1)
    {
      assert r[j] == p[j] && r[j + len] == p[j + len];
      ProductInRange(zeta, r[j + len]);
      var t := FqMul(zeta, r[j + len]);
      ButterflyAt(p, start, len, k, j, t);
      r[j + len] := r[j] - t;
      r[j] := r[j] + t;
      j := j + 1;
    }
    PatchDone(r[..], p, start, block);
  }

  lemma SplitLayerNext(p: Vec, start: nat, n: nat, k: int, t: nat)
    requires n > 0 && n % 2 == 0 && start == t * n && start + n <= |p|
    ensures SplitLayer(p[..start + n], n, k) == SplitLayer(p[..start], n, k) + Split(p[start..start + n], Z(k + t))
  {
    hide Z, Split;
    var a, c := p[..start], p[start..start + n];
    assert p[..start + n] == a + c;
    assert c[..n] == c;
    assert SplitLayer(c, n, k + t) == Split(c, Z(k + t)) + [];
    SplitLayerConcat(a, c, n, k, t);
  }

  lemma LessFactor(t: nat, m: nat, n: nat)
    requires t * n < m * n
    ensures t < m
  {
  }

  lemma BlockFits(t: nat, m: nat, n: nat, total: nat)
    requires m * n == total && t * n < total
    ensures t < m && (t + 1) * n <= total && t * n + n == (t + 1) * n
  {
    LessFactor(t, m, n);
    NonNegativeProduct(m - t - 1, n);
    assert (m - t - 1) * n == m * n - (t + 1) * n;
  }

  lemma AllBlocks(t: nat, m: nat, n: nat)
    requires n > 0 && m * n == t * n
    ensures t == m
  {
  }

  // One pass over the array: block number t of length n = 2 * len is split with
  // table entry m + t.
  method NttLayer(r: array<int16>, len: nat, m: nat, ghost b: int) returns (k: nat)
    requires r.Length == N && len > 0 && m * (2 * len) == N && 2 * m <= 128
    requires 0 <= b <= 0x7fff - (Q - 1)
    requires forall i :: 0 <= i < r.Length ==> -b <= r[i] <= b
    modifies r
    ensures forall i :: 0 <= i < r.Length ==> -b - (Q - 1) <= r[i] <= b + (Q - 1)
    ensures Res(r[..]) == Res(SplitLayer(old(r[..]), 2 * len, m))
    ensures k == 2 * m
  {
    hide Residue, Res, Z, Split, SplitLayer;
    ghost var p: seq<int> := r[..];
    ghost var t, n := 0, 2 * len;
    var start := 0;
    k := m;
    assert r[..0] == p[..0] == [];
    assert SplitLayer([], n, m) == [];
    while start < 256
      invariant 0 <= start <= N && start == t * n && k == m + t
      invariant Res(r[..start]) == Res(SplitLayer(p[..start], n, m))
      invariant r[start..] == p[start..]
      invariant forall i :: 0 <= i < r.Length ==> -b - (Q - 1) <= r[i] <= b + (Q - 1)
      decreases N - start
    {
      BlockFits(t, m, n, N);
      ghost var s: seq<int> := r[..];
      assert forall i :: start <= i < N ==> r[i] == r[start..][i - start] == p[start..][i - start] == p[i];
      Butterflies(r, start, len, k, b);
      LayerStep(r[..], s, p, start, n, m, t);
      k := k + 1;
      start := start + len + len;
      t := t + 1;
    }
    AllBlocks(t, m, n);
    assert r[..start] == r[..] && p[..start] == p;
  }

  lemma LayerStep(s': seq<int>, s: seq<int>, p: seq<int>, start: nat, n: nat, m: nat, t: nat)
    requires n > 0 && n % 2 == 0 && start == t * n && start + n <= |p| == |s| == |s'|
    requires Res(s[..start]) == Res(SplitLayer(p[..start], n, m)) && s[start..] == p[start..]
    requires Res(s'[start..start + n]) == Res(Split(s[start..start + n], Z(m + t)))
    requires s'[..start] == s[..start] && s'[start + n..] == s[start + n..]
    ensures Res(s'[..start + n]) == Res(SplitLayer(p[..start + n], n, m))
    ensures s'[start + n..] == p[start + n..]
  {
    hide Residue, Z, Split, SplitLayer;
    assert s[start..start + n] == s[start..][..n] == p[start..][..n] == p[start..start + n];
    assert s[start + n..] == s[start..][n..] == p[start..][n..] == p[start + n..];
    SplitLayerNext(p, start, n, m, t);
    assert s'[..start + n] == s'[..start] + s'[start..start + n];
    ResConcat(s'[..start], s'[start..start + n]);
    ResConcat(SplitLayer(p[..start], n, m), Split(p[start..start + n], Z(m + t)));
  }

  // The bound that keeps seven layers within int16: 0x7fff - 7 * (Q - 1).
  const NTT_INPUT_BOUND := 9471

  method Ntt(r: array<int16>)
    requires r.Length == N
    requires forall i :: 0 <= i < N ==> -NTT_INPUT_BOUND <= r[i] <= NTT_INPUT_BOUND
    modifies r
    ensures Res(r[..]) == NttQ(old(r[..]))
  {
    hide Residue, Res, SplitLayer;
    var k, len := 1, 128;
    ghost var d: nat := 7;
    Constants();
    while len >= 2
      invariant d <= 7 && 2 * len == Size(d) && k * Size(d) == N
      invariant Res(Layers(r[..], d, k)) == NttQ(old(r[..]))
      invariant forall i :: 0 <= i < N ==> -NTT_INPUT_BOUND - (7 - d) * (Q - 1) <= r[i] <= NTT_INPUT_BOUND + (7 - d) * (Q - 1)
      decreases len
    {
      ghost var p := r[..];
      LayerCount(k, len);
      k := NttLayer(r, len, k, NTT_INPUT_BOUND + (7 - d) * (Q - 1));
      ResLayers(r[..], SplitLayer(p, Size(d), k / 2), d - 1, k);
      d := d - 1;
      len := len / 2;
    }
  }

  lemma LayerCount(k: nat, len: nat)
    requires len >= 2 && k * (2 * len) == N
    ensures 2 * k <= 128 && (2 * k) * len == N
  {
    NonNegativeProduct(len - 2, k);
    assert (len - 2) * k == k * len - 2 * k;
  }

  // ----- the inverse transform

  lemma PatchedMerge(p: seq<int>, start: nat, len: nat, y: int, j: nat)
    requires start + 2 * len <= |p| && start <= j < start + len
    ensures var q := Patch(p, start, Merge(p[start..start + 2 * len], y));
            q[j] == p[j] + p[j + len] && q[j + len] == y * (p[j + len] - p[j])
  {
    var block := p[start..start + 2 * len];
    assert Merge(block, y)[j - start] == block[j - start] + block[len + j - start];
    assert Merge(block, y)[len + j - start] == y * (block[len + j - start] - block[j - start]);
  }

  lemma InverseButterfly(k: nat, x: int, y: int, t: int)
    requires k < 128 && Cong(t, R_INV * (Zeta(k) * (y - x)))
    ensures Cong(t, Z(k) * (y - x))
  {
    Unscaled(k);
    hide *;
    TwiddleProduct(Z(k), Zeta(k), y - x, t);
  }

  lemma InverseButterflyAt(p: seq<int>, start: nat, len: nat, k: nat, j: nat, s: int, t: int)
    requires start + 2 * len <= |p| && start <= j < start + len && k < 128
    requires Cong(s, p[j] + p[j + len]) && Cong(t, R_INV * (Zeta(k) * (p[j + len] - p[j])))
    ensures var q := Patch(p, start, Merge(p[start..start + 2 * len], Z(k)));
            Cong(s, q[j]) && Cong(t, q[j + len])
  {
    hide Residue, Z, Zeta, Merge, Patch;
    PatchedMerge(p, start, len, Z(k), j);
    InverseButterfly(k, p[j], p[j + len], t);
  }

  method InverseButterflies(r: array<int16>, start: nat, len: nat, k: nat)
    requires start + 2 * len <= r.Length && k < 128
    requires forall i :: start <= i < start + 2 * len ==> -INVNTT_INPUT_BOUND <= r[i] <= INVNTT_INPUT_BOUND
    modifies r
    ensures forall i :: start <= i < start + 2 * len ==> -Q < r[i] < Q
    ensures Res(r[start..start + 2 * len]) == Res(Merge(old(r[start..start + 2 * len]), Z(k)))
    ensures r[..start] == old(r[..start]) && r[start + 2 * len..] == old(r[start + 2 * len..])
  {
    hide Residue, Cong, Res, Merge, Zeta, Z, FqMul, MontgomeryReduce, BarrettReduce, Patch;
    ghost var p: seq<int> := r[..];
    ghost var block := Merge(p[start..start + 2 * len], Z(k));
    ghost var q := Patch(p, start, block);
    var zeta := Zeta(k);
    ZetaSmall(k);
    var j := start;
    while j < start + len
      invariant start <= j <= start + len
      invariant forall i :: 0 <= i < start || j <= i < start + len || j + len <= i < r.Length ==> r[i] == p[i]
      invariant forall i :: start <= i < j || start + len <= i < j + len ==> Cong(r[i], q[i]) && -Q < r[i] < Q
    {
      assert r[j] == p[j] && r[j + len] == p[j + len];
      var t := r[j];
      r[j] := BarrettReduce(t + r[j + len]);
      r[j + len] := r[j + len] - t;
      ProductInRange(zeta, r[j + len]);
      r[j + len] := FqMul(zeta, r[j + len]);
      InverseButterflyAt(p, start, len, k, j, r[j], r[j + len]);
      j := j + 1;
    }
    PatchDone(r[..], p, start, block);
  }

  lemma MergeLayerNext(p: Vec, start: nat, n: nat, k: int, t: nat)
    requires n > 0 && n % 2 == 0 && start == t * n && start + n <= |p|
    ensures MergeLayer(p[..start + n], n, k) == MergeLayer(p[..start], n, k) + Merge(p[start..start + n], Z(k - t))
  {
    hide Z, Merge;
    var a, c := p[..start], p[start..start + n];
    assert p[..start + n] == a + c;
    assert c[..n] == c;
    assert MergeLayer(c, n, k - t) == Merge(c, Z(k - t)) + [];
    MergeLayerConcat(a, c, n, k, t);
  }

  lemma InverseLayerStep(s': seq<int>, s: seq<int>, p: seq<int>, start: nat, n: nat, k: int, t: nat)
    requires n > 0 && n % 2 == 0 && start == t * n && start + n <= |p| == |s| == |s'|
    requires Res(s[..start]) == Res(MergeLayer(p[..start], n, k)) && s[start..] == p[start..]
    requires Res(s'[start..start + n]) == Res(Merge(s[start..start + n], Z(k - t)))
    requires s'[..start] == s[..start] && s'[start + n..] == s[start + n..]
    ensures Res(s'[..start + n]) == Res(MergeLayer(p[..start + n], n, k))
    ensures s'[start + n..] == p[start + n..]
  {
    hide Residue, Z, Merge, MergeLayer;
    assert s[start..start + n] == s[start..][..n] == p[start..][..n] == p[start..start + n];
    assert s[start + n..] == s[start..][n..] == p[start..][n..] == p[start + n..];
    MergeLayerNext(p, start, n, k, t);
    assert s'[..start + n] == s'[..start] + s'[start..start + n];
    ResConcat(s'[..start], s'[start..start + n]);
    ResConcat(MergeLayer(p[..start], n, k), Merge(p[start..start + n], Z(k - t)));
  }

  // One pass over the array: block number t of length 2 * len is merged with
  // table entry 2 * m - 1 - t.
  method InverseLayer(r: array<int16>, len: nat, m: nat) returns (k: int)
    requires r.Length == N && len > 0 && m * (2 * len) == N && 2 * m <= 128
    requires forall i :: 0 <= i < r.Length ==> -INVNTT_INPUT_BOUND <= r[i] <= INVNTT_INPUT_BOUND
    modifies r
    ensures forall i :: 0 <= i < r.Length ==> -Q < r[i] < Q
    ensures Res(r[..]) == Res(MergeLayer(old(r[..]), 2 * len, 2 * m - 1))
    ensures k == m - 1
  {
    hide Residue, Res, Z, Merge, MergeLayer;
    ghost var p: seq<int> := r[..];
    ghost var t, n := 0, 2 * len;
    var start := 0;
    k := 2 * m - 1;
    assert r[..0] == p[..0] == [];
    assert MergeLayer([], n, 2 * m - 1) == [];
    while start < 256
      invariant 0 <= start <= N && start == t * n && k == 2 * m - 1 - t
      invariant Res(r[..start]) == Res(MergeLayer(p[..start], n, 2 * m - 1))
      invariant r[start..] == p[start..]
      invariant forall i :: 0 <= i < start ==> -Q < r[i] < Q
      decreases N - start
    {
      BlockFits(t, m, n, N);
      ghost var s: seq<int> := r[..];
      assert forall i :: start <= i < N ==> r[i] == r[start..][i - start] == p[start..][i - start] == p[i];
      InverseButterflies(r, start, len, k);
      assert forall i :: 0 <= i < start ==> r[i] == r[..start][i] == s[..start][i] == s[i];
      InverseLayerStep(r[..], s, p, start, n, 2 * m - 1, t);
      k := k - 1;
      start := start + len + len;
      t := t + 1;
    }
    AllBlocks(t, m, n);
    assert r[..start] == r[..] && p[..start] == p;
  }

  // Sums and differences of two inputs fit in int16.
  const INVNTT_INPUT_BOUND := 16383

  // 2^16 / 128 times 2^16, modulo Q.
  const INVNTT_FACTOR := 1441

  method InvNtt(r: array<int16>)
    requires r.Length == N
    requires forall i :: 0 <= i < N ==> -INVNTT_INPUT_BOUND <= r[i] <= INVNTT_INPUT_BOUND
    modifies r
    ensures Res(r[..]) == ScaleQ(0x1_0000, InvQ(old(r[..])))
    ensures forall i :: 0 <= i < N ==> -Q < r[i] < Q
  {
    hide Residue, Res, MergeLayer, ScaleQ, InvQ, FqMul, Scale, Unlayers;
    ghost var p: seq<int> := r[..];
    var k, len := 127, 2;
    ghost var e: nat := 0;
    Constants();
    assert Unlayers(p, 0, 255) == p by { UnlayersStart(p, 255); }
    while len <= 128
      invariant e <= 7 && len == Size(e) && 0 <= k && (k + 1) * len == N
      invariant Res(r[..]) == Res(Unlayers(p, e, 2 * k + 1))
      invariant forall i :: 0 <= i < N ==> -INVNTT_INPUT_BOUND <= r[i] <= INVNTT_INPUT_BOUND
      decreases 256 - len
    {
      ghost var s := r[..];
      var m := (k + 1) / 2;
      InverseLayerCount(e, k, len, m);
      k := InverseLayer(r, len, m);
      UnlayersNext(p, s, e, 2 * m - 1);
      e := e + 1;
      len := len * 2;
    }
    FinalLevel(e, len, k);
    ghost var u: seq<int> := r[..];
    var j := 0;
    while j < 256
      invariant 0 <= j <= 256
      invariant forall i :: 0 <= i < j ==> Cong(r[i], R_INV * INVNTT_FACTOR * u[i]) && -Q < r[i] < Q
      invariant forall i :: j <= i < N ==> r[i] == u[i]
    {
      r[j] := FqMul(r[j], INVNTT_FACTOR);
      assert R_INV * (u[j] * INVNTT_FACTOR) == R_INV * INVNTT_FACTOR * u[j];
      j := j + 1;
    }
    FinalScaling(r[..], u, p);
  }

  lemma UnlayersStart(p: Vec, k: int)
    ensures Unlayers(p, 0, k) == p
  {
  }

  lemma UnlayersNext(p: Vec, s: Vec, e: nat, k: int)
    requires Res(s) == Res(Unlayers(p, e, 2 * k + 1))
    ensures Res(MergeLayer(s, Size(e + 1), k)) == Res(Unlayers(p, e + 1, k))
  {
    hide Residue, Res, MergeLayer;
    ResMergeLayer(s, Unlayers(p, e, 2 * k + 1), Size(e + 1), k);
  }

  lemma InverseLayerCount(e: nat, k: nat, len: nat, m: nat)
    requires e <= 6 && len == Size(e) && (k + 1) * len == N && m == (k + 1) / 2
    ensures k == 2 * m - 1 && m * (2 * len) == N && 2 * m <= 128 && m * len * 2 == N
  {
    match e {
      case 0 => assert len == 2;
      case 1 => assert len == 4;
      case 2 => assert len == 8;
      case 3 => assert len == 16;
      case 4 => assert len == 32;
      case 5 => assert len == 64;
      case _ => assert len == 128 by { assert Size(4) == 32; }
    }
  }

  lemma FinalLevel(e: nat, len: nat, k: nat)
    requires e <= 7 && len > 128 && len == Size(e) && (k + 1) * len == N
    ensures e == 7 && k == 0
  {
    Constants();
    if e < 7 {
      SizeBelow(e);
    }
  }

  lemma SizeBelow(e: nat)
    requires e <= 6
    ensures Size(e) <= 128
  {
    assert Size(3) == 16 && Size(6) == 128;
  }

  lemma FinalFactor()
    ensures Cong(R_INV * INVNTT_FACTOR, 0x1_0000 * INV_128)
  {
  }

  // The last loop multiplies by 2^16 / 128, which completes the inverse.
  lemma FinalScaling(s: Vec, u: Vec, p: Vec)
    requires IsPoly(s) && IsPoly(u) && Res(u) == Res(Unlayers(p, 7, 1))
    requires forall i :: 0 <= i < N ==> Cong(s[i], R_INV * INVNTT_FACTOR * u[i])
    ensures Res(s) == ScaleQ(0x1_0000, InvQ(p))
  {
    FinalFactor();
    hide Residue, Unlayers;
    ScaleQTwice(0x1_0000, INV_128, Unlayers(p, 7, 1));
    ScaleQRes(R_INV * INVNTT_FACTOR, 0x1_0000 * INV_128, u, Unlayers(p, 7, 1));
    assert Res(s) == Res(Scale(R_INV * INVNTT_FACTOR, u));
  }
}
