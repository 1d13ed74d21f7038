// The sponge over Keccak-f[1600] (components/fips202/fips202.c:353-514).
module Sponge {
  import opened Packing
  import opened Words
  import opened KeccakF
  import opened Buffers
  import opened Division
  import opened Bytes

  const STATE_BYTES := 200

  // ----- the state as bytes

  function ByteAt(s: Lanes, i: nat): byte
    requires i < STATE_BYTES
  {
    ByteOf(s[i / 8], i % 8)
  }

  // s[i/8] ^= b << 8*(i%8)
  function XorAt(s: Lanes, i: nat, b: byte): Lanes
    requires i < STATE_BYTES
  {
    s[i / 8 := XorByte(s[i / 8], i % 8, b)]
  }

  lemma XorAtBytes(s: Lanes, i: nat, b: byte, j: nat)
    requires i < STATE_BYTES && j < STATE_BYTES
    ensures ByteAt(XorAt(s, i, b), j) == if j == i then ByteXor(ByteAt(s, i), b) else ByteAt(s, j)
  {
    hide ByteOf, XorByte, ByteXor;
    XorByteBytes(s[i / 8], i % 8, b, j % 8);
  }

  lemma LanesExtensional(s: Lanes, t: Lanes)
    requires forall i :: 0 <= i < STATE_BYTES ==> ByteAt(s, i) == ByteAt(t, i)
    ensures s == t
  {
    hide ByteOf;
    forall k | 0 <= k < 25
      ensures s[k] == t[k]
    {
      forall j | 0 <= j < 8
        ensures ByteOf(s[k], j) == ByteOf(t[k], j)
      {
        assert ByteAt(s, 8 * k + j) == ByteAt(t, 8 * k + j);
      }
      WordExtensional(s[k], t[k]);
    }
  }

  // ----- absorbing, byte by byte

  datatype Cursor = Cursor(s: Lanes, pos: nat)

  predicate IsRate(r: nat) {
    0 < r <= STATE_BYTES && r % 8 == 0
  }

  // The last byte of a block makes the permutation run.
  function AbsorbByte(c: Cursor, r: nat, b: byte): (d: Cursor)
    requires IsRate(r) && c.pos < r
    ensures d.pos < r
  {
    var s := XorAt(c.s, c.pos, b);
    if c.pos + 1 == r then Cursor(Permute(s), 0) else Cursor(s, c.pos + 1)
  }

  function Absorb(c: Cursor, r: nat, x: seq<byte>): (d: Cursor)
    requires IsRate(r) && c.pos < r
    ensures d.pos < r
  {
    if x == [] then c else AbsorbByte(Absorb(c, r, x[..|x| - 1]), r, x[|x| - 1])
  }

  // Absorbing x and then y is absorbing x followed by y.
  lemma {:induction false} AbsorbSplits(c: Cursor, r: nat, x: seq<byte>, y: seq<byte>)
    requires IsRate(r) && c.pos < r
    ensures Absorb(c, r, x + y) == Absorb(Absorb(c, r, x), r, y)
  {
    hide AbsorbByte;
    if y == [] {
      assert x + y == x;
    } else {
      AbsorbSplits(c, r, x, y[..|y| - 1]);
      assert (x + y)[..|x + y| - 1] == x + y[..|y| - 1];
    }
  }

  // What the inner loops do: bytes x from position pos on.
  function XorAll(s: Lanes, pos: nat, x: seq<byte>): Lanes
    requires pos + |x| <= STATE_BYTES
  {
    if x == [] then s else XorAt(XorAll(s, pos, x[..|x| - 1]), pos + |x| - 1, x[|x| - 1])
  }

  lemma {:induction false} XorAllBytes(s: Lanes, pos: nat, x: seq<byte>, j: nat)
    requires pos + |x| <= STATE_BYTES && j < STATE_BYTES
    ensures ByteAt(XorAll(s, pos, x), j) == if pos <= j < pos + |x| then ByteXor(ByteAt(s, j), x[j - pos]) else ByteAt(s, j)
  {
    hide ByteAt, XorAt, ByteXor;
    if |x| > 0 {
      XorAllBytes(s, pos, x[..|x| - 1], j);
      XorAtBytes(XorAll(s, pos, x[..|x| - 1]), pos + |x| - 1, x[|x| - 1], j);
    }
  }

  // Within a block, absorbing is exclusive-or; completing it permutes.
  lemma {:induction false} AbsorbWithinBlock(c: Cursor, r: nat, x: seq<byte>)
    requires IsRate(r) && c.pos + |x| <= r && c.pos < r
    ensures Absorb(c, r, x) ==
            if c.pos + |x| == r then Cursor(Permute(XorAll(c.s, c.pos, x)), 0) else Cursor(XorAll(c.s, c.pos, x), c.pos + |x|)
  {
    hide Permute, XorAt;
    if |x| > 0 {
      AbsorbWithinBlock(c, r, x[..|x| - 1]);
    }
  }

  // ----- the loops of keccak_absorb

  method XorInto(s: array<Word>, pos: nat, x: seq<byte>)
    requires s.Length == 25 && pos + |x| <= STATE_BYTES
    modifies s
    ensures s[..] == XorAll(old(s[..]), pos, x)
  {
    hide XorByte;
    ghost var was := s[..];
    for i := pos to pos + |x|
      invariant s[..] == XorAll(was, pos, x[..i - pos])
    {
      s[i / 8] := XorByte(s[i / 8], i % 8, x[i - pos]);
      assert x[..i + 1 - pos][..i - pos] == x[..i - pos];
    }
    assert x[..|x|] == x;
  }

  // A position at the end of the block stands for the start of the next one.
  function Started(c: Cursor, r: nat): Cursor {
    if c.pos == r then Cursor(Permute(c.s), 0) else c
  }

  method KeccakAbsorb(s: array<Word>, pos: nat, r: nat, x: seq<byte>) returns (i: nat)
    requires s.Length == 25 && IsRate(r) && pos <= r
    modifies s
    ensures Cursor(s[..], i) == Absorb(Started(Cursor(old(s[..]), pos), r), r, x)
  {
    hide Permute, XorAll, Absorb;
    ghost var c := Started(Cursor(s[..], pos), r);
    var p: nat, o: nat := pos, 0;
    while p + (|x| - o) >= r
      invariant 0 <= o <= |x| && p <= r
      invariant Absorb(Started(Cursor(s[..], p), r), r, x[o..]) == Absorb(c, r, x)
      decreases |x| - o, p
    {
      ghost var d := Cursor(s[..], p);
      var n := r - p;
      XorInto(s, p, x[o..o + n]);
      StatePermute(s);
      BlockDone(d, r, x[o..], n);
      assert x[o..][..n] == x[o..o + n] && x[o..][n..] == x[o + n..];
      o := o + n;
      p := 0;
    }
    ghost var d := Cursor(s[..], p);
    XorInto(s, p, x[o..]);
    AbsorbWithinBlock(d, r, x[o..]);
    i := p + (|x| - o);
  }

  lemma BlockDone(c: Cursor, r: nat, x: seq<byte>, n: nat)
    requires IsRate(r) && c.pos <= r && n == r - c.pos <= |x|
    ensures Absorb(Started(c, r), r, x) == Absorb(Cursor(Permute(XorAll(c.s, c.pos, x[..n])), 0), r, x[n..])
  {
    hide Permute, AbsorbByte;
    if n > 0 {
      AbsorbSplits(c, r, x[..n], x[n..]);
      assert x[..n] + x[n..] == x;
      AbsorbWithinBlock(c, r, x[..n]);
    } else {
      assert x[n..] == x;
    }
  }

  // ----- finishing

  function Initial(): Lanes {
    seq(25, i => Word(0))
  }

  method KeccakInit(s: array<Word>)
    requires s.Length == 25
    modifies s
    ensures s[..] == Initial()
  {
    for i := 0 to 25
      invariant forall j :: 0 <= j < i ==> s[j] == Word(0)
    {
      s[i] := Word(0);
    }
  }

  // The domain byte p at the position, and the last bit of the block.
  function Finalized(c: Cursor, r: nat, p: byte): Lanes
    requires IsRate(r) && c.pos < r
  {
    XorAt(XorAt(c.s, c.pos, p), r - 1, 0x80)
  }

  lemma LastWord(r: nat)
    requires IsRate(r)
    ensures (r - 1) / 8 == r / 8 - 1 && (r - 1) % 8 == 7
  {
  }

  method KeccakFinalize(s: array<Word>, pos: nat, r: nat, p: byte)
    requires s.Length == 25 && IsRate(r) && pos < r
    modifies s
    ensures s[..] == Finalized(Cursor(old(s[..]), pos), r, p)
  {
    hide XorByte, Xor;
    LastWord(r);
    s[pos / 8] := XorByte(s[pos / 8], pos % 8, p);
    TopBit(s[r / 8 - 1]);
    s[r / 8 - 1] := Xor(s[r / 8 - 1], Word(0x8000_0000_0000_0000));
  }

  // One block absorbed word by word with load64.
  method XorWords(s: array<Word>, n: nat, x: seq<byte>)
    requires s.Length == 25 && n <= 25 && |x| == 8 * n
    modifies s
    ensures s[..] == XorAll(old(s[..]), 0, x)
  {
    hide ByteOf, Xor, XorAll;
    ghost var was: Lanes := s[..];
    for i := 0 to n
      invariant forall k :: i <= k < 25 ==> s[k] == was[k]
      invariant forall k :: 0 <= k < i ==> WordAbsorbed(was[k], s[k], x, 8 * k)
    {
      var w := Load64(x, 8 * i);
      AbsorbsWord(s[i], w, x, 8 * i);
      s[i] := Xor(s[i], w);
    }
    WordsAreBytes(was, s[..], n, x);
  }

  ghost predicate WordAbsorbed(v: Word, w: Word, x: seq<byte>, o: nat)
    requires o + 8 <= |x|
  {
    forall j :: 0 <= j < 8 ==> ByteOf(w, j) == ByteXor(ByteOf(v, j), x[o + j])
  }

  lemma AbsorbsWord(v: Word, w: Word, x: seq<byte>, o: nat)
    requires o + 8 <= |x| && forall k :: 0 <= k < 8 ==> ByteOf(w, k) == x[o + k]
    ensures WordAbsorbed(v, Xor(v, w), x, o)
  {
    hide ByteOf, Xor, ByteXor;
    forall j | 0 <= j < 8
      ensures ByteOf(Xor(v, w), j) == ByteXor(ByteOf(v, j), x[o + j])
    {
      XorBytes(v, w, j);
    }
  }

  lemma WordsAreBytes(s: Lanes, t: Lanes, n: nat, x: seq<byte>)
    requires n <= 25 && |x| == 8 * n
    requires forall k :: n <= k < 25 ==> t[k] == s[k]
    requires forall k :: 0 <= k < n ==> WordAbsorbed(s[k], t[k], x, 8 * k)
    ensures t == XorAll(s, 0, x)
  {
    hide ByteOf, ByteXor, XorAll;
    forall i | 0 <= i < STATE_BYTES
      ensures ByteAt(t, i) == ByteAt(XorAll(s, 0, x), i)
    {
      XorAllBytes(s, 0, x, i);
      if i < 8 * n {
        assert WordAbsorbed(s[i / 8], t[i / 8], x, 8 * (i / 8));
      }
    }
    LanesExtensional(t, XorAll(s, 0, x));
  }

  // keccak_absorb_once computes what init, any number of absorbs and finalize do.
  method KeccakAbsorbOnce(s: array<Word>, r: nat, x: seq<byte>, p: byte)
    requires s.Length == 25 && IsRate(r)
    modifies s
    ensures s[..] == Finalized(Absorb(Cursor(Initial(), 0), r, x), r, p)
  {
    hide Permute, XorAll, Absorb, XorByte, Xor;
    KeccakInit(s);
    var o := 0;
    while |x| - o >= r
      invariant 0 <= o <= |x|
      invariant Absorb(Cursor(s[..], 0), r, x[o..]) == Absorb(Cursor(Initial(), 0), r, x)
    {
      ghost var c := Cursor(s[..], 0);
      XorWords(s, r / 8, x[o..o + r]);
      StatePermute(s);
      BlockDone(c, r, x[o..], r);
      assert x[o..][..r] == x[o..o + r] && x[o..][r..] == x[o + r..];
      o := o + r;
    }
    ghost var c := Cursor(s[..], 0);
    XorInto(s, 0, x[o..]);
    AbsorbWithinBlock(c, r, x[o..]);
    var i := |x| - o;
    s[i / 8] := XorByte(s[i / 8], i % 8, p);
    LastWord(r);
    TopBit(s[(r - 1) / 8]);
    s[(r - 1) / 8] := Xor(s[(r - 1) / 8], Word(0x8000_0000_0000_0000));
  }

  // ----- the sponge of section 4 of FIPS 202: pad, then absorb whole blocks

  // k bytes of padding after the domain byte p.
  function Padding(k: nat, p: byte): (x: seq<byte>)
    requires k > 0
    ensures |x| == k
  {
    seq(k, i requires 0 <= i < k => PaddingByte(k, p, i))
  }

  function PaddingByte(k: nat, p: byte, i: nat): byte {
    if i == 0 then if k == 1 then ByteXor(p, 0x80) else p else if i == k - 1 then 0x80 else 0
  }

  function AbsorbBlocks(s: Lanes, r: nat, x: seq<byte>): Lanes
    requires IsRate(r) && |x| % r == 0
  {
    if x == [] then s else
      LastBlock(|x|, r);
      Permute(XorAll(AbsorbBlocks(s, r, x[..|x| - r]), 0, x[|x| - r..]))
  }

  lemma LastBlock(n: nat, r: nat)
    requires r > 0 && n % r == 0 && n > 0
    ensures n >= r && (n - r) % r == 0
  {
    Euclid(n, r);
    var q := n / r;
    Multiple(q, r);
    assert n - r == (q - 1) * r;
    Quotient(n - r, r, q - 1, 0);
  }

  lemma {:induction false} BlocksAbsorbed(s: Lanes, r: nat, x: seq<byte>)
    requires IsRate(r) && |x| % r == 0
    ensures Absorb(Cursor(s, 0), r, x) == Cursor(AbsorbBlocks(s, r, x), 0)
  {
    hide Permute, XorAll, AbsorbByte;
    if x != [] {
      LastBlock(|x|, r);
      var n := |x| - r;
      BlocksAbsorbed(s, r, x[..n]);
      AbsorbSplits(Cursor(s, 0), r, x[..n], x[n..]);
      assert x[..n] + x[n..] == x;
      AbsorbWithinBlock(Cursor(AbsorbBlocks(s, r, x[..n]), 0), r, x[n..]);
    }
  }

  // The domain byte and the last bit are the padding of the last block.
  lemma PaddedBlock(s: Lanes, r: nat, y: seq<byte>, p: byte)
    requires IsRate(r) && |y| < r
    ensures XorAt(XorAt(XorAll(s, 0, y), |y|, p), r - 1, 0x80) == XorAll(s, 0, y + Padding(r - |y|, p))
  {
    hide XorAt, XorAll, ByteAt, Padding, ByteXor;
    var t, z := XorAll(s, 0, y), y + Padding(r - |y|, p);
    var u := XorAt(t, |y|, p);
    forall i | 0 <= i < STATE_BYTES
      ensures ByteAt(XorAt(u, r - 1, 0x80), i) == ByteAt(XorAll(s, 0, z), i)
    {
      XorAllBytes(s, 0, y, i);
      XorAllBytes(s, 0, z, i);
      XorAtBytes(t, |y|, p, i);
      XorAtBytes(u, r - 1, 0x80, i);
      if |y| <= i < r {
        PaddedByte(ByteAt(s, i), r, |y|, p, i);
        PaddingAt(r - |y|, p, i - |y|);
      }
    }
    LanesExtensional(XorAt(u, r - 1, 0x80), XorAll(s, 0, z));
  }

  lemma PaddingAt(k: nat, p: byte, i: nat)
    requires i < k
    ensures Padding(k, p)[i] == PaddingByte(k, p, i)
  {
    hide PaddingByte;
  }

  lemma PaddedByte(b: byte, r: nat, n: nat, p: byte, i: nat)
    requires n < r && n <= i < r
    ensures var d := if i == n then ByteXor(b, p) else b;
            (if i == r - 1 then ByteXor(d, 0x80) else d) == ByteXor(b, PaddingByte(r - n, p, i - n))
  {
    hide ByteXor;
    XorByteLaws(b, p);
  }

  lemma XorByteLaws(b: byte, p: byte)
    ensures ByteXor(ByteXor(b, p), 0x80) == ByteXor(b, ByteXor(p, 0x80)) && ByteXor(b, 0) == b
  {
  }

  function Padded(r: nat, x: seq<byte>, p: byte): (z: seq<byte>)
    requires IsRate(r)
    ensures |z| % r == 0
  {
    Euclid(|x|, r);
    Quotient(|x| + (r - |x| % r), r, |x| / r + 1, 0);
    x + Padding(r - |x| % r, p)
  }

  // Whole blocks of x, and the block made of the rest and the padding.
  lemma PaddedParts(r: nat, x: seq<byte>, p: byte, q: nat, n: nat)
    requires IsRate(r) && q == |x| / r && n == q * r
    ensures n <= |x| && n % r == 0 && |x| - n == |x| % r < r
    ensures var z := Padded(r, x, p); |z| == n + r && z[..n] == x[..n] && z[n..] == x[n..] + Padding(r - |x| % r, p)
  {
    hide Padding;
    Euclid(|x|, r);
    Quotient(n, r, q, 0);
  }

  lemma FinalBlock(r: nat, z: seq<byte>, n: nat)
    requires IsRate(r) && |z| % r == 0 && n % r == 0 && |z| == n + r
    ensures AbsorbBlocks(Initial(), r, z) == Permute(XorAll(AbsorbBlocks(Initial(), r, z[..n]), 0, z[n..]))
  {
    hide Permute, XorAll, Initial;
  }

  // Whole blocks first, then the rest of them within one.
  lemma AbsorbedParts(r: nat, x: seq<byte>, n: nat)
    requires IsRate(r) && n <= |x| < n + r && n % r == 0
    ensures Absorb(Cursor(Initial(), 0), r, x) == Cursor(XorAll(AbsorbBlocks(Initial(), r, x[..n]), 0, x[n..]), |x| - n)
  {
    hide Permute, XorAll, Absorb, AbsorbBlocks, Initial;
    BlocksAbsorbed(Initial(), r, x[..n]);
    AbsorbSplits(Cursor(Initial(), 0), r, x[..n], x[n..]);
    assert x[..n] + x[n..] == x;
    AbsorbWithinBlock(Cursor(AbsorbBlocks(Initial(), r, x[..n]), 0), r, x[n..]);
  }

  // The state the first squeezed block is read from is that of the padded sponge.
  lemma AbsorbedIsSponge(r: nat, x: seq<byte>, p: byte)
    requires IsRate(r)
    ensures Permute(Finalized(Absorb(Cursor(Initial(), 0), r, x), r, p)) == AbsorbBlocks(Initial(), r, Padded(r, x, p))
  {
    hide Permute, XorAll, XorAt, Padding, Padded, Absorb, AbsorbBlocks, Initial;
    var n := |x| / r * r;
    PaddedParts(r, x, p, |x| / r, n);
    AbsorbedParts(r, x, n);
    PaddedBlock(AbsorbBlocks(Initial(), r, x[..n]), r, x[n..], p);
    FinalBlock(r, Padded(r, x, p), n);
  }

  // ----- squeezing

  function Iterate(s: Lanes, n: nat): Lanes {
    if n == 0 then s else Permute(Iterate(s, n - 1))
  }

  lemma {:induction false} IterateAdd(s: Lanes, m: nat, n: nat)
    ensures Iterate(Iterate(s, m), n) == Iterate(s, m + n)
  {
    hide Permute;
    if n > 0 {
      IterateAdd(s, m, n - 1);
    }
  }

  function Div(k: nat, r: nat): nat
    requires r > 0
  {
    k / r
  }

  function Mod(k: nat, r: nat): (m: nat)
    requires r > 0
    ensures m < r
  {
    Euclid(k, r);
    k % r
  }

  // Byte k of the blocks read from s and the states after it.
  function BlockByte(s: Lanes, r: nat, k: nat): byte
    requires IsRate(r)
  {
    ByteAt(Iterate(s, Div(k, r)), Mod(k, r))
  }

  // Byte n of the output that follows a cursor.
  function StreamByte(c: Cursor, r: nat, n: nat): byte
    requires IsRate(r)
  {
    BlockByte(c.s, r, c.pos + n)
  }

  function Stream(c: Cursor, r: nat, n: nat): (x: seq<byte>)
    requires IsRate(r)
    ensures |x| == n
  {
    seq(n, i requires 0 <= i < n => StreamByte(c, r, i))
  }

  // The cursor after n bytes.
  function After(c: Cursor, r: nat, n: nat): (d: Cursor)
    requires IsRate(r) && c.pos <= r
    ensures d.pos <= r
  {
    if n == 0 then c else
      Cursor(Iterate(c.s, Div(c.pos + n - 1, r)), Mod(c.pos + n - 1, r) + 1)
  }

  lemma IterateOnce(s: Lanes)
    ensures Iterate(s, 0) == s && Iterate(s, 1) == Permute(s)
  {
    hide Permute;
    assert Iterate(s, 1) == Permute(Iterate(s, 0));
  }

  lemma DivMod(k: nat, r: nat, q: int, t: nat)
    requires t < r && k == q * r + t
    ensures q >= 0 && Div(k, r) == q && Mod(k, r) == t
  {
    Multiple(q, r);
    Quotient(k, r, q, t);
  }

  lemma DivAdd(q: nat, r: nat, k: nat)
    requires r > 0
    ensures q * r >= 0 && Div(q * r + k, r) == q + Div(k, r) && Mod(q * r + k, r) == Mod(k, r)
  {
    Multiple(q, r);
    Euclid(k, r);
    assert q * r + k == (q + k / r) * r + k % r;
    DivMod(q * r + k, r, q + k / r, k % r);
  }

  lemma Decomposed(k: nat, r: nat)
    requires r > 0
    ensures k == Div(k, r) * r + Mod(k, r)
  {
    Euclid(k, r);
  }

  // Skipping q blocks.
  lemma LaterBlock(s: Lanes, r: nat, q: nat, k: nat, n: nat)
    requires IsRate(r) && n == q * r + k
    ensures BlockByte(Iterate(s, q), r, k) == BlockByte(s, r, n)
  {
    hide ByteAt, Permute, Iterate, Div, Mod;
    DivAdd(q, r, k);
    IterateAdd(s, q, Div(k, r));
  }

  lemma LaterByte(c: Cursor, r: nat, m: nat, n: nat)
    requires IsRate(r) && c.pos <= r
    ensures StreamByte(After(c, r, m), r, n) == StreamByte(c, r, m + n)
  {
    hide BlockByte, Iterate, Div, Mod;
    if m > 0 {
      var a := c.pos + m - 1;
      Decomposed(a, r);
      LaterBlock(c.s, r, Div(a, r), Mod(a, r) + 1 + n, c.pos + (m + n));
    }
  }

  lemma AfterAfter(c: Cursor, r: nat, m: nat, n: nat)
    requires IsRate(r) && c.pos <= r
    ensures After(After(c, r, m), r, n) == After(c, r, m + n)
  {
    hide Iterate, Div, Mod;
    if m > 0 && n > 0 {
      var a := c.pos + m - 1;
      Decomposed(a, r);
      var k := Mod(a, r) + n;
      DivAdd(Div(a, r), r, k);
      assert c.pos + (m + n) - 1 == Div(a, r) * r + k;
      IterateAdd(c.s, Div(a, r), Div(k, r));
    }
  }

  // However the output is asked for, it is one stream.
  lemma StreamSplits(c: Cursor, r: nat, m: nat, n: nat)
    requires IsRate(r) && c.pos <= r
    ensures Stream(c, r, m + n) == Stream(c, r, m) + Stream(After(c, r, m), r, n)
    ensures After(c, r, m + n) == After(After(c, r, m), r, n)
  {
    hide StreamByte, After;
    AfterAfter(c, r, m, n);
    forall i | 0 <= i < n
      ensures Stream(c, r, m + n)[m + i] == Stream(After(c, r, m), r, n)[i]
    {
      LaterByte(c, r, m, i);
    }
  }

  function StateBytes(s: Lanes, pos: nat, n: nat): (x: seq<byte>)
    requires pos + n <= STATE_BYTES
    ensures |x| == n
  {
    seq(n, i requires 0 <= i < n => ByteAt(s, pos + i))
  }

  // Squeezing within one block.
  lemma WithinBlock(c: Cursor, r: nat, n: nat)
    requires IsRate(r) && c.pos <= r && 0 < n && Started(c, r).pos + n <= r
    ensures var d := Started(c, r); After(c, r, n) == Cursor(d.s, d.pos + n) && Stream(c, r, n) == StateBytes(d.s, d.pos, n)
  {
    hide Permute, ByteAt, Iterate, Div, Mod;
    var q, d := if c.pos == r then 1 else 0, Started(c, r);
    IterateOnce(c.s);
    assert Iterate(c.s, q) == d.s;
    DivMod(c.pos + n - 1, r, q, d.pos + n - 1);
    forall i | 0 <= i < n
      ensures StreamByte(c, r, i) == StateBytes(d.s, d.pos, n)[i]
    {
      DivMod(c.pos + i, r, q, d.pos + i);
    }
  }

  method SqueezeBytes(out: array<byte>, o: nat, s: array<Word>, pos: nat, n: nat)
    requires Apart(s, out) && s.Length == 25 && pos + n <= STATE_BYTES && o + n <= out.Length
    modifies out
    ensures out[..] == Overwrite(old(out[..]), o, StateBytes(s[..], pos, n))
  {
    hide ByteOf;
    for i := 0 to n
      invariant forall k :: 0 <= k < o || o + i <= k < out.Length ==> out[k] == old(out[k])
      invariant forall k :: o <= k < o + i ==> out[k] == ByteAt(s[..], pos + (k - o))
    {
      out[o + i] := ByteOf(s[(pos + i) / 8], (pos + i) % 8);
    }
  }

  method KeccakSqueeze(out: array<byte>, o: nat, outlen: nat, s: array<Word>, pos: nat, r: nat) returns (p: nat)
    requires Apart(s, out) && s.Length == 25 && IsRate(r) && pos <= r && o + outlen <= out.Length
    modifies out, s
    ensures out[..] == Overwrite(old(out[..]), o, Stream(Cursor(old(s[..]), pos), r, outlen))
    ensures p <= r && Cursor(s[..], p) == After(Cursor(old(s[..]), pos), r, outlen)
  {
    hide Permute, StateBytes, Stream, After, Overwrite;
    ghost var c, was := Cursor(s[..], pos), out[..];
    NothingSqueezed(c, r);
    OverwriteNothing(was, o, []);
    var m := 0;
    p := pos;
    while m < outlen
      invariant m <= outlen && p <= r
      invariant Cursor(s[..], p) == After(c, r, m)
      invariant out[..] == Overwrite(was, o, Stream(c, r, m))
    {
      ghost var d := Cursor(s[..], p);
      if p == r {
        StatePermute(s);
        p := 0;
      }
      assert Cursor(s[..], p) == Started(d, r);
      var n := if r - p <= outlen - m then r - p else outlen - m;
      SqueezeBytes(out, o + m, s, p, n);
      WithinBlock(d, r, n);
      StreamSplits(c, r, m, n);
      Append(was, o, Stream(c, r, m), Stream(d, r, n));
      m := m + n;
      p := p + n;
    }
  }

  lemma NothingSqueezed(c: Cursor, r: nat)
    requires IsRate(r) && c.pos <= r
    ensures After(c, r, 0) == c && Stream(c, r, 0) == []
  {
  }

  // One block stored word by word with store64.
  method StoreBlock(out: array<byte>, o: nat, s: array<Word>, n: nat)
    requires Apart(s, out) && s.Length == 25 && n <= 25 && o + 8 * n <= out.Length
    modifies out
    ensures out[..] == Overwrite(old(out[..]), o, StateBytes(s[..], 0, 8 * n))
  {
    hide ByteOf;
    for k := 0 to n
      invariant forall i :: 0 <= i < o || o + 8 * k <= i < out.Length ==> out[i] == old(out[i])
      invariant forall i :: o <= i < o + 8 * k ==> out[i] == ByteAt(s[..], i - o)
    {
      Store64(out, o + 8 * k, s[k]);
    }
  }

  method KeccakSqueezeBlocks(out: array<byte>, o: nat, nblocks: nat, s: array<Word>, r: nat)
    requires Apart(s, out) && s.Length == 25 && IsRate(r) && o + nblocks * r <= out.Length
    modifies out, s
    ensures out[..] == Overwrite(old(out[..]), o, Stream(Cursor(old(s[..]), r), r, nblocks * r))
    ensures Cursor(s[..], r) == After(Cursor(old(s[..]), r), r, nblocks * r)
  {
    hide Permute, StateBytes, Stream, After, Overwrite;
    ghost var c, was := Cursor(s[..], r), out[..];
    NothingSqueezed(c, r);
    OverwriteNothing(was, o, []);
    var b, m := 0, 0;
    while b < nblocks
      invariant b <= nblocks && m == b * r && m <= nblocks * r
      invariant Cursor(s[..], r) == After(c, r, m)
      invariant out[..] == Overwrite(was, o, Stream(c, r, m))
    {
      ghost var d := Cursor(s[..], r);
      BlockFits(b, nblocks, r);
      StatePermute(s);
      assert Cursor(s[..], 0) == Started(d, r);
      StoreBlock(out, o + m, s, r / 8);
      WithinBlock(d, r, r);
      StreamSplits(c, r, m, r);
      Append(was, o, Stream(c, r, m), Stream(d, r, r));
      b := b + 1;
      m := m + r;
    }
  }

  lemma BlockFits(b: nat, n: nat, r: nat)
    requires b < n
    ensures (b + 1) * r == b * r + r && (b + 1) * r <= n * r
  {
    var k := n - (b + 1);
    assert k * r >= 0;
    assert n * r == (b + 1) * r + k * r;
  }
}
