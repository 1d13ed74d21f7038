// SHAKE128, SHAKE256, SHA3-256 and SHA3-512 (components/fips202/fips202.c:536-774)
// and the functions Kyber builds on them (components/symmetric/symmetric.h:64-69,
// components/symmetric/symmetric-shake.c).
module Fips202 {
  import opened Packing
  import opened Words
  import opened KeccakF
  import opened Buffers
  import opened Sponge
  import opened Division

  const SHAKE128_RATE := 168
  const SHAKE256_RATE := 136
  const SHA3_256_RATE := 136
  const SHA3_512_RATE := 72

  const SHAKE_DOMAIN: byte := 0x1f
  const SHA3_DOMAIN: byte := 0x06

  // The cursor after x has been absorbed and finalized.
  function Absorbed(r: nat, x: seq<byte>, p: byte): (c: Cursor)
    requires IsRate(r)
    ensures c.pos == r
  {
    Cursor(Finalized(Absorb(Cursor(Initial(), 0), r, x), r, p), r)
  }

  // n bytes of output for input x.
  function Output(r: nat, x: seq<byte>, p: byte, n: nat): (y: seq<byte>)
    requires IsRate(r)
    ensures |y| == n
  {
    Stream(Absorbed(r, x, p), r, n)
  }

  // The output is that of the sponge construction: pad, absorb whole blocks, and
  // read the first r bytes of that state and of each further one.
  lemma OutputIsSponge(r: nat, x: seq<byte>, p: byte, n: nat, i: nat)
    requires IsRate(r) && i < n
    ensures Output(r, x, p, n)[i] == BlockByte(AbsorbBlocks(Initial(), r, Padded(r, x, p)), r, i)
  {
    hide Permute, BlockByte, AbsorbBlocks, Absorb, Finalized, Padded, Iterate;
    AbsorbedIsSponge(r, x, p);
    var s := Absorbed(r, x, p).s;
    IterateOnce(s);
    LaterBlock(s, r, 1, i, r + i);
  }

  // The keccak_state of SHAKE128 (rate 168) and SHAKE256 (rate 136).
  class KeccakState {
    const rate: nat
    const s: array<Word>
    var pos: nat

    ghost predicate Valid()
      reads this
    {
      s.Length == 25 && IsRate(rate) && pos <= rate
    }

    ghost function Cur(): Cursor
      requires Valid()
      reads this, s
    {
      Cursor(s[..], pos)
    }

    constructor (rate: nat)
      requires IsRate(rate)
      ensures Valid() && this.rate == rate && fresh(s)
    {
      this.rate := rate;
      s := new Word[25](_ => Word(0));
      pos := 0;
    }

    method Init()
      requires Valid()
      modifies this, s
      ensures Valid() && Cur() == Cursor(Initial(), 0)
    {
      KeccakInit(s);
      pos := 0;
    }

    method Update(x: seq<byte>)
      requires Valid() && pos < rate
      modifies this, s
      ensures Valid() && Cur() == Absorb(old(Cur()), rate, x)
    {
      hide Absorb, Permute;
      pos := KeccakAbsorb(s, pos, rate, x);
    }

    method Finalize()
      requires Valid() && pos < rate
      modifies this, s
      ensures Valid() && Cur() == Cursor(Finalized(old(Cur()), rate, SHAKE_DOMAIN), rate)
    {
      KeccakFinalize(s, pos, rate, SHAKE_DOMAIN);
      pos := rate;
    }

    method AbsorbOnce(x: seq<byte>)
      requires Valid()
      modifies this, s
      ensures Valid() && Cur() == Absorbed(rate, x, SHAKE_DOMAIN)
    {
      hide Absorb, Finalized;
      KeccakAbsorbOnce(s, rate, x, SHAKE_DOMAIN);
      pos := rate;
    }

    method Squeeze(out: array<byte>, o: nat, outlen: nat)
      requires Valid() && Apart(s, out) && o + outlen <= out.Length
      modifies this, s, out
      ensures Valid() && Cur() == After(old(Cur()), rate, outlen)
      ensures out[..] == Overwrite(old(out[..]), o, Stream(old(Cur()), rate, outlen))
    {
      hide After, Stream, Overwrite;
      pos := KeccakSqueeze(out, o, outlen, s, pos, rate);
    }

    // Whole blocks; what is left of a block already begun is skipped, so that the
    // output continues the stream when none has been begun, that is, pos == rate.
    method SqueezeBlocks(out: array<byte>, o: nat, nblocks: nat)
      requires Valid() && Apart(s, out) && o + nblocks * rate <= out.Length
      modifies this, s, out
      ensures Valid() && pos == old(pos)
      ensures Cur().s == After(old(Cur()).(pos := rate), rate, nblocks * rate).s
      ensures pos == rate ==> Cur() == After(old(Cur()), rate, nblocks * rate)
      ensures out[..] == Overwrite(old(out[..]), o, Stream(old(Cur()).(pos := rate), rate, nblocks * rate))
    {
      hide After, Stream, Overwrite;
      KeccakSqueezeBlocks(out, o, nblocks, s, rate);
    }
  }

  // init, any number of absorbs and finalize leave what one absorb_once leaves.
  method AbsorbIncrementally(r: nat, chunks: seq<seq<byte>>) returns (st: KeccakState)
    requires IsRate(r)
    ensures st.Valid() && fresh(st) && st.rate == r && st.Cur() == Absorbed(r, Concat(chunks), SHAKE_DOMAIN)
  {
    hide Absorb, Finalized;
    st := new KeccakState(r);
    st.Init();
    AbsorbNothing(r);
    for i := 0 to |chunks|
      invariant st.Valid() && fresh(st) && fresh(st.s) && st.rate == r && st.pos < r
      invariant st.Cur() == Absorb(Cursor(Initial(), 0), r, Concat(chunks[..i]))
    {
      AbsorbSplits(Cursor(Initial(), 0), r, Concat(chunks[..i]), chunks[i]);
      st.Update(chunks[i]);
      assert chunks[..i + 1][..i] == chunks[..i];
    }
    assert chunks[..|chunks|] == chunks;
    st.Finalize();
  }

  lemma AbsorbNothing(r: nat)
    requires IsRate(r)
    ensures Absorb(Cursor(Initial(), 0), r, Concat([])) == Cursor(Initial(), 0)
  {
  }

  function Concat(chunks: seq<seq<byte>>): seq<byte> {
    if chunks == [] then [] else Concat(chunks[..|chunks| - 1]) + chunks[|chunks| - 1]
  }

  // shake128 and shake256: blocks first, then the rest.
  method Shake(r: nat, out: array<byte>, o: nat, outlen: nat, x: seq<byte>)
    requires IsRate(r) && o + outlen <= out.Length
    modifies out
    ensures out[..] == Overwrite(old(out[..]), o, Output(r, x, SHAKE_DOMAIN, outlen))
  {
    hide Overwrite, Stream, After, Absorbed;
    var st := new KeccakState(r);
    st.AbsorbOnce(x);
    ghost var c, was := st.Cur(), out[..];
    var nblocks := outlen / r;
    Euclid(outlen, r);
    var m := nblocks * r;
    st.SqueezeBlocks(out, o, nblocks);
    StreamSplits(c, r, m, outlen - m);
    Append(was, o, Stream(c, r, m), Stream(After(c, r, m), r, outlen - m));
    st.Squeeze(out, o + m, outlen - m);
  }

  // sha3_256 and sha3_512: one more permutation and the first words of the state.
  method Sha3(r: nat, h: array<byte>, n: nat, x: seq<byte>)
    requires IsRate(r) && 0 < 8 * n <= r && h.Length == 8 * n
    modifies h
    ensures h[..] == Output(r, x, SHA3_DOMAIN, 8 * n)
  {
    hide Overwrite, Stream, After, Permute, StateBytes, Absorb, Finalized;
    var s := new Word[25](_ => Word(0));
    KeccakAbsorbOnce(s, r, x, SHA3_DOMAIN);
    ghost var was := h[..];
    StatePermute(s);
    StoreBlock(h, 0, s, n);
    WithinBlock(Absorbed(r, x, SHA3_DOMAIN), r, 8 * n);
    WholeBuffer(was, StateBytes(s[..], 0, 8 * n));
  }

  lemma WholeBuffer(s: seq<byte>, x: seq<byte>)
    requires |s| == |x|
    ensures Overwrite(s, 0, x) == x
  {
  }
}
