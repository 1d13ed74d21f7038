// gen_matrix with the output of SHAKE128, read block by block into a small buffer
// (components/indcpa/indcpa.c:156-203, components/symmetric/symmetric-shake.c:18-30).
module MatrixSampling {
  import opened Reduce
  import opened RingQ
  import opened Packing
  import opened Buffers
  import opened Sampling
  import opened Sponge
  import opened Fips202

  // The conversion to uint8_t.
  function Low8(n: nat): byte {
    (n % 256) as byte
  }

  // What kyber_shake128_absorb absorbs, at any rate.
  function Absorbing(rate: nat, seed: seq<byte>, x: nat, y: nat): (c: Cursor)
    requires IsRate(rate)
    ensures c.pos == rate
  {
    Absorbed(rate, seed + [Low8(x), Low8(y)], SHAKE_DOMAIN)
  }

  // The output for a seed and two bytes.
  function XofStream(rate: nat, seed: seq<byte>, x: nat, y: nat): nat -> byte
    requires IsRate(rate)
  {
    (n: nat) => StreamByte(Absorbing(rate, seed, x, y), rate, n)
  }

  lemma BlocksReadStream(rate: nat, seed: seq<byte>, x: nat, y: nat, n: nat)
    requires IsRate(rate)
    ensures Stream(Absorbing(rate, seed, x, y), rate, n) == Prefix(XofStream(rate, seed, x, y), n)
  {
    hide StreamByte, Absorbed;
  }

  // ----- xof_squeezeblocks

  // Whole blocks, after pos bytes of the stream of c; next is what they hold.
  method SqueezeNext(buf: array<byte>, o: nat, nblocks: nat, state: KeccakState, ghost c: Cursor, ghost pos: nat)
    returns (ghost next: seq<byte>)
    requires state.Valid() && state.pos == state.rate && c.pos == state.rate && state.Cur() == After(c, state.rate, pos)
    requires Apart(state.s, buf) && Apart(state, buf) && o + nblocks * state.rate <= buf.Length
    modifies state, state.s, buf
    ensures state.Valid() && state.pos == state.rate && state.Cur() == After(c, state.rate, pos + nblocks * state.rate)
    ensures |next| == nblocks * state.rate && buf[..] == Overwrite(old(buf[..]), o, next)
    ensures Stream(c, state.rate, pos + nblocks * state.rate) == Stream(c, state.rate, pos) + next
  {
    hide After, Stream, Overwrite, StreamByte;
    next := Stream(state.Cur(), state.rate, nblocks * state.rate);
    StreamSplits(c, state.rate, pos, nblocks * state.rate);
    state.SqueezeBlocks(buf, o, nblocks);
  }

  // for (k = 0; k < off; k++) buf[k] = buf[buflen - off + k]
  method CarryBytes(buf: array<byte>, buflen: nat, off: nat)
    requires 2 * off <= buflen <= buf.Length
    modifies buf
    ensures buf[..off] == old(buf[buflen - off..buflen])
  {
    var k := 0;
    while k < off
      invariant 0 <= k <= off
      invariant forall l :: 0 <= l < k ==> buf[l] == old(buf[buflen - off + l])
      invariant forall l :: off <= l < buf.Length ==> buf[l] == old(buf[l])
    {
      buf[k] := buf[buflen - off + k];
      k := k + 1;
    }
  }

  // The next block behind the carried bytes; s is the stream so far.
  method RefillBuffer(buf: array<byte>, buflen: nat, state: KeccakState, ghost c: Cursor, ghost pos: nat) returns (len: nat, ghost next: seq<byte>)
    requires state.Valid() && state.pos == state.rate && c.pos == state.rate && state.Cur() == After(c, state.rate, pos)
    requires Apart(state.s, buf) && Apart(state, buf) && state.rate <= buflen <= buf.Length && state.rate + 2 <= buf.Length
    modifies state, state.s, buf
    ensures state.Valid() && state.pos == state.rate && state.Cur() == After(c, state.rate, pos + state.rate)
    ensures state.rate <= len <= buf.Length && |next| == state.rate
    ensures buf[..len] == old(buf[buflen - buflen % 3..buflen]) + next
    ensures Stream(c, state.rate, pos + state.rate) == Stream(c, state.rate, pos) + next
  {
    hide After, Stream, Overwrite;
    var off := buflen % 3;
    CarryBytes(buf, buflen, off);
    ghost var mid := buf[..];
    next := SqueezeNext(buf, off, 1, state, c, pos);
    len := off + state.rate;
    FrontAndBlock(mid, off, next);
  }

  lemma FrontAndBlock(mid: seq<byte>, off: nat, next: seq<byte>)
    requires off + |next| <= |mid|
    ensures Overwrite(mid, off, next)[..off + |next|] == mid[..off] + next
  {
  }

  // ----- one entry of the matrix

  // kyber_shake128_absorb, and the first blocks; c is the state they are read from.
  method FirstBlocks(buf: array<byte>, state: KeccakState, nblocks: nat, seed: seq<byte>, x: nat, y: nat)
    returns (buflen: nat, ghost c: Cursor, ghost first: seq<byte>)
    requires state.Valid() && nblocks > 0 && buf.Length == nblocks * state.rate + 2
    requires Apart(state.s, buf) && Apart(state, buf)
    modifies buf, state, state.s
    ensures c == Absorbing(state.rate, seed, x, y) && state.rate <= buflen <= buf.Length && buflen == nblocks * state.rate
    ensures state.Valid() && state.pos == state.rate && state.Cur() == After(c, state.rate, buflen)
    ensures buf[..buflen] == first == Stream(c, state.rate, buflen)
  {
    hide After, Stream, Overwrite, Absorbed;
    c := Absorbing(state.rate, seed, x, y);
    state.AbsorbOnce(seed + [Low8(x), Low8(y)]);
    AfterNothing(c, state.rate);
    ghost var was := buf[..];
    buflen := nblocks * state.rate;
    AtLeastOne(nblocks, state.rate);
    first := SqueezeNext(buf, 0, nblocks, state, c, 0);
    FrontAndBlock(was, 0, first);
  }

  lemma AfterNothing(c: Cursor, r: nat)
    requires IsRate(r) && c.pos <= r
    ensures After(c, r, 0) == c && Stream(c, r, 0) == []
  {
  }

  lemma AtLeastOne(n: nat, r: nat)
    requires n > 0
    ensures n * r >= r
  {
  }

  // The first 256 values below q of the stream, whatever the rate is, however many
  // blocks are read at first and however many bytes are carried over.
  method GenPoly(r: array<int16>, buf: array<byte>, state: KeccakState, nblocks: nat, seed: seq<byte>, x: nat, y: nat)
    requires r.Length == N && state.Valid() && nblocks > 0 && buf.Length == nblocks * state.rate + 2
    requires Apart(r, buf) && Apart(r, state) && Apart(r, state.s) && Apart(state.s, buf) && Apart(state, buf)
    requires Productive(XofStream(state.rate, seed, x, y))
    modifies r, buf, state, state.s
    ensures state.Valid() && r[..] == Uniform(XofStream(state.rate, seed, x, y))
  {
    hide Accepted, Take, Prefix, Uniform, Enough, Tail, After, Stream, Absorbing, XofStream;
    ghost var f := XofStream(state.rate, seed, x, y);
    ghost var n: nat :| Enough(f, n);
    var buflen;
    ghost var c, s;
    buflen, c, s := FirstBlocks(buf, state, nblocks, seed, x, y);
    ghost var pos := buflen;
    BlocksReadStream(state.rate, seed, x, y, pos);
    WholeTail(s);
    var ctr := RejUniform(r, 0, N, buf[..buflen]);
    while ctr < N
      invariant state.Valid() && state.pos == state.rate && state.Cur() == After(c, state.rate, pos)
      invariant state.rate <= buflen <= buf.Length && 0 <= ctr <= N
      invariant s == Stream(c, state.rate, pos) == Prefix(f, pos) && Tail(s, buf[..buflen])
      invariant r[..ctr] == Take(Accepted(s), N)
      decreases n - pos
    {
      TakeLength(Accepted(s), N);
      assert |r[..ctr]| == ctr;
      EnoughMeans(f, n);
      NotEnoughYet(f, pos, n);
      ghost var was, done, next := buf[..buflen], r[..ctr], [];
      buflen, next := RefillBuffer(buf, buflen, state, c, pos);
      Refill(s, was, next);
      var more := RejUniform(r, ctr, N - ctr, buf[..buflen]);
      assert r[..ctr + more] == done + r[ctr..ctr + more];
      TakeAppend(done, Accepted(s), Accepted(buf[..buflen]), r[ctr..ctr + more], N);
      ctr, pos, s := ctr + more, pos + state.rate, s + next;
      BlocksReadStream(state.rate, seed, x, y, pos);
    }
    assert r[..ctr] == r[..];
    Complete(f, pos, r[..]);
  }

  // ----- the matrix

  const XOF_BLOCKBYTES := SHAKE128_RATE
  const GEN_MATRIX_NBLOCKS := (12 * N / 8 * 4096 / Q + XOF_BLOCKBYTES) / XOF_BLOCKBYTES

  ghost predicate AllProductive(seed: seq<byte>, k: nat) {
    forall i: nat, j: nat :: i < k && j < k ==> Productive(XofStream(XOF_BLOCKBYTES, seed, i, j))
  }

  // The matrix A; entry (i, j) absorbs the column before the row.  The loop of gen_a
  // ends when every stream has enough values below q; the matrix is taken to be zero
  // for a seed where one has not.
  ghost function Matrix(seed: seq<byte>, k: nat): (a: seq<seq<seq<int16>>>)
    ensures |a| == k && forall i :: 0 <= i < k ==> |a[i]| == k
  {
    seq(k, i requires 0 <= i < k => seq(k, j requires 0 <= j < k => MatrixEntry(seed, k, i, j)))
  }

  ghost function MatrixEntry(seed: seq<byte>, k: nat, i: nat, j: nat): (p: seq<int16>)
    requires i < k && j < k
    ensures |p| == N && forall l :: 0 <= l < N ==> 0 <= p[l] < Q
  {
    if AllProductive(seed, k) then UniformPoly(XofStream(XOF_BLOCKBYTES, seed, j, i)) else ZeroPoly()
  }

  function ZeroPoly(): (p: seq<int16>)
    ensures |p| == N && forall l :: 0 <= l < N ==> p[l] == 0
  {
    seq(N, n => 0)
  }

  ghost function UniformPoly(f: nat -> byte): (p: seq<int16>)
    requires Productive(f)
    ensures p == Uniform(f) && |p| == N && forall l :: 0 <= l < N ==> 0 <= p[l] < Q
  {
    UniformRange(f);
    Uniform(f)
  }

  lemma UniformRange(f: nat -> byte)
    requires Productive(f)
    ensures forall i :: 0 <= i < N ==> 0 <= Uniform(f)[i] < Q
  {
    hide Accepted;
    var n: nat :| Enough(f, n);
    UniformIsPrefix(f, n);
  }

  // gen_a, and gen_at with transposed: the exact transpose.
  method GenMatrix(seed: seq<byte>, k: nat, transposed: bool) returns (a: seq<seq<seq<int16>>>)
    requires AllProductive(seed, k)
    ensures |a| == k && forall i :: 0 <= i < k ==> |a[i]| == k
    ensures forall i, j :: 0 <= i < k && 0 <= j < k ==> a[i][j] == if transposed then Matrix(seed, k)[j][i] else Matrix(seed, k)[i][j]
  {
    hide Uniform, Productive, XofStream, MatrixEntry;
    var state := new KeccakState(XOF_BLOCKBYTES);
    var buf := new byte[GEN_MATRIX_NBLOCKS * XOF_BLOCKBYTES + 2];
    a := [];
    for i := 0 to k
      invariant state.Valid() && fresh(state) && fresh(state.s) && state.rate == XOF_BLOCKBYTES && Apart(state.s, buf) && Apart(state, buf)
      invariant |a| == i && forall l :: 0 <= l < i ==> |a[l]| == k
      invariant forall l, j :: 0 <= l < i && 0 <= j < k ==> a[l][j] == if transposed then MatrixEntry(seed, k, j, l) else MatrixEntry(seed, k, l, j)
    {
      var row := GenRow(seed, k, i, transposed, buf, state);
      a := a + [row];
    }
  }

  method GenRow(seed: seq<byte>, k: nat, i: nat, transposed: bool, buf: array<byte>, state: KeccakState) returns (row: seq<seq<int16>>)
    requires AllProductive(seed, k) && i < k
    requires state.Valid() && state.rate == XOF_BLOCKBYTES && buf.Length == GEN_MATRIX_NBLOCKS * XOF_BLOCKBYTES + 2
    requires Apart(state.s, buf) && Apart(state, buf)
    modifies buf, state, state.s
    ensures state.Valid() && |row| == k
    ensures forall j :: 0 <= j < k ==> row[j] == if transposed then MatrixEntry(seed, k, j, i) else MatrixEntry(seed, k, i, j)
  {
    hide Uniform, Productive, XofStream;
    row := [];
    for j := 0 to k
      invariant state.Valid() && |row| == j
      invariant forall l :: 0 <= l < j ==> row[l] == if transposed then MatrixEntry(seed, k, l, i) else MatrixEntry(seed, k, i, l)
    {
      var r := new int16[N](_ => 0);
      assert Apart(r, buf) && Apart(r, state) && Apart(r, state.s);
      if transposed {
        GenPoly(r, buf, state, GEN_MATRIX_NBLOCKS, seed, i, j);
      } else {
        GenPoly(r, buf, state, GEN_MATRIX_NBLOCKS, seed, j, i);
      }
      row := row + [r[..]];
    }
  }
}
