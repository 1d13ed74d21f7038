// Uniform polynomials by rejection from a byte stream (rej_uniform and
// gen_matrix in components/indcpa/indcpa.c).
module Sampling {
  import opened Reduce
  import opened RingQ
  import opened Packing

  // The two twelve-bit candidates of a group of three bytes.
  function Candidate(s: seq<byte>, j: nat): (v: nat)
    requires |s| == 3 && j < 2
    ensures v < 4096
  {
    Value12(UnpackBlock(12, s)[j])
  }

  function Keep(v: nat): (r: seq<int>)
    ensures |r| <= 1 && forall i :: 0 <= i < |r| ==> 0 <= r[i] < Q
  {
    if v < Q then [v] else []
  }

  // All candidates below Q in the complete groups of s, in order.
  function Accepted(s: seq<byte>): (r: seq<int>)
    ensures forall i :: 0 <= i < |r| ==> 0 <= r[i] < Q
  {
    if |s| < 3 then [] else Keep(Candidate(s[..3], 0)) + Keep(Candidate(s[..3], 1)) + Accepted(s[3..])
  }

  function Take(r: seq<int>, n: nat): seq<int> {
    if |r| <= n then r else r[..n]
  }

  lemma {:induction false} AcceptedConcat(a: seq<byte>, b: seq<byte>)
    requires |a| % 3 == 0
    ensures Accepted(a + b) == Accepted(a) + Accepted(b)
  {
    hide Keep, Candidate;
    if a == [] {
      assert a + b == b;
    } else {
      assert (a + b)[..3] == a[..3] && (a + b)[3..] == a[3..] + b;
      AcceptedConcat(a[3..], b);
    }
  }

  // Bytes beyond the last complete group do not matter yet.
  lemma AcceptedPartial(s: seq<byte>, pos: nat)
    requires pos % 3 == 0 && pos <= |s| < pos + 3
    ensures Accepted(s) == Accepted(s[..pos])
  {
    AcceptedConcat(s[..pos], s[pos..]);
    assert s == s[..pos] + s[pos..];
  }

  lemma AcceptedGroup(s: seq<byte>, pos: nat)
    requires pos % 3 == 0 && pos + 3 <= |s|
    ensures Accepted(s[..pos + 3]) ==
            Accepted(s[..pos]) + Keep(Candidate(s[pos..pos + 3], 0)) + Keep(Candidate(s[pos..pos + 3], 1))
  {
    hide Keep, Candidate;
    var g := s[pos..pos + 3];
    AcceptedConcat(s[..pos], g);
    assert s[..pos + 3] == s[..pos] + g;
    assert g[..3] == g && Accepted(g[3..]) == [];
  }

  lemma AcceptedPrefix(s: seq<byte>, pos: nat)
    requires pos % 3 == 0 && pos <= |s|
    ensures Accepted(s[..pos]) <= Accepted(s)
  {
    AcceptedConcat(s[..pos], s[pos..]);
    assert s == s[..pos] + s[pos..];
  }

  // if (ctr < len && v < Q) r[ctr++] = v
  method Store(r: array<int16>, o: nat, ctr: nat, len: nat, v: nat) returns (next: nat)
    requires ctr <= len && o + len <= r.Length && v < 4096
    modifies r
    ensures ctr <= next <= len && r[o..o + next] == Take(old(r[o..o + ctr]) + Keep(v), len)
    ensures forall i :: 0 <= i < o ==> r[i] == old(r[i])
  {
    next := ctr;
    if ctr < len && v < Q {
      r[o + ctr] := v;
      next := ctr + 1;
    }
  }

  lemma TakeMore(a: seq<int>, b: seq<int>, len: nat)
    ensures Take(Take(a, len) + b, len) == Take(a + b, len)
  {
  }

  lemma TakeAll(a: seq<int>, b: seq<int>, len: nat)
    requires a <= b && len <= |a|
    ensures Take(a, len) == Take(b, len)
  {
  }

  // Fills r from position o with at most len accepted values of buf.
  method RejUniform(r: array<int16>, o: nat, len: nat, buf: seq<byte>) returns (ctr: nat)
    requires o + len <= r.Length
    modifies r
    ensures ctr <= len && r[o..o + ctr] == Take(Accepted(buf), len)
    ensures forall i :: 0 <= i < o ==> r[i] == old(r[i])
  {
    hide Candidate, Accepted, Keep, Take;
    ctr := 0;
    var pos := 0;
    Nothing(buf, len);
    while ctr < len && pos + 3 <= |buf|
      invariant 0 <= ctr <= len && pos <= |buf| && pos % 3 == 0
      invariant r[o..o + ctr] == Take(Accepted(buf[..pos]), len)
      invariant forall i :: 0 <= i < o ==> r[i] == old(r[i])
      decreases |buf| - pos
    {
      ghost var was := Accepted(buf[..pos]);
      AcceptedGroup(buf, pos);
      var val0 := Candidate(buf[pos..pos + 3], 0);
      var val1 := Candidate(buf[pos..pos + 3], 1);
      pos := pos + 3;
      TakeMore(was, Keep(val0), len);
      TakeMore(was + Keep(val0), Keep(val1), len);
      ctr := Store(r, o, ctr, len, val0);
      ctr := Store(r, o, ctr, len, val1);
    }
    if pos + 3 > |buf| {
      AcceptedPartial(buf, pos);
    } else {
      AcceptedPrefix(buf, pos);
      TakeLength(Accepted(buf[..pos]), len);
      TakeAll(Accepted(buf[..pos]), Accepted(buf), len);
    }
  }

  lemma Nothing(buf: seq<byte>, len: nat)
    ensures Take(Accepted(buf[..0]), len) == []
  {
  }

  lemma TakeLength(a: seq<int>, len: nat)
    ensures |Take(a, len)| == if |a| <= len then |a| else len
  {
  }

  // ----- the whole stream

  function Prefix(stream: nat -> byte, n: nat): (s: seq<byte>)
    ensures |s| == n
  {
    seq(n, i requires 0 <= i < n => stream(i))
  }

  // The first n bytes hold enough values for a polynomial.
  ghost predicate Enough(stream: nat -> byte, n: nat) {
    |Accepted(Prefix(stream, n))| >= N
  }

  ghost predicate Productive(stream: nat -> byte) {
    exists n: nat :: Enough(stream, n)
  }

  // The first 256 accepted values of the stream.
  ghost function Uniform(stream: nat -> byte): (p: seq<int>)
    requires Productive(stream)
    ensures |p| == N
  {
    var n: nat :| Enough(stream, n);
    Accepted(Prefix(stream, n))[..N]
  }

  lemma {:induction false} AcceptedMonotone(s: seq<byte>, t: seq<byte>)
    requires s <= t
    ensures Accepted(s) <= Accepted(t)
  {
    hide Keep, Candidate;
    if |s| >= 3 {
      assert s[..3] == t[..3];
      AcceptedMonotone(s[3..], t[3..]);
    }
  }

  // However much of the stream was looked at.
  lemma UniformIsPrefix(stream: nat -> byte, n: nat)
    requires Enough(stream, n)
    ensures Productive(stream) && Uniform(stream) == Accepted(Prefix(stream, n))[..N]
  {
    hide Accepted;
    var m: nat :| Enough(stream, m) && Uniform(stream) == Accepted(Prefix(stream, m))[..N];
    if m <= n {
      AcceptedMonotone(Prefix(stream, m), Prefix(stream, n));
    } else {
      AcceptedMonotone(Prefix(stream, n), Prefix(stream, m));
    }
  }

  // ----- reading the stream block by block

  lemma TakeAppend(r: seq<int>, a: seq<int>, b: seq<int>, t: seq<int>, n: nat)
    requires r == Take(a, n) && |r| < n && t == Take(b, n - |r|)
    ensures r + t == Take(a + b, n)
  {
  }

  // Moving the incomplete group to the front of the buffer and adding a block.
  lemma CarryOver(s: seq<byte>, c: nat, off: nat, block: seq<byte>)
    requires c % 3 == 0 && c + off == |s| && off < 3
    ensures s + block == s[..c] + (s[c..] + block)
    ensures Accepted(s + block) == Accepted(s) + Accepted(s[c..] + block)
  {
    hide Accepted;
    assert s + block == s[..c] + (s[c..] + block);
    AcceptedConcat(s[..c], s[c..] + block);
    AcceptedPartial(s, c);
  }

  // The buffer holds the end of what has been read, from a group boundary on.
  predicate Tail(s: seq<byte>, buf: seq<byte>) {
    |buf| <= |s| && (|s| - |buf|) % 3 == 0 && buf == s[|s| - |buf|..]
  }

  lemma Refill(s: seq<byte>, buf: seq<byte>, next: seq<byte>)
    requires Tail(s, buf)
    ensures var buf' := buf[|buf| - |buf| % 3..] + next; Tail(s + next, buf') && Accepted(s + next) == Accepted(s) + Accepted(buf')
  {
    hide Accepted;
    var off := |buf| % 3;
    assert buf[|buf| - off..] == s[|s| - off..];
    CarryOver(s, |s| - off, off, next);
  }

  lemma NotEnoughYet(stream: nat -> byte, pos: nat, n: nat)
    requires Enough(stream, n) && |Accepted(Prefix(stream, pos))| < N
    ensures pos < n
  {
    hide Accepted;
    if n <= pos {
      AcceptedMonotone(Prefix(stream, n), Prefix(stream, pos));
    }
  }

  lemma WholeTail(s: seq<byte>)
    ensures Tail(s, s)
  {
  }

  lemma EnoughMeans(stream: nat -> byte, n: nat)
    requires Enough(stream, n)
    ensures |Accepted(Prefix(stream, n))| >= N
  {
  }

  lemma Complete(stream: nat -> byte, pos: nat, r: seq<int>)
    requires |r| == N && r == Take(Accepted(Prefix(stream, pos)), N)
    ensures Productive(stream) && r == Uniform(stream)
  {
    hide Accepted, Prefix, Uniform;
    UniformIsPrefix(stream, pos);
  }
}
