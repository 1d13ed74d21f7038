// Messages as polynomials: one coefficient per bit, 0 or (Q + 1) / 2
// (poly_frommsg and poly_tomsg in components/poly/poly.c).
module Message {
  import opened Reduce
  import opened PolyRing
  import opened NttSpec
  import opened RingQ
  import opened Poly
  import opened Packing
  import opened Codec

  const MSG_BYTES := 32

  function BitMask(j: nat): byte
    requires j < 8
  {
    match j
    case 0 => 0x01 case 1 => 0x02 case 2 => 0x04 case 3 => 0x08
    case 4 => 0x10 case 5 => 0x20 case 6 => 0x40 case _ => 0x80
  }

  predicate Bit(b: byte, j: nat)
    requires j < 8
  {
    b & BitMask(j) != 0
  }

  // Two bytes with the same bits are the same.
  lemma ByteExtensional(a: byte, b: byte)
    requires forall j :: 0 <= j < 8 ==> Bit(a, j) == Bit(b, j)
    ensures a == b
  {
    assert Bit(a, 0) == Bit(b, 0) && Bit(a, 1) == Bit(b, 1) && Bit(a, 2) == Bit(b, 2) && Bit(a, 3) == Bit(b, 3);
    assert Bit(a, 4) == Bit(b, 4) && Bit(a, 5) == Bit(b, 5) && Bit(a, 6) == Bit(b, 6) && Bit(a, 7) == Bit(b, 7);
  }

  lemma SetBit(b: byte, j: nat, i: nat)
    requires j < 8 && i < 8
    ensures Bit(b | BitMask(j), i) == (i == j || Bit(b, i))
  {
  }

  // ----- encoding

  function MsgBitOf(msg: seq<byte>, i: nat): bool
    requires |msg| == MSG_BYTES && i < N
  {
    Bit(msg[i / 8], i % 8)
  }

  function FromMsg(msg: seq<byte>): (p: Vec)
    requires |msg| == MSG_BYTES
    ensures IsPoly(p)
  {
    seq(N, i requires 0 <= i < N => if MsgBitOf(msg, i) then (Q + 1) / 2 else 0)
  }

  method PolyFromMsg(r: array<int16>, msg: seq<byte>)
    requires r.Length == N && |msg| == MSG_BYTES
    modifies r
    ensures r[..] == FromMsg(msg)
  {
    hide Bit;
    var i := 0;
    while i < N / 8
      invariant 0 <= i <= N / 8
      invariant forall l :: 0 <= l < 8 * i ==> r[l] == if MsgBitOf(msg, l) then (Q + 1) / 2 else 0
    {
      var j := 0;
      while j < 8
        invariant 0 <= j <= 8
        invariant forall l :: 0 <= l < 8 * i + j ==> r[l] == if MsgBitOf(msg, l) then (Q + 1) / 2 else 0
      {
        assert (8 * i + j) / 8 == i && (8 * i + j) % 8 == j;
        r[8 * i + j] := if Bit(msg[i], j) then (Q + 1) / 2 else 0;
        j := j + 1;
      }
      i := i + 1;
    }
  }

  // ----- decoding

  // The bit a coefficient rounds to: 1 when it is nearer Q / 2 than 0.
  predicate RoundsToOne(x: int)
    requires -Q < x < Q
  {
    (2 * Positive(x) + Q / 2) / Q % 2 == 1
  }

  // Byte i of the message after its first j bits were or-ed in.
  function ByteSoFar(p: Vec, i: nat, j: nat): byte
    requires Reduced(p) && i < MSG_BYTES && j <= 8
  {
    if j == 0 then 0
    else if RoundsToOne(p[8 * i + j - 1]) then ByteSoFar(p, i, j - 1) | BitMask(j - 1)
    else ByteSoFar(p, i, j - 1)
  }

  function ToMsg(p: Vec): (m: seq<byte>)
    requires Reduced(p)
    ensures |m| == MSG_BYTES
  {
    seq(MSG_BYTES, i requires 0 <= i < MSG_BYTES => ByteSoFar(p, i, 8))
  }

  method PolyToMsg(msg: array<byte>, a: seq<int16>)
    requires msg.Length == MSG_BYTES && Reduced(a)
    modifies msg
    ensures msg[..] == ToMsg(a)
  {
    hide RoundsToOne, Reduced, BitMask;
    ReducedMeans(a);
    var i := 0;
    while i < N / 8
      invariant 0 <= i <= N / 8
      invariant forall k :: 0 <= k < i ==> msg[k] == ByteSoFar(a, k, 8)
    {
      msg[i] := 0;
      var j := 0;
      while j < 8
        invariant 0 <= j <= 8
        invariant msg[i] == ByteSoFar(a, i, j)
        invariant forall k :: 0 <= k < i ==> msg[k] == ByteSoFar(a, k, 8)
      {
        if RoundsToOne(a[8 * i + j]) {
          msg[i] := msg[i] | BitMask(j);
        }
        j := j + 1;
      }
      i := i + 1;
    }
  }

  lemma ReducedMeans(p: Vec)
    requires Reduced(p)
    ensures IsPoly(p) && forall i :: 0 <= i < N ==> -Q < p[i] < Q
  {
  }

  ghost predicate DecodesTo(p: Vec, msg: seq<byte>)
    requires Reduced(p)
  {
    |msg| == MSG_BYTES && forall i :: 0 <= i < N ==> MsgBitOf(msg, i) == RoundsToOne(p[i])
  }

  lemma {:induction false} ByteBits(p: Vec, i: nat, j: nat, l: nat)
    requires Reduced(p) && i < MSG_BYTES && j <= 8 && l < 8
    ensures Bit(ByteSoFar(p, i, j), l) == (l < j && RoundsToOne(p[8 * i + l]))
  {
    hide RoundsToOne, Bit, BitMask;
    if j == 0 {
      ZeroByte(l);
    } else {
      ByteBits(p, i, j - 1, l);
      SetBit(ByteSoFar(p, i, j - 1), j - 1, l);
    }
  }

  lemma ZeroByte(l: nat)
    requires l < 8
    ensures !Bit(0, l)
  {
  }

  // Every bit of the message is the rounding of its coefficient.
  lemma ToMsgDecodes(p: Vec)
    requires Reduced(p)
    ensures DecodesTo(p, ToMsg(p))
  {
    hide RoundsToOne, Bit;
    forall l | 0 <= l < N
      ensures MsgBitOf(ToMsg(p), l) == RoundsToOne(p[l])
    {
      ByteBits(p, l / 8, 8, l % 8);
      assert 8 * (l / 8) + l % 8 == l;
    }
  }

  // A polynomial decodes to one message only.
  lemma DecodesToOne(p: Vec, m: seq<byte>, m': seq<byte>)
    requires Reduced(p) && DecodesTo(p, m) && DecodesTo(p, m')
    ensures m == m'
  {
    hide Bit, RoundsToOne;
    forall k | 0 <= k < MSG_BYTES
      ensures m[k] == m'[k]
    {
      forall j | 0 <= j < 8
        ensures Bit(m[k], j) == Bit(m'[k], j)
      {
        assert (8 * k + j) / 8 == k && (8 * k + j) % 8 == j;
        assert MsgBitOf(m, 8 * k + j) == MsgBitOf(m', 8 * k + j);
      }
      ByteExtensional(m[k], m'[k]);
    }
  }

  // ----- how much noise a message bit survives

  // The exact tolerance: one less upwards on a 1 than on a 0.
  predicate Tolerable(w: int, bit: bool) {
    -832 <= Centred(w) <= if bit then 831 else 832
  }

  lemma BitSurvives(w: int, bit: bool)
    ensures RoundsToOne(Centred((if bit then (Q + 1) / 2 else 0) + w)) == bit <==> Tolerable(w, bit)
  {
    var x := Centred((if bit then (Q + 1) / 2 else 0) + w);
    OneMeansMiddle(x);
    if bit {
      ShiftedCentre(w);
    }
  }

  lemma OneMeansMiddle(x: int)
    requires -Q < x < Q
    ensures RoundsToOne(x) <==> 833 <= Positive(x) <= 2496
  {
  }

  lemma ShiftedCentre(w: int)
    ensures 833 <= Positive(Centred((Q + 1) / 2 + w)) <= 2496 <==> -832 <= Centred(w) <= 831
  {
    var c := Centred(w);
    var x := if c < 0 then (Q + 1) / 2 + c else (Q + 1) / 2 + c - Q;
    ShiftedCong(w, c, x);
    CentredUnique((Q + 1) / 2 + w, x);
  }

  lemma ShiftedCong(w: int, c: int, x: int)
    requires Cong(c, w) && (x == (Q + 1) / 2 + c || x == (Q + 1) / 2 + c - Q)
    ensures Cong(x, (Q + 1) / 2 + w)
  {
    hide Residue;
    CongAdd((Q + 1) / 2, (Q + 1) / 2, c, w);
    CongMultiple((Q + 1) / 2 + c, -1);
  }

  // A noisy encoding decodes to the message exactly when every coefficient of
  // the noise is tolerable for its bit.
  lemma NoisyMessage(msg: seq<byte>, w: Vec, p: Vec)
    requires |msg| == MSG_BYTES && IsPoly(w) && p == Centre(AddQ(FromMsg(msg), w)) && Reduced(p)
    ensures ToMsg(p) == msg <==> forall i :: 0 <= i < N ==> Tolerable(w[i], MsgBitOf(msg, i))
  {
    hide Bit, RoundsToOne, Tolerable, Centred, Residue, ToMsg;
    ToMsgDecodes(p);
    forall i | 0 <= i < N
      ensures RoundsToOne(p[i]) == MsgBitOf(msg, i) <==> Tolerable(w[i], MsgBitOf(msg, i))
    {
      BitSurvives(w[i], MsgBitOf(msg, i));
      var x := FromMsg(msg)[i] + w[i];
      CentredResidue(x);
    }
    if forall i :: 0 <= i < N ==> RoundsToOne(p[i]) == MsgBitOf(msg, i) {
      DecodesToOne(p, ToMsg(p), msg);
    }
  }

  lemma CentredResidue(x: int)
    ensures Centred(Residue(x)) == Centred(x)
  {
  }
}
