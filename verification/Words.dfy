// 64-bit words and their bytes in little-endian order (components/fips202/fips202.c:11,
// 22-40).
module Words {
  import opened Packing
  import opened Bytes

  // The proofs about the permutation only see the names of these operations.
  datatype Word = Word(bits: bv64)

  function BitXor(a: bv64, b: bv64): bv64 {
    a ^ b
  }

  function BitOr(a: bv64, b: bv64): bv64 {
    a | b
  }

  function Xor(a: Word, b: Word): Word {
    Word(BitXor(a.bits, b.bits))
  }

  function And(a: Word, b: Word): Word {
    Word(a.bits & b.bits)
  }

  function Not(a: Word): Word {
    Word(!a.bits)
  }

  // The macro ROL.
  function Rol(a: Word, offset: bv7): Word
    requires 0 < offset < 64
  {
    Word((a.bits << offset) ^ (a.bits >> (64 - offset)))
  }

  // Rotation by n towards the higher bits.
  function Rotated(a: Word, n: bv7): Word
    requires n < 64
  {
    Word((a.bits << n) | (a.bits >> (64 - n)))
  }

  lemma RolIsRotation(a: Word, n: bv7)
    requires 0 < n < 64
    ensures Rol(a, n) == Rotated(a, n)
  {
  }

  lemma NoRotation(a: Word)
    ensures Rotated(a, 0) == a
  {
  }

  // ----- bytes of words

  function ByteOr(a: byte, b: byte): byte {
    a | b
  }

  datatype Octets = Octets(b0: byte, b1: byte, b2: byte, b3: byte, b4: byte, b5: byte, b6: byte, b7: byte)

  function OctetAt(o: Octets, k: nat): byte
    requires k < 8
  {
    match k case 0 => o.b0 case 1 => o.b1 case 2 => o.b2 case 3 => o.b3 case 4 => o.b4 case 5 => o.b5 case 6 => o.b6 case 7 => o.b7
  }

  function XorOctets(x: Octets, y: Octets): Octets {
    Octets(ByteXor(x.b0, y.b0), ByteXor(x.b1, y.b1), ByteXor(x.b2, y.b2), ByteXor(x.b3, y.b3), ByteXor(x.b4, y.b4), ByteXor(x.b5, y.b5), ByteXor(x.b6, y.b6), ByteXor(x.b7, y.b7))
  }

  lemma XorOctetsAt(x: Octets, y: Octets, j: nat)
    requires j < 8
    ensures OctetAt(XorOctets(x, y), j) == ByteXor(OctetAt(x, j), OctetAt(y, j))
  {
    hide ByteXor;
  }

  function OrOctets(x: Octets, y: Octets): Octets {
    Octets(ByteOr(x.b0, y.b0), ByteOr(x.b1, y.b1), ByteOr(x.b2, y.b2), ByteOr(x.b3, y.b3), ByteOr(x.b4, y.b4), ByteOr(x.b5, y.b5), ByteOr(x.b6, y.b6), ByteOr(x.b7, y.b7))
  }

  lemma OrOctetsAt(x: Octets, y: Octets, j: nat)
    requires j < 8
    ensures OctetAt(OrOctets(x, y), j) == ByteOr(OctetAt(x, j), OctetAt(y, j))
  {
    hide ByteOr;
  }

  function Split(a: bv64): Octets {
    Octets((a & 0xff) as byte, ((a >> 8) & 0xff) as byte, ((a >> 16) & 0xff) as byte, ((a >> 24) & 0xff) as byte,
           ((a >> 32) & 0xff) as byte, ((a >> 40) & 0xff) as byte, ((a >> 48) & 0xff) as byte, ((a >> 56) & 0xff) as byte)
  }

  lemma SplitInjective(a: bv64, b: bv64)
    requires Split(a) == Split(b)
    ensures a == b
  {
  }

  lemma SplitXor(a: bv64, b: bv64)
    ensures Split(BitXor(a, b)) == XorOctets(Split(a), Split(b))
  {
  }

  lemma SplitOr(a: bv64, b: bv64)
    ensures Split(BitOr(a, b)) == OrOctets(Split(a), Split(b))
  {
  }

  // b << 8 * k
  function Placed(b: byte, k: nat): bv64
    requires k < 8
  {
    match k
    case 0 => b as bv64
    case 1 => (b as bv64) << 8
    case 2 => (b as bv64) << 16
    case 3 => (b as bv64) << 24
    case 4 => (b as bv64) << 32
    case 5 => (b as bv64) << 40
    case 6 => (b as bv64) << 48
    case 7 => (b as bv64) << 56
  }

  lemma SplitPlaced(b: byte)
    ensures Split(b as bv64) == Octets(b, 0, 0, 0, 0, 0, 0, 0)
    ensures Split((b as bv64) << 8) == Octets(0, b, 0, 0, 0, 0, 0, 0)
    ensures Split((b as bv64) << 16) == Octets(0, 0, b, 0, 0, 0, 0, 0)
    ensures Split((b as bv64) << 24) == Octets(0, 0, 0, b, 0, 0, 0, 0)
    ensures Split((b as bv64) << 32) == Octets(0, 0, 0, 0, b, 0, 0, 0)
    ensures Split((b as bv64) << 40) == Octets(0, 0, 0, 0, 0, b, 0, 0)
    ensures Split((b as bv64) << 48) == Octets(0, 0, 0, 0, 0, 0, b, 0)
    ensures Split((b as bv64) << 56) == Octets(0, 0, 0, 0, 0, 0, 0, b)
  {
  }

  lemma PlacedBytes(b: byte, k: nat, j: nat)
    requires k < 8 && j < 8
    ensures OctetAt(Split(Placed(b, k)), j) == if j == k then b else 0
  {
    hide Split;
    SplitPlaced(b);
  }

  // Byte k of a word.
  function ByteOf(w: Word, k: nat): byte
    requires k < 8
  {
    OctetAt(Split(w.bits), k)
  }

  // w ^= b << 8 * k
  function XorByte(w: Word, k: nat, b: byte): Word
    requires k < 8
  {
    Word(BitXor(w.bits, Placed(b, k)))
  }

  // w |= b << 8 * k
  function OrByte(w: Word, k: nat, b: byte): Word
    requires k < 8
  {
    Word(BitOr(w.bits, Placed(b, k)))
  }

  lemma XorZero(b: byte)
    ensures ByteXor(0, b) == b && ByteXor(b, 0) == b && ByteOr(0, b) == b && ByteOr(b, 0) == b
  {
  }

  lemma XorByteBytes(w: Word, k: nat, b: byte, j: nat)
    requires k < 8 && j < 8
    ensures ByteOf(XorByte(w, k, b), j) == if j == k then ByteXor(ByteOf(w, k), b) else ByteOf(w, j)
  {
    hide Split, BitXor, Placed, ByteXor, XorOctets, OctetAt;
    SplitXor(w.bits, Placed(b, k));
    XorOctetsAt(Split(w.bits), Split(Placed(b, k)), j);
    PlacedBytes(b, k, j);
    XorZero(ByteOf(w, j));
  }

  lemma OrByteBytes(w: Word, k: nat, b: byte, j: nat)
    requires k < 8 && j < 8
    ensures ByteOf(OrByte(w, k, b), j) == if j == k then ByteOr(ByteOf(w, k), b) else ByteOf(w, j)
  {
    hide Split, BitOr, Placed, ByteOr, OrOctets, OctetAt;
    SplitOr(w.bits, Placed(b, k));
    OrOctetsAt(Split(w.bits), Split(Placed(b, k)), j);
    PlacedBytes(b, k, j);
    XorZero(ByteOf(w, j));
  }

  lemma XorBytes(v: Word, w: Word, j: nat)
    requires j < 8
    ensures ByteOf(Xor(v, w), j) == ByteXor(ByteOf(v, j), ByteOf(w, j))
  {
    hide Split, BitXor, ByteXor, XorOctets, OctetAt;
    SplitXor(v.bits, w.bits);
    XorOctetsAt(Split(v.bits), Split(w.bits), j);
  }

  lemma WordExtensional(v: Word, w: Word)
    requires forall j :: 0 <= j < 8 ==> ByteOf(v, j) == ByteOf(w, j)
    ensures v == w
  {
    hide Split;
    assert ByteOf(v, 0) == ByteOf(w, 0) && ByteOf(v, 1) == ByteOf(w, 1) && ByteOf(v, 2) == ByteOf(w, 2) && ByteOf(v, 3) == ByteOf(w, 3);
    assert ByteOf(v, 4) == ByteOf(w, 4) && ByteOf(v, 5) == ByteOf(w, 5) && ByteOf(v, 6) == ByteOf(w, 6) && ByteOf(v, 7) == ByteOf(w, 7);
    SplitInjective(v.bits, w.bits);
  }

  // 1ULL << 63
  lemma TopBit(w: Word)
    ensures Xor(w, Word(0x8000_0000_0000_0000)) == XorByte(w, 7, 0x80)
  {
  }

  // The first i bytes are loaded.
  predicate Loaded(r: Word, x: seq<byte>, o: nat, i: nat)
    requires i <= 8 && o + 8 <= |x|
  {
    forall k :: 0 <= k < 8 ==> ByteOf(r, k) == if k < i then x[o + k] else 0
  }

  lemma NothingLoaded(x: seq<byte>, o: nat)
    requires o + 8 <= |x|
    ensures Loaded(Word(0), x, o, 0)
  {
    assert Split(0) == Octets(0, 0, 0, 0, 0, 0, 0, 0);
  }

  lemma LoadedBytes(r: Word, x: seq<byte>, o: nat, i: nat)
    requires i < 8 && o + 8 <= |x| && Loaded(r, x, o, i)
    ensures Loaded(OrByte(r, i, x[o + i]), x, o, i + 1)
  {
    hide ByteOf, OrByte, ByteOr;
    var w := OrByte(r, i, x[o + i]);
    forall k | 0 <= k < 8
      ensures ByteOf(w, k) == if k < i + 1 then x[o + k] else 0
    {
      OrByteBytes(r, i, x[o + i], k);
      XorZero(x[o + i]);
    }
  }

  // load64
  method Load64(x: seq<byte>, o: nat) returns (r: Word)
    requires o + 8 <= |x|
    ensures forall k :: 0 <= k < 8 ==> ByteOf(r, k) == x[o + k]
  {
    hide ByteOf, OrByte;
    r := Word(0);
    NothingLoaded(x, o);
    for i := 0 to 8
      invariant Loaded(r, x, o, i)
    {
      LoadedBytes(r, x, o, i);
      r := OrByte(r, i, x[o + i]);
    }
  }

  // store64
  method Store64(x: array<byte>, o: nat, u: Word)
    requires o + 8 <= x.Length
    modifies x
    ensures forall i :: o <= i < o + 8 ==> x[i] == ByteOf(u, i - o)
    ensures forall i :: 0 <= i < o || o + 8 <= i < x.Length ==> x[i] == old(x[i])
  {
    hide ByteOf;
    for i := 0 to 8
      invariant forall k :: o <= k < o + i ==> x[k] == ByteOf(u, k - o)
      invariant forall k :: 0 <= k < o || o + i <= k < x.Length ==> x[k] == old(x[k])
    {
      x[o + i] := ByteOf(u, i);
    }
  }
}
