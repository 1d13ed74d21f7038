// Bit slices: eight words hold 64 bytes, bit k of every byte in word k
// (components/aes256ctr/aes256ctr.c:243-271).
module AesBits {
  datatype Slices = Slices(q0: bv64, q1: bv64, q2: bv64, q3: bv64, q4: bv64, q5: bv64, q6: bv64, q7: bv64)

  // Bit p of x.
  function Pick(x: bv64, p: bv64): bv8
    requires p < 64
  {
    ((x >> p) & 1) as bv8
  }

  function Join(b0: bv8, b1: bv8, b2: bv8, b3: bv8, b4: bv8, b5: bv8, b6: bv8, b7: bv8): bv8 {
    b0 | (b1 << 1) | (b2 << 2) | (b3 << 3) | (b4 << 4) | (b5 << 5) | (b6 << 6) | (b7 << 7)
  }

  // The byte at place p.
  function Gather(s: Slices, p: bv64): bv8
    requires p < 64
  {
    Join(Pick(s.q0, p), Pick(s.q1, p), Pick(s.q2, p), Pick(s.q3, p), Pick(s.q4, p), Pick(s.q5, p), Pick(s.q6, p), Pick(s.q7, p))
  }

  // Word j & 7.
  function Select(s: Slices, j: bv64): bv64 {
    if j & 4 == 0 then if j & 2 == 0 then if j & 1 == 0 then s.q0 else s.q1 else if j & 1 == 0 then s.q2 else s.q3
    else if j & 2 == 0 then if j & 1 == 0 then s.q4 else s.q5 else if j & 1 == 0 then s.q6 else s.q7
  }

  // Eight bits of x from bit g on.
  function ByteAt(x: bv64, g: bv64): bv8
    requires g < 64
  {
    ((x >> g) & 0xff) as bv8
  }

  // ----- ortho

  // The two results of SWAPN for the distances 1, 2 and 4.
  function Lo1(a: bv64, b: bv64): bv64 {
    (a & 0x5555555555555555) | ((b & 0x5555555555555555) << 1)
  }

  function Hi1(a: bv64, b: bv64): bv64 {
    ((a & 0xAAAAAAAAAAAAAAAA) >> 1) | (b & 0xAAAAAAAAAAAAAAAA)
  }

  function Lo2(a: bv64, b: bv64): bv64 {
    (a & 0x3333333333333333) | ((b & 0x3333333333333333) << 2)
  }

  function Hi2(a: bv64, b: bv64): bv64 {
    ((a & 0xCCCCCCCCCCCCCCCC) >> 2) | (b & 0xCCCCCCCCCCCCCCCC)
  }

  function Lo4(a: bv64, b: bv64): bv64 {
    (a & 0x0F0F0F0F0F0F0F0F) | ((b & 0x0F0F0F0F0F0F0F0F) << 4)
  }

  function Hi4(a: bv64, b: bv64): bv64 {
    ((a & 0xF0F0F0F0F0F0F0F0) >> 4) | (b & 0xF0F0F0F0F0F0F0F0)
  }

  function Swapped1(s: Slices): Slices {
    Slices(Lo1(s.q0, s.q1), Hi1(s.q0, s.q1), Lo1(s.q2, s.q3), Hi1(s.q2, s.q3), Lo1(s.q4, s.q5), Hi1(s.q4, s.q5), Lo1(s.q6, s.q7), Hi1(s.q6, s.q7))
  }

  function Swapped2(s: Slices): Slices {
    Slices(Lo2(s.q0, s.q2), Lo2(s.q1, s.q3), Hi2(s.q0, s.q2), Hi2(s.q1, s.q3), Lo2(s.q4, s.q6), Lo2(s.q5, s.q7), Hi2(s.q4, s.q6), Hi2(s.q5, s.q7))
  }

  function Swapped4(s: Slices): Slices {
    Slices(Lo4(s.q0, s.q4), Lo4(s.q1, s.q5), Lo4(s.q2, s.q6), Lo4(s.q3, s.q7), Hi4(s.q0, s.q4), Hi4(s.q1, s.q5), Hi4(s.q2, s.q6), Hi4(s.q3, s.q7))
  }

  function Ortho(s: Slices): Slices {
    Swapped4(Swapped2(Swapped1(s)))
  }

  // Every swap exchanges one bit of the word's number with one bit of the place.
  lemma PickSwap1(s: Slices, j: bv64, p: bv64)
    requires j < 8 && p < 64
    ensures Pick(Select(Swapped1(s), j), p) == Pick(Select(s, (j & 6) | (p & 1)), (p & 0x3e) | (j & 1))
  {
  }

  lemma PickSwap2(s: Slices, j: bv64, p: bv64)
    requires j < 8 && p < 64
    ensures Pick(Select(Swapped2(s), j), p) == Pick(Select(s, (j & 5) | (p & 2)), (p & 0x3d) | (j & 2))
  {
  }

  lemma PickSwap4(s: Slices, j: bv64, p: bv64)
    requires j < 8 && p < 64
    ensures Pick(Select(Swapped4(s), j), p) == Pick(Select(s, (j & 3) | (p & 4)), (p & 0x3b) | (j & 4))
  {
  }

  lemma Places(j: bv64, p: bv64)
    requires j < 8 && p < 64
    ensures var (j4, p4) := ((j & 3) | (p & 4), (p & 0x3b) | (j & 4));
            var (j2, p2) := ((j4 & 5) | (p4 & 2), (p4 & 0x3d) | (j4 & 2));
            && j4 < 8 && p4 < 64 && j2 < 8 && p2 < 64
            && (j2 & 6) | (p2 & 1) == p & 7 && (p2 & 0x3e) | (j2 & 1) == (p & 0x38) | j
  {
  }

  // Each group of eight places is transposed.
  lemma OrthoTransposes(s: Slices, j: bv64, p: bv64)
    requires j < 8 && p < 64
    ensures (p & 0x38) | j < 64 && Pick(Select(Ortho(s), j), p) == Pick(Select(s, p & 7), (p & 0x38) | j)
  {
    Places(j, p);
    var (j4, p4) := ((j & 3) | (p & 4), (p & 0x3b) | (j & 4));
    var (j2, p2) := ((j4 & 5) | (p4 & 2), (p4 & 0x3d) | (j4 & 2));
    PickSwap4(Swapped2(Swapped1(s)), j, p);
    PickSwap2(Swapped1(s), j4, p4);
    PickSwap1(s, j2, p2);
    hide Pick, Select, Swapped1, Swapped2, Swapped4;
  }

  lemma ByteOfBits(x: bv64, g: bv64)
    requires g < 64 && g & 7 == 0
    ensures g | 7 < 64
    ensures ByteAt(x, g) == Join(Pick(x, g), Pick(x, g | 1), Pick(x, g | 2), Pick(x, g | 3), Pick(x, g | 4), Pick(x, g | 5), Pick(x, g | 6), Pick(x, g | 7))
  {
  }

  lemma SameBytes(x: bv64, y: bv64)
    requires ByteAt(x, 0) == ByteAt(y, 0) && ByteAt(x, 8) == ByteAt(y, 8) && ByteAt(x, 16) == ByteAt(y, 16) && ByteAt(x, 24) == ByteAt(y, 24)
    requires ByteAt(x, 32) == ByteAt(y, 32) && ByteAt(x, 40) == ByteAt(y, 40) && ByteAt(x, 48) == ByteAt(y, 48) && ByteAt(x, 56) == ByteAt(y, 56)
    ensures x == y
  {
  }

  ghost predicate SameBits(x: bv64, y: bv64) {
    forall p: bv64 :: p < 64 ==> Pick(x, p) == Pick(y, p)
  }

  lemma SameByte(x: bv64, y: bv64, g: bv64)
    requires SameBits(x, y) && g < 64 && g & 7 == 0
    ensures ByteAt(x, g) == ByteAt(y, g)
  {
    ByteOfBits(x, g);
    ByteOfBits(y, g);
    Under64(g);
    hide Pick, Join, ByteAt;
  }

  lemma Under64(g: bv64)
    requires g < 64 && g & 7 == 0
    ensures g | 1 < 64 && g | 2 < 64 && g | 3 < 64 && g | 4 < 64 && g | 5 < 64 && g | 6 < 64 && g | 7 < 64
  {
  }

  lemma SameWord(x: bv64, y: bv64)
    requires SameBits(x, y)
    ensures x == y
  {
    SameByte(x, y, 0);
    SameByte(x, y, 8);
    SameByte(x, y, 16);
    SameByte(x, y, 24);
    SameByte(x, y, 32);
    SameByte(x, y, 40);
    SameByte(x, y, 48);
    SameByte(x, y, 56);
    SameBytes(x, y);
  }

  lemma OrthoTwiceAt(s: Slices, j: bv64, p: bv64)
    requires j < 8 && p < 64
    ensures Pick(Select(Ortho(Ortho(s)), j), p) == Pick(Select(s, j), p)
  {
    hide Pick, Ortho;
    OrthoTransposes(Ortho(s), j, p);
    TwicePlaces(s, j, p);
    OrthoTransposes(s, p & 7, (p & 0x38) | j);
  }

  lemma TwicePlaces(s: Slices, j: bv64, p: bv64)
    requires j < 8 && p < 64
    ensures p & 7 < 8 && (p & 0x38) | j < 64
    ensures Select(s, (p & 0x38) | j) == Select(s, j) && (((p & 0x38) | j) & 0x38) | (p & 7) == p
    ensures ((p & 0x38) | j) & 7 == j
  {
  }

  // ortho undoes itself.
  lemma OrthoInvolution(s: Slices)
    ensures Ortho(Ortho(s)) == s
  {
    hide Pick, Ortho;
    forall j: bv64, p: bv64 | j < 8 && p < 64 ensures Pick(Select(Ortho(Ortho(s)), j), p) == Pick(Select(s, j), p) {
      OrthoTwiceAt(s, j, p);
    }
    var t := Ortho(Ortho(s));
    SameWords(s, t);
  }

  lemma SameWords(s: Slices, t: Slices)
    requires forall j: bv64, p: bv64 :: j < 8 && p < 64 ==> Pick(Select(t, j), p) == Pick(Select(s, j), p)
    ensures s == t
  {
    hide Pick;
    SelectAll(s);
    SelectAll(t);
    SameWord(Select(s, 0), Select(t, 0));
    SameWord(Select(s, 1), Select(t, 1));
    SameWord(Select(s, 2), Select(t, 2));
    SameWord(Select(s, 3), Select(t, 3));
    SameWord(Select(s, 4), Select(t, 4));
    SameWord(Select(s, 5), Select(t, 5));
    SameWord(Select(s, 6), Select(t, 6));
    SameWord(Select(s, 7), Select(t, 7));
  }

  lemma SelectAll(s: Slices)
    ensures s == Slices(Select(s, 0), Select(s, 1), Select(s, 2), Select(s, 3), Select(s, 4), Select(s, 5), Select(s, 6), Select(s, 7))
  {
  }

  // After ortho, the byte at place p is a byte of the word p & 7 before.
  lemma GatherOrtho(s: Slices, p: bv64)
    requires p < 64
    ensures Gather(Ortho(s), p) == ByteAt(Select(s, p & 7), p & 0x38)
  {
    hide Pick, Ortho, Join, ByteAt;
    SelectAll(Ortho(s));
    Under64(p & 0x38);
    hide Select;
    OrthoTransposes(s, 0, p);
    OrthoTransposes(s, 1, p);
    OrthoTransposes(s, 2, p);
    OrthoTransposes(s, 3, p);
    OrthoTransposes(s, 4, p);
    OrthoTransposes(s, 5, p);
    OrthoTransposes(s, 6, p);
    OrthoTransposes(s, 7, p);
    ByteOfBits(Select(s, p & 7), p & 0x38);
  }

  // And the other way round.
  lemma ByteAtOrtho(s: Slices, j: bv64, g: bv64)
    requires j < 8 && g < 64 && g & 7 == 0
    ensures g | j < 64 && ByteAt(Select(Ortho(s), j), g) == Gather(s, g | j)
  {
    hide Ortho, Gather, ByteAt;
    PlaceOf(g, j);
    SelectLow(Ortho(s), g, j);
    GatherOrtho(Ortho(s), g | j);
    OrthoInvolution(s);
  }

  lemma PlaceOf(g: bv64, j: bv64)
    requires j < 8 && g < 64 && g & 7 == 0
    ensures g | j < 64 && (g | j) & 7 == j && (g | j) & 0x38 == g
  {
  }

  lemma SelectLow(s: Slices, g: bv64, j: bv64)
    requires j < 8 && g < 64 && g & 7 == 0
    ensures Select(s, (g | j) & 7) == Select(s, j)
  {
  }
}
