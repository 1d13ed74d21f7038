// AES-256 on blocks of 16 bytes, the byte of row r and column c at r + 4 * c
// (FIPS 197, sections 5.1 and 5.2).
module Aes {
  import opened AesField
  import opened AesSbox
  import opened Bytes

  type Block = s: seq<bv8> | |s| == 16 witness seq(16, _ => 0)
  type KeyWord = s: seq<bv8> | |s| == 4 witness [0, 0, 0, 0]

  function SubBytes(s: Block): (t: Block) {
    seq(16, n requires 0 <= n < 16 => Sbox(s[n]))
  }

  // Row r moves r columns to the left.
  function ShiftedFrom(n: nat): (m: nat)
    requires n < 16
    ensures m < 16
  {
    n % 4 + 4 * ((n / 4 + n % 4) % 4)
  }

  function ShiftRows(s: Block): (t: Block) {
    seq(16, n requires 0 <= n < 16 => s[ShiftedFrom(n)])
  }

  // The byte k rows below in the same column.
  function Below(n: nat, k: nat): (m: nat)
    requires n < 16
    ensures m < 16
  {
    n / 4 * 4 + (n % 4 + k) % 4
  }

  // 2 * a + 3 * b + c + d
  function Mixed(a: bv8, b: bv8, c: bv8, d: bv8): bv8 {
    ByteXor(ByteXor(XTime(a), ByteXor(XTime(b), b)), ByteXor(c, d))
  }

  function MixColumns(s: Block): (t: Block) {
    seq(16, n requires 0 <= n < 16 => Mixed(s[n], s[Below(n, 1)], s[Below(n, 2)], s[Below(n, 3)]))
  }

  function AddRoundKey(s: Block, k: Block): (t: Block) {
    seq(16, n requires 0 <= n < 16 => ByteXor(s[n], k[n]))
  }

  // The state after the key addition of round n.
  function Rounds(b: Block, keys: seq<Block>, n: nat): (s: Block)
    requires n < |keys|
  {
    if n == 0 then AddRoundKey(b, keys[0])
    else AddRoundKey(MixColumns(ShiftRows(SubBytes(Rounds(b, keys, n - 1)))), keys[n])
  }

  function Cipher(b: Block, keys: seq<Block>): (s: Block)
    requires |keys| == 15
  {
    AddRoundKey(ShiftRows(SubBytes(Rounds(b, keys, 13))), keys[14])
  }

  // ----- key expansion

  function WordXor(a: KeyWord, b: KeyWord): (w: KeyWord) {
    [ByteXor(a[0], b[0]), ByteXor(a[1], b[1]), ByteXor(a[2], b[2]), ByteXor(a[3], b[3])]
  }

  function RotWord(a: KeyWord): (w: KeyWord) {
    [a[1], a[2], a[3], a[0]]
  }

  function SubWord(a: KeyWord): (w: KeyWord) {
    [Sbox(a[0]), Sbox(a[1]), Sbox(a[2]), Sbox(a[3])]
  }

  // x to the power j - 1
  function RoundConstant(j: nat): bv8
    requires j > 0
  {
    if j == 1 then 1 else XTime(RoundConstant(j - 1))
  }

  // What is added to the word eight before word i, from the word before it.
  function Temp(t: KeyWord, i: nat): (w: KeyWord)
    requires i >= 8
  {
    if i % 8 == 0 then WordXor(SubWord(RotWord(t)), [RoundConstant(i / 8), 0, 0, 0])
    else if i % 8 == 4 then SubWord(t) else t
  }

  function Expanded(key: seq<bv8>, i: nat): (w: KeyWord)
    requires |key| == 32
  {
    if i < 8 then key[4 * i..4 * i + 4] else WordXor(Expanded(key, i - 8), Temp(Expanded(key, i - 1), i))
  }

  function RoundKey(key: seq<bv8>, round: nat): (k: Block)
    requires |key| == 32
  {
    Expanded(key, 4 * round) + Expanded(key, 4 * round + 1) + Expanded(key, 4 * round + 2) + Expanded(key, 4 * round + 3)
  }

  function RoundKeys(key: seq<bv8>): (ks: seq<Block>)
    requires |key| == 32
    ensures |ks| == 15
  {
    seq(15, r requires 0 <= r < 15 => RoundKey(key, r))
  }

  function Encrypt(key: seq<bv8>, b: Block): (c: Block)
    requires |key| == 32
  {
    Cipher(b, RoundKeys(key))
  }
}
