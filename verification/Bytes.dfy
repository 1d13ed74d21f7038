// The sum of two bytes in GF(2)^8.
module Bytes {
  function ByteXor(a: bv8, b: bv8): bv8 {
    a ^ b
  }
}
