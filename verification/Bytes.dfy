/** Bytes as the serial line carries them, and 16-bit values sent high byte first. */
module Bytes {
  type byte = bv8

  function High(n: bv16): byte { (n >> 8) as byte }

  function Low(n: bv16): byte { (n & 0xFF) as byte }

  function Join(high: byte, low: byte): bv16 { ((high as bv16) << 8) | (low as bv16) }

  lemma JoinSplit(n: bv16)
    ensures Join(High(n), Low(n)) == n
  {
  }
}
