/**
 The fixed key space of the converter and the byte arithmetic its bitmap uses.

 A MIDI key number is a `uint8_t` in the firmware, but the bitmap covers only
 keys 0..127, so every key argument in this model is a `Key`.
 */
module Keys {

  /** The firmware's `uint8_t`: arithmetic on it wraps modulo 256. */
  newtype Byte = x: int | 0 <= x < 256

  /** Number of keys one bitmap covers: 16 bytes of 8 bits. */
  const KeySpace := 128
  const MapBytes := 16

  type Key = k: int | 0 <= k < KeySpace

  /** `b++` on a `uint8_t`. */
  function Inc(b: Byte): (r: Byte)
    ensures r as int == (b as int + 1) % 256
    ensures b < 255 ==> r as int == b as int + 1
    ensures b == 255 ==> r == 0
  {
    if b == 255 then 0 else b + 1
  }

  /** `b--` on a `uint8_t`. */
  function Dec(b: Byte): (r: Byte)
    ensures r as int == (b as int - 1) % 256
    ensures b > 0 ==> r as int == b as int - 1
    ensures b == 0 ==> r == 255
  {
    if b == 0 then 255 else b - 1
  }

  /** `0x01 << pos` as a byte. */
  function Mask(pos: int): (m: bv8)
    requires 0 <= pos < 8
    ensures m != 0
  {
    (1 as bv8) << pos
  }

  /** Whether bit `pos` of byte `b` is set: `b & (0x01 << pos)` is non-zero. */
  predicate HasBit(b: bv8, pos: int)
    requires 0 <= pos < 8
  {
    b & Mask(pos) != 0
  }

  /** `b | (0x01 << pos)`. */
  function WithBit(b: bv8, pos: int): bv8
    requires 0 <= pos < 8
  {
    b | Mask(pos)
  }

  /** `b & ~(0x01 << pos)`. */
  function WithoutBit(b: bv8, pos: int): bv8
    requires 0 <= pos < 8
  {
    b & !Mask(pos)
  }

  /** Setting bit `p` with `|=` sets bit `p` and leaves the other seven bits alone. */
  lemma SetBitEffect(b: bv8, p: int, q: int)
    requires 0 <= p < 8 && 0 <= q < 8
    ensures HasBit(WithBit(b, p), q) <==> (q == p || HasBit(b, q))
  {
  }

  /** Clearing bit `p` with `&= ~` clears bit `p` and leaves the other seven bits alone. */
  lemma ClearBitEffect(b: bv8, p: int, q: int)
    requires 0 <= p < 8 && 0 <= q < 8
    ensures HasBit(WithoutBit(b, p), q) <==> (q != p && HasBit(b, q))
  {
  }

  /** A zero byte has no bit set. */
  lemma ZeroHasNoBit(q: int)
    requires 0 <= q < 8
    ensures !HasBit(0, q)
  {
  }

  /** A key is bit `k % 8` of byte `k / 8`, and distinct keys of one byte are distinct bits. */
  lemma KeyPosition(k: Key, j: Key)
    ensures 0 <= k / 8 < 16 && 0 <= k % 8 < 8 && k == 8 * (k / 8) + k % 8
    ensures k / 8 == j / 8 && k % 8 == j % 8 ==> k == j
  {
  }
}
