/** Bytes and the fixed-width integer operations of the gateway, on mathematical integers. */
module Bytes {

  type byte = b: int | 0 <= b < 256

  /** binary.BigEndian.Uint16 */
  function BE16(hi: byte, lo: byte): (v: int)
    ensures 0 <= v < 0x1_0000
  {
    256 * hi + lo
  }

  /** binary.BigEndian.Uint32 */
  function BE32(a: byte, b: byte, c: byte, d: byte): (v: int)
    ensures 0 <= v < 0x1_0000_0000
  {
    0x1_0000 * BE16(a, b) + BE16(c, d)
  }

  /** binary.BigEndian.PutUint16 */
  function PutBE16(v: int): (s: seq<byte>)
    requires 0 <= v < 0x1_0000
    ensures |s| == 2 && BE16(s[0], s[1]) == v
  {
    [v / 256, v % 256]
  }

  /** binary.BigEndian.PutUint32 */
  function PutBE32(v: int): (s: seq<byte>)
    requires 0 <= v < 0x1_0000_0000
    ensures |s| == 4 && BE32(s[0], s[1], s[2], s[3]) == v
  {
    PutBE16(v / 0x1_0000) + PutBE16(v % 0x1_0000)
  }

  /** A Go conversion to byte. */
  function ToByte(v: int): byte { v % 256 }

  function Power(w: nat): (p: nat)
    ensures p > 0
  {
    if w == 0 then 1 else 2 * Power(w - 1)
  }

  lemma PowerValues()
    ensures Power(8) == 0x100 && Power(16) == 0x1_0000
  {
    assert Power(4) == 16;
    assert Power(12) == 16 * Power(8);
  }

  /** Bitwise or of two non-negative integers. */
  function BitOr(a: nat, b: nat): (r: nat)
    decreases a + b
  {
    if a == 0 then b else if b == 0 then a
    else 2 * BitOr(a / 2, b / 2) + (if a % 2 == 1 || b % 2 == 1 then 1 else 0)
  }

  /** Bitwise exclusive or of two non-negative integers. */
  function BitXor(a: nat, b: nat): (r: nat)
    decreases a + b
  {
    if a == 0 then b else if b == 0 then a
    else 2 * BitXor(a / 2, b / 2) + (a + b) % 2
  }

  /** Neither operation sets a bit above its arguments'. */
  lemma {:induction false} BitsStayBelow(a: nat, b: nat, w: nat)
    requires a < Power(w) && b < Power(w)
    ensures BitXor(a, b) < Power(w) && BitOr(a, b) < Power(w)
    decreases w
  {
    if w > 0 && a > 0 && b > 0 { BitsStayBelow(a / 2, b / 2, w - 1); }
  }

  /** The low bit of an exclusive or, and the rest. */
  lemma XorHalves(a: nat, b: nat)
    ensures BitXor(a, b) / 2 == BitXor(a / 2, b / 2)
    ensures BitXor(a, b) % 2 == (a + b) % 2
  {}
}
