/** Big-endian values as plain arithmetic, for statements about bytes. */
module Numbers {

  function Two(a: int, b: int): int { 256 * a + b }

  function Three(a: int, b: int, c: int): int { 65_536 * a + 256 * b + c }

  function Four(a: int, b: int, c: int, d: int): int { 16_777_216 * a + 65_536 * b + 256 * c + d }
}
