/** The C integer types the daemon computes with, and the operators that
    differ from Dafny's: unsigned subtraction wraps, signed division
    truncates toward zero. */
module CTypes {
  const TWO_32: int := 0x1_0000_0000

  type uint8 = x: int | 0 <= x < 256
  type uint32 = x: int | 0 <= x < 0x1_0000_0000
  type int32 = x: int | -0x8000_0000 <= x < 0x8000_0000
  type int64 = x: int | -0x8000_0000_0000_0000 <= x < 0x8000_0000_0000_0000

  /** Unsigned 32-bit subtraction: wraps modulo 2^32. */
  function Sub32(a: uint32, b: uint32): uint32 {
    (a - b) % 0x1_0000_0000
  }

  /** The low 32 bits of a true tick count. */
  function Tick(t: nat): uint32 {
    t % 0x1_0000_0000
  }

  /** C's signed division, which truncates toward zero. */
  function TruncDiv(a: int, b: int): int
    requires b > 0
  {
    if a >= 0 then a / b else -((-a) / b)
  }

  /** Four bytes as a word, the most significant first. */
  function BigEndian(a: uint8, b: uint8, c: uint8, d: uint8): uint32 {
    a * 0x100_0000 + b * 0x1_0000 + c * 0x100 + d
  }

  /** The four low bytes of a number, the most significant first. */
  function BigEndianBytes(n: nat): (s: seq<uint8>)
    ensures |s| == 4
  {
    [n / 0x100_0000 % 256, n / 0x1_0000 % 256, n / 0x100 % 256, n % 256]
  }

  function Min(a: int, b: int): int {
    if a <= b then a else b
  }

  /** A wrapped tick difference never exceeds the true one, and equals it
      as long as the true one fits in 32 bits. */
  lemma ElapsedIsTrueElapsedModulo(earlier: nat, later: nat)
    requires earlier <= later
    ensures Sub32(Tick(later), Tick(earlier)) == (later - earlier) % TWO_32
    ensures Sub32(Tick(later), Tick(earlier)) <= later - earlier
    ensures later - earlier < TWO_32 ==> Sub32(Tick(later), Tick(earlier)) == later - earlier
  {
  }

  lemma ModIgnoresMultiples(d: int, k: int)
    ensures (d + TWO_32 * k) % TWO_32 == d % TWO_32
  {
  }
}
