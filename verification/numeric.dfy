/** The fixed-width integers of the CLR and the conversions between them
    that the program performs without overflow checking. */
module Numeric {

  const MinInt32: int := -0x8000_0000
  const MaxInt32: int := 0x7FFF_FFFF
  const TwoTo32: int := 0x1_0000_0000
  const TwoTo64: int := 0x1_0000_0000_0000_0000

  predicate InInt32(i: int) {
    MinInt32 <= i <= MaxInt32
  }

  /** `int` (System.Int32). */
  type Int32 = i: int | MinInt32 <= i <= MaxInt32

  /** `byte` (System.Byte). */
  type Byte = x: int | 0 <= x < 256

  /** `uint` (System.UInt32). */
  type UInt32 = x: int | 0 <= x < TwoTo32

  /** `ulong` (System.UInt64). */
  type UInt64 = x: int | 0 <= x < TwoTo64

  /** `(byte)x` in an unchecked context: the low eight bits. */
  function ToByte(x: int): (b: Byte)
    ensures 0 <= x < 256 ==> b == x
    ensures (x - b) % 256 == 0
  {
    x % 256
  }

  /** `(uint)x` in an unchecked context: the low 32 bits. */
  function ToUInt32(x: int): (u: UInt32)
    ensures 0 <= x < TwoTo32 ==> u == x
    ensures (x - u) % TwoTo32 == 0
  {
    x % TwoTo32
  }

  /** `(ulong)i` in an unchecked context: two's complement reinterpretation. */
  function ToUInt64(i: int): (u: UInt64)
    ensures 0 <= i ==> i < TwoTo64 ==> u == i
    ensures (i - u) % TwoTo64 == 0
  {
    i % TwoTo64
  }

  /** `(int)u` in an unchecked context: the low 32 bits read as signed. */
  function ToInt32(u: int): (i: Int32)
    ensures MinInt32 <= u <= MaxInt32 ==> i == u
    ensures (u - i) % TwoTo32 == 0
  {
    var low := u % TwoTo32;
    if low <= MaxInt32 then low else low - TwoTo32
  }

  /** A play count stored as `(ulong)n` reads back as `n` through `(int)`. */
  lemma Int32ThroughUInt64(n: Int32)
    ensures ToInt32(ToUInt64(n)) == n
  {
    if n < 0 {
      assert ToUInt64(n) == n + TwoTo64;
      assert ToUInt64(n) % TwoTo32 == n + TwoTo32;
    }
  }

  /** `(int)Math.Ceiling((double)a / k)` for a positive divisor `k`, exact
      for every 32-bit `a`. */
  function CeilDiv(a: int, k: int): (q: int)
    requires 0 < k
    ensures k * q >= a
    ensures k * (q - 1) < a
  {
    -((-a) / k)
  }
}
