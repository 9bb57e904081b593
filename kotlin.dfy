/**
 * The Kotlin platform types the parser is written against: a `Char` is one
 * UTF-16 code unit and an `Int` is a 32-bit two's complement integer.
 */
module Kotlin {

  /** A Kotlin `Char`: one UTF-16 code unit, surrogates included. */
  type CodeUnit = c: int | 0 <= c < 0x1_0000

  /** A Kotlin `String` or `CharArray` content. */
  type Str = seq<CodeUnit>

  /** A Kotlin `Int`. */
  type Int32 = x: int | -0x8000_0000 <= x < 0x8000_0000

  const INT_MAX: int := 0x7FFF_FFFF

  /** A string literal of the source, all of whose characters lie in the Basic Multilingual Plane. */
  function Lit(s: string): (r: Str)
    requires forall i :: 0 <= i < |s| ==> s[i] as int < 0x1_0000
    ensures |r| == |s| && forall i :: 0 <= i < |s| ==> r[i] == s[i] as int
  {
    seq(|s|, i requires 0 <= i < |s| => s[i] as int)
  }

  /** `Int.toChar()`: keeps the low 16 bits of its argument. */
  function ToChar(x: int): (c: CodeUnit)
    ensures 0 <= x < 0x1_0000 ==> c == x
    ensures (x - c) % 0x1_0000 == 0
  {
    x % 0x1_0000
  }

  /** `String.hashCode()`: `s[0]*31^(n-1) + ... + s[n-1]` in 32-bit arithmetic. */
  function StringHash(s: Str): Int32
  {
    if |s| == 0 then 0 else Wrap32(Wrap32(StringHash(s[..|s| - 1]) * 31) + s[|s| - 1])
  }

  /** Truncation of an unbounded result to a 32-bit `Int`, as the JVM's integer arithmetic does. */
  function Wrap32(x: int): (r: Int32)
    ensures -0x8000_0000 <= x < 0x8000_0000 ==> r == x
    ensures (x - r) % 0x1_0000_0000 == 0
  {
    (x + 0x8000_0000) % 0x1_0000_0000 - 0x8000_0000
  }

  /** `a + b` on two `Int`s: the mathematical sum, wrapped once when it leaves the 32-bit range. */
  function Add32(a: Int32, b: Int32): Int32
  {
    if a + b > INT_MAX then a + b - 0x1_0000_0000
    else if a + b < -0x8000_0000 then a + b + 0x1_0000_0000
    else a + b
  }

  /** `a - b` on two `Int`s. */
  function Sub32(a: Int32, b: Int32): Int32
  {
    if a - b > INT_MAX then a - b - 0x1_0000_0000
    else if a - b < -0x8000_0000 then a - b + 0x1_0000_0000
    else a - b
  }

  function Pow2(n: nat): (r: nat)
    ensures r > 0
    ensures n > 0 ==> r == Pow2(n - 1) * 2 && r % 2 == 0
  {
    if n == 0 then 1 else 2 * Pow2(n - 1)
  }

  lemma Pow2Values()
    ensures Pow2(10) == 1024 && Pow2(16) == 0x1_0000
  {
    assert Pow2(2) == 4;
    assert Pow2(4) == 16 by { assert Pow2(3) == 8; }
    assert Pow2(6) == 64 by { assert Pow2(5) == 32; }
    assert Pow2(8) == 256 by { assert Pow2(7) == 128; }
    assert Pow2(10) == 1024 by { assert Pow2(9) == 512; }
    assert Pow2(12) == 4096 by { assert Pow2(11) == 2048; }
    assert Pow2(14) == 16384 by { assert Pow2(13) == 8192; }
    assert Pow2(16) == 0x1_0000 by { assert Pow2(15) == 32768; }
  }

  /** `x ushr n`: the bit pattern of `x` read as unsigned, shifted right by `n`. */
  function UShr(x: Int32, n: nat): (r: int)
    requires n < 32
    ensures 0 <= x ==> r == x / Pow2(n)
    ensures x < 0 ==> r == (x + 0x1_0000_0000) / Pow2(n)
  {
    var u := x % 0x1_0000_0000;
    assert u == if 0 <= x then x as int else x + 0x1_0000_0000;
    u / Pow2(n)
  }
}
