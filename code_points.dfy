/**
 * UTF-16 encoding and decoding of Unicode code points (RFC 2781, sections 2.1
 * and 2.2), as the `CodePoints` object does it with 32-bit integer arithmetic.
 */
module CodePoints {
  import opened Kotlin
  import opened Wrappers

  const MIN_SUPPLEMENTARY_CODE_POINT: int := 0x10000
  const MAX_CODE_POINT: int := 0x10FFFF
  const MIN_HIGH_SURROGATE: int := 0xD800
  const MIN_LOW_SURROGATE: int := 0xDC00
  /** `MIN_SUPPLEMENTARY_CODE_POINT - (MIN_HIGH_SURROGATE shl 10) - MIN_LOW_SURROGATE` */
  const SURROGATE_DECODE_OFFSET: int := MIN_SUPPLEMENTARY_CODE_POINT - MIN_HIGH_SURROGATE * 1024 - MIN_LOW_SURROGATE
  /** `MIN_HIGH_SURROGATE - (MIN_SUPPLEMENTARY_CODE_POINT ushr 10)` */
  const HIGH_SURROGATE_ENCODE_OFFSET: int := MIN_HIGH_SURROGATE - MIN_SUPPLEMENTARY_CODE_POINT / 1024

  /** The exception `setSafe` throws. */
  datatype IndexOutOfBounds = IndexOutOfBounds(size: int, index: int)

  predicate IsValidCodePoint(cp: Int32)
  {
    0 <= cp <= MAX_CODE_POINT
  }

  /** Written with an unsigned shift, so that negative values are not in the plane. */
  predicate IsBmpCodePoint(cp: Int32)
    ensures IsBmpCodePoint(cp) <==> 0 <= cp < MIN_SUPPLEMENTARY_CODE_POINT
  {
    Pow2Values();
    UShr(cp, 16) == 0
  }

  predicate IsSupplementaryCodePoint(cp: Int32)
  {
    MIN_SUPPLEMENTARY_CODE_POINT <= cp <= MAX_CODE_POINT
  }

  function CharCount(cp: Int32): int
  {
    if cp < MIN_SUPPLEMENTARY_CODE_POINT then 1 else 2
  }

  predicate IsHighSurrogate(c: CodeUnit)
  {
    0xD800 <= c <= 0xDBFF
  }

  predicate IsLowSurrogate(c: CodeUnit)
  {
    0xDC00 <= c <= 0xDFFF
  }

  predicate IsSurrogatePair(high: CodeUnit, low: CodeUnit)
  {
    IsHighSurrogate(high) && IsLowSurrogate(low)
  }

  function HighSurrogate(cp: Int32): (c: CodeUnit)
    ensures IsSupplementaryCodePoint(cp) ==> IsHighSurrogate(c)
  {
    Pow2Values();
    ToChar(UShr(cp, 10) + HIGH_SURROGATE_ENCODE_OFFSET)
  }

  /** `cp and 0x3FF` is `cp` modulo 1024 in two's complement, which is Dafny's Euclidean `%`. */
  function LowSurrogate(cp: Int32): (c: CodeUnit)
    ensures IsLowSurrogate(c)
  {
    ToChar(cp % 1024 + MIN_LOW_SURROGATE)
  }

  function ToCodePoint(high: CodeUnit, low: CodeUnit): (cp: Int32)
    ensures IsSurrogatePair(high, low) ==> IsSupplementaryCodePoint(cp)
  {
    high * 1024 + low + SURROGATE_DECODE_OFFSET
  }

  /** The one-argument `toChars`: no check, a non-BMP value is split into two units. */
  function ToChars(cp: Int32): (r: Str)
    ensures |r| == (if IsBmpCodePoint(cp) then 1 else 2)
  {
    if IsBmpCodePoint(cp) then [ToChar(cp)] else [HighSurrogate(cp), LowSurrogate(cp)]
  }

  /** The code point a one- or two-unit encoding stands for. */
  function Decode(units: Str): int
    requires |units| == 1 || |units| == 2
  {
    if |units| == 1 then units[0] else ToCodePoint(units[0], units[1])
  }

  lemma ValidIsBmpOrSupplementary(cp: Int32)
    ensures IsValidCodePoint(cp) <==> IsBmpCodePoint(cp) || IsSupplementaryCodePoint(cp)
    ensures !(IsBmpCodePoint(cp) && IsSupplementaryCodePoint(cp))
  {
  }

  /** Encoding a supplementary code point and decoding the pair gives it back. */
  lemma SurrogateRoundTrip(cp: Int32)
    requires IsSupplementaryCodePoint(cp)
    ensures IsSurrogatePair(HighSurrogate(cp), LowSurrogate(cp))
    ensures ToCodePoint(HighSurrogate(cp), LowSurrogate(cp)) == cp
  {
    var q, m := cp / 1024, cp % 1024;
    assert cp == q * 1024 + m;
    assert HighSurrogate(cp) == q + HIGH_SURROGATE_ENCODE_OFFSET;
    assert LowSurrogate(cp) == m + MIN_LOW_SURROGATE;
  }

  /** Decoding a surrogate pair and encoding the code point gives the pair back. */
  lemma SurrogatePairRoundTrip(high: CodeUnit, low: CodeUnit)
    requires IsSurrogatePair(high, low)
    ensures HighSurrogate(ToCodePoint(high, low)) == high
    ensures LowSurrogate(ToCodePoint(high, low)) == low
  {
    var cp := ToCodePoint(high, low);
    var q, m := high - HIGH_SURROGATE_ENCODE_OFFSET, low - MIN_LOW_SURROGATE;
    assert 0 <= m < 1024;
    assert cp == q * 1024 + m;
    assert cp / 1024 == q;
    assert cp % 1024 == m;
  }

  /** For every valid code point `toChars` yields `charCount` units that decode back to it. */
  lemma ToCharsRoundTrip(cp: Int32)
    requires IsValidCodePoint(cp)
    ensures |ToChars(cp)| == CharCount(cp)
    ensures Decode(ToChars(cp)) == cp
    ensures IsBmpCodePoint(cp) ==> ToChars(cp) == [cp]
  {
    if !IsBmpCodePoint(cp) {
      SurrogateRoundTrip(cp);
    }
  }

  /** `setSafe`: writes `value` at `index`, or throws when `index` is not an index of `a`. */
  method SetSafe(a: array<CodeUnit>, index: int, value: CodeUnit) returns (r: Result<(), IndexOutOfBounds>)
    modifies a
    ensures 0 <= index < a.Length ==> r.Ok? && a[..] == old(a[..])[index := value]
    ensures !(0 <= index < a.Length) ==> r == Err(IndexOutOfBounds(a.Length, index)) && a[..] == old(a[..])
  {
    if !(0 <= index < a.Length) {
      return Err(IndexOutOfBounds(a.Length, index));
    }
    a[index] := value;
    return Ok(());
  }

  /**
   * The three-argument `toChars`. The low surrogate is written first, so an
   * offset of -1 writes `destination[0]` and then throws. (`offset + 1`
   * overflows only for `Int.MAX_VALUE`, and its wrapped value is out of range
   * as well.)
   */
  method ToCharsInto(cp: Int32, destination: array<CodeUnit>, offset: Int32) returns (r: Result<int, IndexOutOfBounds>)
    modifies destination
    ensures IsBmpCodePoint(cp) && 0 <= offset < destination.Length ==>
      r == Ok(1) && destination[..] == old(destination[..])[offset := cp]
    ensures !IsBmpCodePoint(cp) && 0 <= offset && offset + 1 < destination.Length ==>
      r == Ok(2) && destination[..] == old(destination[..])[offset := HighSurrogate(cp)][offset + 1 := LowSurrogate(cp)]
    ensures r.Ok? ==>
      r.value == |ToChars(cp)| && 0 <= offset && offset + r.value <= destination.Length &&
      destination[offset..offset + r.value] == ToChars(cp)
    ensures !IsBmpCodePoint(cp) && offset == -1 && destination.Length > 0 ==>
      r.Err? && destination[..] == old(destination[..])[0 := LowSurrogate(cp)]
    ensures r.Err? && !(!IsBmpCodePoint(cp) && offset == -1) ==> destination[..] == old(destination[..])
    ensures r.Err? <==> !(0 <= offset && offset + |ToChars(cp)| <= destination.Length)
  {
    if IsBmpCodePoint(cp) {
      var _ :- SetSafe(destination, offset, ToChar(cp));
      return Ok(1);
    } else {
      var _ :- SetSafe(destination, offset + 1, LowSurrogate(cp));
      var _ :- SetSafe(destination, offset, HighSurrogate(cp));
      return Ok(2);
    }
  }
}
