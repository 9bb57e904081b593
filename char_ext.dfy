/** `Char.toChars`: the checked conversion of a code point to UTF-16 units. */
module CharExt {
  import opened Kotlin
  import opened Wrappers
  import CodePoints

  /** The `IllegalArgumentException` thrown for a value that is not a code point. */
  datatype IllegalArgument = InvalidCodePoint(codePoint: Int32)

  function ToChars(cp: Int32): (r: Result<Str, IllegalArgument>)
    ensures r.Ok? <==> CodePoints.IsValidCodePoint(cp)
    ensures r.Err? ==> r.error == InvalidCodePoint(cp)
    ensures CodePoints.IsBmpCodePoint(cp) ==> r == Ok([cp])
    ensures CodePoints.IsSupplementaryCodePoint(cp) ==>
      r == Ok([CodePoints.HighSurrogate(cp), CodePoints.LowSurrogate(cp)])
    ensures r.Ok? ==> |r.value| == CodePoints.CharCount(cp) && CodePoints.Decode(r.value) == cp
    ensures r.Ok? ==> r.value == CodePoints.ToChars(cp)
  {
    if CodePoints.IsBmpCodePoint(cp) then
      Ok([ToChar(cp)])
    else if CodePoints.IsSupplementaryCodePoint(cp) then
      CodePoints.SurrogateRoundTrip(cp);
      Ok([CodePoints.HighSurrogate(cp), CodePoints.LowSurrogate(cp)])
    else
      Err(InvalidCodePoint(cp))
  }
}
