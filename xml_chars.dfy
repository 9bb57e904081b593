/**
 * The character-level rules of `MXParser`'s companion object: the XML `Char`
 * production, the name lookup tables, white space, the constant-time name
 * hash, character-reference digits and the two normalisations of XML 1.0
 * (end of line, section 2.11; attribute values, section 3.3.3).
 */
module XmlChars {
  import opened Kotlin
  import opened Wrappers
  import CodePoints

  const TAB: CodeUnit := 0x09
  const LF: CodeUnit := 0x0A
  const CR: CodeUnit := 0x0D
  const SPACE: CodeUnit := 0x20

  const XML_URI: Str := Lit("http://www.w3.org/XML/1998/namespace")
  const XMLNS_URI: Str := Lit("http://www.w3.org/2000/xmlns/")

  /** The most characters one `read` call asks for. */
  const READ_CHUNK_SIZE: int := 8 * 1024

  /** Characters below this bound are classified by lookup table. */
  const LOOKUP_MAX: int := 0x400

  /** Production [2] Char of XML 1.0: the code points a document (or a character reference) may contain. */
  predicate IsXmlChar(cp: int)
  {
    cp == 0x9 || cp == 0xA || cp == 0xD || (0x20 <= cp <= 0xD7FF)
    || (0xE000 <= cp <= 0xFFFD)
    || (0x10000 <= cp <= 0x10FFFF)
  }

  /** Every XML character is a Unicode scalar value: a code point that is not a surrogate, and not U+FFFE or U+FFFF. */
  lemma XmlCharIsScalarValue(cp: Int32)
    requires IsXmlChar(cp)
    ensures CodePoints.IsValidCodePoint(cp)
    ensures !(0xD800 <= cp <= 0xDFFF) && cp != 0xFFFE && cp != 0xFFFF
  {
  }

  /** `isS`: production [3] S. */
  predicate IsS(ch: CodeUnit)
  {
    ch == SPACE || ch == LF || ch == CR || ch == TAB
  }

  // ---------------------------------------------------------------------
  // Name characters

  /** The characters `init` marks in `lookupNameStartChar`. */
  predicate InNameStartTable(c: int)
  {
    c == ':' as int || ('A' as int <= c <= 'Z' as int) || c == '_' as int || ('a' as int <= c <= 'z' as int)
    || (0xC0 <= c <= 0x2FF) || (0x370 <= c <= 0x37D) || (0x37F <= c < 0x400)
  }

  /** The characters `init` marks in `lookupNameChar`: every name start character and a few more. */
  predicate InNameTable(c: int)
  {
    InNameStartTable(c) || c == '-' as int || c == '.' as int || ('0' as int <= c <= '9' as int)
    || c == 0xB7 || (0x300 <= c <= 0x36F)
  }

  /** Above the tables both classifications accept the same ranges. */
  predicate InNameRangesAboveTable(ch: CodeUnit)
  {
    ch <= 0x2027 || (0x202A <= ch <= 0x218F) || (0x2800 <= ch <= 0xFFEF)
  }

  predicate IsNameStartChar(ch: CodeUnit)
  {
    if ch < LOOKUP_MAX then InNameStartTable(ch) else InNameRangesAboveTable(ch)
  }

  predicate IsNameChar(ch: CodeUnit)
  {
    if ch < LOOKUP_MAX then InNameTable(ch) else InNameRangesAboveTable(ch)
  }

  /** `setNameStart(ch)` also calls `setName(ch)`. */
  lemma NameStartCharIsNameChar(ch: CodeUnit)
    ensures IsNameStartChar(ch) ==> IsNameChar(ch)
  {
  }

  /** Production [4] NameStartChar of XML 1.0 (Fifth Edition), restricted to one UTF-16 unit. */
  predicate Xml10NameStartChar(c: int)
  {
    c == ':' as int || ('A' as int <= c <= 'Z' as int) || c == '_' as int || ('a' as int <= c <= 'z' as int)
    || (0xC0 <= c <= 0xD6) || (0xD8 <= c <= 0xF6) || (0xF8 <= c <= 0x2FF) || (0x370 <= c <= 0x37D)
    || (0x37F <= c <= 0x1FFF) || (0x200C <= c <= 0x200D) || (0x2070 <= c <= 0x218F) || (0x2C00 <= c <= 0x2FEF)
    || (0x3001 <= c <= 0xD7FF) || (0xF900 <= c <= 0xFDCF) || (0xFDF0 <= c <= 0xFFFD)
  }

  /** Production [4a] NameChar of XML 1.0 (Fifth Edition), restricted to one UTF-16 unit. */
  predicate Xml10NameChar(c: int)
  {
    Xml10NameStartChar(c) || c == '-' as int || c == '.' as int || ('0' as int <= c <= '9' as int)
    || c == 0xB7 || (0x300 <= c <= 0x36F) || (0x203F <= c <= 0x2040)
  }

  /**
   * The tables follow a draft of XML 1.1, which is more permissive than XML
   * 1.0: every XML 1.0 name character of the Basic Multilingual Plane below
   * U+FFF0 is accepted. In ASCII the two agree exactly.
   */
  lemma NameClassesCoverXml10(ch: CodeUnit)
    ensures Xml10NameStartChar(ch) && ch < 0xFFF0 ==> IsNameStartChar(ch)
    ensures Xml10NameChar(ch) && ch < 0xFFF0 ==> IsNameChar(ch)
    ensures ch < 0x80 ==> (IsNameStartChar(ch) <==> Xml10NameStartChar(ch))
    ensures ch < 0x80 ==> (IsNameChar(ch) <==> Xml10NameChar(ch))
  {
  }

  /** The specials U+FFF0..U+FFFD are XML 1.0 name characters but are rejected; U+00D7 is accepted though XML 1.0 excludes it. */
  lemma NameClassesDifferFromXml10()
    ensures Xml10NameStartChar(0xFFFD) && !IsNameStartChar(0xFFFD)
    ensures !Xml10NameStartChar(0xD7) && IsNameStartChar(0xD7)
  {
  }

  /** `setName` / `setNameStart` over one `while (ch <= hi)` run of `init`. */
  method MarkRange(nameStart: array<bool>, name: array<bool>, lo: int, hi: int, isStart: bool)
    requires nameStart != name && nameStart.Length == LOOKUP_MAX && name.Length == LOOKUP_MAX
    requires 0 <= lo <= hi < LOOKUP_MAX
    modifies nameStart, name
    ensures forall c :: 0 <= c < LOOKUP_MAX ==>
      name[c] == (old(name[c]) || lo <= c <= hi)
    ensures forall c :: 0 <= c < LOOKUP_MAX ==>
      nameStart[c] == (old(nameStart[c]) || (isStart && lo <= c <= hi))
  {
    var ch := lo;
    while ch <= hi
      invariant lo <= ch <= hi + 1
      invariant forall c :: 0 <= c < LOOKUP_MAX ==>
        name[c] == (old(name[c]) || lo <= c < ch)
      invariant forall c :: 0 <= c < LOOKUP_MAX ==>
        nameStart[c] == (old(nameStart[c]) || (isStart && lo <= c < ch))
    {
      if isStart {
        nameStart[ch] := true;
      }
      name[ch] := true;
      ch := ch + 1;
    }
  }

  /** The companion's `init` block: it fills the two lookup tables. */
  method BuildNameTables() returns (nameStart: array<bool>, name: array<bool>)
    ensures fresh(nameStart) && fresh(name)
    ensures nameStart.Length == LOOKUP_MAX && name.Length == LOOKUP_MAX
    ensures forall c :: 0 <= c < LOOKUP_MAX ==> nameStart[c] == InNameStartTable(c)
    ensures forall c :: 0 <= c < LOOKUP_MAX ==> name[c] == InNameTable(c)
  {
    nameStart := new bool[LOOKUP_MAX](_ => false);
    name := new bool[LOOKUP_MAX](_ => false);
    MarkRange(nameStart, name, ':' as int, ':' as int, true);
    MarkRange(nameStart, name, 'A' as int, 'Z' as int, true);
    MarkRange(nameStart, name, '_' as int, '_' as int, true);
    MarkRange(nameStart, name, 'a' as int, 'z' as int, true);
    MarkRange(nameStart, name, 0xC0, 0x2FF, true);
    MarkRange(nameStart, name, 0x370, 0x37D, true);
    MarkRange(nameStart, name, 0x37F, 0x3FF, true);
    MarkRange(nameStart, name, '-' as int, '-' as int, false);
    MarkRange(nameStart, name, '.' as int, '.' as int, false);
    MarkRange(nameStart, name, '0' as int, '9' as int, false);
    MarkRange(nameStart, name, 0xB7, 0xB7, false);
    MarkRange(nameStart, name, 0x300, 0x36F, false);
  }

  // ---------------------------------------------------------------------
  // Name hash

  /** `hash shl 7` followed by `+ c`, both in 32 bits. */
  function HashStep(hash: Int32, c: CodeUnit): Int32
  {
    Wrap32(Wrap32(hash * 128) + c)
  }

  /**
   * `fastHash(ch, off, len)` of the characters `s == ch[off..off+len)`:
   * constant time, from the first and last characters and, for longer names,
   * the ones at a quarter and at a half. That it reads nothing else is
   * stated by `FastHashSamples`, and that it is not injective by
   * `FastHashCollides`.
   */
  function FastHash(s: Str): (h: Int32)
    ensures |s| == 0 ==> h == 0
  {
    if |s| == 0 then 0
    else
      var len := |s|;
      var h1 := HashStep(s[0], s[len - 1]);
      var h2 := if len > 16 then HashStep(h1, s[len / 4]) else h1;
      if len > 8 then HashStep(h2, s[len / 2]) else h2
  }

  /** Two names of one length that agree at the sampled positions hash alike, whatever their other characters. */
  lemma FastHashSamples(a: Str, b: Str)
    requires |a| == |b| > 0
    requires a[0] == b[0] && a[|a| - 1] == b[|b| - 1]
    requires |a| > 16 ==> a[|a| / 4] == b[|b| / 4]
    requires |a| > 8 ==> a[|a| / 2] == b[|b| / 2]
    ensures FastHash(a) == FastHash(b)
  {
  }

  /** The hash is not injective: names that differ only between the samples collide. */
  lemma FastHashCollides()
    ensures FastHash(Lit("abc")) == FastHash(Lit("axc"))
  {
  }

  // ---------------------------------------------------------------------
  // Character references (section 4.1 [66])

  predicate IsDecimalDigit(c: CodeUnit)
  {
    '0' as int <= c <= '9' as int
  }

  predicate IsHexDigit(c: CodeUnit)
  {
    IsDecimalDigit(c) || ('a' as int <= c <= 'f' as int) || ('A' as int <= c <= 'F' as int)
  }

  predicate IsDigitOf(c: CodeUnit, hex: bool)
  {
    if hex then IsHexDigit(c) else IsDecimalDigit(c)
  }

  predicate AllDigits(ds: Str, hex: bool)
  {
    forall i :: 0 <= i < |ds| ==> IsDigitOf(ds[i], hex)
  }

  function Radix(hex: bool): nat
  {
    if hex then 16 else 10
  }

  function DigitValue(c: CodeUnit): (v: nat)
    requires IsHexDigit(c)
    ensures v < 16 && (IsDecimalDigit(c) ==> v < 10)
  {
    if IsDecimalDigit(c) then c - '0' as int
    else if 'a' as int <= c <= 'f' as int then c - 'a' as int + 10
    else c - 'A' as int + 10
  }

  /** The value of a digit string, most significant digit first. */
  function DigitsValue(ds: Str, hex: bool): nat
    requires AllDigits(ds, hex)
  {
    if |ds| == 0 then 0 else DigitsValue(ds[..|ds| - 1], hex) * Radix(hex) + DigitValue(ds[|ds| - 1])
  }

  /**
   * `sb.toString().toInt(radix)` on the digits collected between `&#` (or
   * `&#x`) and `;`: it fails on an empty string and on a value past
   * `Int.MAX_VALUE`.
   */
  function ParseCharRefDigits(ds: Str, hex: bool): (r: Option<Int32>)
    requires AllDigits(ds, hex)
  {
    if |ds| == 0 || DigitsValue(ds, hex) > INT_MAX then None else Some(DigitsValue(ds, hex))
  }

  function DigitChar(d: nat, hex: bool): (c: CodeUnit)
    requires d < Radix(hex)
    ensures IsDigitOf(c, hex) && DigitValue(c) == d
  {
    if d < 10 then '0' as int + d else 'a' as int + d - 10
  }

  /** The shortest spelling of `n` in the given radix, as `Integer.toString` writes it. */
  function ToDigits(n: nat, hex: bool): (ds: Str)
    ensures |ds| > 0 && AllDigits(ds, hex)
    decreases n
  {
    if n < Radix(hex) then [DigitChar(n, hex)]
    else ToDigits(n / Radix(hex), hex) + [DigitChar(n % Radix(hex), hex)]
  }

  lemma {:induction false} DigitsValueOfToDigits(n: nat, hex: bool)
    ensures DigitsValue(ToDigits(n, hex), hex) == n
    decreases n
  {
    var ds := ToDigits(n, hex);
    if n >= Radix(hex) {
      DigitsValueOfToDigits(n / Radix(hex), hex);
      assert ds[..|ds| - 1] == ToDigits(n / Radix(hex), hex);
    }
  }

  /** Reading back the decimal or hexadecimal spelling of any `Int` value gives that value. */
  lemma ParseCharRefDigitsRoundTrip(n: nat, hex: bool)
    requires n <= INT_MAX
    ensures ParseCharRefDigits(ToDigits(n, hex), hex) == Some(n)
  {
    DigitsValueOfToDigits(n, hex);
  }

  /**
   * What a character reference with digits `ds` stands for: the UTF-16
   * units of its code point (`Character.toChars`), or nothing when the digits
   * are empty, overflow `Int`, or name a code point outside production [2].
   */
  function ResolveCharRef(ds: Str, hex: bool): (r: Option<Str>)
    requires AllDigits(ds, hex)
    ensures r.Some? <==> ParseCharRefDigits(ds, hex).Some? && IsXmlChar(ParseCharRefDigits(ds, hex).value)
    ensures r.Some? ==>
      var cp := ParseCharRefDigits(ds, hex).value;
      |r.value| == CodePoints.CharCount(cp) && CodePoints.Decode(r.value) == cp
  {
    match ParseCharRefDigits(ds, hex)
    case None => None
    case Some(cp) =>
      if IsXmlChar(cp) then
        CodePoints.ToCharsRoundTrip(cp);
        Some(CodePoints.ToChars(cp))
      else
        None
  }

  /** `&#65;` and `&#x41;` both stand for `A`. */
  lemma CharRefExamplesBmp()
    ensures ResolveCharRef(Lit("65"), false) == Some(Lit("A"))
    ensures ResolveCharRef(Lit("41"), true) == Some(Lit("A"))
  {
    assert DigitsValue(Lit("65"), false) == 65 by {
      assert Lit("65")[..1] == Lit("6");
    }
    assert DigitsValue(Lit("41"), true) == 65 by {
      assert Lit("41")[..1] == Lit("4");
    }
    Pow2Values();
    CodePoints.ToCharsRoundTrip(65);
    assert ParseCharRefDigits(Lit("65"), false) == Some(65);
    assert CodePoints.ToChars(65) == Lit("A");
  }

  /** `&#;`, `&#x;`, `&#0;` and `&#xFFFE;` stand for nothing. */
  lemma CharRefExamplesInvalid()
    ensures ResolveCharRef([], false).None? && ResolveCharRef([], true).None?
    ensures ResolveCharRef(Lit("0"), false).None?
    ensures ResolveCharRef(Lit("FFFE"), true).None?
  {
    assert DigitsValue(Lit("0"), false) == 0;
    var nonChar := Lit("FFFE");
    assert nonChar[..3] == Lit("FFF");
    assert Lit("FFF")[..2] == Lit("FF");
    assert Lit("FF")[..1] == Lit("F");
    assert DigitsValue(Lit("FF"), true) == 0xFF;
    assert DigitsValue(Lit("FFF"), true) == 0xFFF;
    assert DigitsValue(nonChar, true) == 0xFFFE;
  }

  /** `&#x1F600;` stands for a surrogate pair. */
  lemma CharRefExampleSupplementary()
    ensures ResolveCharRef(Lit("1F600"), true) == Some([0xD83D, 0xDE00])
  {
    var smile := Lit("1F600");
    assert smile[..4] == Lit("1F60");
    assert Lit("1F60")[..3] == Lit("1F6");
    assert Lit("1F6")[..2] == Lit("1F");
    assert Lit("1F")[..1] == Lit("1");
    assert DigitsValue(Lit("1F"), true) == 0x1F;
    assert DigitsValue(Lit("1F6"), true) == 0x1F6;
    assert DigitsValue(Lit("1F60"), true) == 0x1F60;
    assert DigitsValue(smile, true) == 0x1F600;
    Pow2Values();
  }

  /** The five predefined entities of section 4.6, by name. */
  function PredefinedEntity(name: Str): (r: Option<CodeUnit>)
    ensures r.Some? ==> r.value in {'<' as int, '&' as int, '>' as int, '\'' as int, '"' as int}
  {
    if name == [0x6C, 0x74] /* lt */ then Some('<' as int)
    else if name == [0x61, 0x6D, 0x70] /* amp */ then Some('&' as int)
    else if name == [0x67, 0x74] /* gt */ then Some('>' as int)
    else if name == [0x61, 0x70, 0x6F, 0x73] /* apos */ then Some('\'' as int)
    else if name == [0x71, 0x75, 0x6F, 0x74] /* quot */ then Some('"' as int)
    else None
  }

  // ---------------------------------------------------------------------
  // End-of-line handling (section 2.11)

  /** Section 2.11: every `\r\n` pair and every lone `\r` becomes one `\n`. */
  function NormalizeEol(s: Str): Str
  {
    if |s| == 0 then []
    else if s[0] == CR then [LF] + NormalizeEol(if |s| > 1 && s[1] == LF then s[2..] else s[1..])
    else [s[0]] + NormalizeEol(s[1..])
  }

  /** What the streaming loops emit for `ch`, given whether the previous character was a `\r`. */
  function EolStep(ch: CodeUnit, afterCR: bool): Str
  {
    if ch == CR then [LF] else if ch == LF && afterCR then [] else [ch]
  }

  /** The streaming normalisation of `s`, started after a `\r` or not. */
  function EolFold(s: Str, afterCR: bool): Str
  {
    if |s| == 0 then [] else EolStep(s[0], afterCR) + EolFold(s[1..], s[0] == CR)
  }

  /** Whether the last character seen, after `s` following a state `afterCR`, was a `\r`. */
  function EndsWithCR(s: Str, afterCR: bool): bool
  {
    if |s| == 0 then afterCR else s[|s| - 1] == CR
  }

  /** Extending the input by one character extends the streamed output by that character's step. */
  lemma {:induction false} EolFoldSnoc(s: Str, c: CodeUnit, afterCR: bool)
    ensures EolFold(s + [c], afterCR) == EolFold(s, afterCR) + EolStep(c, EndsWithCR(s, afterCR))
  {
    if |s| == 0 {
      assert s + [c] == [c];
    } else {
      assert (s + [c])[1..] == s[1..] + [c];
      EolFoldSnoc(s[1..], c, s[0] == CR);
      assert EndsWithCR(s[1..], s[0] == CR) == EndsWithCR(s, afterCR);
    }
  }

  /** The character-at-a-time loops compute section 2.11's normalisation. */
  lemma {:induction false} EolFoldIsNormalizeEol(s: Str)
    ensures EolFold(s, false) == NormalizeEol(s)
    ensures EolFold(s, true) == if |s| > 0 && s[0] == LF then NormalizeEol(s[1..]) else NormalizeEol(s)
    decreases |s|
  {
    if |s| > 0 {
      EolFoldIsNormalizeEol(s[1..]);
      if s[0] == CR && |s| > 1 && s[1] == LF {
        EolFoldIsNormalizeEol(s[2..]);
        assert s[1..][1..] == s[2..];
      }
    }
  }

  /** Normalised text holds no `\r`, and text without `\r` is left alone. */
  lemma {:induction false} NormalizeEolRemovesCR(s: Str)
    ensures CR !in NormalizeEol(s)
    ensures CR !in s ==> NormalizeEol(s) == s
    decreases |s|
  {
    if |s| > 0 {
      if s[0] == CR && |s| > 1 && s[1] == LF {
        NormalizeEolRemovesCR(s[2..]);
      } else {
        NormalizeEolRemovesCR(s[1..]);
        if CR !in s {
          assert CR !in s[1..];
        }
      }
    }
  }

  // ---------------------------------------------------------------------
  // Attribute-value normalisation (section 3.3.3)

  /** Section 3.3.3: each `\t`, `\n`, `\r` and each `\r\n` pair becomes one space. */
  function NormalizeAttr(s: Str): Str
  {
    if |s| == 0 then []
    else if s[0] == CR then [SPACE] + NormalizeAttr(if |s| > 1 && s[1] == LF then s[2..] else s[1..])
    else if s[0] == LF || s[0] == TAB then [SPACE] + NormalizeAttr(s[1..])
    else [s[0]] + NormalizeAttr(s[1..])
  }

  /** What the attribute-value loop emits for `ch`, given whether the previous character was a `\r`. */
  function AttrStep(ch: CodeUnit, afterCR: bool): Str
  {
    if ch == TAB || ch == LF || ch == CR then (if ch == LF && afterCR then [] else [SPACE]) else [ch]
  }

  function AttrFold(s: Str, afterCR: bool): Str
  {
    if |s| == 0 then [] else AttrStep(s[0], afterCR) + AttrFold(s[1..], s[0] == CR)
  }

  lemma {:induction false} AttrFoldSnoc(s: Str, c: CodeUnit, afterCR: bool)
    ensures AttrFold(s + [c], afterCR) == AttrFold(s, afterCR) + AttrStep(c, EndsWithCR(s, afterCR))
  {
    if |s| == 0 {
      assert s + [c] == [c];
    } else {
      assert (s + [c])[1..] == s[1..] + [c];
      AttrFoldSnoc(s[1..], c, s[0] == CR);
    }
  }

  /** The attribute-value loop computes section 3.3.3's normalisation of white space. */
  lemma {:induction false} AttrFoldIsNormalizeAttr(s: Str)
    ensures AttrFold(s, false) == NormalizeAttr(s)
    ensures AttrFold(s, true) == if |s| > 0 && s[0] == LF then NormalizeAttr(s[1..]) else NormalizeAttr(s)
    decreases |s|
  {
    if |s| > 0 {
      AttrFoldIsNormalizeAttr(s[1..]);
      if s[0] == CR && |s| > 1 && s[1] == LF {
        AttrFoldIsNormalizeAttr(s[2..]);
        assert s[1..][1..] == s[2..];
      }
    }
  }

  /** A normalised attribute value holds no `\t`, `\n` or `\r`. */
  lemma {:induction false} NormalizeAttrRemovesWhiteSpaceControls(s: Str)
    ensures TAB !in NormalizeAttr(s) && LF !in NormalizeAttr(s) && CR !in NormalizeAttr(s)
    decreases |s|
  {
    if |s| > 0 {
      if s[0] == CR && |s| > 1 && s[1] == LF {
        NormalizeAttrRemovesWhiteSpaceControls(s[2..]);
      } else {
        NormalizeAttrRemovesWhiteSpaceControls(s[1..]);
      }
    }
  }

  // ---------------------------------------------------------------------
  // Character data (section 2.4 [14])

  /** `s` holds the sequence `]]>` somewhere. */
  predicate HasCdataEnd(s: Str)
  {
    exists i :: 0 <= i && i + 3 <= |s| && s[i] == ']' as int && s[i + 1] == ']' as int && s[i + 2] == '>' as int
  }

  // ---------------------------------------------------------------------
  // Error context

  /** Where `findFragment` stops: more than 65 characters before `end`, or at a `<` more than 10 before `start`. */
  predicate FragmentStop(b: array<CodeUnit>, start: int, end: int, i: int)
    reads b
    requires 0 <= i < b.Length
  {
    end - i > 65 || (b[i] == '<' as int && start - i > 10)
  }

  /**
   * `findFragment`: the start of the context shown before position `start`
   * in an error message. It scans back from `start` (moved to `end - 10`
   * when farther than 65 characters from `end`) to the first stopping point
   * after `bufMinPos`.
   */
  method FindFragment(bufMinPos: int, b: array<CodeUnit>, start: int, end: int) returns (r: int)
    requires 0 <= bufMinPos && start < b.Length && end <= b.Length
    ensures start < bufMinPos ==> r == if bufMinPos > end then end else bufMinPos
    ensures start >= bufMinPos ==>
      var s := if end - start > 65 then end - 10 else start;
      bufMinPos <= r <= s &&
      (r > bufMinPos ==> FragmentStop(b, s, end, r)) &&
      forall j :: r < j <= s ==> !FragmentStop(b, s, end, j)
  {
    var s := start;
    if s < bufMinPos {
      s := bufMinPos;
      if s > end {
        s := end;
      }
      return s;
    }
    if end - s > 65 {
      s := end - 10;
    }
    var i := s;
    while i > bufMinPos
      invariant bufMinPos <= i <= s
      invariant forall j :: i < j <= s ==> !FragmentStop(b, s, end, j)
    {
      if end - i > 65 {
        break;
      }
      var c := b[i];
      if c == '<' as int && s - i > 10 {
        break;
      }
      i := i - 1;
    }
    return i;
  }
}
