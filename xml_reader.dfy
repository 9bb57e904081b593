/**
 * The encoding decisions of `XmlReader`: byte-order-mark and first-bytes
 * sniffing (Appendix F.1 of XML 1.0), the raw decision table, and the rules of
 * RFC 3023 (sections 3.1, 3.2 and 7) for an HTTP content type.
 */
module XmlReaderEncoding {
  import opened Wrappers

  const UTF_8: string := "UTF-8"
  const US_ASCII: string := "US-ASCII"
  const UTF_16BE: string := "UTF-16BE"
  const UTF_16LE: string := "UTF-16LE"
  const UTF_16: string := "UTF-16"
  const EBCDIC: string := "CP1047"

  type Byte = b: int | 0 <= b < 0x100

  /** The failures `XmlStreamReaderException` reports. */
  datatype EncodingError =
    | RawMismatch(bomEnc: Option<string>, xmlGuessEnc: Option<string>, xmlEnc: Option<string>)
    | RawUnknownBom(bomEnc: Option<string>, xmlGuessEnc: Option<string>, xmlEnc: Option<string>)
    | HttpBomWithUtf16Charset(cTMime: Option<string>, cTEnc: Option<string>, bomEnc: Option<string>)
    | HttpUtf16WithoutBom(cTMime: Option<string>, cTEnc: Option<string>, bomEnc: Option<string>)
    | HttpInvalidMime(cTMime: Option<string>, cTEnc: Option<string>)

  /** `read()` on a stream that starts with `bytes`: the byte at `i`, or -1 once the stream is exhausted. */
  function ReadAt(bytes: seq<Byte>, i: nat): int
  {
    if i < |bytes| then bytes[i] else -1
  }

  predicate StartsWithBytes(bytes: seq<Byte>, prefix: seq<Byte>)
  {
    prefix <= bytes
  }

  /**
   * `getBOMEncoding` on a stream that starts with `bytes`: the encoding a byte
   * order mark announces and the number of bytes it leaves consumed.
   */
  function GetBOMEncoding(bytes: seq<Byte>): (r: (Option<string>, nat))
    ensures r == (Some(UTF_16BE), 2) <==> StartsWithBytes(bytes, [0xFE, 0xFF])
    ensures r == (Some(UTF_16LE), 2) <==> StartsWithBytes(bytes, [0xFF, 0xFE])
    ensures r == (Some(UTF_8), 3) <==> StartsWithBytes(bytes, [0xEF, 0xBB, 0xBF])
    ensures r.0.None? <==> r.1 == 0
    ensures r.1 <= |bytes|
  {
    var b0, b1, b2 := ReadAt(bytes, 0), ReadAt(bytes, 1), ReadAt(bytes, 2);
    if b0 == 0xFE && b1 == 0xFF then
      (Some(UTF_16BE), 2)
    else if b0 == 0xFF && b1 == 0xFE then
      (Some(UTF_16LE), 2)
    else if b0 == 0xEF && b1 == 0xBB && b2 == 0xBF then
      (Some(UTF_8), 3)
    else
      (None, 0)
  }

  /** `getXMLGuessEncoding`: the encoding in which the stream would start with `<?`; the stream is reset after. */
  function GetXMLGuessEncoding(bytes: seq<Byte>): (r: Option<string>)
    ensures r == Some(UTF_16BE) <==> StartsWithBytes(bytes, [0x00, 0x3C, 0x00, 0x3F])
    ensures r == Some(UTF_16LE) <==> StartsWithBytes(bytes, [0x3C, 0x00, 0x3F, 0x00])
    ensures r == Some(UTF_8) <==> StartsWithBytes(bytes, [0x3C, 0x3F, 0x78, 0x6D])
    ensures r == Some(EBCDIC) <==> StartsWithBytes(bytes, [0x4C, 0x6F, 0xA7, 0x94])
    ensures r.None? || r.value in {UTF_16BE, UTF_16LE, UTF_8, EBCDIC}
  {
    var b0, b1, b2, b3 := ReadAt(bytes, 0), ReadAt(bytes, 1), ReadAt(bytes, 2), ReadAt(bytes, 3);
    if b0 == 0x00 && b1 == 0x3C && b2 == 0x00 && b3 == 0x3F then
      Some(UTF_16BE)
    else if b0 == 0x3C && b1 == 0x00 && b2 == 0x3F && b3 == 0x00 then
      Some(UTF_16LE)
    else if b0 == 0x3C && b1 == 0x3F && b2 == 0x78 && b3 == 0x6D then
      Some(UTF_8)
    else if b0 == 0x4C && b1 == 0x6F && b2 == 0xA7 && b3 == 0x94 then
      Some(EBCDIC)
    else
      None
  }

  /**
   * `calculateRawEncoding`: the encoding of a stream with no usable HTTP
   * content type, from its byte order mark, its first-bytes guess and the
   * encoding its prolog declares. `defaultEncoding` is the companion's
   * `defaultEncoding` setting.
   */
  function CalculateRawEncoding(bomEnc: Option<string>, xmlGuessEnc: Option<string>, xmlEnc: Option<string>,
                                defaultEncoding: Option<string>): (r: Result<string, EncodingError>)
    ensures bomEnc.None? && (xmlGuessEnc.None? || xmlEnc.None?) ==> r == Ok(defaultEncoding.GetOr(UTF_8))
    ensures bomEnc.None? && xmlGuessEnc.Some? && xmlEnc == Some(UTF_16) && xmlGuessEnc.value in {UTF_16BE, UTF_16LE} ==>
      r == Ok(xmlGuessEnc.value)
    ensures bomEnc.None? && xmlGuessEnc.Some? && xmlEnc.Some? &&
      !(xmlEnc == Some(UTF_16) && xmlGuessEnc.value in {UTF_16BE, UTF_16LE})
      ==> r == Ok(xmlEnc.value)
    ensures bomEnc == Some(UTF_8) ==>
      (r.Ok? <==> xmlGuessEnc in {None, Some(UTF_8)} && xmlEnc in {None, Some(UTF_8)}) &&
      (r.Ok? ==> r.value == UTF_8)
    ensures bomEnc.Some? && bomEnc.value in {UTF_16BE, UTF_16LE} ==>
      (r.Ok? <==> xmlGuessEnc in {None, bomEnc} && xmlEnc in {None, Some(UTF_16), bomEnc}) &&
      (r.Ok? ==> r.value == bomEnc.value)
    ensures bomEnc.Some? && bomEnc.value !in {UTF_8, UTF_16BE, UTF_16LE} ==> r == Err(RawUnknownBom(bomEnc, xmlGuessEnc, xmlEnc))
    ensures r.Err? ==> r.error.RawMismatch? || r.error.RawUnknownBom?
  {
    if bomEnc.None? then
      if xmlGuessEnc.None? || xmlEnc.None? then
        Ok(defaultEncoding.GetOr(UTF_8))
      else if xmlEnc.value == UTF_16 && (xmlGuessEnc.value == UTF_16BE || xmlGuessEnc.value == UTF_16LE) then
        Ok(xmlGuessEnc.value)
      else
        Ok(xmlEnc.value)
    else if bomEnc.value == UTF_8 then
      if xmlGuessEnc.Some? && xmlGuessEnc.value != UTF_8 then
        Err(RawMismatch(bomEnc, xmlGuessEnc, xmlEnc))
      else if xmlEnc.Some? && xmlEnc.value != UTF_8 then
        Err(RawMismatch(bomEnc, xmlGuessEnc, xmlEnc))
      else
        Ok(UTF_8)
    else if bomEnc.value == UTF_16BE || bomEnc.value == UTF_16LE then
      if (xmlGuessEnc.Some? && xmlGuessEnc.value != bomEnc.value)
         || (xmlEnc.Some? && xmlEnc.value != UTF_16 && xmlEnc.value != bomEnc.value) then
        Err(RawMismatch(bomEnc, xmlGuessEnc, xmlEnc))
      else
        Ok(bomEnc.value)
    else
      Err(RawUnknownBom(bomEnc, xmlGuessEnc, xmlEnc))
  }

  /** Whatever the raw decision picks is one of its inputs, the default, or UTF-8, and never contradicts a byte order mark. */
  lemma RawEncodingOrigin(bomEnc: Option<string>, xmlGuessEnc: Option<string>, xmlEnc: Option<string>,
                          defaultEncoding: Option<string>)
    ensures var r := CalculateRawEncoding(bomEnc, xmlGuessEnc, xmlEnc, defaultEncoding);
      r.Ok? ==> r.value in {UTF_8} + (if bomEnc.Some? then {bomEnc.value} else {})
                + (if xmlGuessEnc.Some? then {xmlGuessEnc.value} else {})
                + (if xmlEnc.Some? then {xmlEnc.value} else {})
                + (if defaultEncoding.Some? then {defaultEncoding.value} else {})
    ensures var r := CalculateRawEncoding(bomEnc, xmlGuessEnc, xmlEnc, defaultEncoding);
      r.Ok? && bomEnc.Some? ==> r.value == bomEnc.value
  {
  }

  predicate StartsWith(s: string, prefix: string)
  {
    prefix <= s
  }

  predicate EndsWith(s: string, suffix: string)
  {
    |suffix| <= |s| && s[|s| - |suffix|..] == suffix
  }

  /** The APPLICATION XML family of RFC 3023, section 3.2 and section 7. */
  predicate IsAppXml(mime: Option<string>)
  {
    mime.Some? &&
    (mime.value == "application/xml"
     || mime.value == "application/xml-dtd"
     || mime.value == "application/xml-external-parsed-entity"
     || (StartsWith(mime.value, "application/") && EndsWith(mime.value, "+xml")))
  }

  /** The TEXT XML family of RFC 3023, section 3.1 and section 7. */
  predicate IsTextXml(mime: Option<string>)
  {
    mime.Some? &&
    (mime.value == "text/xml"
     || mime.value == "text/xml-external-parsed-entity"
     || (StartsWith(mime.value, "text/") && EndsWith(mime.value, "+xml")))
  }

  lemma AppXmlStartsWithA(mime: Option<string>)
    requires IsAppXml(mime)
    ensures |mime.value| > 0 && mime.value[0] == 'a'
  {
    var m := mime.value;
    if StartsWith(m, "application/") {
      assert m[0] == "application/"[0];
    }
  }

  lemma TextXmlStartsWithT(mime: Option<string>)
    requires IsTextXml(mime)
    ensures |mime.value| > 0 && mime.value[0] == 't'
  {
    var m := mime.value;
    if StartsWith(m, "text/") {
      assert m[0] == "text/"[0];
    }
  }

  /** No MIME type belongs to both families. */
  lemma AppXmlAndTextXmlDisjoint(mime: Option<string>)
    ensures !(IsAppXml(mime) && IsTextXml(mime))
  {
    if IsAppXml(mime) && IsTextXml(mime) {
      AppXmlStartsWithA(mime);
      TextXmlStartsWithT(mime);
    }
  }

  /** `indexOf`: the first index of `c` in `s`, or -1. */
  function IndexOf(s: string, c: char): (r: int)
    ensures -1 <= r < |s|
    ensures r == -1 ==> c !in s
    ensures 0 <= r ==> s[r] == c && c !in s[..r]
  {
    if |s| == 0 then -1
    else if s[0] == c then 0
    else
      var k := IndexOf(s[1..], c);
      assert s[1..][..if k < 0 then 0 else k] == s[1..1 + (if k < 0 then 0 else k)];
      if k == -1 then -1 else 1 + k
  }

  /** `trimStart { it <= ' ' }`: the suffix left after the leading characters up to space are dropped. */
  function TrimStart(s: string): (r: string)
    ensures |r| <= |s| && r == s[|s| - |r|..]
    ensures forall k :: 0 <= k < |s| - |r| ==> s[k] <= ' '
    ensures r == [] || r[0] > ' '
    ensures forall x :: x in r ==> x in s
  {
    if |s| > 0 && s[0] <= ' ' then TrimStart(s[1..]) else s
  }

  /** `trimEnd { it <= ' ' }`: the prefix left after the trailing characters up to space are dropped. */
  function TrimEnd(s: string): (r: string)
    ensures |r| <= |s| && r == s[..|r|]
    ensures forall k :: |r| <= k < |s| ==> s[k] <= ' '
    ensures r == [] || r[|r| - 1] > ' '
    ensures forall x :: x in r ==> x in s
  {
    if |s| > 0 && s[|s| - 1] <= ' ' then TrimEnd(s[..|s| - 1]) else s
  }

  /**
   * `h[a..b)` lies in the part of `h` before `cut`, and only characters up
   * to space lie before it and after it in that part.
   */
  predicate TrimmedWindow(h: string, cut: nat, a: nat, b: nat)
    requires cut <= |h|
  {
    a <= b <= cut && (forall k :: 0 <= k < a ==> h[k] <= ' ') && (forall k :: b <= k < cut ==> h[k] <= ' ')
  }

  /** Where the part of the header before its first `;` ends: at that `;`, or at the end when it has none. */
  function MimeEnd(h: string): (r: nat)
    ensures r <= |h| && ';' !in h[..r]
    ensures r < |h| ==> h[r] == ';'
  {
    var i := IndexOf(h, ';');
    if i == -1 then |h| else i
  }

  /**
   * `m` is the part of `h` before its first `;` trimmed at both ends: a
   * window of that part with only characters up to space around it, which
   * holds no `;` and starts and ends above space.
   */
  ghost predicate TrimmedMime(h: string, m: string)
  {
    && ';' !in m
    && (m == [] || (m[0] > ' ' && m[|m| - 1] > ' '))
    && exists a: nat, b: nat :: TrimmedWindow(h, MimeEnd(h), a, b) && m == h[a..b]
  }

  /** `getContentTypeMime`: the part of the header before its first `;`, with blanks trimmed from both ends. */
  function GetContentTypeMime(httpContentType: Option<string>): (r: Option<string>)
    ensures r.None? <==> httpContentType.None?
    ensures httpContentType.Some? ==> TrimmedMime(httpContentType.value, r.value)
  {
    match httpContentType
    case None => None
    case Some(h) =>
      var cut := MimeEnd(h);
      TrimmedHead(h, cut);
      Some(TrimEnd(TrimStart(h[..cut])))
  }

  /**
   * Trimming both ends of `h[..cut]`, which holds no `;`, leaves a window of
   * it with only blanks around, starting and ending above space.
   */
  lemma TrimmedHead(h: string, cut: nat)
    requires cut <= |h| && ';' !in h[..cut]
    ensures var m := TrimEnd(TrimStart(h[..cut]));
      && ';' !in m
      && (m == [] || (m[0] > ' ' && m[|m| - 1] > ' '))
      && exists a: nat, b: nat :: TrimmedWindow(h, cut, a, b) && m == h[a..b]
  {
    var ts := TrimStart(h[..cut]);
    assert TrimEnd(ts) != [] ==> TrimEnd(ts)[0] == ts[0];
    var a := cut - |ts|;
    TrimmedFront(h, cut, ts);
    var m := TrimEnd(ts);
    TrimmedBack(h, a, cut, m);
    assert TrimmedWindow(h, cut, a, a + |m|);
  }

  /** What `TrimStart` leaves of `h[..cut]` is `h[a..cut]`, with blanks before it. */
  lemma TrimmedFront(h: string, cut: nat, ts: string)
    requires cut <= |h| && ts == TrimStart(h[..cut])
    ensures |ts| <= cut && ts == h[cut - |ts|..cut]
    ensures forall k :: 0 <= k < cut - |ts| ==> h[k] <= ' '
  {
    var head := h[..cut];
    forall k | 0 <= k < cut - |ts|
      ensures h[k] <= ' '
    {
      assert h[k] == head[k];
    }
  }

  /** What `TrimEnd` leaves of `h[a..cut]` is `h[a..b]`, with blanks after it. */
  lemma TrimmedBack(h: string, a: nat, cut: nat, m: string)
    requires a <= cut <= |h| && m == TrimEnd(h[a..cut])
    ensures a + |m| <= cut && m == h[a..a + |m|]
    ensures forall k :: a + |m| <= k < cut ==> h[k] <= ' '
  {
    var ts := h[a..cut];
    forall k | a + |m| <= k < cut
      ensures h[k] <= ' '
    {
      assert h[k] == ts[k - a];
    }
  }

  /** The first `c` in `t + [c] + rest` is the one after `t` when `t` holds none. */
  lemma {:induction false} IndexOfAfter(t: string, c: char, rest: string)
    requires c !in t
    ensures IndexOf(t + [c] + rest, c) == |t|
  {
    if |t| > 0 {
      assert (t + [c] + rest)[1..] == t[1..] + [c] + rest;
      IndexOfAfter(t[1..], c, rest);
    }
  }

  /** A MIME type followed by parameters gives the MIME type alone. */
  lemma ContentTypeMimeOfTypeAndParams(mime: string, params: string)
    requires ';' !in mime && |mime| > 0 && mime[0] > ' ' && mime[|mime| - 1] > ' '
    ensures GetContentTypeMime(Some(mime + ";" + params)) == Some(mime)
  {
    IndexOfAfter(mime, ';', params);
    assert (mime + ";" + params)[..|mime|] == mime;
    assert TrimStart(mime) == mime;
    assert TrimEnd(mime) == mime;
  }

  /** The header `text/xml; charset=utf-8` gives the MIME type `text/xml`. */
  lemma ContentTypeMimeWithCharset()
    ensures GetContentTypeMime(Some("text/xml; charset=utf-8")) == Some("text/xml")
  {
    assert "text/xml; charset=utf-8" == "text/xml" + ";" + " charset=utf-8";
    ContentTypeMimeOfTypeAndParams("text/xml", " charset=utf-8");
  }

  /** A header that is already a bare MIME type comes back unchanged. */
  lemma ContentTypeMimeOfBareType(h: string)
    requires ';' !in h && |h| > 0 && h[0] > ' ' && h[|h| - 1] > ' '
    ensures GetContentTypeMime(Some(h)) == Some(h)
  {
    assert IndexOf(h, ';') == -1;
    assert TrimStart(h) == h;
    assert TrimEnd(h) == h;
  }

  /**
   * `calculateHttpEncoding`: the encoding of a stream fetched over HTTP with
   * MIME type `cTMime` and charset `cTEnc`. In lenient mode a prolog
   * encoding wins outright.
   */
  function CalculateHttpEncoding(cTMime: Option<string>, cTEnc: Option<string>, bomEnc: Option<string>,
                                 xmlGuessEnc: Option<string>, xmlEnc: Option<string>, lenient: bool,
                                 defaultEncoding: Option<string>): (r: Result<string, EncodingError>)
    ensures lenient && xmlEnc.Some? ==> r == Ok(xmlEnc.value)
    ensures !(lenient && xmlEnc.Some?) && !IsAppXml(cTMime) && !IsTextXml(cTMime) ==>
      r == Err(HttpInvalidMime(cTMime, cTEnc))
    ensures !(lenient && xmlEnc.Some?) && IsAppXml(cTMime) && cTEnc.None? ==>
      r == CalculateRawEncoding(bomEnc, xmlGuessEnc, xmlEnc, defaultEncoding)
    ensures !(lenient && xmlEnc.Some?) && IsTextXml(cTMime) && cTEnc.None? ==>
      r == Ok(defaultEncoding.GetOr(US_ASCII))
    ensures !(lenient && xmlEnc.Some?) && (IsAppXml(cTMime) || IsTextXml(cTMime)) && cTEnc.Some? ==>
      (bomEnc.Some? && cTEnc.value in {UTF_16BE, UTF_16LE} ==> r == Err(HttpBomWithUtf16Charset(cTMime, cTEnc, bomEnc))) &&
      (cTEnc == Some(UTF_16) ==>
        if bomEnc.Some? && StartsWith(bomEnc.value, UTF_16) then r == Ok(bomEnc.value)
        else r == Err(HttpUtf16WithoutBom(cTMime, cTEnc, bomEnc))) &&
      (!(bomEnc.Some? && cTEnc.value in {UTF_16BE, UTF_16LE}) && cTEnc != Some(UTF_16) ==> r == Ok(cTEnc.value))
  {
    AppXmlAndTextXmlDisjoint(cTMime);
    if lenient && xmlEnc.Some? then
      Ok(xmlEnc.value)
    else
      var appXml := IsAppXml(cTMime);
      var textXml := IsTextXml(cTMime);
      if appXml || textXml then
        if cTEnc.None? then
          if appXml then
            CalculateRawEncoding(bomEnc, xmlGuessEnc, xmlEnc, defaultEncoding)
          else
            Ok(defaultEncoding.GetOr(US_ASCII))
        else if bomEnc.Some? && (cTEnc.value == UTF_16BE || cTEnc.value == UTF_16LE) then
          Err(HttpBomWithUtf16Charset(cTMime, cTEnc, bomEnc))
        else if cTEnc.value == UTF_16 then
          if bomEnc.Some? && StartsWith(bomEnc.value, UTF_16) then
            Ok(bomEnc.value)
          else
            Err(HttpUtf16WithoutBom(cTMime, cTEnc, bomEnc))
        else
          Ok(cTEnc.value)
      else
        Err(HttpInvalidMime(cTMime, cTEnc))
  }
}
