# XmlPullParserKmp tokenizer core in Dafny

This project models the core of a Kotlin Multiplatform port of the MXParser XML pull parser:

- `MXParser`: buffered input, the `next()`/`nextToken()` state machine and its recognisers;
- the entity template table `EntityReplacementMap`;
- the UTF-16 helpers `CodePoints` and `Char.toChars`;
- the slice copy `arraycopy`;
- `XmlPullParserException`;
- the pure encoding rules of `XmlReader`.

Kotlin `Char` is a UTF-16 code unit, modelled as `Kotlin.CodeUnit` (an `int` in `0..0xFFFF`). Strings are `seq<CodeUnit>`, and a nullable value is an `Option`.

Where the source changes state in place, the model keeps the source's form.

- `Parser.MXParser` is a class over the same fields:
  - the buffer `buf` with its cursors and `bufAbsoluteStart`;
  - the side buffer `pc`;
  - line and column;
  - the resume flags;
  - the feature switches.
- The element, attribute, namespace and entity arrays are the classes in `Tables`.
- The template table is the class `EntityReplacement.EntityReplacementMap`.
- The character source is `CharSource.Reader`, whose `Read` returns -1 or between 1 and `len` characters.

`fillBuf`, `more`, `joinPC`, `ensurePC`, `requireInput`, `skipS`, `parseEndTag`, the reference parsers, the `reset`/`setInput` family, the features and the getters are methods. Each is proved against the class invariant `Valid()`, which includes the `bufAbsoluteStart + buf[..]` mirror of the input.

The grammar of each construct is a value-level recogniser over the input (`Scans`, `Markup`, `StartTag`):

- end tag;
- character and entity references;
- comment;
- processing instruction and XML declaration;
- document type declaration;
- CDATA section;
- start tag with its attributes.

Each recogniser is proved equal to a declarative statement of the XML 1.0 production it follows, as the source reads it. For the start tag these are `StartTag.StartTagGrammar` and its converse `StartTag.StartTagLayout` (productions [40], [41] and [44], with values normalised as section 3.3.3 says). They differ from production [40] in one place: the source reads an attribute that follows the previous value with no white space in between (`<a x="1"y="2">`), so the white space before an attribute may be empty. The predicate `Agrees` ties the imperative methods to the recognisers. `Parser.MXParser.ParseEndTag`, for example, consumes exactly what `Scans.EndTagScan` accepts. Through `Positioned()` and `Tokenizer.Track`, it also leaves the line and column those characters lead to, and the errors carry that position.

`Tokenizer` composes the recognisers into the three loops of `nextImpl`, each a function over the input:

- the content loop, in both modes;
- `parseProlog`;
- `parseEpilog`.

`Tokenizer.NextImpl` dispatches on a `Resume` record of the parser's flags. It is `nextImpl` with the defects listed under "## Findings" corrected; each defect is stated separately by an as-written member. Its main results:

- `next()` coalesces content into one TEXT event whose text is the declarative `ContentText` (`Tokenizer.ContentLoopText`);
- in the prolog (production [22] of XML 1.0), white space is passed over or reported as ignorable, the first start tag is the root, an end tag or character data is refused, and a second document type declaration is refused (`Tokenizer.PrologRootAfterSpace`, `Tokenizer.IgnorableWhitespaceBeforeMarkup`, `Tokenizer.SecondDoctypeRefused`);
- in the epilog (production [27]), a start tag, an end tag or character data is refused, and white space up to the end gives END_DOCUMENT (`Tokenizer.EpilogRefusesContent`, `Tokenizer.EpilogEndsAfterSpace`). The epilog is looser than production [27] in two places, listed under "## Left out" (`Tokenizer.EpilogMarkup`).

## Model

| member | source | states |
|---|---|---|
| CharExt.ToChars | library/src/commonMain/kotlin/io/github/lemcoder/utils/CharExt.kt:9-24 | the UTF-16 units of a valid code point: one unit equal to it below U+10000, otherwise the high and low surrogates that decode back to it; an invalid code point is an error |
| CodePoints.HighSurrogate | library/src/commonMain/kotlin/io/github/lemcoder/codePoints/CodePoints.kt:36-38 | the high surrogate of a supplementary code point lies in U+D800..U+DBFF |
| CodePoints.LowSurrogate | library/src/commonMain/kotlin/io/github/lemcoder/codePoints/CodePoints.kt:40-42 | the low surrogate of a supplementary code point lies in U+DC00..U+DFFF |
| CodePoints.ToCodePoint | library/src/commonMain/kotlin/io/github/lemcoder/codePoints/CodePoints.kt:44-46 | a high and a low surrogate combine to a supplementary code point |
| CodePoints.ToChars | library/src/commonMain/kotlin/io/github/lemcoder/codePoints/CodePoints.kt:48-54 | one unit for a BMP code point and two (the surrogates) for any other value; an invalid value is not refused, as in the source. What the units are for a valid code point is stated by `CodePoints.ToCharsRoundTrip` |
| CodePoints.ValidIsBmpOrSupplementary | library/src/commonMain/kotlin/io/github/lemcoder/codePoints/CodePoints.kt:16-26 | a valid code point is exactly one that is BMP or supplementary, and never both |
| CodePoints.SurrogateRoundTrip | library/src/commonMain/kotlin/io/github/lemcoder/codePoints/CodePoints.kt:36-46 | splitting a supplementary code point into surrogates and combining them gives it back |
| CodePoints.SurrogatePairRoundTrip | library/src/commonMain/kotlin/io/github/lemcoder/codePoints/CodePoints.kt:32-46 | combining a surrogate pair and splitting the result gives the pair back |
| CodePoints.ToCharsRoundTrip | library/src/commonMain/kotlin/io/github/lemcoder/codePoints/CodePoints.kt:28-54 | `toChars` yields `charCount` units that decode back to the code point |
| CodePoints.ToCharsInto | library/src/commonMain/kotlin/io/github/lemcoder/codePoints/CodePoints.kt:56-68 | writes the code point's units at `offset` and returns their count exactly when they fit; an offset of -1 writes the low surrogate at 0 before failing, as the source's write order does; any other failure leaves the array unchanged |
| CodePoints.SetSafe | library/src/commonMain/kotlin/io/github/lemcoder/codePoints/CodePoints.kt:70-76 | stores the value when the index is inside the array; otherwise fails with the index and leaves the array unchanged |
| Utils.ArrayCopy | library/src/commonMain/kotlin/io/github/lemcoder/utils/Utils.kt:3-5 | succeeds exactly when both ranges are inside their arrays and the 32-bit end index does not overflow; then `dest` is `Copied` of the old contents (also for one array with overlapping ranges), otherwise unchanged |
| Utils.Copied | library/src/commonMain/kotlin/io/github/lemcoder/utils/Utils.kt:3-5 | the value-level copy: the window is replaced, the prefix and suffix are kept |
| Utils.CopyNothing | library/src/commonMain/kotlin/io/github/lemcoder/utils/Utils.kt:3-5 | copying zero elements leaves the destination as it was |
| Utils.CopyAll | library/src/commonMain/kotlin/io/github/lemcoder/utils/Utils.kt:3-5 | copying a whole sequence over a destination of the same length yields the source |
| PullParserException.FromMessage | library/src/commonMain/kotlin/io/github/lemcoder/exceptions/XmlPullParserException.kt:23 | the one-string constructor keeps the message, records line and column -1 and no cause |
| PullParserException.Create | library/src/commonMain/kotlin/io/github/lemcoder/exceptions/XmlPullParserException.kt:29-40 | the message is the given text, the parser's position description in `(position:…)` and `caused by: ` with the cause, each present only when its argument is and nothing else in between or after (with a parser, the message's length is the sum of the three parts); line and column come from the parser or are -1 |
| CharSource.Reader.Read | library/src/commonMain/kotlin/io/github/lemcoder/reader/Reader.kt:7 | `read(cbuf, off, len)` returns -1 exactly at the end of the stream; otherwise it delivers the next 1..`len` characters into `cbuf[off..]`, advances by that many and changes no other element |
| CharSource.Reader.constructor | library/src/commonMain/kotlin/io/github/lemcoder/reader/Reader.kt:5 | a reader over the given characters, positioned at their start |
| XmlReaderEncoding.GetBOMEncoding | library/src/commonMain/kotlin/io/github/lemcoder/reader/XmlReader.kt:290-315 | UTF-16BE, UTF-16LE or UTF-8 exactly when the stream starts with that byte order mark, with 2, 2 or 3 bytes consumed; no encoding exactly when nothing is consumed |
| XmlReaderEncoding.GetXMLGuessEncoding | library/src/commonMain/kotlin/io/github/lemcoder/reader/XmlReader.kt:318-338 | each of UTF-16BE, UTF-16LE, UTF-8 and EBCDIC exactly when the first four bytes are that encoding's spelling of the start of `<?xml`; nothing otherwise |
| XmlReaderEncoding.CalculateRawEncoding | library/src/commonMain/kotlin/io/github/lemcoder/reader/XmlReader.kt:134-172 | without a byte order mark: the default (or UTF-8) when a guess or the prolog is missing, the guess for a prolog saying UTF-16, else the prolog's; with a UTF-8 or UTF-16 mark: that mark's encoding when guess and prolog agree with it, a mismatch error otherwise; any other mark is an unknown-BOM error |
| XmlReaderEncoding.RawEncodingOrigin | library/src/commonMain/kotlin/io/github/lemcoder/reader/XmlReader.kt:134-172 | the raw decision only ever picks one of its inputs, the default or UTF-8, and never contradicts a byte order mark |
| XmlReaderEncoding.AppXmlAndTextXmlDisjoint | library/src/commonMain/kotlin/io/github/lemcoder/reader/XmlReader.kt:389-403 | no MIME type is both of the application and of the text XML family |
| XmlReaderEncoding.AppXmlStartsWithA | library/src/commonMain/kotlin/io/github/lemcoder/reader/XmlReader.kt:389-395 | every application XML type starts with `a` |
| XmlReaderEncoding.TextXmlStartsWithT | library/src/commonMain/kotlin/io/github/lemcoder/reader/XmlReader.kt:398-403 | every text XML type starts with `t` |
| XmlReaderEncoding.IndexOf | library/src/commonMain/kotlin/io/github/lemcoder/reader/XmlReader.kt:264 | the first index of the character, or -1 exactly when it is absent |
| XmlReaderEncoding.TrimStart | library/src/commonMain/kotlin/io/github/lemcoder/reader/XmlReader.kt:265 | the longest suffix that does not start with a character up to space |
| XmlReaderEncoding.TrimEnd | library/src/commonMain/kotlin/io/github/lemcoder/reader/XmlReader.kt:265 | the longest prefix that does not end with a character up to space |
| XmlReaderEncoding.MimeEnd | library/src/commonMain/kotlin/io/github/lemcoder/reader/XmlReader.kt:264-265 | the part of the header before its first `;` ends at that `;`, or at the end of the header when it has none, and holds no `;` |
| XmlReaderEncoding.GetContentTypeMime | library/src/commonMain/kotlin/io/github/lemcoder/reader/XmlReader.kt:261-268 | absent exactly when the header is; otherwise a window of the header's part before its first `;` (the whole header when it has none) with only characters up to space around it in that part, holding no `;` and starting and ending with a character above space: the part trimmed at both ends |
| XmlReaderEncoding.ContentTypeMimeOfTypeAndParams | library/src/commonMain/kotlin/io/github/lemcoder/reader/XmlReader.kt:261-268 | a trimmed MIME type followed by `;` and parameters gives the MIME type alone |
| XmlReaderEncoding.ContentTypeMimeWithCharset | library/src/commonMain/kotlin/io/github/lemcoder/reader/XmlReader.kt:261-268 | the header `text/xml; charset=utf-8` gives `text/xml` |
| XmlReaderEncoding.ContentTypeMimeOfBareType | library/src/commonMain/kotlin/io/github/lemcoder/reader/XmlReader.kt:261-268 | a header that is already a bare, trimmed MIME type comes back unchanged |
| XmlReaderEncoding.CalculateHttpEncoding | library/src/commonMain/kotlin/io/github/lemcoder/reader/XmlReader.kt:175-218 | lenient with a prolog encoding: that encoding; a MIME type of neither XML family: an invalid-MIME error; application XML without charset: the raw decision; text XML without charset: the default or US-ASCII; a UTF-16BE/LE charset with a mark: an error; charset UTF-16: the mark's encoding if it is a UTF-16 one, else an error; any other charset: that charset |
| XmlChars.XmlCharIsScalarValue | library/src/commonMain/kotlin/io/github/lemcoder/MXmlPullParser.kt:3260-3280 | every character `isValidCodePoint` admits is a valid code point that is not a surrogate, U+FFFE or U+FFFF |
| XmlChars.NameStartCharIsNameChar | library/src/commonMain/kotlin/io/github/lemcoder/MXmlPullParser.kt:3293-3302 | every name-start character is a name character, since `setNameStart` also calls `setName` |
| XmlChars.NameClassesCoverXml10 | library/src/commonMain/kotlin/io/github/lemcoder/MXmlPullParser.kt:3304-3410 | every XML 1.0 name(-start) character below U+FFF0 is accepted, and in ASCII the two classes agree exactly |
| XmlChars.NameClassesDifferFromXml10 | library/src/commonMain/kotlin/io/github/lemcoder/MXmlPullParser.kt:3361-3410 | U+FFFD is an XML 1.0 name-start character that is rejected, U+00D7 one that is accepted though XML 1.0 excludes it |
| XmlChars.MarkRange | library/src/commonMain/kotlin/io/github/lemcoder/MXmlPullParser.kt:3293-3302 | one `setName`/`setNameStart` run over `lo..hi` sets exactly those entries and keeps every other |
| XmlChars.BuildNameTables | library/src/commonMain/kotlin/io/github/lemcoder/MXmlPullParser.kt:3283-3358 | the companion's `init` leaves the two lookup tables holding exactly the name-start and the name characters below `LOOKUP_MAX` |
| XmlChars.FastHash | library/src/commonMain/kotlin/io/github/lemcoder/MXmlPullParser.kt:3199-3220 | the hash of the empty name is 0 |
| XmlChars.FastHashSamples | library/src/commonMain/kotlin/io/github/lemcoder/MXmlPullParser.kt:3199-3220 | names of one length that agree at the first, last, quarter and half positions hash alike |
| XmlChars.FastHashCollides | library/src/commonMain/kotlin/io/github/lemcoder/MXmlPullParser.kt:3199-3220 | the hash is not injective: `abc` and `axc` collide |
| XmlChars.DigitValue | library/src/commonMain/kotlin/io/github/lemcoder/MXmlPullParser.kt:2084-2117 | a hexadecimal digit's value is below 16, a decimal digit's below 10 |
| XmlChars.DigitChar | library/src/commonMain/kotlin/io/github/lemcoder/MXmlPullParser.kt:2084-2117 | the digit written for a value is a digit of the radix whose value it is |
| XmlChars.ToDigits | library/src/commonMain/kotlin/io/github/lemcoder/MXmlPullParser.kt:2123 | the spelling of a number is a non-empty run of digits of the radix |
| XmlChars.DigitsValueOfToDigits | library/src/commonMain/kotlin/io/github/lemcoder/MXmlPullParser.kt:2123 | reading back the spelling of a number gives the number |
| XmlChars.ParseCharRefDigitsRoundTrip | library/src/commonMain/kotlin/io/github/lemcoder/MXmlPullParser.kt:2123 | `toInt(radix)` of the spelling of any `Int` value is that value |
| XmlChars.ResolveCharRef | library/src/commonMain/kotlin/io/github/lemcoder/MXmlPullParser.kt:2121-2140 | a character reference stands for something exactly when its digits are an `Int` that is an XML character, and then for `charCount` units decoding to it |
| XmlChars.CharRefExamplesBmp | library/src/commonMain/kotlin/io/github/lemcoder/MXmlPullParser.kt:2121-2140 | `&#65;` and `&#x41;` both stand for `A` |
| XmlChars.CharRefExamplesInvalid | library/src/commonMain/kotlin/io/github/lemcoder/MXmlPullParser.kt:2121-2140 | `&#;`, `&#x;`, `&#0;` and `&#xFFFE;` stand for nothing |
| XmlChars.CharRefExampleSupplementary | library/src/commonMain/kotlin/io/github/lemcoder/MXmlPullParser.kt:2121-2140 | `&#x1F600;` stands for the surrogate pair D83D DE00 |
| XmlChars.PredefinedEntity | library/src/commonMain/kotlin/io/github/lemcoder/MXmlPullParser.kt:2164-2196 | a predefined entity stands for one of `<`, `&`, `>`, `'`, `"` |
| XmlChars.EolFoldSnoc | library/src/commonMain/kotlin/io/github/lemcoder/MXmlPullParser.kt:2326-2360 | the character-at-a-time end-of-line loop extends its output by one step per character |
| XmlChars.EolFoldIsNormalizeEol | library/src/commonMain/kotlin/io/github/lemcoder/MXmlPullParser.kt:2326-2360 | the `normalizedCR` loop computes the end-of-line normalisation of section 2.11 of XML 1.0, also when it starts just after a `\r` |
| XmlChars.NormalizeEolRemovesCR | library/src/commonMain/kotlin/io/github/lemcoder/MXmlPullParser.kt:2326-2360 | normalised text holds no `\r`, and text without `\r` is left alone |
| XmlChars.AttrFoldSnoc | library/src/commonMain/kotlin/io/github/lemcoder/MXmlPullParser.kt:1953-1991 | the attribute-value loop extends its output by one step per character |
| XmlChars.AttrFoldIsNormalizeAttr | library/src/commonMain/kotlin/io/github/lemcoder/MXmlPullParser.kt:1953-1991 | the attribute-value loop computes the white-space normalisation of section 3.3.3 of XML 1.0 |
| XmlChars.NormalizeAttrRemovesWhiteSpaceControls | library/src/commonMain/kotlin/io/github/lemcoder/MXmlPullParser.kt:1953-1991 | a normalised attribute value holds no tab, `\n` or `\r` |
| XmlChars.FindFragment | library/src/commonMain/kotlin/io/github/lemcoder/MXmlPullParser.kt:3222-3258 | the start of the error-message context: `bufMinPos` (or `end`) when `start` is before it; otherwise the last stopping point at or before `start` (moved to `end - 10` past 65 characters), not before `bufMinPos` |
| Scans.Track | library/src/commonMain/kotlin/io/github/lemcoder/MXmlPullParser.kt:3100-3116 | line and column after consuming a prefix of the input are both at least 1, as `more()` keeps them |
| Scans.NameEnd | library/src/commonMain/kotlin/io/github/lemcoder/MXmlPullParser.kt:1589-1592 | the end of a run of name characters: at or after its start and at a non-name character or the end of input |
| Scans.SEnd | library/src/commonMain/kotlin/io/github/lemcoder/MXmlPullParser.kt:3167-3174 | the end of a run of white space: at or after its start and at a non-space character or the end of input |
| Scans.NameEndRun | library/src/commonMain/kotlin/io/github/lemcoder/MXmlPullParser.kt:1589-1592 | everything the name run covers is a name character |
| Scans.SEndRun | library/src/commonMain/kotlin/io/github/lemcoder/MXmlPullParser.kt:3167-3174 | everything the white-space run covers is white space |
| Scans.NameEndAt | library/src/commonMain/kotlin/io/github/lemcoder/MXmlPullParser.kt:1589-1592 | any position with name characters before it and a non-name character at it is the end of the run |
| Scans.SEndAt | library/src/commonMain/kotlin/io/github/lemcoder/MXmlPullParser.kt:3167-3174 | any position with white space before it and a non-space character at it is the end of the run |
| Scans.EndTagNamed | library/src/commonMain/kotlin/io/github/lemcoder/MXmlPullParser.kt:1584-1592 | an end tag whose name starts with a name-start character goes on past its name |
| Scans.EndTagNameChecked | library/src/commonMain/kotlin/io/github/lemcoder/MXmlPullParser.kt:1601-1640 | after the name: a missing open element is a fault, a name of another length or spelling is rejected with both names and the start line, the right name goes on to white space and `>` |
| Scans.EndTagGrammar | library/src/commonMain/kotlin/io/github/lemcoder/MXmlPullParser.kt:1581-1647 | an end tag is accepted exactly when the input is the open element's name, optional white space and `>` (element type match, section 3.1 of XML 1.0) |
| Scans.DigitEnd | library/src/commonMain/kotlin/io/github/lemcoder/MXmlPullParser.kt:2081-2118 | the end of a run of digits of the radix: at a non-digit or the end of input |
| Scans.DigitEndRun | library/src/commonMain/kotlin/io/github/lemcoder/MXmlPullParser.kt:2081-2118 | everything the digit run covers is a digit of the radix |
| Scans.DigitEndAt | library/src/commonMain/kotlin/io/github/lemcoder/MXmlPullParser.kt:2081-2118 | any position with digits before it and a non-digit at it is the end of the run |
| Scans.CharRefChars | library/src/commonMain/kotlin/io/github/lemcoder/MXmlPullParser.kt:2121-2140 | a character reference stands for one or two units exactly as `ResolveCharRef` says, and only for well-formed digits |
| Scans.ReferenceAcceptedName | library/src/commonMain/kotlin/io/github/lemcoder/MXmlPullParser.kt:2145-2163 | an accepted reference that is neither numeric nor predefined is the name before the `;` that ends it |
| Scans.ReferenceChars | library/src/commonMain/kotlin/io/github/lemcoder/MXmlPullParser.kt:2062-2200 | a well-formed character reference always stands for characters; a named one does exactly when it is one of the five predefined entities |
| Scans.CharRefTextPieces | library/src/commonMain/kotlin/io/github/lemcoder/MXmlPullParser.kt:2073-2118 | a character reference is written `#`, an optional `x`, its digits and `;` |
| Scans.CharRefTextAt | library/src/commonMain/kotlin/io/github/lemcoder/MXmlPullParser.kt:2073-2118 | where the input spells a character reference, its prefix, digit run and `;` are where the scan finds them |
| Scans.CharRefScanAt | library/src/commonMain/kotlin/io/github/lemcoder/MXmlPullParser.kt:2073-2144 | a reference starting with `#`: end of input after the digits is truncation, a non-`;` after them an illegal-digit error, digits naming no character an invalid reference, otherwise accepted just after the `;` |
| Scans.CharRefAccepts | library/src/commonMain/kotlin/io/github/lemcoder/MXmlPullParser.kt:2073-2144 | a well-formed character reference naming a character is accepted where it ends |
| Scans.CharRefAcceptedText | library/src/commonMain/kotlin/io/github/lemcoder/MXmlPullParser.kt:2073-2144 | an accepted character reference is spelled exactly as written and well formed |
| Scans.CharRefGrammar | library/src/commonMain/kotlin/io/github/lemcoder/MXmlPullParser.kt:2073-2144 | a character reference is accepted exactly when the input is `#`, an optional `x`, digits naming an XML character and `;` (section 4.1 of XML 1.0, production [66]) |
| Scans.EntityRefGrammar | library/src/commonMain/kotlin/io/github/lemcoder/MXmlPullParser.kt:2145-2163 | an entity reference is accepted exactly when the input is a name and `;` (section 4.1 of XML 1.0, production [68]) |
| Scans.CharRefInvalidDigits | library/src/commonMain/kotlin/io/github/lemcoder/MXmlPullParser.kt:2121-2140 | well-formed digits naming no XML character (none, past `Int`, a surrogate, a non-character) are rejected with the digits as written |
| Markup.CommentCharAt | library/src/commonMain/kotlin/io/github/lemcoder/MXmlPullParser.kt:2290-2297 | a high surrogate is read together with the unit after it (two units), any other unit alone |
| Markup.CommentLoop | library/src/commonMain/kotlin/io/github/lemcoder/MXmlPullParser.kt:2287-2368 | the comment loop either accepts just after a `>` or rejects; it never truncates, since running out of input is reported as an unclosed comment |
| Markup.CommentLoopComplete | library/src/commonMain/kotlin/io/github/lemcoder/MXmlPullParser.kt:2287-2361 | a comment body followed by `-->` is accepted just after the `>` |
| Markup.CommentLoopSound | library/src/commonMain/kotlin/io/github/lemcoder/MXmlPullParser.kt:2287-2361 | what the loop accepts ends with `-->` after a comment body |
| Markup.CommentGrammar | library/src/commonMain/kotlin/io/github/lemcoder/MXmlPullParser.kt:2271-2368 | a comment (in the Basic Multilingual Plane) is accepted exactly when it is `-`, a body without `--` and `-->` (section 2.5 of XML 1.0) |
| Markup.CommentUnclosed | library/src/commonMain/kotlin/io/github/lemcoder/MXmlPullParser.kt:2362-2368 | a comment that runs to the end of input is reported as not closed, at the line and column where it started |
| Markup.CommentLoopUnclosed | library/src/commonMain/kotlin/io/github/lemcoder/MXmlPullParser.kt:2362-2368 | the loop reaching the end of input inside a comment reports it not closed with the saved position |
| Markup.Read | library/src/commonMain/kotlin/io/github/lemcoder/MXmlPullParser.kt:2530-2585 | `more()` inside the declaration: the character at `k`, or the unclosed-instruction error at the end of input |
| Markup.SkipSpace | library/src/commonMain/kotlin/io/github/lemcoder/MXmlPullParser.kt:3167-3174 | `skipS` stops at the first non-space character, with only white space skipped |
| Markup.RequireFrom | library/src/commonMain/kotlin/io/github/lemcoder/MXmlPullParser.kt:3151-3165 | `requireInput` succeeds only when the expected keyword follows, and reads the character after it |
| Markup.EqualsQuote | library/src/commonMain/kotlin/io/github/lemcoder/MXmlPullParser.kt:2544-2560 | after a pseudo-attribute name: white space, `=`, white space and an opening quote |
| Markup.VersionValue | library/src/commonMain/kotlin/io/github/lemcoder/MXmlPullParser.kt:2562-2578 | the version number runs to the closing quote and holds only version characters |
| Markup.EncodingValue | library/src/commonMain/kotlin/io/github/lemcoder/MXmlPullParser.kt:2635-2658 | the encoding name runs to the closing quote and holds only encoding characters |
| Markup.XmlDeclScan | library/src/commonMain/kotlin/io/github/lemcoder/MXmlPullParser.kt:2530-2585 | a declaration is returned exactly when the instruction is accepted, with version 1.0, and ends after its start |
| Markup.DeclAfterVersion | library/src/commonMain/kotlin/io/github/lemcoder/MXmlPullParser.kt:2587-2610 | after the version: only 1.0 is accepted, and a declaration comes back exactly when the scan accepts |
| Markup.DeclEncoding | library/src/commonMain/kotlin/io/github/lemcoder/MXmlPullParser.kt:2612-2669 | the encoding declaration: a declaration comes back exactly when the scan accepts |
| Markup.DeclStandalone | library/src/commonMain/kotlin/io/github/lemcoder/MXmlPullParser.kt:2671-2718 | the standalone declaration (`yes` or `no`, after white space): a declaration comes back exactly when the scan accepts |
| Markup.DeclEnd | library/src/commonMain/kotlin/io/github/lemcoder/MXmlPullParser.kt:2720-2726 | the declaration must close with `?>` |
| Markup.PILoop | library/src/commonMain/kotlin/io/github/lemcoder/MXmlPullParser.kt:2404-2506 | the instruction loop ends after its start, and a declaration only comes with an accepted instruction; `asWritten` selects the source's target test (any target starting with `xml`, lines 2437-2465) or the corrected one (`xml` followed by white space) |
| Markup.PIScanAt | library/src/commonMain/kotlin/io/github/lemcoder/MXmlPullParser.kt:2377-2528 | `parsePI`: accepted past its start when accepted; a declaration (version 1.0) only with an accepted instruction; `asWritten` selects the source's or the corrected target test |
| Markup.KeywordScan | library/src/commonMain/kotlin/io/github/lemcoder/MXmlPullParser.kt:2733-2745 | a fixed keyword read one character at a time is accepted exactly when it follows, and anything else is the given error or truncation |
| Markup.ReferenceScanAdvances | library/src/commonMain/kotlin/io/github/lemcoder/MXmlPullParser.kt:2801-2810 | a reference inside the document type declaration ends beyond its start |
| Markup.DocdeclLoop | library/src/commonMain/kotlin/io/github/lemcoder/MXmlPullParser.kt:2750-2799 | the declaration loop accepts just after a `>` |
| Markup.DocdeclLoopComplete | library/src/commonMain/kotlin/io/github/lemcoder/MXmlPullParser.kt:2750-2799 | a body that reaches bracket level 0 at a `>` is accepted there |
| Markup.DocdeclLoopSound | library/src/commonMain/kotlin/io/github/lemcoder/MXmlPullParser.kt:2750-2799 | what the loop accepts ends at the first `>` outside brackets |
| Markup.DocdeclGrammar | library/src/commonMain/kotlin/io/github/lemcoder/MXmlPullParser.kt:2730-2799 | a document type declaration without references is accepted exactly when it is `OCTYPE` and a body ending at the first `>` where every `[` has been matched |
| Markup.CDataLoop | library/src/commonMain/kotlin/io/github/lemcoder/MXmlPullParser.kt:2891-2956 | the corrected CDATA loop accepts just after a `>` or rejects the section as not closed |
| Markup.CDataLoopComplete | library/src/commonMain/kotlin/io/github/lemcoder/MXmlPullParser.kt:2891-2948 | the corrected loop accepts at the first `]]>` |
| Markup.CDataLoopSound | library/src/commonMain/kotlin/io/github/lemcoder/MXmlPullParser.kt:2891-2948 | what the corrected loop accepts ends with the first `]]>` |
| Markup.CDSectGrammar | library/src/commonMain/kotlin/io/github/lemcoder/MXmlPullParser.kt:2848-2956 | the corrected CDATA section is accepted exactly when `CDATA[` follows and the first `]]>` ends it (section 2.7 of XML 1.0) |
| Markup.CDSectEndsEarlyAsWritten | library/src/commonMain/kotlin/io/github/lemcoder/MXmlPullParser.kt:2905-2916 | as written, `]]x]>` closes a CDATA section: `CDATA[a]]x]>]]>` stops after the first `>`, the corrected loop only after the last |
| Markup.PILoopComplete | library/src/commonMain/kotlin/io/github/lemcoder/MXmlPullParser.kt:2404-2506 | a plain instruction ending in `?>` is accepted there, without a declaration |
| Markup.PILoopSound | library/src/commonMain/kotlin/io/github/lemcoder/MXmlPullParser.kt:2404-2506 | what the loop accepts ends in `?>` at the first `>` |
| Markup.PIGrammar | library/src/commonMain/kotlin/io/github/lemcoder/MXmlPullParser.kt:2377-2528 | under either target test, an instruction whose target that test does not take for the declaration and that holds no `<` is accepted exactly when it is a target, optional content and `?>` |
| Markup.XmlStylesheetAsWritten | library/src/commonMain/kotlin/io/github/lemcoder/MXmlPullParser.kt:2438-2465 | as written, `xml-stylesheet` is taken for the declaration's `xml`: at the document start it is rejected for lacking `version`, and anywhere later as a declaration that is not first (prolog) or a reserved name (content); with the intended test it is an ordinary instruction |
| Markup.VersionOnlyDeclaration | library/src/commonMain/kotlin/io/github/lemcoder/MXmlPullParser.kt:2377-2610 | `<?xml version='1.0'?>` yields the declaration with version 1.0 and nothing else, under either target test |
| Markup.PILoopTarget | library/src/commonMain/kotlin/io/github/lemcoder/MXmlPullParser.kt:2404-2436 | characters of the target that are not white space, `?`, `>` or `<` leave the instruction loop where it was: it continues the same from the target's end |
| StartTag.FirstColon | library/src/commonMain/kotlin/io/github/lemcoder/MXmlPullParser.kt:1667-1680 | the first colon of a name, or none exactly when it holds none |
| StartTag.SplitName | library/src/commonMain/kotlin/io/github/lemcoder/MXmlPullParser.kt:1694-1705 | with namespaces a name with a colon is prefix, colon and local name, the prefix colon-free; without a colon (or namespaces) it is the whole name |
| StartTag.ElementNameScan | library/src/commonMain/kotlin/io/github/lemcoder/MXmlPullParser.kt:1650-1705 | the element name is read exactly when the name run ends before the end of input and, with namespaces, neither starts with a colon nor holds two; it then ends at the first non-name character and is split at its colon; a leading colon and a second colon are each reported as their own error |
| StartTag.AttributeNameScan | library/src/commonMain/kotlin/io/github/lemcoder/MXmlPullParser.kt:1819-1931 | an attribute name ends at the first non-name character and is read exactly when the namespace rules allow it; it then stands for `AttributeNameOf` (always a plain name without namespaces); a leading colon, `xmlns` not followed by a colon, a second colon, and `xmlns:` without a prefix are each reported as their own error, in that order, and a name that runs to the end of input is truncated |
| StartTag.ReferenceValue | library/src/commonMain/kotlin/io/github/lemcoder/MXmlPullParser.kt:2812-2845 | a reference in an attribute value is read exactly when it is well formed and resolves; it then gives the character, the predefined entity or the entity table's replacement text and ends after its `;`; a malformed reference stops as its scan does, and a name that resolves to nothing is an unresolved-entity error |
| StartTag.AttrValueLoop | library/src/commonMain/kotlin/io/github/lemcoder/MXmlPullParser.kt:1953-1991 | the value loop ends within the input, past its start (what it reads is stated by `StartTag.AttValueGrammar`) |
| StartTag.LiteralValueFold | library/src/commonMain/kotlin/io/github/lemcoder/MXmlPullParser.kt:1953-1991 | a value without references is its text run through the attribute normalisation loop, ending after the quote |
| StartTag.LiteralValueNormalized | library/src/commonMain/kotlin/io/github/lemcoder/MXmlPullParser.kt:1953-1991 | a value without references is its text with white space normalised as section 3.3.3 of XML 1.0 says |
| StartTag.AttributeScan | library/src/commonMain/kotlin/io/github/lemcoder/MXmlPullParser.kt:1819-1991 | an attribute ends within the input past its first character, and is plain without namespaces (what it reads is stated by `StartTag.AttributeGrammar` and `StartTag.AttributeScanLayout`) |
| StartTag.Admit | library/src/commonMain/kotlin/io/github/lemcoder/MXmlPullParser.kt:1993-2047 | an ordinary attribute is appended unchanged; a namespace declaration is admitted exactly when a prefix is not bound to the empty URI and this tag has not declared it already, and is then appended to the declarations, the attributes unchanged; an empty non-default URI and a repeated prefix are reported as their own errors, in that order |
| StartTag.AttributeStep | library/src/commonMain/kotlin/io/github/lemcoder/MXmlPullParser.kt:1715-1735 | one attribute read and admitted keeps the declarations well formed, and adds none without namespaces |
| StartTag.AttributeStepAdmits | library/src/commonMain/kotlin/io/github/lemcoder/MXmlPullParser.kt:1715-1735 | one step succeeds exactly when the attribute is read and admitted; it then holds what admitting that attribute gives (the attribute or the declaration appended) and goes on after the attribute |
| StartTag.TagEnd | library/src/commonMain/kotlin/io/github/lemcoder/MXmlPullParser.kt:1721-1730 | the tag ends with `>`, and is an empty-element tag exactly when `/` came first |
| StartTag.AttributesLoop | library/src/commonMain/kotlin/io/github/lemcoder/MXmlPullParser.kt:1715-1737 | the attribute loop ends just after a `>`, with well-formed declarations and none without namespaces (what it reads is stated by `StartTag.AttributesLoopGrammar`) |
| StartTag.StartTagScan | library/src/commonMain/kotlin/io/github/lemcoder/MXmlPullParser.kt:1650-1737 | `parseStartTag`'s reading part ends just after a `>` with well-formed declarations; without namespaces there is no prefix and no declaration (what it reads is stated by `StartTag.StartTagGrammar` and `StartTag.StartTagLayout`) |
| StartTag.AttributeNameOf | library/src/commonMain/kotlin/io/github/lemcoder/MXmlPullParser.kt:1871-1925 | an allowed attribute name stands for the whole name without namespaces; with them `xmlns` declares the default namespace, `xmlns:p` declares the non-empty colon-free prefix `p`, and any other name is a plain name whose prefix, colon and local name make up the name exactly when it holds a colon |
| StartTag.AttrValueLoopEnds | library/src/commonMain/kotlin/io/github/lemcoder/MXmlPullParser.kt:1953-1991 | a value the loop reads ends just after the first matching quote after its start |
| StartTag.AttValueGrammar | library/src/commonMain/kotlin/io/github/lemcoder/MXmlPullParser.kt:1953-1991 | up to the first closing quote, the value loop reads a value exactly when the declarative value text of section 3.3.3 of XML 1.0 (literal runs normalised, references replaced, no `<`) is defined, and then yields that text and ends past the quote |
| StartTag.ValueGrammar | library/src/commonMain/kotlin/io/github/lemcoder/MXmlPullParser.kt:1927-1991 | after a name laid out as production [41] of XML 1.0 says (white space, `=`, white space, quoted value), the value is read exactly when its value text is defined, and is then that text ending past the closing quote |
| StartTag.AttributeGrammar | library/src/commonMain/kotlin/io/github/lemcoder/MXmlPullParser.kt:1819-1991 | an attribute laid out as production [41] says is read exactly when its name is allowed and its value text is defined, and is then that name and that text, reading going on past the closing quote |
| StartTag.AttributeScanLayout | library/src/commonMain/kotlin/io/github/lemcoder/MXmlPullParser.kt:1819-1991 | conversely, every attribute the scan reads from a name start character is laid out as production [41] says and ends past its closing quote |
| StartTag.AdmitAllSpec | library/src/commonMain/kotlin/io/github/lemcoder/MXmlPullParser.kt:1993-2047 | admitting attributes one at a time succeeds exactly when all the declarations together are well formed (no prefix declared twice, none declared empty), and then appends the ordinary attributes and the declarations each in order |
| StartTag.TagCloseGrammar | library/src/commonMain/kotlin/io/github/lemcoder/MXmlPullParser.kt:1721-1730 | a tag close written as `>` or `/>` after optional white space ends the attribute loop with nothing added and says whether the tag is empty |
| StartTag.AttributesLoopGrammar | library/src/commonMain/kotlin/io/github/lemcoder/MXmlPullParser.kt:1715-1737 | on an attribute list laid out as production [40] says, except that the white space before an attribute may be empty as the source reads it, the loop reads the list exactly when every attribute is read and the declarations among them can be admitted, and then yields the ordinary attributes and declarations in order, whether the tag is empty, and ends past the `>` |
| StartTag.ExpectedLoopItems | library/src/commonMain/kotlin/io/github/lemcoder/MXmlPullParser.kt:1715-1737 | the attribute-by-attribute reference for the loop admits something exactly when every attribute is read and admitting all their items succeeds, and then exactly what that admits |
| StartTag.StartTagGrammar | library/src/commonMain/kotlin/io/github/lemcoder/MXmlPullParser.kt:1650-1737 | a start tag laid out as productions [40] and [44] of XML 1.0 say, except that the white space before an attribute may be empty as the source reads it, is read exactly when its name is allowed, every attribute is read and its declarations are well formed; it then carries the raw name split into prefix and local name, the ordinary attributes and declarations in the order written with their normalised values, and whether it is empty, reading going on past the `>` |
| StartTag.StartTagLayout | library/src/commonMain/kotlin/io/github/lemcoder/MXmlPullParser.kt:1650-1737 | conversely, every start tag the scan reads is laid out as productions [40] and [44] say, except that the white space before an attribute may be empty, ending past the `>` of its tag close |
| StartTag.ElementUri | library/src/commonMain/kotlin/io/github/lemcoder/MXmlPullParser.kt:1739-1750 | the element's URI: an error exactly when its prefix is bound to nothing; otherwise the bound URI, or no namespace for no prefix |
| StartTag.AttributeUris | library/src/commonMain/kotlin/io/github/lemcoder/MXmlPullParser.kt:1757-1768 | each attribute's prefix resolved in order |
| StartTag.ResolveAttributes | library/src/commonMain/kotlin/io/github/lemcoder/MXmlPullParser.kt:1757-1768 | succeeds exactly when every attribute prefix is bound, each attribute then carrying its URI; otherwise the first unbound prefix is reported |
| StartTag.Keys | library/src/commonMain/kotlin/io/github/lemcoder/MXmlPullParser.kt:1773-1810 | each attribute's uniqueness key, in order |
| StartTag.Unique | library/src/commonMain/kotlin/io/github/lemcoder/MXmlPullParser.kt:1773-1810 | the element is kept exactly when no two attributes share a key (URI and local name with namespaces, the name without); otherwise a pair that does is reported (section 3.1 of XML 1.0, Unique Att Spec, and section 6.3 of Namespaces in XML) |
| StartTag.ResolveStartTag | library/src/commonMain/kotlin/io/github/lemcoder/MXmlPullParser.kt:1739-1814 | a resolved tag keeps every attribute in order with its name and value (and its prefix with namespaces), keeps the element's local name (and prefix with namespaces), and no two of its attributes share a key |
| StartTag.ResolveStartTagAccepts | library/src/commonMain/kotlin/io/github/lemcoder/MXmlPullParser.kt:1739-1814 | a tag resolves without namespaces exactly when no two attributes share a name, and with namespaces exactly when the element prefix and every attribute prefix are bound in the scope the tag opens and no two attributes share URI and local name |
| StartTag.Names | library/src/commonMain/kotlin/io/github/lemcoder/MXmlPullParser.kt:1773-1810 | the attributes' names, in order |
| StartTag.ResolvedPrefixesBound | library/src/commonMain/kotlin/io/github/lemcoder/MXmlPullParser.kt:1739-1768 | in a tag that resolves, the element prefix and every attribute prefix stand for the URI of their innermost declaration (section 5 of Namespaces in XML) |
| StartTag.SameUriTwoPrefixesAsWritten | library/src/commonMain/kotlin/io/github/lemcoder/MXmlPullParser.kt:1773-1790 | as written, `p:x` and `q:x` with `p` and `q` both bound to `u` pass the identity test on the URIs; the corrected check reports them duplicated |
| Tables.Resized | library/src/commonMain/kotlin/io/github/lemcoder/MXmlPullParser.kt:101-167 | a reallocated array has the new size, the kept prefix copied and defaults elsewhere |
| Tables.ElementStackSize | library/src/commonMain/kotlin/io/github/lemcoder/MXmlPullParser.kt:105 | the element stack grows to more than `depth + 1` slots |
| Tables.GrownSize | library/src/commonMain/kotlin/io/github/lemcoder/MXmlPullParser.kt:187-222 | the attribute, namespace and entity stacks grow past the needed index and to at least 8 |
| Tables.LastIndexOf | library/src/commonMain/kotlin/io/github/lemcoder/MXmlPullParser.kt:640-662 | the highest index holding a value, or none exactly when it is absent |
| Tables.IndexOf | library/src/commonMain/kotlin/io/github/lemcoder/MXmlPullParser.kt:1773-1810 | the lowest index holding a value, or none exactly when it is absent |
| Tables.FirstDuplicate | library/src/commonMain/kotlin/io/github/lemcoder/MXmlPullParser.kt:1773-1810 | the first repeated key in the order of the double loop, or none exactly when all keys are distinct |
| Tables.TableKeys | library/src/commonMain/kotlin/io/github/lemcoder/MXmlPullParser.kt:1773-1810 | what the uniqueness check compares for each attribute: the URI with namespaces and the name |
| Tables.FirstDuplicateOfPrefix | library/src/commonMain/kotlin/io/github/lemcoder/MXmlPullParser.kt:1773-1810 | a repetition found among the first keys is the first of all the keys, as the loop stops there |
| Tables.FirstDuplicateStep | library/src/commonMain/kotlin/io/github/lemcoder/MXmlPullParser.kt:1773-1810 | a repetition-free prefix extended by one key repeats exactly when the key occurs earlier |
| Tables.NamespaceOfInnermost | library/src/commonMain/kotlin/io/github/lemcoder/MXmlPullParser.kt:640-662 | the newest declaration of a prefix decides what it means |
| Tables.XmlPrefixImplicit | library/src/commonMain/kotlin/io/github/lemcoder/MXmlPullParser.kt:649-653 | `xml` stands for its fixed URI unless a declaration in scope rebinds it |
| Tables.AttributeIndex | library/src/commonMain/kotlin/io/github/lemcoder/MXmlPullParser.kt:882-912 | the first attribute with the local name (in the namespace, if one is given), or none exactly when no attribute matches |
| Tables.BindingsExtend | library/src/commonMain/kotlin/io/github/lemcoder/MXmlPullParser.kt:2000-2036 | declarations are checked one at a time: the next is admitted exactly when its prefix is new in the tag and a prefix is not bound to the empty URI |
| Tables.Resume | library/src/commonMain/kotlin/io/github/lemcoder/MXmlPullParser.kt:1047-1056 | the start of `nextImpl` pops an element whose END_TAG was reported, and after `<a/>` schedules the synthetic END_TAG without popping |
| Tables.StartElement | library/src/commonMain/kotlin/io/github/lemcoder/MXmlPullParser.kt:1654 | `parseStartTag` goes one level deeper with the new declarations in scope and the outer levels kept |
| Tables.EndElement | library/src/commonMain/kotlin/io/github/lemcoder/MXmlPullParser.kt:1642-1646 | `parseEndTag` keeps the depth and only schedules the pop |
| Tables.EmptyElementRoundTrip | library/src/commonMain/kotlin/io/github/lemcoder/MXmlPullParser.kt:1047-1056 | `<a/>` yields START_TAG and a synthetic END_TAG one level deeper, and the call after that is back at the nesting from before the tag |
| Tables.ElementRoundTrip | library/src/commonMain/kotlin/io/github/lemcoder/MXmlPullParser.kt:1047-1056 | whatever happens inside an element, its END_TAG and the next call restore the nesting from before its start tag |
| Tables.ElementStack.constructor | library/src/commonMain/kotlin/io/github/lemcoder/MXmlPullParser.kt:80-93 | the field initialisers: depth 0 and no element arrays yet |
| Tables.ElementStack.OpenTag | library/src/commonMain/kotlin/io/github/lemcoder/MXmlPullParser.kt:1604-1605 | the raw name and start line of the innermost open element, or a null-pointer failure when there is none |
| Tables.ElementStack.EnsureElementsCapacity | library/src/commonMain/kotlin/io/github/lemcoder/MXmlPullParser.kt:101-167 | afterwards there is a slot past `depth + 1`; a full stack grows to `ElementStackSize` with every old entry kept, and a first allocation starts the namespace counts at 0 |
| Tables.ElementStack.Deepen | library/src/commonMain/kotlin/io/github/lemcoder/MXmlPullParser.kt:1654-1679 | one level deeper with room for it, the enclosing levels' namespace counts kept |
| Tables.ElementStack.RecordElement | library/src/commonMain/kotlin/io/github/lemcoder/MXmlPullParser.kt:1679-1716 | the new element's raw name, start line and name (and prefix and URI with namespaces) are recorded at `depth`, every other level kept |
| Tables.ElementStack.RecordNamespaceCount | library/src/commonMain/kotlin/io/github/lemcoder/MXmlPullParser.kt:1813 | the new level's count of declarations in scope is recorded, the open tag unchanged |
| Tables.AttributeList.constructor | library/src/commonMain/kotlin/io/github/lemcoder/MXmlPullParser.kt:170-182 | the field initialisers: no attribute |
| Tables.AttributeList.EnsureAttributesCapacity | library/src/commonMain/kotlin/io/github/lemcoder/MXmlPullParser.kt:187-222 | afterwards the index exists; a full list grows to `GrownSize` with the old entries kept |
| Tables.NamespaceStack.constructor | library/src/commonMain/kotlin/io/github/lemcoder/MXmlPullParser.kt:225-231 | the field initialisers: no declaration |
| Tables.NamespaceStack.EnsureNamespacesCapacity | library/src/commonMain/kotlin/io/github/lemcoder/MXmlPullParser.kt:233-259 | afterwards the index exists, the declarations in scope are kept |
| Tables.NamespaceStack.WriteDeclaration | library/src/commonMain/kotlin/io/github/lemcoder/MXmlPullParser.kt:2009-2022 | the prefix, its hash and the URI are written at `namespaceEnd` and nowhere else |
| Tables.NamespaceStack.PrefixDeclaredSince | library/src/commonMain/kotlin/io/github/lemcoder/MXmlPullParser.kt:2024-2035 | the duplicate search finds a prefix exactly when the current element already declared it |
| Tables.NamespaceStack.Declare | library/src/commonMain/kotlin/io/github/lemcoder/MXmlPullParser.kt:1993-2036 | a declaration is refused exactly when it binds a prefix to the empty URI or repeats a prefix of the current element, with the matching error and the stack unchanged; otherwise it is pushed |
| Tables.NamespaceStack.DeclareAll | library/src/commonMain/kotlin/io/github/lemcoder/MXmlPullParser.kt:1993-2036 | a tag's declarations are all pushed, in order, exactly when they are well formed; otherwise one is refused |
| Tables.NamespaceStack.DeclareNext | library/src/commonMain/kotlin/io/github/lemcoder/MXmlPullParser.kt:1993-2036 | one declaration after the first `k`: pushed exactly when the first `k + 1` are well formed |
| Tables.EntityTable.constructor | library/src/commonMain/kotlin/io/github/lemcoder/MXmlPullParser.kt:262-272 | the field initialisers: no entity |
| Tables.EntityTable.EnsureEntityCapacity | library/src/commonMain/kotlin/io/github/lemcoder/MXmlPullParser.kt:276-304 | afterwards slot `entityEnd` exists and the defined entities are kept; new slots hold no name |
| Tables.EntityTable.ResolveAlias | library/src/commonMain/kotlin/io/github/lemcoder/MXmlPullParser.kt:575-583 | the alias loop stores what `ResolveIn` says: the last stored name equal to the text between its first and last characters decides |
| Tables.EntityTable.DefineEntityReplacementText | library/src/commonMain/kotlin/io/github/lemcoder/MXmlPullParser.kt:569-600 | a null name or text is an illegal argument that changes nothing; otherwise the next slot holds the name, its hash and the text resolved one level, the earlier slots kept |
| Tables.EntityTable.SetupFromTemplate | library/src/commonMain/kotlin/io/github/lemcoder/MXmlPullParser.kt:427-441 | with a template the entity table becomes the template's, entry by entry; without one nothing changes |
| Tables.OpenScope | library/src/commonMain/kotlin/io/github/lemcoder/MXmlPullParser.kt:1650-1813 | the stack bookkeeping of a start tag: refused exactly when its declarations are not well formed; otherwise one level deeper as `StartElement` says, with the open tag recorded and the declarations pushed |
| Parser.SoftLimitBounds | library/src/commonMain/kotlin/io/github/lemcoder/MXmlPullParser.kt:311-318 | the soft limit (95% of the buffer, truncated) lies strictly between 0 and the buffer size |
| Parser.ReadLengthPositive | library/src/commonMain/kotlin/io/github/lemcoder/MXmlPullParser.kt:2971-3012 | after the compaction or growth step the requested read length is positive, so a `read` returning 0 is an error and not an end of input |
| Parser.NewPCSizeRoom | library/src/commonMain/kotlin/io/github/lemcoder/MXmlPullParser.kt:3127-3135 | `ensurePC` makes room past `end` whenever doubling it does not overflow |
| Parser.EarlierSameKey | library/src/commonMain/kotlin/io/github/lemcoder/MXmlPullParser.kt:1774-1789 | the inner duplicate loop returns the first earlier attribute with the same key, comparing hashes before names |
| Parser.FindDuplicate | library/src/commonMain/kotlin/io/github/lemcoder/MXmlPullParser.kt:1773-1810 | the double loop finds the first repeated key, as `FirstDuplicate` defines it |
| Parser.Substring | library/src/commonMain/kotlin/io/github/lemcoder/MXmlPullParser.kt:1606-1607 | `concatToString(start, end)` is the slice exactly when the range is inside the array, an exception otherwise |
| Parser.At | library/src/commonMain/kotlin/io/github/lemcoder/MXmlPullParser.kt:1604 | an array read is the element exactly when the index is inside the array |
| Parser.Update | library/src/commonMain/kotlin/io/github/lemcoder/MXmlPullParser.kt:1686-1688 | an array write changes only that element, exactly when the index is inside the array |
| Parser.AllSFromRange | library/src/commonMain/kotlin/io/github/lemcoder/MXmlPullParser.kt:686-705 | within the array the `isS` loop answers whether the range is all white space |
| Parser.NewString | library/src/commonMain/kotlin/io/github/lemcoder/MXmlPullParser.kt:44-46 | `newString(cbuf, off, len)` is the slice when the range is inside the array |
| Parser.ScanS | library/src/commonMain/kotlin/io/github/lemcoder/MXmlPullParser.kt:686-705 | the `isS` loop of `isWhitespace` computes `AllSFrom` of the range |
| Parser.SameChars | library/src/commonMain/kotlin/io/github/lemcoder/MXmlPullParser.kt:1616-1628 | the comparison loop of `parseEndTag` answers exactly whether the buffer spells the open element's name |
| Parser.ResolveInTwoSteps | library/src/commonMain/kotlin/io/github/lemcoder/MXmlPullParser.kt:2228-2242 | a reference resolves to what it stands for itself (character reference or predefined entity), else to the table entry for its name |
| Parser.TableLookupFindsLast | library/src/commonMain/kotlin/io/github/lemcoder/MXmlPullParser.kt:2244-2268 | a name is found exactly when it is defined, and then with the replacement of its last definition |
| Parser.PredefinedNotOverridden | library/src/commonMain/kotlin/io/github/lemcoder/MXmlPullParser.kt:2164-2196 | the five predefined entities keep their meaning whatever the table defines |
| Parser.LatestDefinitionWins | library/src/commonMain/kotlin/io/github/lemcoder/MXmlPullParser.kt:2244-2268 | a name defined last resolves to its latest replacement, unless it is predefined |
| Parser.UndefinedUnresolved | library/src/commonMain/kotlin/io/github/lemcoder/MXmlPullParser.kt:2228-2268 | an undefined name that is not predefined resolves to nothing |
| Parser.LookupEntityReplacement | library/src/commonMain/kotlin/io/github/lemcoder/MXmlPullParser.kt:2244-2268 | the search from the last defined entity down returns the index of the last entry whose hash, length and characters all match the name |
| Parser.MXParser.constructor | library/src/commonMain/kotlin/io/github/lemcoder/MXmlPullParser.kt:419-425 | a new parser: no reader, the template kept, event START_DOCUMENT, empty tables, no feature on, buffers of their initial sizes |
| Parser.MXParser.ExpectedTags | library/src/commonMain/kotlin/io/github/lemcoder/MXmlPullParser.kt:3028-3085 | the list of open tags for the "no more data" report fails only as the array reads it makes can fail |
| Parser.MXParser.ExpectedEndTags | library/src/commonMain/kotlin/io/github/lemcoder/MXmlPullParser.kt:3045-3081 | the entries for the open levels from `i` down to 1, failing only as their array reads can |
| Parser.MXParser.NoMoreDataFailure | library/src/commonMain/kotlin/io/github/lemcoder/MXmlPullParser.kt:3026-3091 | the failure for input that ends inside the document is an end-of-file, or an exception from building its message |
| Parser.MXParser.MakeRoom | library/src/commonMain/kotlin/io/github/lemcoder/MXmlPullParser.kt:2971-3008 | past the soft limit the unread part moves to the front of the buffer (compaction) or of one twice the size (growth), every cursor with it, so that the next read has room; below the limit nothing moves |
| Parser.MXParser.Grow | library/src/commonMain/kotlin/io/github/lemcoder/MXmlPullParser.kt:2985-2997 | the growth branch: a buffer twice the size with the unread part at its front, unless the size overflows |
| Parser.MXParser.CopyUnread | library/src/commonMain/kotlin/io/github/lemcoder/MXmlPullParser.kt:2978 | the unread part `buf[bufStart..bufEnd)` lands at the front of the destination, also when it is `buf` itself |
| Parser.MXParser.Relocate | library/src/commonMain/kotlin/io/github/lemcoder/MXmlPullParser.kt:2998-3003 | the buffer becomes the destination and every cursor shifts by `bufStart`, the absolute offsets unchanged |
| Parser.MXParser.ReadChunk | library/src/commonMain/kotlin/io/github/lemcoder/MXmlPullParser.kt:3011-3021 | a read appends between 1 and `len` characters at `bufEnd`, or returns -1 exactly at the end of input |
| Parser.MXParser.FillBuf | library/src/commonMain/kotlin/io/github/lemcoder/MXmlPullParser.kt:2967-3097 | `fillBuf`: without a reader an error; otherwise more input is buffered, or at the end of input: no data at all is an end-of-file, the end in the epilog sets `reachedEnd`, and an end inside the document is the "no more data" failure |
| Parser.MXParser.More | library/src/commonMain/kotlin/io/github/lemcoder/MXmlPullParser.kt:3100-3116 | `more()` returns the next input character, moving to column 1 of the next line after `\n` and one column on otherwise; at the end of input the failures of `fillBuf` |
| Parser.MXParser.Next | library/src/commonMain/kotlin/io/github/lemcoder/MXmlPullParser.kt:3100-3116 | `more()` as the recognisers use it: the next input character, or the end of input, with the position kept in step |
| Parser.MXParser.Advance | library/src/commonMain/kotlin/io/github/lemcoder/MXmlPullParser.kt:3106-3115 | consuming `buf[pos]` returns the next input character and tracks line and column |
| Parser.MXParser.EnsurePC | library/src/commonMain/kotlin/io/github/lemcoder/MXmlPullParser.kt:3127-3135 | a larger side buffer of the computed size holding the first `pcEnd` characters of the old one, unless the size is negative |
| Parser.MXParser.ReservePC | library/src/commonMain/kotlin/io/github/lemcoder/MXmlPullParser.kt:1974 | `if (end >= pc.size) ensurePC(end)`: afterwards index `end` exists and the collected text is kept, unless the doubling overflowed |
| Parser.MXParser.AppendPC | library/src/commonMain/kotlin/io/github/lemcoder/MXmlPullParser.kt:1985-1986 | `pc[pcEnd++] = ch` with room made first: the side buffer's text extended by the character |
| Parser.MXParser.JoinPC | library/src/commonMain/kotlin/io/github/lemcoder/MXmlPullParser.kt:3137-3148 | `joinPC`: the side buffer's text is extended by the buffer range scanned so far, and `usePC` is set |
| Parser.MXParser.CopyToPC | library/src/commonMain/kotlin/io/github/lemcoder/MXmlPullParser.kt:3145-3146 | `len` characters from `posStart` appended at `pcEnd`, exactly when both ranges fit |
| Parser.MXParser.RequireInput | library/src/commonMain/kotlin/io/github/lemcoder/MXmlPullParser.kt:3151-3164 | `requireInput`: the characters read must spell the keyword, and the one after it is returned; a first character that differs is rejected at once |
| Parser.MXParser.SkipS | library/src/commonMain/kotlin/io/github/lemcoder/MXmlPullParser.kt:3167-3174 | `skipS` consumes exactly the run of white space and returns the character after it |
| Parser.MXParser.NameTail | library/src/commonMain/kotlin/io/github/lemcoder/MXmlPullParser.kt:1590-1592 | the name loop consumes exactly the run of name characters and returns the character after it |
| Parser.MXParser.BufferMirrors | library/src/commonMain/kotlin/io/github/lemcoder/MXmlPullParser.kt:2998-3003 | the buffer holds the input at the corresponding absolute offsets |
| Parser.MXParser.SetPosStart | library/src/commonMain/kotlin/io/github/lemcoder/MXmlPullParser.kt:1588 | `posStart` is set, the token's absolute start with it |
| Parser.MXParser.EndTagSeen | library/src/commonMain/kotlin/io/github/lemcoder/MXmlPullParser.kt:1643-1646 | the end of `parseEndTag`: `posEnd` at `pos`, `pastEndTag` set and the event END_TAG |
| Parser.MXParser.SetPosEnd | library/src/commonMain/kotlin/io/github/lemcoder/MXmlPullParser.kt:1643 | `posEnd` is set, the token's absolute end with it |
| Parser.MXParser.EndTagName | library/src/commonMain/kotlin/io/github/lemcoder/MXmlPullParser.kt:1584-1592 | the end tag's name: a name-start character and name characters, with the errors the end-tag recogniser reports; `posStart` marks the `<` |
| Parser.MXParser.EndTagNameTail | library/src/commonMain/kotlin/io/github/lemcoder/MXmlPullParser.kt:1588-1592 | the rest of the name after its first character, as the recogniser reads it |
| Parser.MXParser.EndTagMatches | library/src/commonMain/kotlin/io/github/lemcoder/MXmlPullParser.kt:1601-1628 | no open element is a failure; a name of another length or spelling is rejected with both names and the open element's line; otherwise that line is returned |
| Parser.MXParser.EndTagClosing | library/src/commonMain/kotlin/io/github/lemcoder/MXmlPullParser.kt:1630-1646 | optional white space and `>` close the tag, with the event END_TAG and the pop deferred; anything else is rejected with the position the recogniser gives |
| Parser.MXParser.ParseEndTag | library/src/commonMain/kotlin/io/github/lemcoder/MXmlPullParser.kt:1581-1647 | `parseEndTag` agrees with the end-tag recogniser on the whole input: accepted exactly where `EndTagScan` accepts (name of the open element, white space, `>`), rejected with its error and line/column otherwise; on success END_TAG with `posStart`/`posEnd` bracketing the tag |
| Parser.MXParser.EndTagRest | library/src/commonMain/kotlin/io/github/lemcoder/MXmlPullParser.kt:1601-1646 | the name check against the open element and the close, as the recogniser's `EndTagAfterName` |
| Parser.MXParser.NameInBuffer | library/src/commonMain/kotlin/io/github/lemcoder/MXmlPullParser.kt:1601-1605 | the end tag's name read from the input is in the buffer right after the `</` `posStart` marks |
| Parser.MXParser.ReferenceStart | library/src/commonMain/kotlin/io/github/lemcoder/MXmlPullParser.kt:2068-2071 | the start of a reference: no entity name, `posStart` at `pos`, nothing resolved |
| Parser.MXParser.CharRefDigits | library/src/commonMain/kotlin/io/github/lemcoder/MXmlPullParser.kt:2081-2118 | the digit loops collect the digits of the radix up to `;`, rejecting any other character as the recogniser does |
| Parser.MXParser.DigitRun | library/src/commonMain/kotlin/io/github/lemcoder/MXmlPullParser.kt:2081-2118 | every digit of the radix from the last character read is collected, with the character after them |
| Parser.MXParser.HexDigits | library/src/commonMain/kotlin/io/github/lemcoder/MXmlPullParser.kt:2081-2100 | the hexadecimal loop after `&#x` collects the digits up to `;` |
| Parser.MXParser.CharRefRest | library/src/commonMain/kotlin/io/github/lemcoder/MXmlPullParser.kt:2076-2140 | decimal digits, or hexadecimal ones after `x`, then `;`, naming an XML character: returns its units, with the errors the recogniser gives |
| Parser.MXParser.CharRef | library/src/commonMain/kotlin/io/github/lemcoder/MXmlPullParser.kt:2073-2144 | the character-reference branch agrees with the reference recogniser and returns what the reference stands for |
| Parser.MXParser.EntityRefName | library/src/commonMain/kotlin/io/github/lemcoder/MXmlPullParser.kt:2145-2163 | the entity-reference branch reads a name-start character, name characters and `;`, agreeing with the recogniser, and returns the name |
| Parser.MXParser.ReferenceAfter | library/src/commonMain/kotlin/io/github/lemcoder/MXmlPullParser.kt:2073-2196 | after the first character: a character reference after `#`, an entity reference otherwise, agreeing with the recogniser, with what it stands for |
| Parser.MXParser.ReferenceBody | library/src/commonMain/kotlin/io/github/lemcoder/MXmlPullParser.kt:2072-2196 | the body of `parseCharOrPredefinedEntityRef` agrees with the reference recogniser on the whole input |
| Parser.MXParser.ReferenceEnd | library/src/commonMain/kotlin/io/github/lemcoder/MXmlPullParser.kt:2141-2200 | the reference's characters are recorded, `posEnd` at `pos`, and in `nextToken()` mode the text is what it stands for |
| Parser.MXParser.ParseCharOrPredefinedEntityRef | library/src/commonMain/kotlin/io/github/lemcoder/MXmlPullParser.kt:2062-2201 | `parseCharOrPredefinedEntityRef` agrees with the reference recogniser (section 4.1 of XML 1.0): accepted references resolve to their characters or the predefined entity's, `posStart`/`posEnd` bracket them, and the returned length is that of the characters or the name |
| Parser.MXParser.TableResolution | library/src/commonMain/kotlin/io/github/lemcoder/MXmlPullParser.kt:2244-2268 | the entry found gives the replacement and, in `nextToken()` mode, the text; no entry gives neither |
| Parser.MXParser.ResolveFromTable | library/src/commonMain/kotlin/io/github/lemcoder/MXmlPullParser.kt:2231-2241 | `posEnd` steps back over `;` and the name is looked up in the table, its last definition winning |
| Parser.MXParser.ResolveNamed | library/src/commonMain/kotlin/io/github/lemcoder/MXmlPullParser.kt:2231-2241 | a named reference that is not predefined resolves as the table lookup says |
| Parser.MXParser.EntityRefResolution | library/src/commonMain/kotlin/io/github/lemcoder/MXmlPullParser.kt:2231-2241 | after the reference is read, a name that is neither a character reference nor predefined is looked up in the table |
| Parser.MXParser.ParseEntityRef | library/src/commonMain/kotlin/io/github/lemcoder/MXmlPullParser.kt:2228-2242 | `parseEntityRef` agrees with the reference recogniser, and resolves the reference as `ResolveReference` says: its characters, a predefined entity, or the latest definition in the table; an unknown name leaves the text null |
| Parser.MXParser.EntityRefAccepted | library/src/commonMain/kotlin/io/github/lemcoder/MXmlPullParser.kt:2231-2241 | once the reference is accepted, the table resolves what the character references and predefined entities did not |
| Parser.MXParser.ResetPosition | library/src/commonMain/kotlin/io/github/lemcoder/MXmlPullParser.kt:372-377 | `reset()` sets no location, line 1, column 1 and START_DOCUMENT |
| Parser.MXParser.ResetFlags | library/src/commonMain/kotlin/io/github/lemcoder/MXmlPullParser.kt:375-409 | `reset()` clears every scanner flag |
| Parser.MXParser.ResetScanner | library/src/commonMain/kotlin/io/github/lemcoder/MXmlPullParser.kt:370-413 | `reset()` puts the scanner at the start of a document |
| Parser.MXParser.ResetTables | library/src/commonMain/kotlin/io/github/lemcoder/MXmlPullParser.kt:380-387 | `reset()` leaves no open element, attribute or declaration, and the template's entities |
| Parser.MXParser.ResetInput | library/src/commonMain/kotlin/io/github/lemcoder/MXmlPullParser.kt:389-402 | `reset()` drops the reader and the encoding and every cursor |
| Parser.MXParser.ResetCursors | library/src/commonMain/kotlin/io/github/lemcoder/MXmlPullParser.kt:392-402 | every position back to the start of an empty buffer |
| Parser.MXParser.ResetScannerAndInput | library/src/commonMain/kotlin/io/github/lemcoder/MXmlPullParser.kt:370-413 | nothing seen and nothing read |
| Parser.MXParser.Reset | library/src/commonMain/kotlin/io/github/lemcoder/MXmlPullParser.kt:370-416 | `reset()`: every parsing field back to its start value and the entity table from the template; the buffers and features are kept |
| Parser.MXParser.SetInput | library/src/commonMain/kotlin/io/github/lemcoder/MXmlPullParser.kt:529-532 | `setInput(reader)`: a reset parser reading the reader from its current position |
| Parser.MXParser.AttachReader | library/src/commonMain/kotlin/io/github/lemcoder/MXmlPullParser.kt:531 | after `reader = in` the empty buffer mirrors the reader from its cursor on |
| Parser.MXParser.GetFeature | library/src/commonMain/kotlin/io/github/lemcoder/MXmlPullParser.kt:486-503 | a null name is an illegal argument; the namespace and round-trip features read their switches, every other name reads false |
| Parser.MXParser.SetFeature | library/src/commonMain/kotlin/io/github/lemcoder/MXmlPullParser.kt:451-481 | namespace processing can change only before parsing starts; interning and DOCDECL processing can only be switched off; round-trip can be set freely; any other name is unsupported |
| Parser.MXParser.GetProperty | library/src/commonMain/kotlin/io/github/lemcoder/MXmlPullParser.kt:514-526 | a null name is an illegal argument; the declaration's version, standalone and content and the location read back; any other name reads null |
| Parser.MXParser.SetProperty | library/src/commonMain/kotlin/io/github/lemcoder/MXmlPullParser.kt:506-512 | only the location can be set, to a string or null (a boolean is a cast error), and reads back; any other name is unsupported |
| Parser.MXParser.GetNamespaceCount | library/src/commonMain/kotlin/io/github/lemcoder/MXmlPullParser.kt:603-611 | 0 without namespace processing or at depth 0, an illegal argument outside 0..depth, else the count recorded for that level |
| Parser.MXParser.GetNamespacePrefix | library/src/commonMain/kotlin/io/github/lemcoder/MXmlPullParser.kt:614-625 | the prefix of a declaration below `namespaceEnd`, an error naming the position past it, an index exception below 0 |
| Parser.MXParser.GetNamespaceUri | library/src/commonMain/kotlin/io/github/lemcoder/MXmlPullParser.kt:628-638 | the URI of a declaration below `namespaceEnd`, an error naming the position past it, an index exception below 0 |
| Parser.MXParser.GetNamespace | library/src/commonMain/kotlin/io/github/lemcoder/MXmlPullParser.kt:640-662 | the URI the innermost declaration in scope binds the prefix to (`xml` and `xmlns` implicitly), or null |
| Parser.MXParser.DropEventText | library/src/commonMain/kotlin/io/github/lemcoder/MXmlPullParser.kt:1042-1046 | the previous event's text and side buffer are dropped and `bufStart` moves to its end |
| Parser.MXParser.ResumeNesting | library/src/commonMain/kotlin/io/github/lemcoder/MXmlPullParser.kt:1047-1056 | the nesting becomes `Resume` of the one before: an element whose END_TAG was reported is popped, and after `<a/>` END_TAG is returned |
| Parser.MXParser.EnterElement | library/src/commonMain/kotlin/io/github/lemcoder/MXmlPullParser.kt:1650-1813 | the nesting becomes `StartElement` of the one before exactly when the tag's declarations are well formed; otherwise the refused declaration is reported |
| Parser.MXParser.DuplicatedAttribute | library/src/commonMain/kotlin/io/github/lemcoder/MXmlPullParser.kt:1773-1810 | the uniqueness check finds the first repeated key of the attributes, as `FirstDuplicate` defines it |
| Parser.MXParser.IsWhitespace | library/src/commonMain/kotlin/io/github/lemcoder/MXmlPullParser.kt:686-705 | TEXT or CDSECT: whether the event text (in `pc` or in `buf`) is all white space; IGNORABLE_WHITESPACE: true; otherwise an error |
| Parser.MXParser.EventText | library/src/commonMain/kotlin/io/github/lemcoder/MXmlPullParser.kt:706-725 | the event text is the buffer range for tags or when not collected, the side buffer's range otherwise |
| Parser.MXParser.GetText | library/src/commonMain/kotlin/io/github/lemcoder/MXmlPullParser.kt:706-725 | null for the document events, the replacement for ENTITY_REF, else the event text, computed once and cached |
| Parser.MXParser.GetTextCharacters | library/src/commonMain/kotlin/io/github/lemcoder/MXmlPullParser.kt:727-761 | a null holder is an illegal argument; the array with the event text's start and length written to the holder; null and (-1, -1) for the document events; a holder shorter than two slots fails with IndexOutOfBounds at the first index written that it lacks (index 1 for the document events, which write `holder[1]` first) |
| Parser.MXParser.ElementNamespace | library/src/commonMain/kotlin/io/github/lemcoder/MXmlPullParser.kt:763-788 | on a tag event the element's URI (the empty string without namespace processing), else null |
| Parser.MXParser.GetName | library/src/commonMain/kotlin/io/github/lemcoder/MXmlPullParser.kt:790-805 | on a tag event the element's name, on ENTITY_REF the entity name (read once from the buffer), else null |
| Parser.MXParser.GetPrefix | library/src/commonMain/kotlin/io/github/lemcoder/MXmlPullParser.kt:807-819 | on a tag event the element's prefix, else null |
| Parser.MXParser.IsEmptyElementTag | library/src/commonMain/kotlin/io/github/lemcoder/MXmlPullParser.kt:821-826 | whether the current start tag was written `<a/>`; an error exactly off START_TAG. It is the getter the source evidently intends, run on each read (see Findings) |
| Parser.EmptyElementTagCheck | library/src/commonMain/kotlin/io/github/lemcoder/MXmlPullParser.kt:821-826 | the empty-element check succeeds exactly on START_TAG, with the flag, and otherwise fails at the parser's line and column |
| Parser.ConstructionThrowsAsWritten | library/src/commonMain/kotlin/io/github/lemcoder/MXmlPullParser.kt:60-75 | as written, the check runs as an initializer while the object is built, on event START_DOCUMENT at line 0, column 0, so it throws there |
| Parser.MXParser.GetAttributeCount | library/src/commonMain/kotlin/io/github/lemcoder/MXmlPullParser.kt:827-830 | the attribute count on START_TAG, -1 otherwise |
| Parser.MXParser.AttributeSlot | library/src/commonMain/kotlin/io/github/lemcoder/MXmlPullParser.kt:832-880 | an indexed attribute accessor succeeds exactly on START_TAG with the index among the attributes |
| Parser.MXParser.GetAttributeNamespace | library/src/commonMain/kotlin/io/github/lemcoder/MXmlPullParser.kt:832-839 | the attribute's URI; the empty string without namespace processing, before the index is checked |
| Parser.MXParser.GetAttributeName | library/src/commonMain/kotlin/io/github/lemcoder/MXmlPullParser.kt:841-847 | the attribute's name, exactly for a valid index on START_TAG |
| Parser.MXParser.GetAttributePrefix | library/src/commonMain/kotlin/io/github/lemcoder/MXmlPullParser.kt:849-856 | the attribute's prefix; null without namespace processing, before the index is checked |
| Parser.MXParser.GetAttributeType | library/src/commonMain/kotlin/io/github/lemcoder/MXmlPullParser.kt:858-864 | every attribute is CDATA |
| Parser.MXParser.IsAttributeDefault | library/src/commonMain/kotlin/io/github/lemcoder/MXmlPullParser.kt:866-872 | no attribute is a default |
| Parser.MXParser.GetAttributeValue | library/src/commonMain/kotlin/io/github/lemcoder/MXmlPullParser.kt:874-880 | the attribute's value, exactly for a valid index on START_TAG |
| Parser.MXParser.GetAttributeValueOf | library/src/commonMain/kotlin/io/github/lemcoder/MXmlPullParser.kt:882-912 | the value of the first attribute with that name (and URI with namespace processing, null meaning none); without namespace processing a non-empty namespace is an illegal argument; null when none matches |
| EntityReplacement.AliasName | library/src/commonMain/kotlin/io/github/lemcoder/EntityReplacementMap.kt:33-34 | a text is taken as an alias exactly when it does not start with `&#` and is longer than one character, and then the name is the text without its first and last characters |
| EntityReplacement.LastMatch | library/src/commonMain/kotlin/io/github/lemcoder/EntityReplacementMap.kt:35-39 | the highest slot holding the name, or -1 exactly when none does |
| EntityReplacement.NamesOf | library/src/commonMain/kotlin/io/github/lemcoder/EntityReplacementMap.kt:45 | the names of the stored entries, in order |
| EntityReplacement.ReplacementsOf | library/src/commonMain/kotlin/io/github/lemcoder/EntityReplacementMap.kt:48 | the replacements of the stored entries, in order |
| EntityReplacement.TableShape | library/src/commonMain/kotlin/io/github/lemcoder/EntityReplacementMap.kt:60-71 | the map holds one entry per pair, with the pair's name |
| EntityReplacement.TablePrefix | library/src/commonMain/kotlin/io/github/lemcoder/EntityReplacementMap.kt:68-70 | defining more entries never changes the earlier ones |
| EntityReplacement.TableEntry | library/src/commonMain/kotlin/io/github/lemcoder/EntityReplacementMap.kt:31-54 | entry `i` is its name with its text resolved against the entries before it |
| EntityReplacement.NumericReplacementVerbatim | library/src/commonMain/kotlin/io/github/lemcoder/EntityReplacementMap.kt:33 | a text that starts with `&#`, or has at most one character, is stored verbatim |
| EntityReplacement.AliasResolution | library/src/commonMain/kotlin/io/github/lemcoder/EntityReplacementMap.kt:33-40 | an alias of an earlier name takes the stored replacement of the last earlier entry with that name; an alias of no earlier name is kept |
| EntityReplacement.AliasOfNumericReference | library/src/commonMain/kotlin/io/github/lemcoder/EntityReplacementMap.kt:33-40 | resolution is one level deep: `&fo;` for an entity whose text is `&#65;` stores `&#65;` |
| EntityReplacement.NoAliasStoredVerbatim | library/src/commonMain/kotlin/io/github/lemcoder/EntityReplacementMap.kt:31-54 | a table none of whose texts is an alias of an earlier name stores every text verbatim |
| EntityReplacement.PlainTextNotResolved | library/src/commonMain/kotlin/io/github/lemcoder/EntityReplacementMap.kt:33-40 | a text that equals a stored name, rather than an alias of it, is not resolved |
| EntityReplacement.LastMatchEmptyTail | library/src/commonMain/kotlin/io/github/lemcoder/EntityReplacementMap.kt:35-39 | empty slots past the defined entries do not change the last match |
| EntityReplacement.EntityReplacementMap.constructor | library/src/commonMain/kotlin/io/github/lemcoder/EntityReplacementMap.kt:60-71 | `init`: five arrays of exactly one slot per pair, holding every pair defined in order (the entries are `Table` of the pairs) with each name's hash |
| EntityReplacement.EntityReplacementMap.DefineEntityReplacementText | library/src/commonMain/kotlin/io/github/lemcoder/EntityReplacementMap.kt:31-54 | the next slot holds the name and its text resolved against the stored entries |
| EntityReplacement.EntityReplacementMap.ResolveReplacement | library/src/commonMain/kotlin/io/github/lemcoder/EntityReplacementMap.kt:33-40 | the alias loop computes `ResolveIn` over the stored entries |
| Tokenizer.JoinPC | library/src/commonMain/kotlin/io/github/lemcoder/MXmlPullParser.kt:3137-3148 | `joinPC`: the buffer text `[posStart, posEnd)` is appended to the side buffer, which is used from then on, and the bounds are kept |
| Tokenizer.EolGatherStep | library/src/commonMain/kotlin/io/github/lemcoder/MXmlPullParser.kt:1278-1310 | one character of normalised character data extends the gathered text by exactly the section 2.11 line-end step for that character |
| Tokenizer.RunEnd | library/src/commonMain/kotlin/io/github/lemcoder/MXmlPullParser.kt:1311-1313 | character data ends at the first `<` or `&` after it, or at the end of the input, and holds neither |
| Tokenizer.CharDataLoop | library/src/commonMain/kotlin/io/github/lemcoder/MXmlPullParser.kt:1241-1315 | the character-data loop stops after its start, with `posEnd` at the `<` or `&` it stopped before |
| Tokenizer.CharDataLoopMeetsRun | library/src/commonMain/kotlin/io/github/lemcoder/MXmlPullParser.kt:1253-1315 | from any state the run can be in, the loop yields what the whole run determines: refusal, truncation or the gathered text |
| Tokenizer.CharDataGrammar | library/src/commonMain/kotlin/io/github/lemcoder/MXmlPullParser.kt:1241-1315 | production [14]: character data is refused exactly when it holds `]]>`, runs out exactly when it reaches the end of the input, and otherwise stops at the next `<` or `&` with its text, line ends normalised when normalising, appended to the text so far |
| Tokenizer.HasCdataEndSnoc | library/src/commonMain/kotlin/io/github/lemcoder/MXmlPullParser.kt:1258-1276 | the two bracket flags detect `]]>` exactly: one more character completes it exactly when the text ended with `]]` and the character is `>` |
| Tokenizer.CDataStart | library/src/commonMain/kotlin/io/github/lemcoder/MXmlPullParser.kt:2877-2890 | when normalising after text still in the buffer, that text moves to the side buffer (or an empty one starts), the bounds unchanged |
| Tokenizer.CDataGatherLoop | library/src/commonMain/kotlin/io/github/lemcoder/MXmlPullParser.kt:2894-2950 | the section loop never moves `posStart` past the section's start and uses the side buffer only once it has been used or a `\r` was met |
| Tokenizer.CDataGather | library/src/commonMain/kotlin/io/github/lemcoder/MXmlPullParser.kt:2848-2965 | after a section the event bounds are its content and the side buffer is in use whenever text preceded it while normalising |
| Tokenizer.CDataEnd | library/src/commonMain/kotlin/io/github/lemcoder/MXmlPullParser.kt:2956-2964 | the two `]` the loop copied come off the side buffer and `posStart`/`posEnd` bound the content |
| Tokenizer.CDataEndText | library/src/commonMain/kotlin/io/github/lemcoder/MXmlPullParser.kt:2956-2964 | taking the two `]` back off leaves the earlier text followed by the normalised content |
| Tokenizer.CDataGatherText | library/src/commonMain/kotlin/io/github/lemcoder/MXmlPullParser.kt:2848-2965 | when normalising, the text after a section is the text before it (if it reached the side buffer) followed by its content with line ends normalised, without `]]>` |
| Tokenizer.CDataGatherRaw | library/src/commonMain/kotlin/io/github/lemcoder/MXmlPullParser.kt:2875-2916 | without normalisation the section's text is its content as written |
| Tokenizer.ContentLoop | library/src/commonMain/kotlin/io/github/lemcoder/MXmlPullParser.kt:1069-1318 | the content loop only moves forward, and every event it reports is one the current mode can report at that point (TEXT, a tag, and in `nextToken()` also COMMENT, PROCESSING_INSTRUCTION, CDSECT, ENTITY_REF); `asWritten` selects the source's or the corrected handling of an empty CDATA section and of the instruction target test |
| Tokenizer.ContinueAt | library/src/commonMain/kotlin/io/github/lemcoder/MXmlPullParser.kt:1317 | `ch = more()` at the bottom of the loop goes round again on the next character |
| Tokenizer.CharDataItem | library/src/commonMain/kotlin/io/github/lemcoder/MXmlPullParser.kt:1241-1315 | a pending merge is done before a run of character data is read |
| Tokenizer.ReferenceItem | library/src/commonMain/kotlin/io/github/lemcoder/MXmlPullParser.kt:1198-1236 | `nextToken()` reports ENTITY_REF (after pending text); `next()` refuses a name the table does not resolve and otherwise appends its replacement |
| Tokenizer.AppendReplacement | library/src/commonMain/kotlin/io/github/lemcoder/MXmlPullParser.kt:1220-1236 | the text so far moves to the side buffer and the replacement is appended to it; no merge is left pending |
| Tokenizer.MarkupItem | library/src/commonMain/kotlin/io/github/lemcoder/MXmlPullParser.kt:1091-1197 | at `<` the loop reports pending text in `nextToken()` mode, then handles an end tag, `<!`, a processing instruction (with the target test `asWritten` selects) or a start tag, and refuses any other character |
| Tokenizer.BangItem | library/src/commonMain/kotlin/io/github/lemcoder/MXmlPullParser.kt:1107-1177 | `<!` opens a comment or a CDATA section; anything else is refused |
| Tokenizer.SkipMarkup | library/src/commonMain/kotlin/io/github/lemcoder/MXmlPullParser.kt:1109-1117 | a comment or processing instruction skipped by `next()` leaves a merge pending after buffer text, and is otherwise ignored |
| Tokenizer.CDataItem | library/src/commonMain/kotlin/io/github/lemcoder/MXmlPullParser.kt:1118-1136 | a CDATA section is a CDSECT event in `nextToken()` mode; otherwise its content joins the text when it is not empty |
| Tokenizer.ContentLoopText | library/src/commonMain/kotlin/io/github/lemcoder/MXmlPullParser.kt:1069-1318 | corrected, `next()` reports as TEXT the text gathered so far followed by the content up to the next tag, with references replaced, comments and processing instructions dropped and CDATA content included: merging buffer and side buffer changes nothing in the result |
| Tokenizer.CDataNextState | library/src/commonMain/kotlin/io/github/lemcoder/MXmlPullParser.kt:1118-1136 | after a section in `next()` mode the text has grown by its content, and a merge is pending only when that content still lies in the buffer |
| Tokenizer.ReferenceTextInv | library/src/commonMain/kotlin/io/github/lemcoder/MXmlPullParser.kt:1220-1236 | a resolved reference moves the gathered text to the side buffer and appends its replacement |
| Tokenizer.EmptyCDataLeaksAsWritten | library/src/commonMain/kotlin/io/github/lemcoder/MXmlPullParser.kt:1118-1136 | as written, `next()` on `<a><![CDATA[]]>x</a>` reports `]]>x`; corrected, it reports `x` |
| Tokenizer.CDataAfterCommentDuplicatedAsWritten | library/src/commonMain/kotlin/io/github/lemcoder/MXmlPullParser.kt:1109-1136 | as written, `next()` on `<a>x<!--c--><![CDATA[y]]>z</a>` reports `xyyz`; corrected, it reports `xyz` |
| Tokenizer.PrologStart | library/src/commonMain/kotlin/io/github/lemcoder/MXmlPullParser.kt:1329-1366 | the first call refuses U+FFFE, skips a byte order mark and a single U+FFFD; the prolog reports only prolog events and DOCDECL only once |
| Tokenizer.PrologLoop | library/src/commonMain/kotlin/io/github/lemcoder/MXmlPullParser.kt:1367-1451 | the prolog loop moves forward, reports only prolog events, and reports DOCDECL only when none was seen, recording it |
| Tokenizer.PrologNext | library/src/commonMain/kotlin/io/github/lemcoder/MXmlPullParser.kt:1449 | `ch = more()` in the prolog: the same guarantees from the next character |
| Tokenizer.PrologMarkup | library/src/commonMain/kotlin/io/github/lemcoder/MXmlPullParser.kt:1372-1408 | markup in the prolog: a processing instruction, a comment, one document type declaration or the root start tag; `</` and other characters are refused |
| Tokenizer.PrologSkip | library/src/commonMain/kotlin/io/github/lemcoder/MXmlPullParser.kt:1379-1397 | a comment, processing instruction or document type declaration is reported by `nextToken()` and skipped by `next()`, a declaration setting `seenDocdecl` |
| Tokenizer.EpilogStart | library/src/commonMain/kotlin/io/github/lemcoder/MXmlPullParser.kt:1454-1472 | a call after END_DOCUMENT is an error, and a reached end ends the document without reading |
| Tokenizer.EpilogEnd | library/src/commonMain/kotlin/io/github/lemcoder/MXmlPullParser.kt:1570-1577 | the end of the input in the epilog is caught: pending white space is reported by `nextToken()`, then END_DOCUMENT, with the end reached |
| Tokenizer.EpilogLoop | library/src/commonMain/kotlin/io/github/lemcoder/MXmlPullParser.kt:1473-1566 | the epilog loop reports only epilog events, and the end is reached only at the end of the input |
| Tokenizer.EpilogNext | library/src/commonMain/kotlin/io/github/lemcoder/MXmlPullParser.kt:1560-1564 | `ch = more()` in the epilog: the end of the input ends the document |
| Tokenizer.EpilogMarkup | library/src/commonMain/kotlin/io/github/lemcoder/MXmlPullParser.kt:1478-1519 | markup in the epilog: processing instructions, comments and declarations; a start or end tag is refused |
| Tokenizer.EpilogSkip | library/src/commonMain/kotlin/io/github/lemcoder/MXmlPullParser.kt:1488-1506 | a comment, processing instruction or declaration in the epilog; the end of the input inside it ends the document |
| Tokenizer.NextImpl | library/src/commonMain/kotlin/io/github/lemcoder/MXmlPullParser.kt:1041-1326 | `nextImpl` dispatches on the parser's state: inside the root it reports content events and keeps `seenDocdecl` and `reachedEnd`; before the root, prolog events without the end reached; after it, epilog events |
| Tokenizer.NextInside | library/src/commonMain/kotlin/io/github/lemcoder/MXmlPullParser.kt:1058-1318 | inside the root: the remembered start or end tag, or the content loop from the remembered `<` or `&` or the next character |
| Tokenizer.PrologLoopSpace | library/src/commonMain/kotlin/io/github/lemcoder/MXmlPullParser.kt:1409-1443 | one white space character in the prolog is gathered and the loop goes on |
| Tokenizer.EpilogLoopSpace | library/src/commonMain/kotlin/io/github/lemcoder/MXmlPullParser.kt:1520-1554 | one white space character in the epilog is gathered and the loop goes on |
| Tokenizer.PrologSpaceThenMarkup | library/src/commonMain/kotlin/io/github/lemcoder/MXmlPullParser.kt:1372-1377 | `nextToken()` in the prolog: white space up to `<` is one IGNORABLE_WHITESPACE event, normalised unless round-trip is on, with the `<` remembered |
| Tokenizer.EpilogSpaceThenMarkup | library/src/commonMain/kotlin/io/github/lemcoder/MXmlPullParser.kt:1478-1483 | `nextToken()` in the epilog: the same for white space before markup |
| Tokenizer.EpilogSpaceToEnd | library/src/commonMain/kotlin/io/github/lemcoder/MXmlPullParser.kt:1560-1577 | white space to the end of the input ends the document: `next()` reports END_DOCUMENT, `nextToken()` the white space first |
| Tokenizer.PrologSkipsSpace | library/src/commonMain/kotlin/io/github/lemcoder/MXmlPullParser.kt:1409-1449 | `next()` passes over white space in the prolog |
| Tokenizer.EpilogSkipsSpace | library/src/commonMain/kotlin/io/github/lemcoder/MXmlPullParser.kt:1520-1560 | `next()` passes over white space in the epilog |
| Tokenizer.PrologRootAfterSpace | library/src/commonMain/kotlin/io/github/lemcoder/MXmlPullParser.kt:1367-1451 | production [22]: after white space the first start tag is the root, `</` is refused, and any character other than markup or white space is refused |
| Tokenizer.EpilogRefusesContent | library/src/commonMain/kotlin/io/github/lemcoder/MXmlPullParser.kt:1473-1566 | production [27]: after the root, a start tag, an end tag or character data is refused |
| Tokenizer.IgnorableWhitespaceBeforeMarkup | library/src/commonMain/kotlin/io/github/lemcoder/MXmlPullParser.kt:1372-1377 | `nextToken()` before and after the root reports white space up to markup as IGNORABLE_WHITESPACE and remembers the `<` |
| Tokenizer.EpilogEndsAfterSpace | library/src/commonMain/kotlin/io/github/lemcoder/MXmlPullParser.kt:1454-1577 | after the root, white space to the end gives END_DOCUMENT (after IGNORABLE_WHITESPACE for `nextToken()`), and a further call is an error |
| Tokenizer.SecondDoctypeRefused | library/src/commonMain/kotlin/io/github/lemcoder/MXmlPullParser.kt:1388-1393 | the first document type declaration is skipped by `next()` and a second one is refused |
| Tokenizer.EmptyRootTrace | library/src/commonMain/kotlin/io/github/lemcoder/MXmlPullParser.kt:1041-1578 | `next()` over ` <r/> ` yields START_TAG, END_TAG without reading, then END_DOCUMENT |

## Left out

- Kotlin `Int` width of `bufAbsoluteStart`, `lineNumber` and `columnNumber`: they are unbounded integers. The cursors inside the buffer (`pos`, `posStart`, `posEnd`, `bufStart`, `bufEnd`) are bounded by the 32-bit range, and buffer growth fails where the source's size would overflow.
- Exception message text, `getPositionDescription` and `printable`: errors are a `ParserErrors.Problem` datatype carrying the names, digits, line and column of the message. `PullParserException.Create` composes the message from a position description given as a parameter.
- The `toTypedArray()` copies: as written, the copies in `ensure*Capacity`, `fillBuf`, `ensurePC`, `joinPC` and `parseStartTag` (line 1686, see `Tables.ElementStack.RecordElement` below) write into a temporary array and leave the destination unchanged. The model performs the intended copy, and each site says so in a comment.
- The float soft limit `bufSoftLimit = (0.95f * size).toInt()`: `Parser.SoftLimit` computes it as `size * 15938355 / 2^24`, because `0.95f` is exactly 15938355 / 2^24. This equals the float result only for sizes where the product is exact, which holds for the power-of-two sizes the buffer takes.
- The character source: `CharSource.Reader` stands for any reader by its `read` contract. Foreign readers and `setInput(InputStream, String)` are not modelled.
- XmlReader streams: the constructor, `doRawStream`, `prepareReader`, `getXmlProlog` and `getContentTypeEncoding` (regular expressions and charset decoding) are not modelled. `getBOMEncoding` and `getXMLGuessEncoding` are functions on the first bytes that return the encoding and the bytes consumed, not mark/reset on a stream.
- Tokenizer.NextImpl, Tokenizer.ContentLoop, Tokenizer.PrologStart and Tokenizer.EpilogStart: `nextImpl`, `parseProlog`, `parseEpilog`, `parseStartTag`/`parseAttribute`, `parseComment`, `parsePI`/`parseXmlDecl`, `parseDocdecl` and `parseCDSect` are modelled as functions over the whole input and a `Resume` record of the flags. The in-place updates of `buf`, `pos` and `pc`, and the flags written back between calls, are not captured as method state. There is no `MXParser.Next` that drives them.
- Markup.PIScanAt: the test that an XML declaration starts the input compares the target's offset in the buffer with 2. The tokenizer passes the offset in the input, which is the same until the buffer is compacted.
- Markup.XmlDeclScan: the prolog checks and skips the XML declaration; its version, encoding and standalone values are not exposed through getters.
- Parser.MXParser.constructor: builds a parser, as the source evidently intends. As written, the `isEmptyElementTag` initializer (line 821) throws during construction (`Parser.ConstructionThrowsAsWritten`, Findings). The model runs that check on every read, in `Parser.MXParser.IsEmptyElementTag`.
- Tables.ElementStack.RecordElement: stores a copy of the raw name, as the source evidently intends. As written, the `toTypedArray()` copy at line 1686 writes into a temporary array, so `elRawName[depth]` stays an array of zero units. Every end tag is then refused as written: `<a></a>` fails because the end tag is not the same as the start tag, whose recorded name is one zero unit (lines 1616-1627). The model does not capture this refusal.
- StartTag.ResolveStartTag: checks attribute uniqueness with `StartTag.Unique`, which compares URIs by value, not by identity as written (Findings row 3). The as-written comparison is stated by `StartTag.SameUriTwoPrefixesAsWritten`.
- Parser.MXParser.DuplicatedAttribute: compares URIs by value, not by identity as written (Findings row 3).
- Tokenizer.ContentLoop: with `asWritten` set, processing instructions take the source's target test, but a CDATA section still ends at the first `]]>` (`Markup.CDSectScan`, Findings row 1). The `]]x]>` ending is stated only by `Markup.CDSectEndsEarlyAsWritten`.
- Tokenizer.MarkupItem: passes `asWritten` to the target test; its CDATA sections go through `Tokenizer.BangItem`, with the corrected end.
- Tokenizer.BangItem: ends a CDATA section at the first `]]>` (`Markup.CDSectScan`, Findings row 1), whatever `asWritten` says.
- Tokenizer.PrologMarkup: uses the corrected target test (`Markup.PIScanAt` with `asWritten` false, Findings row 2). So `<?xml version="1.0"?><?xml-stylesheet href="s"?><r/>` is accepted, where the source refuses the second instruction; `Markup.XmlStylesheetAsWritten` states that refusal.
- Tokenizer.EpilogMarkup: uses the corrected target test (Findings row 2), so an `xml…` target after the root element is accepted where the source refuses it.
- Tokenizer.EpilogMarkup: follows the source where it is looser than production [27] of XML 1.0. A document type declaration after the root is skipped (reported by `nextToken()`) rather than refused (lines 1498-1500, marked FIXME in the source). A `<!` that ends the input ends the document rather than being an error (lines 1484-1497). The model states neither departure as a lemma.
- StartTag.AttrValueLoop: its own contract gives only where reading ends. What it reads is stated by `StartTag.AttValueGrammar` (the value text of section 3.3.3 of XML 1.0) and `StartTag.AttrValueLoopEnds`.
- StartTag.AttributeScan: its own contract gives only where reading ends and that names are plain without namespaces. What it reads is stated by `StartTag.AttributeGrammar` and its converse `StartTag.AttributeScanLayout`.
- StartTag.AttributeStep: its own contract gives only the well-formedness of the declarations. What one step reads and appends is stated by `StartTag.AttributeStepAdmits` with `StartTag.Admit`, and over the whole loop by `StartTag.AttributesLoopGrammar`.
- StartTag.AttributesLoop: its own contract gives only the closing `>` and well-formed declarations. What it reads is stated by `StartTag.AttributesLoopGrammar`.
- StartTag.StartTagScan: its own contract gives only the closing `>` and well-formed declarations. What it reads is stated by `StartTag.StartTagGrammar` and its converse `StartTag.StartTagLayout`.
- StartTag.AttributesLoopGrammar: the attribute lists it covers (`StartTag.AttributesWritten`) allow empty white space before an attribute, as `parseStartTag` reads `<a x="1"y="2">` (MXmlPullParser.kt:1715-1731); production [40] of XML 1.0 requires white space there.
- StartTag.StartTagGrammar: covers start tags whose white space before an attribute may be empty, as the source reads them; production [40] requires it to be non-empty.
- StartTag.StartTagLayout: the layout it gives back allows empty white space before an attribute, so a tag it describes need not match production [40].
- Tokenizer.NextInside: runs the content loop with `asWritten` false: the corrected target test, and none of the empty-CDATA and merge defects of Findings rows 4 and 5. Those are stated only by `Tokenizer.EmptyCDataLeaksAsWritten` and `Tokenizer.CDataAfterCommentDuplicatedAsWritten`.
- Tokenizer.NextImpl: composes the corrected members above, so it is `nextImpl` with every defect under "## Findings" corrected.
- `require`, `nextText`, `nextTag`, `skipSubTree`, `next`/`nextToken` as a public loop, `getDepth`, `getLineNumber`, `getColumnNumber`, `getEventType` and the getters of the input encoding: these are thin wrappers around `nextImpl` and fields. They format messages with a printer that is not part of this model, and are not modelled.
- The `allStringsInterned` branches: the constant is `false`, so only the hash-based branches are modelled. The `TRACE_SIZING` output is left out.

## Findings

| source | as written | input that shows it | evidently intended | confidence | as-written member | corrected member |
|---|---|---|---|---|---|---|
| library/src/commonMain/kotlin/io/github/lemcoder/MXmlPullParser.kt:2897-2910 | `seenBracketBracket` stays set when a character other than `]` or `>` follows `]]`, so `]]x]>` closes a CDATA section | `<![CDATA[a]]x]>]]>` ends after `a]]x]>`, with content `a]]` | only `]]>` closes a section (section 2.7 of XML 1.0, production [21]) | not executed | Markup.CDSectEndsEarlyAsWritten | Markup.CDSectGrammar |
| library/src/commonMain/kotlin/io/github/lemcoder/MXmlPullParser.kt:2437-2452 | every processing-instruction target that starts with `xml` is taken for the XML declaration | `<?xml-stylesheet href='a'?>` at the document start is refused for lacking `version`; after `<?xml version="1.0"?>`, or inside an element, it is refused as a declaration that is not first, or a reserved name | only the target `xml` itself is the declaration (production [17]) | not executed | Markup.XmlStylesheetAsWritten | Markup.PIGrammar |
| library/src/commonMain/kotlin/io/github/lemcoder/MXmlPullParser.kt:1773-1790 | attribute URIs are compared by identity (`===`) | `<a xmlns:p="u" xmlns:q="u" p:x="" q:x="">` is accepted | the tag is refused: two attributes with the same URI and local name (section 6.3 of Namespaces in XML 1.0) | not executed | StartTag.SameUriTwoPrefixesAsWritten | StartTag.Unique |
| library/src/commonMain/kotlin/io/github/lemcoder/MXmlPullParser.kt:1118-1136 | an empty CDATA section before any text leaves `posStart` at the section's content | `next()` on `<a><![CDATA[]]>x</a>` reports the text `]]>x` | the text `x` | not executed | Tokenizer.EmptyCDataLeaksAsWritten | Tokenizer.ContentLoopText |
| library/src/commonMain/kotlin/io/github/lemcoder/MXmlPullParser.kt:1109-1136 | a comment after text sets `needsMerging`; the following CDATA section moves the text to the side buffer but leaves `needsMerging` set, so the next run is merged again | `next()` on `<a>x<!--c--><![CDATA[y]]>z</a>` reports `xyyz`, once the `joinPC` copy is performed as intended (as written that copy is lost, and the side buffer holds zero units) | `xyz` | not executed | Tokenizer.CDataAfterCommentDuplicatedAsWritten | Tokenizer.ContentLoopText |
| library/src/commonMain/kotlin/io/github/lemcoder/MXmlPullParser.kt:821-826 | the empty-element check is a property initializer, so it runs once while the object is built, when the event is START_DOCUMENT | any construction, `MXParser()` | a getter that checks the event on each read | not executed | Parser.ConstructionThrowsAsWritten | Parser.MXParser.IsEmptyElementTag |
