/**
 * The exceptions `MXParser` throws. Each `XmlPullParserException` site is a
 * `Problem` carrying the values its message interpolates; the message text
 * itself is not reproduced.
 */
module ParserErrors {
  import opened Kotlin
  import opened Wrappers
  import Utils

  /** The message of an `XmlPullParserException`, by the site that throws it. */
  datatype Problem =
    // features, properties and the reader
    | NamespaceFeatureAfterStart
    | InterningNotSupported
    | DocdeclProcessingNotSupported
    | UnsupportedFeature(feature: Str)
    | UnsupportedProperty(property: Option<Str>)
    | ReaderNotSet
    // accessors
    | NamespacePositionExceeded(position: int, namespaceEnd: int)
    | NoContentForWhitespace
    | NotOnStartTagForEmptyCheck
    | RequireWithoutNamespaces
    | RequireEventMismatch(expectedType: int)
    | NextTextNotOnStartTag
    | NextTextNotFollowedByEndTag(eventType: int)
    | NextTextWrongEvent
    | NextTagWrongEvent(eventType: int)
    // content
    | UnexpectedMarkupChar(ch: CodeUnit)
    | UnresolvedEntity(name: Str)
    | CdataEndInContent
    // prolog and epilog
    | FirstCharNonCharacterFFFE
    | Utf16BomInUtf8
    | OnlyOneDocdecl
    | UnexpectedMarkupBang(ch: CodeUnit)
    | ExpectedStartTagName(ch: CodeUnit)
    | OnlyWhitespaceBeforeStartTag(ch: CodeUnit)
    | AlreadyReachedEnd
    | EndTagInEpilog(ch: CodeUnit)
    | StartTagInEpilog(ch: CodeUnit)
    | EpilogExpectedIgnorable(ch: CodeUnit)
    | EpilogNonWhitespace(ch: CodeUnit)
    // end tag
    | EndTagExpectedNameStart(ch: CodeUnit)
    | EndTagLengthMismatch(endName: Str, startName: Str, line: int)
    | EndTagNameMismatch(endName: Str, startName: Str, line: int)
    | EndTagExpectedGt(ch: CodeUnit, line: int)
    // start tag and attributes
    | ElementColonAtStart
    | ElementColonRepeated
    | RepeatedSlash
    | ExpectedGtForEmptyTag(ch: CodeUnit)
    | StartTagUnexpectedChar(ch: CodeUnit)
    | UnboundElementPrefix(prefix: Str)
    | UnboundAttributePrefix(prefix: Str)
    | DuplicatedAttributes(first: Str, second: Str)
    | AttributeColonAtStart
    | XmlnsMissingColon
    | AttributeColonRepeated
    | XmlnsPrefixRequired
    | ExpectedEquals
    | ExpectedQuote(ch: CodeUnit)
    | LtInAttributeValue
    | EmptyNonDefaultNamespace
    | DuplicatedNamespace(declared: Option<Str>)
    // references
    | CharRefIllegalHexDigit(ch: CodeUnit)
    | CharRefIllegalDecimalDigit(ch: CodeUnit)
    | CharRefInvalid(hex: bool, digits: Str)
    | EntityNameBadStart(ch: CodeUnit)
    | EntityNameBadChar(ch: CodeUnit)
    // comment, processing instruction, XML and document type declarations, CDATA
    | CommentStartExpected
    | CommentDoubleDash(codeUnit: int)
    | CommentIllegalChar(codePoint: int)
    | CommentNotClosed(line: int, column: int)
    | PITargetWhitespace
    | PITargetNotFound
    | PINotClosed(line: int, column: int)
    | XmlDeclNotFirst
    | ReservedXmlName
    | XmlDeclNotLowercase
    | ExpectedInput(expected: Str, ch: CodeUnit)
    | XmlDeclExpectedEquals(attribute: Str, ch: CodeUnit)
    | XmlDeclExpectedQuote(attribute: Str, ch: CodeUnit)
    | VersionIllegalChar(ch: CodeUnit)
    | VersionNotSupported(version: Str)
    | XmlDeclUnexpectedChar(ch: CodeUnit)
    | XmlDeclExpectedSpace(after: Str, ch: CodeUnit)
    | EncodingBadStart(ch: CodeUnit)
    | EncodingIllegalChar(ch: CodeUnit)
    | StandaloneExpectedYesNo(ch: CodeUnit)
    | StandaloneExpectedQuote(quote: CodeUnit, ch: CodeUnit)
    | XmlDeclExpectedEnd(ch: CodeUnit)
    | DoctypeExpected
    | CdataStartExpected
    | CdataNotClosed(line: int, column: int)

  /** One entry of the open-tag list an unexpected end of input reports. */
  datatype ExpectedTag =
    | OpeningTag(partialName: Str)
    | EndTagOf(name: Str, line: int)

  /** Why an `EOFException` was thrown. */
  datatype EofReason =
    | InputContainedNoData
    | NoMoreData(expected: seq<ExpectedTag>)
    | NoMoreDataAfterEnd

  /** Everything `next()` and the accessors can throw. */
  datatype Failure =
    | Xml(problem: Problem, line: int, column: int)   // XmlPullParserException(msg, this, chain): position recorded
    | XmlNoPosition(problem: Problem)                 // XmlPullParserException(msg)
    | Eof(reason: EofReason)
    | IllegalArgument
    | IndexOutOfBounds(index: int)
    | NullPointer                                     // `!!` on a null array
    | ClassCast                                       // `as String?` on a value of another type
    | NegativeArraySize(size: int)
    | Copy(error: Utils.CopyError)
}
