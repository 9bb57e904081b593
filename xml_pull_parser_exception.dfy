/** `XmlPullParserException`: the message it composes and the position it records. */
module PullParserException {
  import opened Kotlin
  import opened Wrappers

  /** What the exception reads from the parser it is given. */
  datatype ParserPosition = ParserPosition(positionDescription: Str, lineNumber: int, columnNumber: int)

  /**
   * The exception's observable state. `detail` is the chained cause, kept as
   * its `toString()` text, which is also what the message shows of it.
   */
  datatype XmlPullParserException = XmlPullParserException(
    message: Option<Str>,
    lineNumber: int,
    columnNumber: int,
    detail: Option<Str>)

  /** The one-string constructor: the message is kept as given and no position is recorded. */
  function FromMessage(s: Option<Str>): (e: XmlPullParserException)
    ensures e.message == s
    ensures e.lineNumber == -1 && e.columnNumber == -1
    ensures e.detail.None?
  {
    XmlPullParserException(s, -1, -1, None)
  }

  // The fixed pieces of the message, as code units.
  /** `" "` */
  const SEPARATOR: Str := [32]
  /** `"(position:"` */
  const POSITION_OPEN: Str := [40, 112, 111, 115, 105, 116, 105, 111, 110, 58]
  /** `") "` */
  const POSITION_CLOSE: Str := [41, 32]
  /** `"caused by: "` */
  const CAUSED_BY: Str := [99, 97, 117, 115, 101, 100, 32, 98, 121, 58, 32]

  function MessagePart(msg: Option<Str>): Str
  {
    match msg
    case None => []
    case Some(m) => m + SEPARATOR
  }

  function PositionPart(parser: Option<ParserPosition>): Str
  {
    match parser
    case None => []
    case Some(p) => POSITION_OPEN + p.positionDescription + POSITION_CLOSE
  }

  function ChainPart(chain: Option<Str>): Str
  {
    match chain
    case None => []
    case Some(c) => CAUSED_BY + c
  }

  /** The three parts of a concatenation `text == a + b + c` can be read back from it. */
  lemma Parts(a: Str, b: Str, c: Str, text: Str)
    requires text == a + b + c
    ensures a <= text && b <= text[|a|..]
    ensures |text| == |a| + |b| + |c|
    ensures text[|text| - |c|..] == c
  {
    assert text[|a|..] == b + c;
    assert text[|a| + |b|..] == c;
  }

  /**
   * The three-argument constructor: "msg (position:…) caused by: …", each part
   * present only when its argument is; line and column come from the parser.
   */
  function Create(msg: Option<Str>, parser: Option<ParserPosition>, chain: Option<Str>): (e: XmlPullParserException)
    ensures e.message.Some?
    ensures msg.Some? ==> msg.value + SEPARATOR <= e.message.value
    ensures parser.Some? ==>
      POSITION_OPEN + parser.value.positionDescription + POSITION_CLOSE <= e.message.value[|MessagePart(msg)|..]
    ensures parser.None? ==> e.message.value == MessagePart(msg) + ChainPart(chain)
    ensures chain.Some? ==>
      |e.message.value| >= |CAUSED_BY + chain.value| &&
      e.message.value[|e.message.value| - |CAUSED_BY + chain.value|..] == CAUSED_BY + chain.value
    ensures parser.Some? ==> |e.message.value| == |MessagePart(msg)| + |PositionPart(parser)| + |ChainPart(chain)|
    ensures msg.None? && parser.None? && chain.None? ==> e.message == Some([])
    ensures parser.Some? ==> e.lineNumber == parser.value.lineNumber && e.columnNumber == parser.value.columnNumber
    ensures parser.None? ==> e.lineNumber == -1 && e.columnNumber == -1
    ensures e.detail == chain
  {
    var m, p, c := MessagePart(msg), PositionPart(parser), ChainPart(chain);
    var text := m + p + c;
    Parts(m, p, c, text);
    assert parser.None? ==> text == m + c;
    match parser
    case None => XmlPullParserException(Some(text), -1, -1, chain)
    case Some(q) => XmlPullParserException(Some(text), q.lineNumber, q.columnNumber, chain)
  }
}
