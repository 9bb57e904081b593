/**
 * The markup recognisers of `MXParser` other than tags and references:
 * comments, processing instructions with the XML declaration, the document
 * type declaration and CDATA sections. Like the functions of `Scans`, each
 * says what its recogniser does with the whole input from the offset where
 * it starts: the well-formedness problem it reports, or the offset after the
 * last character it consumes.
 */
module Markup {
  import opened Kotlin
  import opened Wrappers
  import opened ParserErrors
  import opened Scans
  import XmlChars
  import CodePoints

  const DASH: CodeUnit := '-' as int
  const QUESTION: CodeUnit := '?' as int
  const LT: CodeUnit := '<' as int
  const RBRACKET: CodeUnit := ']' as int
  const LBRACKET: CodeUnit := '[' as int

  /** No unit of `s[a..b)` is half of a surrogate pair. */
  predicate BmpIn(s: Str, a: int, b: int)
    requires 0 <= a && b <= |s|
  {
    forall k :: a <= k < b ==> !(0xD800 <= s[k] <= 0xDFFF)
  }

  // ---------------------------------------------------------------------
  // Comments (`parseComment`)

  /**
   * The character of a comment at `k` and how many units it takes: a high
   * surrogate is combined with the unit after it, whatever that unit is.
   */
  function CommentCharAt(s: Str, k: nat): (r: (int, nat))
    requires k < |s| && (CodePoints.IsHighSurrogate(s[k]) ==> k + 1 < |s|)
    ensures r.1 == 1 || r.1 == 2
    ensures !CodePoints.IsHighSurrogate(s[k]) ==> r == (s[k], 1)
  {
    if CodePoints.IsHighSurrogate(s[k]) then (CodePoints.ToCodePoint(s[k], s[k + 1]), 2) else (s[k], 1)
  }

  /**
   * The loop of `parseComment` at `k`: `seenDash` after one `-`,
   * `seenDashDash` after two; running out of input is reported as a comment
   * that was not closed, at the position where it started.
   */
  function CommentLoop(s: Str, k: nat, seenDash: bool, seenDashDash: bool, line: int, column: int): (r: Scan)
    ensures r.Accept? ==> k < r.next <= |s| && s[r.next - 1] == GT
    ensures r.Accept? || r.Reject?
    decreases |s| - k
  {
    if k >= |s| || (CodePoints.IsHighSurrogate(s[k]) && k + 1 == |s|) then Reject(CommentNotClosed(line, column))
    else
      var c := CommentCharAt(s, k);
      var ch := c.0;
      var w := c.1;
      if seenDashDash && ch != GT then Reject(CommentDoubleDash(ch))
      else if ch == DASH then CommentLoop(s, k + w, true, seenDash, line, column)
      else if ch == GT then
        if seenDashDash then Accept(k + w) else CommentLoop(s, k + w, false, false, line, column)
      else if XmlChars.IsXmlChar(ch) then CommentLoop(s, k + w, false, false, line, column)
      else Reject(CommentIllegalChar(ch))
  }

  /**
   * `parseComment` from offset `i`, just past `<!-`; `line` and `column` are
   * the parser's position there. The comment is reported to start four
   * columns before the position after the second `-`, that is at the `<`.
   */
  function CommentScan(s: Str, i: nat, line: int, column: int): Scan
  {
    if i >= |s| then Truncated
    else if s[i] != DASH then Reject(CommentStartExpected)
    else CommentLoop(s, i + 1, false, false, line, column + 1 - 4)
  }

  /**
   * The body of a comment, production [15] of XML 1.0: characters, no `--`,
   * and no `-` at the end (restricted to characters of the Basic
   * Multilingual Plane).
   */
  predicate CommentBody(s: Str, a: int, b: int)
    requires 0 <= a && b <= |s|
  {
    BmpIn(s, a, b)
    && (forall k :: a <= k < b ==> XmlChars.IsXmlChar(s[k]))
    && (forall k :: a <= k < b - 1 ==> !(s[k] == DASH && s[k + 1] == DASH))
    && (a < b ==> s[b - 1] != DASH)
  }

  /** `-->` stands at `e`. */
  predicate CommentEndAt(s: Str, e: int)
  {
    0 <= e && e + 3 <= |s| && s[e] == DASH && s[e + 1] == DASH && s[e + 2] == GT
  }

  lemma {:induction false} CommentLoopComplete(s: Str, m: nat, e: nat, seenDash: bool, line: int, column: int)
    requires m <= e && CommentEndAt(s, e) && CommentBody(s, m, e)
    requires seenDash ==> m < e && s[m] != DASH
    ensures CommentLoop(s, m, seenDash, false, line, column) == Accept(e + 3)
    decreases e - m
  {
    if m == e {
      assert CommentLoop(s, e + 2, true, true, line, column) == Accept(e + 3);
    } else {
      CommentLoopComplete(s, m + 1, e, s[m] == DASH, line, column);
    }
  }

  lemma {:induction false} CommentLoopSound(s: Str, m: nat, k: nat, line: int, column: int)
    requires k <= |s| && BmpIn(s, m, k)
    requires CommentLoop(s, m, false, false, line, column) == Accept(k)
    ensures m + 3 <= k && CommentEndAt(s, k - 3) && CommentBody(s, m, k - 3)
    decreases k - m
  {
    assert m < |s| && m < k;
    if s[m] == DASH {
      assert m + 1 < k;
      if s[m + 1] == DASH {
        assert CommentLoop(s, m + 2, true, true, line, column) == Accept(k);
      } else {
        CommentLoopSound(s, m + 2, k, line, column);
      }
    } else {
      CommentLoopSound(s, m + 1, k, line, column);
    }
  }

  /**
   * A comment that starts at `i` (just past `<!-`) and whose characters
   * are in the Basic Multilingual Plane is accepted up to `k` exactly when
   * it is `-` followed by a comment body and `-->` ending at `k`.
   */
  lemma CommentGrammar(s: Str, i: nat, k: nat, line: int, column: int)
    requires i < k <= |s| && BmpIn(s, i, k)
    ensures CommentScan(s, i, line, column) == Accept(k) <==>
      (s[i] == DASH && i + 4 <= k && CommentEndAt(s, k - 3) && CommentBody(s, i + 1, k - 3))
  {
    if CommentScan(s, i, line, column) == Accept(k) {
      CommentLoopSound(s, i + 1, k, line, column - 3);
    }
    if s[i] == DASH && i + 4 <= k && CommentEndAt(s, k - 3) && CommentBody(s, i + 1, k - 3) {
      CommentLoopComplete(s, i + 1, k - 3, false, line, column - 3);
    }
  }

  /** A comment that runs to the end of the input is reported where it started. */
  lemma CommentUnclosed(s: Str, i: nat, line: int, column: int)
    requires i < |s| && s[i] == DASH && BmpIn(s, i, |s|)
    requires forall k :: i < k < |s| ==> XmlChars.IsXmlChar(s[k]) && s[k] != GT
    requires forall k :: i < k < |s| - 1 ==> !(s[k] == DASH && s[k + 1] == DASH)
    ensures CommentScan(s, i, line, column) == Reject(CommentNotClosed(line, column - 3))
  {
    CommentLoopUnclosed(s, i + 1, false, false, line, column - 3);
  }

  lemma {:induction false} CommentLoopUnclosed(s: Str, m: nat, seenDash: bool, seenDashDash: bool, line: int, column: int)
    requires m <= |s| && BmpIn(s, m, |s|) && !seenDashDash
    requires forall k :: m <= k < |s| ==> XmlChars.IsXmlChar(s[k]) && s[k] != GT
    requires seenDash && m < |s| ==> s[m] != DASH
    requires forall k :: m <= k < |s| - 1 ==> !(s[k] == DASH && s[k + 1] == DASH)
    ensures CommentLoop(s, m, seenDash, seenDashDash, line, column) == Reject(CommentNotClosed(line, column))
    decreases |s| - m
  {
    if m < |s| {
      CommentLoopUnclosed(s, m + 1, s[m] == DASH, false, line, column);
    }
  }

  // ---------------------------------------------------------------------
  // Processing instructions and the XML declaration (`parsePI`,
  // `parseXmlDecl`, `parseXmlDeclWithVersion`)

  /** What the XML declaration declares. */
  datatype Declaration = Declaration(version: Str, encoding: Option<Str>, standalone: Option<bool>)

  /** The outcome of `parsePI`: the scan, and the declaration when the instruction was one. */
  datatype PIScan = PIScan(scan: Scan, declaration: Option<Declaration>)

  /**
   * What every part of the declaration's recogniser promises: it accepts,
   * beyond `k`, exactly when it yields a declaration, and that declaration
   * has version `1.0`.
   */
  predicate DeclOutcome(s: Str, k: nat, r: PIScan)
  {
    (r.scan.Accept? ==> k < r.scan.next <= |s|)
    && (r.declaration.Some? <==> r.scan.Accept?)
    && (r.declaration.Some? ==> r.declaration.value.version == VERSION_1_0)
  }

  /** A step inside the XML declaration: the character at `k` has been read, or the declaration ended with `scan`. */
  datatype Step = At(k: nat) | Stop(problem: Problem)

  const VERSION: Str := Lit("version")
  const NCODING: Str := Lit("ncoding")
  const TANDALONE: Str := Lit("tandalone")
  const YES: Str := Lit("yes")
  const NO: Str := Lit("no")
  const ENCODING: Str := Lit("encoding")
  const STANDALONE: Str := Lit("standalone")
  const VERSION_1_0: Str := Lit("1.0")

  /** `more()` inside the declaration: the character at `k`, or `unclosed` when there is none. */
  function Read(s: Str, k: nat, unclosed: Problem): (r: Step)
    ensures r.At? ==> r.k == k < |s|
    ensures r.Stop? ==> r.problem == unclosed && k >= |s|
  {
    if k < |s| then At(k) else Stop(unclosed)
  }

  /** `skipS` from the character at `k`: the first character that is not white space. */
  function SkipSpace(s: Str, k: nat, unclosed: Problem): (r: Step)
    requires k <= |s|
    ensures r.At? ==> k <= r.k < |s| && SIn(s, k, r.k) && !XmlChars.IsS(s[r.k])
    ensures r.Stop? ==> r.problem == unclosed
  {
    SEndRun(s, k);
    Read(s, SEnd(s, k), unclosed)
  }

  /**
   * `requireInput` from the character at `k`: `expected[t..]` must follow,
   * and the character after it is read.
   */
  function RequireFrom(s: Str, k: nat, expected: Str, t: nat, unclosed: Problem): (r: Step)
    requires t <= |expected|
    ensures r.At? ==> r.k == k + |expected| < |s| && s[k + t..r.k] == expected[t..]
    decreases |expected| - t
  {
    if k + t >= |s| then Stop(unclosed)
    else if t == |expected| then At(k + t)
    else if s[k + t] != expected[t] then Stop(ExpectedInput(expected, s[k + t]))
    else RequireFrom(s, k, expected, t + 1, unclosed)
  }

  /** A quotation mark or an apostrophe. */
  predicate IsQuote(ch: CodeUnit)
  {
    ch == '"' as int || ch == '\'' as int
  }

  /**
   * White space, `=`, white space and an opening quote after the attribute
   * `name` of the declaration, from the character at `k`; the step ends on
   * the quote.
   */
  function EqualsQuote(s: Str, k: nat, name: Str, unclosed: Problem): (r: Step)
    requires k <= |s|
    ensures r.At? ==> k < r.k < |s| && IsQuote(s[r.k])
  {
    var a := SkipSpace(s, k, unclosed);
    if a.Stop? then a
    else if s[a.k] != '=' as int then Stop(XmlDeclExpectedEquals(name, s[a.k]))
    else
      var b := SkipSpace(s, a.k + 1, unclosed);
      if b.Stop? then b
      else if !IsQuote(s[b.k]) then Stop(XmlDeclExpectedQuote(name, s[b.k]))
      else b
  }

  /** A character the version number may hold: `[a-zA-Z0-9_.:-]`. */
  predicate IsVersionChar(ch: CodeUnit)
  {
    ('a' as int <= ch <= 'z' as int) || ('A' as int <= ch <= 'Z' as int) || ('0' as int <= ch <= '9' as int)
    || ch == '_' as int || ch == '.' as int || ch == ':' as int || ch == '-' as int
  }

  /** A letter of the Latin alphabet, `[A-Za-z]`. */
  predicate IsLatinLetter(ch: CodeUnit)
  {
    ('a' as int <= ch <= 'z' as int) || ('A' as int <= ch <= 'Z' as int)
  }

  /** A character the encoding name may hold after its first: `[A-Za-z0-9._-]`. */
  predicate IsEncodingChar(ch: CodeUnit)
  {
    IsLatinLetter(ch) || ('0' as int <= ch <= '9' as int) || ch == '.' as int || ch == '_' as int || ch == '-' as int
  }

  /** The version number from `k` up to the closing `quote`. */
  function VersionValue(s: Str, k: nat, quote: CodeUnit, unclosed: Problem): (r: Step)
    ensures r.At? ==> k <= r.k < |s| && s[r.k] == quote && forall m :: k <= m < r.k ==> IsVersionChar(s[m])
    decreases |s| - k
  {
    if k >= |s| then Stop(unclosed)
    else if s[k] == quote then At(k)
    else if !IsVersionChar(s[k]) then Stop(VersionIllegalChar(s[k]))
    else VersionValue(s, k + 1, quote, unclosed)
  }

  /** The rest of the encoding name from `k` up to the closing `quote`. */
  function EncodingValue(s: Str, k: nat, quote: CodeUnit, unclosed: Problem): (r: Step)
    ensures r.At? ==> k <= r.k < |s| && s[r.k] == quote && forall m :: k <= m < r.k ==> IsEncodingChar(s[m])
    decreases |s| - k
  {
    if k >= |s| then Stop(unclosed)
    else if s[k] == quote then At(k)
    else if !IsEncodingChar(s[k]) then Stop(EncodingIllegalChar(s[k]))
    else EncodingValue(s, k + 1, quote, unclosed)
  }

  /**
   * `parseXmlDecl` from the white space at `k` that ends the target `xml`;
   * `unclosed` is how running out of input inside the instruction is reported.
   */
  function XmlDeclScan(s: Str, k: nat, unclosed: Problem): (r: PIScan)
    requires k < |s|
    ensures DeclOutcome(s, k, r)
  {
    var a := SkipSpace(s, k, unclosed);
    if a.Stop? then PIScan(Reject(a.problem), None)
    else
      var b := RequireFrom(s, a.k, VERSION, 0, unclosed);
      if b.Stop? then PIScan(Reject(b.problem), None)
      else
        var q := EqualsQuote(s, b.k, VERSION, unclosed);
        if q.Stop? then PIScan(Reject(q.problem), None)
        else
          var v := VersionValue(s, q.k + 1, s[q.k], unclosed);
          if v.Stop? then PIScan(Reject(v.problem), None)
          else if s[q.k + 1..v.k] != VERSION_1_0 then PIScan(Reject(VersionNotSupported(s[q.k + 1..v.k])), None)
          else DeclAfterVersion(s, v.k, unclosed)
  }

  /** `parseXmlDeclWithVersion` after the version's closing quote at `q`. */
  function DeclAfterVersion(s: Str, q: nat, unclosed: Problem): (r: PIScan)
    requires q < |s|
    ensures DeclOutcome(s, q, r)
  {
    var a := Read(s, q + 1, unclosed);
    if a.Stop? then PIScan(Reject(a.problem), None)
    else
      var b := SkipSpace(s, a.k, unclosed);
      if b.Stop? then PIScan(Reject(b.problem), None)
      else
        var ch := s[b.k];
        if ch != 'e' as int && ch != 's' as int && ch != QUESTION && ch != GT then
          PIScan(Reject(XmlDeclUnexpectedChar(ch)), None)
        else if ch != 'e' as int then DeclStandalone(s, b.k, s[a.k], VERSION, None, unclosed)
        else if !XmlChars.IsS(s[a.k]) then PIScan(Reject(XmlDeclExpectedSpace(VERSION, ch)), None)
        else DeclEncoding(s, b.k, unclosed)
  }

  /** The encoding declaration from its `e` at `k`. */
  function DeclEncoding(s: Str, k: nat, unclosed: Problem): (r: PIScan)
    requires k < |s|
    ensures DeclOutcome(s, k, r)
  {
    var a := Read(s, k + 1, unclosed);
    if a.Stop? then PIScan(Reject(a.problem), None)
    else
      var b := RequireFrom(s, a.k, NCODING, 0, unclosed);
      if b.Stop? then PIScan(Reject(b.problem), None)
      else
        var q := EqualsQuote(s, b.k, ENCODING, unclosed);
        if q.Stop? then PIScan(Reject(q.problem), None)
        else
          var f := Read(s, q.k + 1, unclosed);
          if f.Stop? then PIScan(Reject(f.problem), None)
          else if !IsLatinLetter(s[f.k]) then PIScan(Reject(EncodingBadStart(s[f.k])), None)
          else
            var e := EncodingValue(s, f.k + 1, s[q.k], unclosed);
            if e.Stop? then PIScan(Reject(e.problem), None)
            else
              var c := Read(s, e.k + 1, unclosed);
              if c.Stop? then PIScan(Reject(c.problem), None)
              else
                var d := SkipSpace(s, c.k, unclosed);
                if d.Stop? then PIScan(Reject(d.problem), None)
                else DeclStandalone(s, d.k, s[c.k], ENCODING, Some(s[f.k..e.k]), unclosed)
  }

  /**
   * The standalone declaration, if the character at `k` starts one, and the
   * closing `?>`; `prev` is the character after the previous attribute's
   * closing quote and `last` that attribute's name.
   */
  function DeclStandalone(s: Str, k: nat, prev: CodeUnit, last: Str, encoding: Option<Str>, unclosed: Problem): (r: PIScan)
    requires k < |s|
    ensures DeclOutcome(s, k, r)
  {
    if s[k] != 's' as int then DeclEnd(s, k, Declaration(VERSION_1_0, encoding, None), unclosed)
    else if !XmlChars.IsS(prev) then PIScan(Reject(XmlDeclExpectedSpace(last, s[k])), None)
    else
      var a := Read(s, k + 1, unclosed);
      if a.Stop? then PIScan(Reject(a.problem), None)
      else
        var b := RequireFrom(s, a.k, TANDALONE, 0, unclosed);
        if b.Stop? then PIScan(Reject(b.problem), None)
        else
          var q := EqualsQuote(s, b.k, STANDALONE, unclosed);
          if q.Stop? then PIScan(Reject(q.problem), None)
          else
            var f := Read(s, q.k + 1, unclosed);
            if f.Stop? then PIScan(Reject(f.problem), None)
            else if s[f.k] != 'y' as int && s[f.k] != 'n' as int then
              PIScan(Reject(StandaloneExpectedYesNo(s[f.k])), None)
            else
              var yes := s[f.k] == 'y' as int;
              var v := RequireFrom(s, f.k, if yes then YES else NO, 0, unclosed);
              if v.Stop? then PIScan(Reject(v.problem), None)
              else if s[v.k] != s[q.k] then PIScan(Reject(StandaloneExpectedQuote(s[q.k], s[v.k])), None)
              else
                var c := Read(s, v.k + 1, unclosed);
                if c.Stop? then PIScan(Reject(c.problem), None)
                else
                  var d := SkipSpace(s, c.k, unclosed);
                  if d.Stop? then PIScan(Reject(d.problem), None)
                  else DeclEnd(s, d.k, Declaration(VERSION_1_0, encoding, Some(yes)), unclosed)
  }

  /** The closing `?>` of the declaration at `k`. */
  function DeclEnd(s: Str, k: nat, decl: Declaration, unclosed: Problem): (r: PIScan)
    requires k < |s| && decl.version == VERSION_1_0
    ensures DeclOutcome(s, k, r)
  {
    if s[k] != QUESTION then PIScan(Reject(XmlDeclExpectedEnd(s[k])), None)
    else if k + 1 >= |s| then PIScan(Reject(unclosed), None)
    else if s[k + 1] != GT then PIScan(Reject(XmlDeclExpectedEnd(s[k + 1])), None)
    else PIScan(Accept(k + 2), Some(decl))
  }

  /** `x`, `m`, `l` in any case stand at `i`. */
  predicate XmlTargetAt(s: Str, i: nat)
  {
    i + 3 <= |s|
    && (s[i] == 'x' as int || s[i] == 'X' as int)
    && (s[i + 1] == 'm' as int || s[i + 1] == 'M' as int)
    && (s[i + 2] == 'l' as int || s[i + 2] == 'L' as int)
  }

  /**
   * The test of `parsePI` as written for a target `s[i..k)` that stands for
   * the XML declaration: three characters or more, the first three `xml`
   * in any case.
   */
  predicate DeclarationTargetAsWritten(s: Str, i: nat, k: nat)
  {
    k - i >= 3 && XmlTargetAt(s, i)
  }

  /**
   * The intended test, after production [17] of XML 1.0: the target is
   * `xml` in any case and nothing longer, so `xml-stylesheet` remains an
   * ordinary target.
   */
  predicate DeclarationTarget(s: Str, i: nat, k: nat)
  {
    k - i == 3 && XmlTargetAt(s, i)
  }

  /** The target test as written or corrected. */
  predicate DeclarationTargetIn(s: Str, i: nat, k: nat, asWritten: bool)
  {
    if asWritten then DeclarationTargetAsWritten(s, i, k) else DeclarationTarget(s, i, k)
  }

  /**
   * The loop of `parsePI` at `k`, for the target that starts at `i`.
   * `targetEnded` records that the first white space was seen;
   * `atDocumentStart` is whether no event was reported yet, and `relative`
   * is `i` as an offset into the parser's buffer. `asWritten` selects the
   * target test: as written every target of three characters or more that
   * starts with `xml` is taken for the declaration, corrected only `xml`
   * itself.
   */
  function PILoop(s: Str, i: nat, k: nat, seenTarget: bool, seenInnerTag: bool, seenQ: bool, targetEnded: bool,
                  relative: int, atDocumentStart: bool, asWritten: bool, line: int, column: int): (r: PIScan)
    requires i <= k
    ensures r.scan.Accept? ==> k < r.scan.next <= |s|
    ensures r.declaration.Some? ==> r.scan.Accept? && r.declaration.value.version == VERSION_1_0
    decreases |s| - k
  {
    var unclosed := PINotClosed(line, column);
    if k >= |s| then PIScan(Reject(unclosed), None)
    else
      var ch := s[k];
      if ch == QUESTION then
        if !seenTarget then PIScan(Reject(PITargetNotFound), None)
        else PILoop(s, i, k + 1, true, seenInnerTag, true, targetEnded, relative, atDocumentStart, asWritten, line, column)
      else if ch == GT then
        if seenQ then PIScan(Accept(k + 1), None)
        else if !seenTarget then PIScan(Reject(PITargetNotFound), None)
        else if !seenInnerTag then PIScan(Reject(unclosed), None)
        else PILoop(s, i, k + 1, true, false, seenQ, targetEnded, relative, atDocumentStart, asWritten, line, column)
      else if ch == LT then
        PILoop(s, i, k + 1, true, true, seenQ, targetEnded, relative, atDocumentStart, asWritten, line, column)
      else if !targetEnded && XmlChars.IsS(ch) then
        if DeclarationTargetIn(s, i, k, asWritten) then
          if relative > 2 then PIScan(Reject(if atDocumentStart then XmlDeclNotFirst else ReservedXmlName), None)
          else if s[i] != 'x' as int && s[i + 1] != 'm' as int && s[i + 2] != 'l' as int then
            PIScan(Reject(XmlDeclNotLowercase), None)
          else XmlDeclScan(s, k, unclosed)
        else PILoop(s, i, k + 1, true, seenInnerTag, false, true, relative, atDocumentStart, asWritten, line, column)
      else PILoop(s, i, k + 1, true, seenInnerTag, false, targetEnded, relative, atDocumentStart, asWritten, line, column)
  }

  /**
   * `parsePI` from offset `i`, just past `<?`; `line` and `column` are the
   * parser's position there, and the instruction is reported to start two
   * columns before.
   */
  function PIScanAt(s: Str, i: nat, relative: int, atDocumentStart: bool, asWritten: bool, line: int, column: int): (r: PIScan)
    ensures r.scan.Accept? ==> i < r.scan.next <= |s|
    ensures r.declaration.Some? ==> r.scan.Accept? && r.declaration.value.version == VERSION_1_0
  {
    if i >= |s| then PIScan(Reject(PINotClosed(line, column - 2)), None)
    else if XmlChars.IsS(s[i]) then PIScan(Reject(PITargetWhitespace), None)
    else PILoop(s, i, i, false, false, false, false, relative, atDocumentStart, asWritten, line, column - 2)
  }

  // ---------------------------------------------------------------------
  // Keywords, the document type declaration (`parseDocdecl`) and CDATA
  // sections (`parseCDSect`)

  const OCTYPE: Str := Lit("OCTYPE")
  const CDATA_OPEN: Str := Lit("CDATA[")

  /**
   * The characters of `keyword` from `keyword[t]` on, read one at a time
   * from `i + t`; any other character raises `problem`.
   */
  function KeywordScan(s: Str, i: nat, keyword: Str, t: nat, problem: Problem): (r: Scan)
    requires t <= |keyword| && i + t <= |s|
    ensures r.Accept? <==> i + |keyword| <= |s| && s[i + t..i + |keyword|] == keyword[t..]
    ensures r.Accept? ==> r.next == i + |keyword|
    ensures r.Accept? || r == Truncated || r == Reject(problem)
    decreases |keyword| - t
  {
    if t == |keyword| then Accept(i + t)
    else if i + t >= |s| then Truncated
    else if s[i + t] != keyword[t] then Reject(problem)
    else
      var r := KeywordScan(s, i, keyword, t + 1, problem);
      assert r.Accept? ==> s[i + t..i + |keyword|] == [s[i + t]] + s[i + t + 1..i + |keyword|];
      r
  }

  /** How a character changes the bracket level of a document type declaration. */
  function BracketDelta(ch: CodeUnit): int
  {
    if ch == LBRACKET then 1 else if ch == RBRACKET then -1 else 0
  }

  /** The bracket level after `s[a..b)`: `[` opens, `]` closes. */
  function Balance(s: Str, a: nat, b: nat): int
    requires b <= |s|
    decreases b
  {
    if b <= a then 0 else Balance(s, a, b - 1) + BracketDelta(s[b - 1])
  }

  /** A reference the recogniser accepts ends beyond its start. */
  lemma {:induction false} ReferenceScanAdvances(s: Str, i: nat)
    ensures ReferenceScan(s, i).Accept? ==> i < ReferenceScan(s, i).next <= |s|
  {
    if i < |s| && s[i] != HASH && XmlChars.IsNameStartChar(s[i]) {
      assert NameEnd(s, i + 1) >= i + 1;
    } else if i + 1 < |s| && s[i] == HASH {
      var hex := s[i + 1] == HEX_MARK;
      var k := if hex then i + 2 else i + 1;
      assert DigitEnd(s, k, hex) >= k;
    }
  }

  /**
   * The loop of `parseDocdecl` at `k` with bracket `level`: the declaration
   * ends at the first `>` outside brackets; a reference inside it is read
   * as `parseCharOrPredefinedEntityRef` reads it.
   */
  function DocdeclLoop(s: Str, k: nat, level: int): (r: Scan)
    ensures r.Accept? ==> k < r.next <= |s| && s[r.next - 1] == GT
    decreases |s| - k
  {
    if k >= |s| then Truncated
    else if s[k] == LBRACKET then DocdeclLoop(s, k + 1, level + 1)
    else if s[k] == RBRACKET then DocdeclLoop(s, k + 1, level - 1)
    else if s[k] == GT && level == 0 then Accept(k + 1)
    else if s[k] == '&' as int then
      var ref := ReferenceScan(s, k + 1);
      if ref.Accept? then ReferenceScanAdvances(s, k + 1); DocdeclLoop(s, ref.next, level)
      else ref
    else DocdeclLoop(s, k + 1, level)
  }

  /** `parseDocdecl` from offset `i`, just past `<!D`. */
  function DocdeclScan(s: Str, i: nat): Scan
    requires i <= |s|
  {
    var kw := KeywordScan(s, i, OCTYPE, 0, DoctypeExpected);
    if kw.Accept? then DocdeclLoop(s, i + |OCTYPE|, 0) else kw
  }

  /** No reference starts in `s[a..b)`. */
  predicate NoAmpersandIn(s: Str, a: nat, b: nat)
    requires b <= |s|
  {
    forall j :: a <= j < b ==> s[j] != '&' as int
  }

  /** `s[start..k)` is a declaration body ending in a `>` at level zero, with no such `>` before it. */
  predicate DocdeclEndsAt(s: Str, start: nat, k: nat)
  {
    start < k <= |s| && s[k - 1] == GT && Balance(s, start, k - 1) == 0
    && forall j :: start <= j < k - 1 && s[j] == GT ==> Balance(s, start, j) != 0
  }

  lemma {:induction false} DocdeclLoopComplete(s: Str, start: nat, m: nat, k: nat)
    requires start <= m < k && DocdeclEndsAt(s, start, k) && NoAmpersandIn(s, m, k)
    requires forall j :: m <= j < k - 1 && s[j] == GT ==> Balance(s, start, j) != 0
    ensures DocdeclLoop(s, m, Balance(s, start, m)) == Accept(k)
    decreases k - m
  {
    if m < k - 1 {
      DocdeclLoopComplete(s, start, m + 1, k);
    }
  }

  lemma {:induction false} DocdeclLoopSound(s: Str, start: nat, m: nat, k: nat)
    requires start <= m <= |s| && k <= |s| && NoAmpersandIn(s, m, k)
    requires forall j :: start <= j < m && s[j] == GT ==> Balance(s, start, j) != 0
    requires DocdeclLoop(s, m, Balance(s, start, m)) == Accept(k)
    ensures DocdeclEndsAt(s, start, k)
    decreases k - m
  {
    if !(s[m] == GT && Balance(s, start, m) == 0) {
      DocdeclLoopSound(s, start, m + 1, k);
    }
  }

  /**
   * A document type declaration without references is accepted up to `k`
   * exactly when it is `OCTYPE` and a body that ends at the first `>`
   * where every `[` has been matched by a `]`.
   */
  lemma DocdeclGrammar(s: Str, i: nat, k: nat)
    requires i <= k <= |s| && NoAmpersandIn(s, i, k)
    ensures DocdeclScan(s, i) == Accept(k) <==>
      (i + |OCTYPE| <= |s| && s[i..i + |OCTYPE|] == OCTYPE && DocdeclEndsAt(s, i + |OCTYPE|, k))
  {
    var start := i + |OCTYPE|;
    if DocdeclScan(s, i) == Accept(k) {
      assert Balance(s, start, start) == 0;
      DocdeclLoopSound(s, start, start, k);
    }
    if i + |OCTYPE| <= |s| && s[i..i + |OCTYPE|] == OCTYPE && DocdeclEndsAt(s, start, k) {
      assert s[i + 0..i + |OCTYPE|] == OCTYPE[0..];
      DocdeclLoopComplete(s, start, start, k);
    }
  }

  /** `]]>` stands at `e`. */
  predicate CdataEndAt(s: Str, e: int)
  {
    0 <= e && e + 3 <= |s| && s[e] == RBRACKET && s[e + 1] == RBRACKET && s[e + 2] == GT
  }

  /**
   * The loop of `parseCDSect` as written: a character other than `]` and
   * `>` clears `seenBracket` but leaves `seenBracketBracket` set.
   */
  function CDataLoopAsWritten(s: Str, k: nat, seenBracket: bool, seenBracketBracket: bool, line: int, column: int): Scan
    decreases |s| - k
  {
    if k >= |s| then Reject(CdataNotClosed(line, column))
    else if s[k] == RBRACKET then
      CDataLoopAsWritten(s, k + 1, true, if seenBracket then true else seenBracketBracket, line, column)
    else if s[k] == GT then
      if seenBracket && seenBracketBracket then Accept(k + 1)
      else CDataLoopAsWritten(s, k + 1, false, false, line, column)
    else CDataLoopAsWritten(s, k + 1, false, seenBracketBracket, line, column)
  }

  /**
   * The loop of `parseCDSect` with the intended reset: a character other
   * than `]` clears both flags, so only `]]>` ends the section.
   */
  function CDataLoop(s: Str, k: nat, seenBracket: bool, seenBracketBracket: bool, line: int, column: int): (r: Scan)
    ensures r.Accept? ==> k < r.next <= |s| && s[r.next - 1] == GT
    ensures r.Accept? || r == Reject(CdataNotClosed(line, column))
    decreases |s| - k
  {
    if k >= |s| then Reject(CdataNotClosed(line, column))
    else if s[k] == RBRACKET then
      CDataLoop(s, k + 1, true, if seenBracket then true else seenBracketBracket, line, column)
    else if s[k] == GT then
      if seenBracket && seenBracketBracket then Accept(k + 1)
      else CDataLoop(s, k + 1, false, false, line, column)
    else CDataLoop(s, k + 1, false, false, line, column)
  }

  /**
   * `parseCDSect` as written, from offset `i`, just past `<![`; `line` and
   * `column` are the parser's position after `CDATA[`.
   */
  function CDSectScanAsWritten(s: Str, i: nat, line: int, column: int): Scan
    requires i <= |s|
  {
    var kw := KeywordScan(s, i, CDATA_OPEN, 0, CdataStartExpected);
    if kw.Accept? then CDataLoopAsWritten(s, i + |CDATA_OPEN|, false, false, line, column) else kw
  }

  /** `parseCDSect` with the intended end detection, from offset `i`, just past `<![`. */
  function CDSectScan(s: Str, i: nat, line: int, column: int): Scan
    requires i <= |s|
  {
    var kw := KeywordScan(s, i, CDATA_OPEN, 0, CdataStartExpected);
    if kw.Accept? then CDataLoop(s, i + |CDATA_OPEN|, false, false, line, column) else kw
  }

  /** The flags of the CDATA loop at `m` say whether `]` and `]]` precede it within the section that starts at `start`. */
  predicate BracketsBefore(s: Str, start: nat, m: nat, seenBracket: bool, seenBracketBracket: bool)
    requires m <= |s|
  {
    (seenBracket <==> start < m && s[m - 1] == RBRACKET)
    && (seenBracketBracket <==> start + 1 < m && s[m - 1] == RBRACKET && s[m - 2] == RBRACKET)
  }

  lemma {:induction false} CDataLoopComplete(s: Str, start: nat, m: nat, e: nat, sb: bool, sbb: bool, line: int, column: int)
    requires start <= e && start <= m <= e + 2 && CdataEndAt(s, e) && BracketsBefore(s, start, m, sb, sbb)
    requires forall j :: start <= j < e ==> !CdataEndAt(s, j)
    ensures CDataLoop(s, m, sb, sbb, line, column) == Accept(e + 3)
    decreases e + 2 - m
  {
    if m < e + 2 {
      if start + 2 <= m {
        assert !CdataEndAt(s, m - 2);
      }
      CDataLoopComplete(s, start, m + 1, e, s[m] == RBRACKET, s[m] == RBRACKET && sb, line, column);
    }
  }

  lemma {:induction false} CDataLoopSound(s: Str, start: nat, m: nat, k: nat, sb: bool, sbb: bool, line: int, column: int)
    requires start <= m <= |s| && BracketsBefore(s, start, m, sb, sbb)
    requires forall j :: start <= j < m - 2 ==> !CdataEndAt(s, j)
    requires CDataLoop(s, m, sb, sbb, line, column) == Accept(k)
    ensures start + 3 <= k && CdataEndAt(s, k - 3) && forall j :: start <= j < k - 3 ==> !CdataEndAt(s, j)
    decreases |s| - m
  {
    if !(s[m] == GT && sb && sbb) {
      CDataLoopSound(s, start, m + 1, k, s[m] == RBRACKET, s[m] == RBRACKET && sb, line, column);
    }
  }

  /**
   * The corrected CDATA section from `i` (just past `<![`) is accepted up
   * to `k` exactly when `CDATA[` follows and the first `]]>` after it ends
   * at `k`.
   */
  lemma CDSectGrammar(s: Str, i: nat, k: nat, line: int, column: int)
    requires i <= |s|
    ensures CDSectScan(s, i, line, column) == Accept(k) <==>
      (i + |CDATA_OPEN| <= |s| && s[i..i + |CDATA_OPEN|] == CDATA_OPEN
       && i + |CDATA_OPEN| + 3 <= k && CdataEndAt(s, k - 3)
       && forall j :: i + |CDATA_OPEN| <= j < k - 3 ==> !CdataEndAt(s, j))
  {
    var start := i + |CDATA_OPEN|;
    if CDSectScan(s, i, line, column) == Accept(k) {
      CDataLoopSound(s, start, start, k, false, false, line, column);
    }
    if i + |CDATA_OPEN| <= |s| && s[i..i + |CDATA_OPEN|] == CDATA_OPEN
       && start + 3 <= k && CdataEndAt(s, k - 3) && forall j :: start <= j < k - 3 ==> !CdataEndAt(s, j) {
      assert s[i + 0..i + |CDATA_OPEN|] == CDATA_OPEN[0..];
      CDataLoopComplete(s, start, start, k - 3, false, false, line, column);
    }
  }

  /**
   * As written, `]]x]>` closes a CDATA section: on `CDATA[a]]x]>]]>` the
   * recogniser stops after the first `>`, and the section's content is
   * `a]]` rather than `a]]x]>`.
   */
  lemma CDSectEndsEarlyAsWritten(line: int, column: int)
    ensures CDSectScanAsWritten(Lit("CDATA[a]]x]>]]>"), 0, line, column) == Accept(12)
    ensures CDSectScan(Lit("CDATA[a]]x]>]]>"), 0, line, column) == Accept(15)
  {
    var s := Lit("CDATA[a]]x]>]]>");
    assert s[0..6] == CDATA_OPEN;
    assert CDataLoopAsWritten(s, 6, false, false, line, column) == Accept(12);
    CDSectGrammar(s, 0, 15, line, column);
  }

  // ---------------------------------------------------------------------
  // What the processing-instruction recogniser accepts

  /**
   * `s[i..k)` is a processing instruction after `<?` without markup inside:
   * a target that does not start with white space or `?`, no `<` or `>`,
   * and `?>` at the end.
   */
  predicate PlainPI(s: Str, i: nat, k: nat)
  {
    i + 3 <= k <= |s| && s[k - 2] == QUESTION && s[k - 1] == GT
    && !XmlChars.IsS(s[i]) && s[i] != QUESTION
    && forall m :: i <= m < k - 2 ==> s[m] != GT && s[m] != LT
  }

  /**
   * The target at `i` is not one the target test takes for the declaration:
   * as written, it does not start with `xml` (in any case); corrected, it is
   * not `xml` followed by white space.
   */
  predicate NotDeclarationStart(s: Str, i: nat, asWritten: bool)
  {
    if asWritten then !XmlTargetAt(s, i)
    else !(XmlTargetAt(s, i) && i + 3 < |s| && XmlChars.IsS(s[i + 3]))
  }

  lemma {:induction false} PILoopComplete(s: Str, i: nat, m: nat, k: nat, seenInnerTag: bool, seenQ: bool, targetEnded: bool,
                                          relative: int, atDocumentStart: bool, asWritten: bool, line: int, column: int)
    requires i < m <= k - 2 && PlainPI(s, i, k) && NotDeclarationStart(s, i, asWritten)
    ensures PILoop(s, i, m, true, seenInnerTag, seenQ, targetEnded, relative, atDocumentStart, asWritten, line, column)
            == PIScan(Accept(k), None)
    decreases k - m
  {
    if m < k - 2 {
      if !targetEnded && XmlChars.IsS(s[m]) {
        assert !DeclarationTargetIn(s, i, m, asWritten);
      }
      PILoopComplete(s, i, m + 1, k, seenInnerTag, false, targetEnded || XmlChars.IsS(s[m]),
                     relative, atDocumentStart, asWritten, line, column);
    }
  }

  lemma {:induction false} PILoopSound(s: Str, i: nat, m: nat, k: nat, seenInnerTag: bool, seenQ: bool, targetEnded: bool,
                                       relative: int, atDocumentStart: bool, asWritten: bool, line: int, column: int)
    requires i < m <= k <= |s| && NotDeclarationStart(s, i, asWritten) && !seenInnerTag
    requires forall j :: m <= j < k ==> s[j] != LT
    requires PILoop(s, i, m, true, seenInnerTag, seenQ, targetEnded, relative, atDocumentStart, asWritten, line, column)
             == PIScan(Accept(k), None)
    ensures m < k && s[k - 1] == GT && (if k - 1 == m then seenQ else s[k - 2] == QUESTION)
    ensures forall j :: m <= j < k - 1 ==> s[j] != GT
    decreases k - m
  {
    if !(s[m] == GT && seenQ) {
      if !targetEnded && XmlChars.IsS(s[m]) {
        assert !DeclarationTargetIn(s, i, m, asWritten);
      }
      PILoopSound(s, i, m + 1, k, false, s[m] == QUESTION,
                  targetEnded || XmlChars.IsS(s[m]), relative, atDocumentStart, asWritten, line, column);
    }
  }

  /**
   * A processing instruction whose target the test does not take for the
   * declaration and which holds no `<` is accepted up to `k`, without a
   * declaration, exactly when it is a plain instruction ending at `k`.
   */
  lemma PIGrammar(s: Str, i: nat, k: nat, relative: int, atDocumentStart: bool, asWritten: bool, line: int, column: int)
    requires i < k <= |s| && NotDeclarationStart(s, i, asWritten)
    requires forall j :: i <= j < k ==> s[j] != LT
    ensures PIScanAt(s, i, relative, atDocumentStart, asWritten, line, column) == PIScan(Accept(k), None) <==> PlainPI(s, i, k)
  {
    if PIScanAt(s, i, relative, atDocumentStart, asWritten, line, column) == PIScan(Accept(k), None) {
      PILoopSound(s, i, i + 1, k, false, false, false, relative, atDocumentStart, asWritten, line, column - 2);
    }
    if PlainPI(s, i, k) {
      PILoopComplete(s, i, i + 1, k, false, false, false, relative, atDocumentStart, asWritten, line, column - 2);
    }
  }

  /** The characters of a target before its first white space are read past one by one. */
  lemma {:induction false} PILoopTarget(s: Str, i: nat, m: nat, n: nat, relative: int, atDocumentStart: bool,
                                        asWritten: bool, line: int, column: int)
    requires i <= m <= n <= |s|
    requires forall j :: m <= j < n ==> !XmlChars.IsS(s[j]) && s[j] != QUESTION && s[j] != GT && s[j] != LT
    ensures PILoop(s, i, m, true, false, false, false, relative, atDocumentStart, asWritten, line, column)
            == PILoop(s, i, n, true, false, false, false, relative, atDocumentStart, asWritten, line, column)
    decreases n - m
  {
    if m < n {
      PILoopTarget(s, i, m + 1, n, relative, atDocumentStart, asWritten, line, column);
    }
  }

  /**
   * As written, every target that starts with `xml` is taken for the XML
   * declaration. On `<?xml-stylesheet href='a'?>` at the start of the input
   * the declaration's recogniser then demands `version`; anywhere later it
   * is refused outright, as the declaration out of place or as a reserved
   * target (so `<?xml version="1.0"?><?xml-stylesheet href="s"?><r/>` is
   * refused). With the intended test the same instruction is an ordinary
   * one wherever it stands.
   */
  lemma XmlStylesheetAsWritten(relative: int, atDocumentStart: bool, line: int, column: int)
    ensures DeclarationTargetAsWritten(Lit("xml-stylesheet href='a'?>"), 0, 14)
    ensures !DeclarationTarget(Lit("xml-stylesheet href='a'?>"), 0, 14)
    ensures relative <= 2 ==>
      PIScanAt(Lit("xml-stylesheet href='a'?>"), 0, relative, atDocumentStart, true, line, column)
      == PIScan(Reject(ExpectedInput(VERSION, 'h' as int)), None)
    ensures relative > 2 ==>
      PIScanAt(Lit("xml-stylesheet href='a'?>"), 0, relative, atDocumentStart, true, line, column)
      == PIScan(Reject(if atDocumentStart then XmlDeclNotFirst else ReservedXmlName), None)
    ensures PIScanAt(Lit("xml-stylesheet href='a'?>"), 0, relative, atDocumentStart, false, line, column)
            == PIScan(Accept(25), None)
  {
    var s := Lit("xml-stylesheet href='a'?>");
    assert s[0] == 'x' as int && s[1] == 'm' as int && s[2] == 'l' as int && XmlChars.IsS(s[14]);
    assert XmlTargetAt(s, 0);
    assert SEnd(s, 14) == 15 by { SEndAt(s, 14, 15); }
    var unclosed := PINotClosed(line, column - 2);
    assert XmlDeclScan(s, 14, unclosed) == PIScan(Reject(ExpectedInput(VERSION, 'h' as int)), None);
    assert s[3] == '-' as int && s[4] == 's' as int && s[5] == 't' as int && s[6] == 'y' as int && s[7] == 'l' as int;
    assert s[8] == 'e' as int && s[9] == 's' as int && s[10] == 'h' as int && s[11] == 'e' as int;
    assert s[12] == 'e' as int && s[13] == 't' as int;
    PILoopTarget(s, 0, 1, 14, relative, atDocumentStart, true, line, column - 2);
    PIGrammar(s, 0, 25, relative, atDocumentStart, false, line, column);
  }

  /** The declaration of the parser's test input `<?xml version='1.0'?>`. */
  lemma VersionOnlyDeclaration(asWritten: bool, line: int, column: int)
    ensures PIScanAt(Lit("xml version='1.0'?>"), 0, 2, true, asWritten, line, column)
            == PIScan(Accept(19), Some(Declaration(VERSION_1_0, None, None)))
  {
    var s := Lit("xml version='1.0'?>");
    assert SEnd(s, 3) == 4 by { SEndAt(s, 3, 4); }
    assert SEnd(s, 11) == 11 by { SEndAt(s, 11, 11); }
    assert SEnd(s, 12) == 12 by { SEndAt(s, 12, 12); }
    assert SEnd(s, 17) == 17 by { SEndAt(s, 17, 17); }
    var unclosed := PINotClosed(line, column - 2);
    assert RequireFrom(s, 4, VERSION, 0, unclosed) == At(11) by {
      assert RequireFrom(s, 4, VERSION, 7, unclosed) == At(11);
    }
    assert EqualsQuote(s, 11, VERSION, unclosed) == At(12);
    assert VersionValue(s, 13, s[12], unclosed) == At(16);
    assert s[13..16] == VERSION_1_0;
    assert DeclAfterVersion(s, 16, unclosed) == PIScan(Accept(19), Some(Declaration(VERSION_1_0, None, None)));
    assert PILoop(s, 0, 3, true, false, false, false, 2, true, asWritten, line, column - 2) == XmlDeclScan(s, 3, unclosed);
  }
}
