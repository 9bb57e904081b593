/**
 * What each recogniser of `MXParser` does with the input, stated over the
 * whole character sequence the reader delivers: from the offset where the
 * recogniser starts, it accepts up to some offset, rejects the input with a
 * well-formedness problem, fails with a runtime exception, or runs out of
 * input. The parser's methods, which read through their buffer one
 * character at a time, are proved to agree with these functions.
 */
module Scans {
  import opened Kotlin
  import opened Wrappers
  import opened ParserErrors
  import XmlChars

  /** The outcome of one recogniser over the input, from a given offset. */
  datatype Scan =
    | Accept(next: nat)        // recognised; `next` is the offset after the last character consumed
    | Reject(problem: Problem) // an `XmlPullParserException`
    | Fault(failure: Failure)  // a runtime exception of the source (a null array, an index out of bounds)
    | Truncated                // the input ended first

  /** The exceptions `more()` reports when there is no next character (or no reader). */
  predicate EndOfInput(f: Failure)
  {
    f.Eof? || f.IndexOutOfBounds? || f.IllegalArgument? || f == XmlNoPosition(ReaderNotSet)
  }

  /** The buffer could not double because its size would exceed `Int`. */
  predicate Overflow<T>(r: Result<T, Failure>)
  {
    r.Err? && r.error.NegativeArraySize?
  }

  /**
   * A recogniser's result `r`, with the input consumed up to `offset` and
   * the parser at line and column `at`, is what `sc` says, unless a buffer
   * had to grow past the largest array; a rejection carries `at`.
   */
  predicate Agrees<T>(r: Result<T, Failure>, sc: Scan, offset: int, at: (int, int))
  {
    Overflow(r) ||
    match sc
    case Accept(next) => r.Ok? && offset == next
    case Reject(p) => r == Err(Xml(p, at.0, at.1))
    case Fault(f) => r == Err(f)
    case Truncated => r.Err? && EndOfInput(r.error)
  }

  // ---------------------------------------------------------------------
  // Position tracking

  /**
   * `lineNumber` and `columnNumber` once the first `k` characters of the
   * input are consumed: both start at 1, `more()` moves to column 1 of the
   * next line after a `\n` and one column on after anything else.
   */
  function Track(s: Str, k: nat): (r: (int, int))
    requires k <= |s|
    ensures r.0 >= 1 && r.1 >= 1
  {
    if k == 0 then (1, 1)
    else
      var p := Track(s, k - 1);
      if s[k - 1] == XmlChars.LF then (p.0 + 1, 1) else (p.0, p.1 + 1)
  }


  // ---------------------------------------------------------------------
  // Runs of name characters and of white space

  /** Every character of `s` is a name character. */
  predicate AllNameChars(s: Str)
  {
    forall k :: 0 <= k < |s| ==> XmlChars.IsNameChar(s[k])
  }

  /** Every character of `s` is white space (production [3] S). */
  predicate AllS(s: Str)
  {
    forall k :: 0 <= k < |s| ==> XmlChars.IsS(s[k])
  }

  /** `s[i..j)` are name characters. */
  predicate NameCharsIn(s: Str, i: int, j: int)
    requires 0 <= i && j <= |s|
  {
    forall k {:trigger XmlChars.IsNameChar(s[k])} :: i <= k < j ==> XmlChars.IsNameChar(s[k])
  }

  /** `s[i..j)` are white space. */
  predicate SIn(s: Str, i: int, j: int)
    requires 0 <= i && j <= |s|
  {
    forall k {:trigger XmlChars.IsS(s[k])} :: i <= k < j ==> XmlChars.IsS(s[k])
  }

  /** The end of the run of name characters that starts at `i`. */
  function NameEnd(s: Str, i: nat): (j: nat)
    requires i <= |s|
    ensures i <= j <= |s|
    ensures j < |s| ==> !XmlChars.IsNameChar(s[j])
    decreases |s| - i
  {
    if i == |s| || !XmlChars.IsNameChar(s[i]) then i else NameEnd(s, i + 1)
  }

  /** The end of the run of white space that starts at `i`. */
  function SEnd(s: Str, i: nat): (j: nat)
    requires i <= |s|
    ensures i <= j <= |s|
    ensures j < |s| ==> !XmlChars.IsS(s[j])
    decreases |s| - i
  {
    if i == |s| || !XmlChars.IsS(s[i]) then i else SEnd(s, i + 1)
  }

  /** Everything the run covers is of its class. */
  lemma {:induction false} NameEndRun(s: Str, i: nat)
    requires i <= |s|
    ensures NameCharsIn(s, i, NameEnd(s, i))
    decreases |s| - i
  {
    if i < |s| && XmlChars.IsNameChar(s[i]) {
      NameEndRun(s, i + 1);
    }
  }

  lemma {:induction false} SEndRun(s: Str, i: nat)
    requires i <= |s|
    ensures SIn(s, i, SEnd(s, i))
    decreases |s| - i
  {
    if i < |s| && XmlChars.IsS(s[i]) {
      SEndRun(s, i + 1);
    }
  }

  /** A run ends where its characters stop: any `j` with the run before it and a stop character (or the end) at it is the end. */
  lemma {:induction false} NameEndAt(s: Str, i: nat, j: nat)
    requires i <= j <= |s| && NameCharsIn(s, i, j) && (j < |s| ==> !XmlChars.IsNameChar(s[j]))
    ensures NameEnd(s, i) == j
    decreases j - i
  {
    if i < j {
      NameEndAt(s, i + 1, j);
    }
  }

  lemma {:induction false} SEndAt(s: Str, i: nat, j: nat)
    requires i <= j <= |s| && SIn(s, i, j) && (j < |s| ==> !XmlChars.IsS(s[j]))
    ensures SEnd(s, i) == j
    decreases j - i
  {
    if i < j {
      SEndAt(s, i + 1, j);
    }
  }

  const GT: CodeUnit := '>' as int

  // ---------------------------------------------------------------------
  // End tag: production [42] ETag ::= '</' Name S? '>'

  /**
   * `parseEndTag` from offset `i`, just past `</`. `open` is the raw name and
   * start line of the innermost open element, or the exception looking it up
   * throws.
   */
  function EndTagScan(s: Str, i: nat, open: Result<(Str, int), Failure>): Scan
  {
    if i >= |s| then Truncated
    else if !XmlChars.IsNameStartChar(s[i]) then Reject(EndTagExpectedNameStart(s[i]))
    else EndTagAfterName(s, i, NameEnd(s, i + 1), open)
  }

  /** The end tag once its name `s[i..j)` is read: it must have the open element's length and characters. */
  function EndTagAfterName(s: Str, i: nat, j: nat, open: Result<(Str, int), Failure>): Scan
    requires i < j <= |s|
  {
    if j == |s| then Truncated
    else if open.Err? then Fault(open.error)
    else
      var (start, line) := open.value;
      var name := s[i..j];
      if |name| != |start| then Reject(EndTagLengthMismatch(name, start, line))
      else if name != start then Reject(EndTagNameMismatch(name, start, line))
      else EndTagClose(s, SEnd(s, j), line)
  }

  /** An end tag whose name runs from `i` to `j` goes on as `EndTagAfterName` says. */
  lemma EndTagNamed(s: Str, i: nat, j: nat, open: Result<(Str, int), Failure>)
    requires i < |s| && XmlChars.IsNameStartChar(s[i]) && j == NameEnd(s, i + 1) < |s|
    ensures EndTagScan(s, i, open) == EndTagAfterName(s, i, j, open)
  {
  }

  /** What follows an end tag's name, by the checks against the open element. */
  lemma EndTagNameChecked(s: Str, i: nat, j: nat, open: Result<(Str, int), Failure>)
    requires i < j < |s|
    ensures open.Err? ==> EndTagAfterName(s, i, j, open) == Fault(open.error)
    ensures open.Ok? && j - i != |open.value.0| ==>
      EndTagAfterName(s, i, j, open) == Reject(EndTagLengthMismatch(s[i..j], open.value.0, open.value.1))
    ensures open.Ok? && j - i == |open.value.0| && s[i..j] != open.value.0 ==>
      EndTagAfterName(s, i, j, open) == Reject(EndTagNameMismatch(s[i..j], open.value.0, open.value.1))
    ensures open.Ok? && s[i..j] == open.value.0 ==>
      EndTagAfterName(s, i, j, open) == EndTagClose(s, SEnd(s, j), open.value.1)
  {
  }

  /** The end tag once the white space after its name is skipped up to `k`: `>` must follow. */
  function EndTagClose(s: Str, k: nat, line: int): Scan
    requires k <= |s|
  {
    if k == |s| then Truncated
    else if s[k] != GT then Reject(EndTagExpectedGt(s[k], line))
    else Accept(k + 1)
  }

  /**
   * An end tag is accepted, up to `k`, exactly when the input from `i` is the
   * open element's name, optional white space and `>` (section 3.1 of XML 1.0,
   * well-formedness constraint Element Type Match).
   */
  lemma EndTagGrammar(s: Str, i: nat, start: Str, line: int, k: nat)
    ensures EndTagScan(s, i, Ok((start, line))) == Accept(k) <==>
      i + |start| < k <= |s| && s[i..i + |start|] == start && |start| > 0
      && XmlChars.IsNameStartChar(start[0]) && AllNameChars(start)
      && AllS(s[i + |start|..k - 1]) && s[k - 1] == GT
  {
    var n := |start|;
    if i + n < k <= |s| && s[i..i + n] == start && n > 0 && XmlChars.IsNameStartChar(start[0]) && AllNameChars(start)
      && AllS(s[i + n..k - 1]) && s[k - 1] == GT
    {
      assert s[i] == start[0];
      assert NameCharsIn(s, i + 1, i + n) by {
        forall m | i + 1 <= m < i + n ensures XmlChars.IsNameChar(s[m]) {
          assert s[m] == start[m - i];
        }
      }
      assert SIn(s, i + n, k - 1) by {
        forall m | i + n <= m < k - 1 ensures XmlChars.IsS(s[m]) {
          assert s[m] == s[i + n..k - 1][m - i - n];
        }
      }
      NameEndAt(s, i + 1, i + n);
      SEndAt(s, i + n, k - 1);
    }
    if EndTagScan(s, i, Ok((start, line))) == Accept(k) {
      var j := NameEnd(s, i + 1);
      NameEndRun(s, i + 1);
      SEndRun(s, j);
      assert s[i..j] == start;
      assert AllNameChars(start) by {
        forall m | 0 <= m < n ensures XmlChars.IsNameChar(start[m]) {
          if m == 0 {
            XmlChars.NameStartCharIsNameChar(start[0]);
          } else {
            assert start[m] == s[i + m];
          }
        }
      }
      var tail := s[j..k - 1];
      assert AllS(tail) by {
        forall m | 0 <= m < |tail| ensures XmlChars.IsS(tail[m]) {
          assert tail[m] == s[j + m];
        }
      }
    }
  }

  // ---------------------------------------------------------------------
  // References: production [67] Reference ::= EntityRef | CharRef

  const SEMI: CodeUnit := ';' as int
  const HASH: CodeUnit := '#' as int
  const HEX_MARK: CodeUnit := 'x' as int

  /** `s[i..j)` are digits of the radix. */
  predicate DigitsIn(s: Str, i: int, j: int, hex: bool)
    requires 0 <= i && j <= |s|
  {
    forall k :: i <= k < j ==> XmlChars.IsDigitOf(s[k], hex)
  }

  /** The end of the run of digits that starts at `i`. */
  function DigitEnd(s: Str, i: nat, hex: bool): (j: nat)
    requires i <= |s|
    ensures i <= j <= |s|
    ensures j < |s| ==> !XmlChars.IsDigitOf(s[j], hex)
    decreases |s| - i
  {
    if i == |s| || !XmlChars.IsDigitOf(s[i], hex) then i else DigitEnd(s, i + 1, hex)
  }

  lemma {:induction false} DigitEndRun(s: Str, i: nat, hex: bool)
    requires i <= |s|
    ensures DigitsIn(s, i, DigitEnd(s, i, hex), hex)
    decreases |s| - i
  {
    if i < |s| && XmlChars.IsDigitOf(s[i], hex) {
      DigitEndRun(s, i + 1, hex);
    }
  }

  lemma {:induction false} DigitEndAt(s: Str, i: nat, j: nat, hex: bool)
    requires i <= j <= |s| && DigitsIn(s, i, j, hex) && (j < |s| ==> !XmlChars.IsDigitOf(s[j], hex))
    ensures DigitEnd(s, i, hex) == j
    decreases j - i
  {
    if i < j {
      DigitEndAt(s, i + 1, j, hex);
    }
  }

  /** The characters a character reference with digits `ds` stands for, if the digits are well formed and name a `Char`. */
  function CharRefChars(ds: Str, hex: bool): (r: Option<Str>)
    ensures r.Some? ==> XmlChars.AllDigits(ds, hex) && 0 < |r.value| <= 2
    ensures XmlChars.AllDigits(ds, hex) ==> r == XmlChars.ResolveCharRef(ds, hex)
  {
    if XmlChars.AllDigits(ds, hex) then XmlChars.ResolveCharRef(ds, hex) else None
  }

  /** The problem a character that is neither a digit nor `;` raises inside a character reference. */
  function IllegalDigit(c: CodeUnit, hex: bool): Problem
  {
    if hex then CharRefIllegalHexDigit(c) else CharRefIllegalDecimalDigit(c)
  }

  /** A character reference from its first digit at `k`: digits, `;`, and a code point that is a `Char`. */
  function CharRefScan(s: Str, k: nat, hex: bool): Scan
    requires k <= |s|
  {
    var j := DigitEnd(s, k, hex);
    if j == |s| then Truncated
    else if s[j] != SEMI then Reject(IllegalDigit(s[j], hex))
    else if CharRefChars(s[k..j], hex).None? then Reject(CharRefInvalid(hex, s[k..j]))
    else Accept(j + 1)
  }

  /** An entity reference from its name at `i`: a name start character, name characters, `;`. */
  function EntityNameScan(s: Str, i: nat): Scan
    requires i < |s|
  {
    if !XmlChars.IsNameStartChar(s[i]) then Reject(EntityNameBadStart(s[i]))
    else
      var j := NameEnd(s, i + 1);
      if j == |s| then Truncated
      else if s[j] != SEMI then Reject(EntityNameBadChar(s[j]))
      else Accept(j + 1)
  }

  /** `parseCharOrPredefinedEntityRef` from offset `i`, just past `&`. */
  function ReferenceScan(s: Str, i: nat): Scan
  {
    if i >= |s| then Truncated
    else if s[i] != HASH then EntityNameScan(s, i)
    else if i + 1 == |s| then Truncated
    else if s[i + 1] == HEX_MARK then CharRefScan(s, i + 2, true)
    else CharRefScan(s, i + 1, false)
  }

  /** A reference as written: `&#` digits `;`, `&#x` digits `;` or `&` name `;`. */
  datatype Reference =
    | CharReference(hex: bool, digits: Str)
    | EntityReference(name: Str)

  /** The reference that starts at `i`, read as far as its digits or name run. */
  function ReferenceAt(s: Str, i: nat): Reference
    requires i < |s|
  {
    if s[i] != HASH then EntityReference(s[i..NameEnd(s, i + 1)])
    else if i + 1 < |s| && s[i + 1] == HEX_MARK then CharReference(true, s[i + 2..DigitEnd(s, i + 2, true)])
    else CharReference(false, s[i + 1..DigitEnd(s, i + 1, false)])
  }

  /** An accepted reference that is neither a character reference nor predefined is the name before the `;` that ends it. */
  lemma ReferenceAcceptedName(s: Str, i: nat, k: nat)
    requires i < |s| && ReferenceScan(s, i) == Accept(k) && ReferenceChars(ReferenceAt(s, i)).None?
    ensures i < k - 1 < |s| && ReferenceAt(s, i) == EntityReference(s[i..k - 1])
  {
  }

  /** The text of a reference after its `&`. */
  function ReferenceText(ref: Reference): Str
  {
    match ref
    case CharReference(hex, ds) => [HASH] + (if hex then [HEX_MARK] else []) + ds + [SEMI]
    case EntityReference(name) => name + [SEMI]
  }

  /** A character reference names a `Char`; an entity reference's name is a `Name`. */
  predicate WellFormedReference(ref: Reference)
  {
    match ref
    case CharReference(hex, ds) => CharRefChars(ds, hex).Some?
    case EntityReference(name) => |name| > 0 && XmlChars.IsNameStartChar(name[0]) && AllNameChars(name)
  }

  /**
   * What a reference stands for before the entity table is consulted: a
   * character reference its characters, a predefined entity (section 4.6)
   * its character.
   */
  function ReferenceChars(ref: Reference): (r: Option<Str>)
    ensures ref.CharReference? && WellFormedReference(ref) ==> r.Some?
    ensures ref.EntityReference? ==> (r.Some? <==> XmlChars.PredefinedEntity(ref.name).Some?)
  {
    match ref
    case CharReference(hex, ds) => CharRefChars(ds, hex)
    case EntityReference(name) =>
      match XmlChars.PredefinedEntity(name)
      case Some(c) => Some([c])
      case None => None
  }

  /** The length `parseCharOrPredefinedEntityRef` returns: of the characters for a character reference, of the name otherwise. */
  function ReferenceLength(ref: Reference): int
  {
    match ref
    case CharReference(hex, ds) => if CharRefChars(ds, hex).Some? then |CharRefChars(ds, hex).value| else 0
    case EntityReference(name) => |name|
  }

  /** Where the digits of a character reference start, after `#` and, for hexadecimal, `x`. */
  function DigitsStart(i: nat, hex: bool): nat
  {
    if hex then i + 2 else i + 1
  }

  /** What a character reference is spelled with before its digits: `#`, and `x` when hexadecimal. */
  function CharRefPrefix(hex: bool): Str
  {
    if hex then [HASH, HEX_MARK] else [HASH]
  }

  /** A slice of `s[a..b]` is the slice of `s` at the same offsets. */
  lemma SubSlice(s: Str, a: nat, b: nat, x: nat, y: nat)
    requires a <= x <= y <= b <= |s|
    ensures s[x..y] == s[a..b][x - a..y - a]
  {
    var sub := s[a..b][x - a..y - a];
    assert |sub| == y - x;
    forall k | 0 <= k < y - x
      ensures s[x..y][k] == sub[k]
    {
      assert sub[k] == s[a..b][x - a + k];
    }
  }

  /** `s[a..c]` is `s[a..b]` followed by `s[b..c]`. */
  lemma SliceAppend(s: Str, a: nat, b: nat, c: nat)
    requires a <= b <= c <= |s|
    ensures s[a..c] == s[a..b] + s[b..c]
  {
    var joined := s[a..b] + s[b..c];
    forall k | 0 <= k < c - a
      ensures s[a..c][k] == joined[k]
    {
      if k < b - a {
        assert joined[k] == s[a..b][k];
      } else {
        assert joined[k] == s[b..c][k - (b - a)];
      }
    }
  }

  /** Extending a slice by the character at its end. */
  lemma SliceSnoc(s: Str, a: nat, b: nat)
    requires a <= b < |s|
    ensures s[a..b + 1] == s[a..b] + [s[b]]
  {
    assert s[a..b + 1][..b - a] == s[a..b];
  }

  /** The three pieces of a character reference's text. */
  lemma CharRefTextPieces(hex: bool, ds: Str)
    ensures var t := ReferenceText(CharReference(hex, ds));
      var n := |CharRefPrefix(hex)|;
      t == CharRefPrefix(hex) + ds + [SEMI] && |t| == n + |ds| + 1
      && t[0..n] == CharRefPrefix(hex) && t[n..n + |ds|] == ds && t[n + |ds|] == SEMI
  {
    var t := ReferenceText(CharReference(hex, ds));
    assert t == CharRefPrefix(hex) + ds + [SEMI];
  }

  /** Where the input spells a character reference, its `#` and optional `x` come first. */
  lemma CharRefTextAtPrefix(s: Str, i: nat, hex: bool, ds: Str)
    requires XmlChars.AllDigits(ds, hex)
    requires i + |ReferenceText(CharReference(hex, ds))| <= |s|
    requires s[i..i + |ReferenceText(CharReference(hex, ds))|] == ReferenceText(CharReference(hex, ds))
    ensures i + 1 < |s| && s[i] == HASH && (s[i + 1] == HEX_MARK <==> hex)
  {
    var t := ReferenceText(CharReference(hex, ds));
    CharRefTextPieces(hex, ds);
    var e := i + |t|;
    assert s[i] == s[i..e][0] == t[0] == HASH;
    assert s[i + 1] == s[i..e][1] == t[1];
    if !hex {
      if |ds| > 0 {
        assert t[1] == ds[0];
        assert XmlChars.IsDigitOf(ds[0], false);
      } else {
        assert t[1] == SEMI;
      }
    }
  }

  /** Where the input spells a character reference, its digits and `;` follow the prefix. */
  lemma CharRefTextAtDigits(s: Str, i: nat, hex: bool, ds: Str)
    requires i + |ReferenceText(CharReference(hex, ds))| <= |s|
    requires s[i..i + |ReferenceText(CharReference(hex, ds))|] == ReferenceText(CharReference(hex, ds))
    ensures var d := DigitsStart(i, hex);
      d + |ds| < |s| && s[d..d + |ds|] == ds && s[d + |ds|] == SEMI
  {
    var t := ReferenceText(CharReference(hex, ds));
    CharRefTextPieces(hex, ds);
    var d := DigitsStart(i, hex);
    var e := i + |t|;
    assert d - i == |CharRefPrefix(hex)|;
    SubSlice(s, i, e, d, d + |ds|);
    assert s[d + |ds|] == s[i..e][d + |ds| - i] == SEMI;
  }

  /** The input spells the character reference `&#[x]ds;` from `i`: how the scan sees it. */
  lemma CharRefTextAt(s: Str, i: nat, hex: bool, ds: Str)
    requires XmlChars.AllDigits(ds, hex)
    requires i + |ReferenceText(CharReference(hex, ds))| <= |s|
    requires s[i..i + |ReferenceText(CharReference(hex, ds))|] == ReferenceText(CharReference(hex, ds))
    ensures var d := DigitsStart(i, hex);
      i + 1 < |s| && s[i] == HASH && (s[i + 1] == HEX_MARK <==> hex)
      && d + |ds| < |s| && s[d..d + |ds|] == ds && DigitEnd(s, d, hex) == d + |ds| && s[d + |ds|] == SEMI
  {
    CharRefTextAtPrefix(s, i, hex, ds);
    CharRefTextAtDigits(s, i, hex, ds);
    var d := DigitsStart(i, hex);
    assert DigitsIn(s, d, d + |ds|, hex) by {
      forall m | d <= m < d + |ds| ensures XmlChars.IsDigitOf(s[m], hex) {
        assert s[m] == s[d..d + |ds|][m - d] == ds[m - d];
      }
    }
    DigitEndAt(s, d, d + |ds|, hex);
  }

  /** A reference that starts with `#`: what the scan does, in terms of the run of digits. */
  lemma CharRefScanAt(s: Str, i: nat)
    requires i + 1 < |s| && s[i] == HASH
    ensures var hex := s[i + 1] == HEX_MARK;
      var d := DigitsStart(i, hex);
      var j := DigitEnd(s, d, hex);
      ReferenceAt(s, i) == CharReference(hex, s[d..j])
      && ReferenceScan(s, i) ==
        if j == |s| then Truncated
        else if s[j] != SEMI then Reject(IllegalDigit(s[j], hex))
        else if CharRefChars(s[d..j], hex).None? then Reject(CharRefInvalid(hex, s[d..j]))
        else Accept(j + 1)
  {
  }

  /** A well-formed character reference as written is accepted. */
  lemma CharRefAccepts(s: Str, i: nat, hex: bool, ds: Str, k: nat)
    requires i < k <= |s| && s[i..k] == ReferenceText(CharReference(hex, ds)) && CharRefChars(ds, hex).Some?
    ensures ReferenceScan(s, i) == Accept(k) && ReferenceAt(s, i) == CharReference(hex, ds)
  {
    CharRefTextAt(s, i, hex, ds);
    CharRefScanAt(s, i);
  }

  /** An accepted character reference is spelled as written. */
  lemma CharRefAcceptedText(s: Str, i: nat, k: nat)
    requires i < |s| && s[i] == HASH && ReferenceScan(s, i) == Accept(k)
    ensures i < k <= |s| && s[i..k] == ReferenceText(ReferenceAt(s, i)) && WellFormedReference(ReferenceAt(s, i))
  {
    CharRefScanAt(s, i);
    var hex := s[i + 1] == HEX_MARK;
    var d := DigitsStart(i, hex);
    var j := DigitEnd(s, d, hex);
    CharRefAcceptedPieces(s, i, hex, j, k);
    CharRefTextPieces(hex, s[d..j]);
  }

  /** The text of an accepted character reference: its prefix, its digits, its `;`. */
  lemma CharRefAcceptedPieces(s: Str, i: nat, hex: bool, j: nat, k: nat)
    requires i + 1 < |s| && s[i] == HASH && (s[i + 1] == HEX_MARK <==> hex)
    requires DigitsStart(i, hex) <= j < |s| && s[j] == SEMI && k == j + 1
    ensures s[i..k] == CharRefPrefix(hex) + s[DigitsStart(i, hex)..j] + [SEMI]
  {
    var d := DigitsStart(i, hex);
    SliceAppend(s, i, d, j);
    SliceAppend(s, i, j, k);
    if hex {
      assert s[i..d] == [s[i], s[i + 1]];
    } else {
      assert s[i..d] == [s[i]];
    }
    assert s[j..k] == [SEMI];
  }

  /**
   * A character reference is accepted, up to `k`, exactly when the input
   * from `i` is `#`, an optional `x`, digits of that radix naming a `Char`
   * (production [2]) and `;` (section 4.1 of XML 1.0, production [66]).
   */
  lemma CharRefGrammar(s: Str, i: nat, hex: bool, ds: Str, k: nat)
    ensures ReferenceScan(s, i) == Accept(k) && i < |s| && ReferenceAt(s, i) == CharReference(hex, ds) <==>
      i < k <= |s| && s[i..k] == ReferenceText(CharReference(hex, ds)) && WellFormedReference(CharReference(hex, ds))
  {
    if i < k <= |s| && s[i..k] == ReferenceText(CharReference(hex, ds)) && CharRefChars(ds, hex).Some? {
      CharRefAccepts(s, i, hex, ds, k);
    }
    if ReferenceScan(s, i) == Accept(k) && i < |s| && ReferenceAt(s, i) == CharReference(hex, ds) {
      CharRefAcceptedText(s, i, k);
    }
  }

  /**
   * An entity reference is accepted, up to `k`, exactly when the input from
   * `i` is a name and `;` (section 4.1 of XML 1.0, production [68]).
   */
  lemma EntityRefGrammar(s: Str, i: nat, name: Str, k: nat)
    ensures ReferenceScan(s, i) == Accept(k) && i < |s| && ReferenceAt(s, i) == EntityReference(name) <==>
      i < k <= |s| && s[i..k] == ReferenceText(EntityReference(name)) && WellFormedReference(EntityReference(name))
  {
    var n := |name|;
    if i < k <= |s| && s[i..k] == name + [SEMI] && WellFormedReference(EntityReference(name)) {
      forall m | 0 <= m < n ensures s[i + m] == name[m] {
        assert s[i..k][m] == s[i + m];
      }
      assert s[i] != HASH;
      assert NameCharsIn(s, i + 1, i + n) by {
        forall m | i + 1 <= m < i + n ensures XmlChars.IsNameChar(s[m]) {
          assert s[m] == name[m - i];
        }
      }
      assert s[i..k][n] == s[i + n] == SEMI;
      NameEndAt(s, i + 1, i + n);
      assert s[i..i + n] == name;
    }
    if ReferenceScan(s, i) == Accept(k) && i < |s| && ReferenceAt(s, i) == EntityReference(name) {
      var j := NameEnd(s, i + 1);
      NameEndRun(s, i + 1);
      assert name == s[i..j];
      assert AllNameChars(name) by {
        forall m | 0 <= m < |name| ensures XmlChars.IsNameChar(name[m]) {
          if m == 0 {
            XmlChars.NameStartCharIsNameChar(name[0]);
          } else {
            assert name[m] == s[i + m];
          }
        }
      }
      assert s[i..k] == s[i..j] + [s[j]];
    }
  }

  /**
   * Well-formed digits that do not name a `Char` (none at all, a value past
   * `Int`, a surrogate, a non-character) are rejected with the digits as written.
   */
  lemma CharRefInvalidDigits(s: Str, i: nat, hex: bool, ds: Str)
    requires i + |ReferenceText(CharReference(hex, ds))| <= |s|
    requires s[i..i + |ReferenceText(CharReference(hex, ds))|] == ReferenceText(CharReference(hex, ds))
    requires XmlChars.AllDigits(ds, hex) && XmlChars.ResolveCharRef(ds, hex).None?
    ensures ReferenceScan(s, i) == Reject(CharRefInvalid(hex, ds))
  {
    CharRefTextAt(s, i, hex, ds);
    CharRefScanAt(s, i);
  }
}
