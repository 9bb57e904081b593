/**
 * Start tags: `parseStartTag` and `parseAttribute` (XML 1.0 section 3.1,
 * productions [40]-[41] and section 3.3.3; Namespaces in XML 1.0 sections
 * 3, 5 and 6.3), stated over the input like the other recognisers. The
 * syntax of the tag yields its raw name, its attributes with normalised
 * values and its namespace declarations; resolving the tag against the
 * declarations in scope yields the URIs and the uniqueness checks.
 */
module StartTag {
  import opened Kotlin
  import opened Wrappers
  import opened ParserErrors
  import opened Scans
  import opened Tables
  import XmlChars
  import Markup
  import Parser
  import PullApi

  const COLON: CodeUnit := ':' as int
  const SLASH: CodeUnit := '/' as int
  const EQUALS: CodeUnit := '=' as int
  const AMP: CodeUnit := '&' as int
  const QUOTE: CodeUnit := '"' as int
  const APOSTROPHE: CodeUnit := '\'' as int
  /** `xmlns` */
  const XMLNS: Str := [0x78, 0x6D, 0x6C, 0x6E, 0x73]

  /**
   * The outcome of one part of a start tag: its value and the offset where
   * reading goes on, or a scan that is not an `Accept`.
   */
  datatype Parsed<T> = Done(value: T, next: nat) | Stop(scan: Scan)

  /** A part ended at or after `start`, within the input, or stopped without accepting. */
  predicate Outcome<T>(p: Parsed<T>, s: Str, start: int)
  {
    (p.Done? ==> start <= p.next <= |s|) && (p.Stop? ==> !p.scan.Accept?)
  }

  /** What the attribute loop makes of an attribute name. */
  datatype AttributeName =
    | Plain(prefix: Option<Str>, local: Str) // an ordinary attribute; a prefix is split off only with namespaces
    | Xmlns(declared: Option<Str>)          // a namespace declaration `xmlns` (the default) or `xmlns:p`

  /** An attribute as written: prefix, local name and normalised value. */
  datatype RawAttribute = RawAttribute(prefix: Option<Str>, name: Str, value: Str)

  /** A start tag as written: raw name, its prefix and local name, attributes, declarations, and whether it is `<a/>`. */
  datatype RawTag = RawTag(rawName: Str, prefix: Option<Str>, name: Str, attributes: seq<RawAttribute>,
                           bindings: seq<Binding>, empty: bool)

  // ---------------------------------------------------------------------
  // Names

  /** The first colon in `s[a..b)`. */
  function FirstColon(s: Str, a: nat, b: nat): (r: Option<nat>)
    requires a <= b <= |s|
    ensures r.Some? ==> a <= r.value < b && s[r.value] == COLON
    ensures r.Some? ==> forall k :: a <= k < r.value ==> s[k] != COLON
    ensures r.None? ==> forall k :: a <= k < b ==> s[k] != COLON
    decreases b - a
  {
    if a == b then None else if s[a] == COLON then Some(a) else FirstColon(s, a + 1, b)
  }

  /** `s[a..b)` holds two colons. */
  predicate TwoColons(s: Str, a: nat, b: nat)
    requires a <= b <= |s|
  {
    match FirstColon(s, a, b)
    case Some(c) => FirstColon(s, c + 1, b).Some?
    case None => false
  }

  /** The name `s[i..j)` as prefix and local name: split at its colon with namespaces, whole otherwise. */
  function SplitName(s: Str, i: nat, j: nat, namespaces: bool): (r: (Option<Str>, Str))
    requires i < j <= |s| && (namespaces ==> s[i] != COLON)
    ensures r.0.None? ==> r.1 == s[i..j]
    ensures r.0.Some? ==> namespaces && r.0.value + [COLON] + r.1 == s[i..j] && COLON !in r.0.value
    ensures r.0.Some? <==> namespaces && COLON in s[i..j]
  {
    match FirstColon(s, i + 1, j)
    case Some(c) =>
      if namespaces then
        assert s[i..j] == s[i..c] + [COLON] + s[c + 1..j];
        assert forall k :: 0 <= k < c - i ==> s[i..c][k] == s[i + k] != COLON;
        (Some(s[i..c]), s[c + 1..j])
      else (None, s[i..j])
    case None =>
      assert namespaces ==> forall k :: 0 <= k < j - i ==> s[i..j][k] == s[i + k] != COLON;
      (None, s[i..j])
  }

  /** The namespace rules for an element name `s[i..j)`: with namespaces it neither starts with a colon nor holds two. */
  predicate ElementNameAllowed(s: Str, i: nat, j: nat, namespaces: bool)
    requires i < j <= |s|
  {
    !namespaces || (s[i] != COLON && !TwoColons(s, i + 1, j))
  }

  /**
   * The element name from its first character at `i` (just past `<`): a
   * name run, which with namespaces may neither start with a colon nor hold
   * two. `next` is the offset of the character that ended the name.
   */
  function ElementNameScan(s: Str, i: nat, namespaces: bool): (r: Parsed<(Option<Str>, Str)>)
    requires i < |s|
    ensures Outcome(r, s, i + 1) && (r.Done? ==> r.next < |s| && !XmlChars.IsNameChar(s[r.next]))
    ensures r.Done? <==> NameEnd(s, i + 1) < |s| && ElementNameAllowed(s, i, NameEnd(s, i + 1), namespaces)
    ensures r.Done? ==> r.next == NameEnd(s, i + 1) && r.value == SplitName(s, i, r.next, namespaces)
    ensures namespaces && s[i] == COLON ==> r == Stop(Reject(ElementColonAtStart))
    ensures namespaces && s[i] != COLON && TwoColons(s, i + 1, NameEnd(s, i + 1)) ==> r == Stop(Reject(ElementColonRepeated))
  {
    if namespaces && s[i] == COLON then Stop(Reject(ElementColonAtStart))
    else
      var j := NameEnd(s, i + 1);
      if namespaces && TwoColons(s, i + 1, j) then Stop(Reject(ElementColonRepeated))
      else if j == |s| then Stop(Truncated)
      else Done(SplitName(s, i, j, namespaces), j)
  }

  /**
   * An attribute name from its first character at `i`. With namespaces a
   * name may neither start with a colon nor hold two, a name that starts
   * with `xmlns` must go on with a colon or end there, and `xmlns:` needs a
   * prefix after it. `next` is the offset of the character that ended the
   * name.
   */
  function AttributeNameScan(s: Str, i: nat, namespaces: bool): (r: Parsed<AttributeName>)
    requires i < |s|
    ensures Outcome(r, s, i + 1) && (r.Done? ==> r.next < |s|)
    ensures r.Done? && !namespaces ==> r.value.Plain?
    ensures NameEnd(s, i + 1) < |s| ==> (r.Done? <==> AttributeNameAllowed(s, i, NameEnd(s, i + 1), namespaces))
    ensures r.Done? ==> r.next == NameEnd(s, i + 1) && AttributeNameAllowed(s, i, r.next, namespaces)
                        && r.value == AttributeNameOf(s, i, r.next, namespaces)
    ensures namespaces && s[i] == COLON ==> r == Stop(Reject(AttributeColonAtStart))
    ensures var j := NameEnd(s, i + 1);
            namespaces && s[i] != COLON && XmlnsAt(s, i, j) && i + 5 < j && s[i + 5] != COLON
            ==> r == Stop(Reject(XmlnsMissingColon))
    ensures var j := NameEnd(s, i + 1);
            namespaces && s[i] != COLON && !(XmlnsAt(s, i, j) && i + 5 < j && s[i + 5] != COLON) && TwoColons(s, i + 1, j)
            ==> r == Stop(Reject(AttributeColonRepeated))
    ensures var j := NameEnd(s, i + 1);
            namespaces && j < |s| && s[i] != COLON && !TwoColons(s, i + 1, j) && XmlnsAt(s, i, j) && j == i + 6 && s[i + 5] == COLON
            ==> r == Stop(Reject(XmlnsPrefixRequired))
    ensures NameEnd(s, i + 1) == |s| && AttributeNameAllowed(s, i, |s|, namespaces) ==> r == Stop(Truncated)
  {
    var j := NameEnd(s, i + 1);
    if !namespaces then
      if j == |s| then Stop(Truncated) else Done(AttributeNameOf(s, i, j, false), j)
    else if s[i] == COLON then Stop(Reject(AttributeColonAtStart))
    else if XmlnsAt(s, i, j) && i + 5 < j && s[i + 5] != COLON then Stop(Reject(XmlnsMissingColon))
    else if TwoColons(s, i + 1, j) then Stop(Reject(AttributeColonRepeated))
    else if j == |s| then Stop(Truncated)
    else if XmlnsAt(s, i, j) && j == i + 6 then Stop(Reject(XmlnsPrefixRequired))
    else Done(AttributeNameOf(s, i, j, true), j)
  }

  /** The name `s[a..b)` starts with `xmlns`. */
  predicate XmlnsAt(s: Str, a: nat, b: nat)
    requires b <= |s|
  {
    a + 5 <= b && s[a] == XMLNS[0] && s[a + 1] == XMLNS[1] && s[a + 2] == XMLNS[2] && s[a + 3] == XMLNS[3] && s[a + 4] == XMLNS[4]
  }

  /**
   * The namespace rules for an attribute name `s[a..b)`: with namespaces it
   * neither starts with a colon nor holds two, and a name that starts with
   * `xmlns` is `xmlns` itself or `xmlns:` followed by a prefix.
   */
  predicate AttributeNameAllowed(s: Str, a: nat, b: nat, namespaces: bool)
    requires a < b <= |s|
  {
    !namespaces
    || (s[a] != COLON && !TwoColons(s, a + 1, b) && (XmlnsAt(s, a, b) ==> b == a + 5 || (s[a + 5] == COLON && a + 6 < b)))
  }

  /**
   * What an allowed attribute name stands for: without namespaces the whole
   * name; with them, `xmlns` declares the default namespace, `xmlns:p`
   * declares `p`, and any other name is an ordinary attribute split at its
   * colon.
   */
  function AttributeNameOf(s: Str, a: nat, b: nat, namespaces: bool): (r: AttributeName)
    requires a < b <= |s| && AttributeNameAllowed(s, a, b, namespaces)
    ensures !namespaces ==> r == Plain(None, s[a..b])
    ensures r.Xmlns? <==> namespaces && XmlnsAt(s, a, b)
    ensures r.Xmlns? && r.declared.None? ==> s[a..b] == XMLNS
    ensures r.Xmlns? && r.declared.Some? ==>
      s[a..b] == XMLNS + [COLON] + r.declared.value && |r.declared.value| > 0 && COLON !in r.declared.value
    ensures r.Plain? && r.prefix.None? ==> r.local == s[a..b]
    ensures r.Plain? && r.prefix.Some? ==> r.prefix.value + [COLON] + r.local == s[a..b] && COLON !in r.prefix.value
    ensures r.Plain? ==> (r.prefix.Some? <==> namespaces && COLON in s[a..b])
  {
    if !namespaces then Plain(None, s[a..b])
    else if XmlnsAt(s, a, b) then
      assert s[a..a + 5] == XMLNS;
      if b == a + 5 then
        assert s[a..b] == s[a..a + 5];
        Xmlns(None)
      else
        assert forall k :: a + 1 <= k < a + 5 ==> s[k] == s[a..a + 5][k - a] != COLON;
        assert FirstColon(s, a + 1, b) == Some(a + 5);
        assert forall k :: a + 6 <= k < b ==> s[k] != COLON;
        assert COLON !in s[a + 6..b];
        assert s[a..b] == s[a..a + 5] + [s[a + 5]] + s[a + 6..b];
        Xmlns(Some(s[a + 6..b]))
    else
      var split := SplitName(s, a, b, true);
      Plain(split.0, split.1)
  }

  // ---------------------------------------------------------------------
  // Attribute values (section 3.3.3)

  /**
   * The reference from offset `i`, just past `&`, and what it stands for. A
   * reference is read exactly when it is well formed and resolves; it then
   * gives its replacement text and ends after its `;`. A malformed
   * reference stops as its scan does, and a name that is neither predefined
   * nor in the entity table is an unresolved entity.
   */
  function ReferenceValue(s: Str, i: nat, names: seq<Str>, replacements: seq<Str>): (r: Parsed<Str>)
    requires |names| <= |replacements|
    ensures Outcome(r, s, i + 1)
    ensures !ReferenceScan(s, i).Accept? ==> r == Stop(ReferenceScan(s, i))
    ensures r.Done? <==> ReferenceScan(s, i).Accept? && i < |s| && Parser.ResolveReference(ReferenceAt(s, i), names, replacements).Some?
    ensures r.Done? ==> r.next == ReferenceScan(s, i).next
                        && r.value == Parser.ResolveReference(ReferenceAt(s, i), names, replacements).value
    ensures ReferenceScan(s, i).Accept? && i < |s| && Parser.ResolveReference(ReferenceAt(s, i), names, replacements).None?
            ==> r.Stop? && r.scan.Reject? && r.scan.problem.UnresolvedEntity?
  {
    var ref := ReferenceScan(s, i);
    if !ref.Accept? then Stop(ref)
    else
      Markup.ReferenceScanAdvances(s, i);
      var at := ReferenceAt(s, i);
      match Parser.ResolveReference(at, names, replacements)
      case None => Stop(Reject(UnresolvedEntity(if at.EntityReference? then at.name else [])))
      case Some(t) => Done(t, ref.next)
  }

  /**
   * The attribute value from offset `k` up to the closing `quote`: `<` is
   * refused, a reference is replaced by what it resolves to against the
   * entity table (an unresolved name is an error), and `\t`, `\n`, `\r` and
   * `\r\n` become one space each; `afterCR` says whether the previous
   * character was a literal `\r`.
   */
  function AttrValueLoop(s: Str, k: nat, quote: CodeUnit, afterCR: bool, names: seq<Str>, replacements: seq<Str>)
    : (r: Parsed<Str>)
    requires |names| <= |replacements|
    ensures Outcome(r, s, k + 1)
    decreases |s| - k
  {
    if k >= |s| then Stop(Truncated)
    else if s[k] == quote then Done([], k + 1)
    else if s[k] == Markup.LT then Stop(Reject(LtInAttributeValue))
    else if s[k] == AMP then
      match ReferenceValue(s, k + 1, names, replacements)
      case Stop(sc) => Stop(sc)
      case Done(t, m) =>
        match AttrValueLoop(s, m, quote, false, names, replacements)
        case Done(v, n) => Done(t + v, n)
        case Stop(sc) => Stop(sc)
    else
      match AttrValueLoop(s, k + 1, quote, s[k] == XmlChars.CR, names, replacements)
      case Done(v, n) => Done(XmlChars.AttrStep(s[k], afterCR) + v, n)
      case Stop(sc) => Stop(sc)
  }

  /** `s[k..e)` is literal text up to a closing `quote` at `e`: no quote, `<` or `&` before it. */
  predicate LiteralValue(s: Str, k: nat, e: nat, quote: CodeUnit)
  {
    k <= e < |s| && s[e] == quote
    && forall m :: k <= m < e ==> s[m] != quote && s[m] != Markup.LT && s[m] != AMP
  }

  /** A value without references is its literal text with white space normalised as section 3.3.3 says. */
  lemma {:induction false} LiteralValueFold(s: Str, k: nat, e: nat, quote: CodeUnit, afterCR: bool,
                                            names: seq<Str>, replacements: seq<Str>)
    requires |names| <= |replacements| && LiteralValue(s, k, e, quote)
    ensures AttrValueLoop(s, k, quote, afterCR, names, replacements) == Done(XmlChars.AttrFold(s[k..e], afterCR), e + 1)
    decreases e - k
  {
    if k < e {
      LiteralValueFold(s, k + 1, e, quote, s[k] == XmlChars.CR, names, replacements);
      assert s[k..e][1..] == s[k + 1..e];
    }
  }

  /** The value of an attribute without references is `NormalizeAttr` of its text. */
  lemma LiteralValueNormalized(s: Str, k: nat, e: nat, quote: CodeUnit, names: seq<Str>, replacements: seq<Str>)
    requires |names| <= |replacements| && LiteralValue(s, k, e, quote)
    ensures AttrValueLoop(s, k, quote, false, names, replacements) == Done(XmlChars.NormalizeAttr(s[k..e]), e + 1)
  {
    LiteralValueFold(s, k, e, quote, false, names, replacements);
    XmlChars.AttrFoldIsNormalizeAttr(s[k..e]);
  }

  /** The first `<` or `&` in `s[k..e)`, or `e` when there is none. */
  function ValueRunEnd(s: Str, k: nat, e: nat): (p: nat)
    requires k <= e <= |s|
    ensures k <= p <= e && (p < e ==> s[p] == Markup.LT || s[p] == AMP)
    decreases e - k
  {
    if k == e || s[k] == Markup.LT || s[k] == AMP then k else ValueRunEnd(s, k + 1, e)
  }

  /** The run before `ValueRunEnd` holds neither `<` nor `&`. */
  lemma {:induction false} ValueRunPlain(s: Str, k: nat, e: nat)
    requires k <= e <= |s|
    ensures forall m :: k <= m < ValueRunEnd(s, k, e) ==> s[m] != Markup.LT && s[m] != AMP
    decreases e - k
  {
    if k < e && s[k] != Markup.LT && s[k] != AMP {
      ValueRunPlain(s, k + 1, e);
    }
  }

  /**
   * Section 3.3.3 of XML 1.0 on the value text `s[k..e)` between the
   * quotes: each literal run between references with its white space
   * normalised (`NormalizeAttr`), and each reference replaced by the text
   * it resolves to (`ReferenceValue`). `None` when the text holds
   * `<`, or a reference that is malformed or resolves to nothing.
   */
  function AttValueText(s: Str, k: nat, e: nat, names: seq<Str>, replacements: seq<Str>): (r: Option<Str>)
    requires k <= e < |s| && |names| <= |replacements|
    decreases e - k
  {
    var p := ValueRunEnd(s, k, e);
    var literal := XmlChars.NormalizeAttr(s[k..p]);
    if p == e then Some(literal)
    else if s[p] == Markup.LT then None
    else
      match ReferenceValue(s, p + 1, names, replacements)
      case Stop(_) => None
      case Done(t, m) =>
        if m > e then None
        else
          match AttValueText(s, m, e, names, replacements)
          case None => None
          case Some(v) => Some(literal + t + v)
  }

  /** A quote that can delimit an attribute value. */
  predicate IsQuote(c: CodeUnit)
  {
    c == QUOTE || c == APOSTROPHE
  }

  /** An accepted reference is spelled without quotes: `#`, `x`, digits, name characters and `;`. */
  lemma ReferenceAvoidsQuotes(s: Str, i: nat)
    requires ReferenceScan(s, i).Accept?
    ensures forall m :: i <= m < ReferenceScan(s, i).next ==> !IsQuote(s[m])
  {
    var n := ReferenceScan(s, i).next;
    assert i < |s|;
    if s[i] != HASH {
      NameEndRun(s, i + 1);
      forall m | i + 1 <= m < NameEnd(s, i + 1)
        ensures !IsQuote(s[m])
      {
        assert XmlChars.IsNameChar(s[m]);
      }
    } else {
      var hex := i + 1 < |s| && s[i + 1] == HEX_MARK;
      var k := if hex then i + 2 else i + 1;
      DigitEndRun(s, k, hex);
    }
  }

  /** `r` with `t` written before its value. */
  function Prefixed(t: Str, r: Parsed<Str>): Parsed<Str>
  {
    match r
    case Done(v, n) => Done(t + v, n)
    case Stop(sc) => r
  }

  /**
   * A literal run `s[k..p)` is read character by character: the loop's
   * result is the run's normalisation followed by what it reads from the
   * `<`, `&` or quote at `p`.
   */
  lemma {:induction false} LiteralRunFold(s: Str, k: nat, p: nat, quote: CodeUnit, afterCR: bool,
                                          names: seq<Str>, replacements: seq<Str>)
    requires |names| <= |replacements| && k <= p < |s|
    requires forall m :: k <= m < p ==> s[m] != quote && s[m] != Markup.LT && s[m] != AMP
    requires s[p] == quote || s[p] == Markup.LT || s[p] == AMP
    ensures AttrValueLoop(s, k, quote, afterCR, names, replacements)
            == Prefixed(XmlChars.AttrFold(s[k..p], afterCR), AttrValueLoop(s, p, quote, false, names, replacements))
    decreases p - k
  {
    if k < p {
      LiteralRunFold(s, k + 1, p, quote, s[k] == XmlChars.CR, names, replacements);
      LiteralRunStep(s, k, p, quote, afterCR, names, replacements);
    } else {
      var rest := AttrValueLoop(s, p, quote, false, names, replacements);
      assert s[k..p] == [];
      assert AttrValueLoop(s, p, quote, afterCR, names, replacements) == rest;
      match rest
      case Done(v, n) => assert [] + v == v;
      case Stop(sc) =>
    }
  }

  /** One step of `LiteralRunFold`: the literal character at `k` is folded in front of the rest of the run. */
  lemma {:induction false} LiteralRunStep(s: Str, k: nat, p: nat, quote: CodeUnit, afterCR: bool,
                                          names: seq<Str>, replacements: seq<Str>)
    requires |names| <= |replacements| && k < p < |s| && s[k] != quote && s[k] != Markup.LT && s[k] != AMP
    requires AttrValueLoop(s, k + 1, quote, s[k] == XmlChars.CR, names, replacements)
             == Prefixed(XmlChars.AttrFold(s[k + 1..p], s[k] == XmlChars.CR), AttrValueLoop(s, p, quote, false, names, replacements))
    ensures AttrValueLoop(s, k, quote, afterCR, names, replacements)
            == Prefixed(XmlChars.AttrFold(s[k..p], afterCR), AttrValueLoop(s, p, quote, false, names, replacements))
  {
    AttrFoldFrom(s, k, p, afterCR);
    LiteralStep(s, k, quote, afterCR, names, replacements);
    PrefixedAppend(XmlChars.AttrStep(s[k], afterCR), XmlChars.AttrFold(s[k + 1..p], s[k] == XmlChars.CR),
                   AttrValueLoop(s, p, quote, false, names, replacements));
  }

  /** Folding a run from `k` folds its first character, then the rest. */
  lemma AttrFoldFrom(s: Str, k: nat, p: nat, afterCR: bool)
    requires k < p <= |s|
    ensures XmlChars.AttrFold(s[k..p], afterCR) == XmlChars.AttrStep(s[k], afterCR) + XmlChars.AttrFold(s[k + 1..p], s[k] == XmlChars.CR)
  {
    assert s[k..p][1..] == s[k + 1..p];
  }

  /** A literal character at `k` of a value is written, normalized, in front of what the loop reads after it. */
  lemma LiteralStep(s: Str, k: nat, quote: CodeUnit, afterCR: bool, names: seq<Str>, replacements: seq<Str>)
    requires |names| <= |replacements| && k < |s| && s[k] != quote && s[k] != Markup.LT && s[k] != AMP
    ensures AttrValueLoop(s, k, quote, afterCR, names, replacements)
            == Prefixed(XmlChars.AttrStep(s[k], afterCR), AttrValueLoop(s, k + 1, quote, s[k] == XmlChars.CR, names, replacements))
  { }

  /** Writing `a + b` in front is writing `b`, then `a`. */
  lemma PrefixedAppend(a: Str, b: Str, r: Parsed<Str>)
    ensures Prefixed(a + b, r) == Prefixed(a, Prefixed(b, r))
  {
    match r
    case Done(v, n) => assert a + b + v == a + (b + v);
    case Stop(sc) =>
  }

  /** At `&` the loop reads the reference and goes on after it, the replacement written before the rest. */
  lemma {:induction false} ReferenceStep(s: Str, p: nat, quote: CodeUnit, names: seq<Str>, replacements: seq<Str>)
    requires |names| <= |replacements| && p < |s| && s[p] == AMP && s[p] != quote
    ensures var r := ReferenceValue(s, p + 1, names, replacements);
      && (r.Stop? ==> AttrValueLoop(s, p, quote, false, names, replacements).Stop?)
      && (r.Done? ==> AttrValueLoop(s, p, quote, false, names, replacements)
                      == Prefixed(r.value, AttrValueLoop(s, r.next, quote, false, names, replacements)))
  {
  }

  /** Where the literal run stops at `&`, the value text goes on as the reference after it says. */
  lemma {:induction false} AttValueTextAtReference(s: Str, k: nat, e: nat, names: seq<Str>, replacements: seq<Str>)
    requires k <= e < |s| && |names| <= |replacements|
    requires ValueRunEnd(s, k, e) < e && s[ValueRunEnd(s, k, e)] == AMP
    requires var r := ReferenceValue(s, ValueRunEnd(s, k, e) + 1, names, replacements); r.Done? ==> r.next <= e
    ensures var r := ReferenceValue(s, ValueRunEnd(s, k, e) + 1, names, replacements);
      && (r.Stop? ==> AttValueText(s, k, e, names, replacements).None?)
      && (r.Done? ==>
            AttValueText(s, k, e, names, replacements)
            == if AttValueText(s, r.next, e, names, replacements).None? then None
               else Some(XmlChars.NormalizeAttr(s[k..ValueRunEnd(s, k, e)]) + r.value + AttValueText(s, r.next, e, names, replacements).value))
  {
  }

  /** How the value after a reference joins the literal run and the replacement text before it. */
  lemma {:induction false} ReferenceChain(literal: Str, reference: Parsed<Str>, atP: Parsed<Str>, loop: Parsed<Str>,
                       after: Parsed<Str>, value: Option<Str>, rest: Option<Str>, e: nat)
    requires loop == Prefixed(literal, atP)
    requires reference.Stop? ==> atP.Stop? && value.None?
    requires reference.Done? ==> atP == Prefixed(reference.value, after)
    requires reference.Done? ==> value == if rest.None? then None else Some(literal + reference.value + rest.value)
    requires (after.Done? <==> rest.Some?) && (rest.Some? ==> after == Done(rest.value, e + 1))
    ensures loop.Done? <==> value.Some?
    ensures value.Some? ==> loop == Done(value.value, e + 1)
  {
    if reference.Done? && rest.Some? {
      assert literal + (reference.value + rest.value) == literal + reference.value + rest.value;
    }
  }

  /** The attribute value loop from `k` reads exactly the value `AttValueText` gives up to `e`, and ends just after `e`. */
  predicate ValueReadAt(s: Str, k: nat, e: nat, quote: CodeUnit, names: seq<Str>, replacements: seq<Str>)
    requires |names| <= |replacements| && k <= e < |s|
  {
    && (AttrValueLoop(s, k, quote, false, names, replacements).Done? <==> AttValueText(s, k, e, names, replacements).Some?)
    && (AttValueText(s, k, e, names, replacements).Some? ==>
          AttrValueLoop(s, k, quote, false, names, replacements) == Done(AttValueText(s, k, e, names, replacements).value, e + 1))
  }

  /**
   * The attribute value loop computes `AttValueText` up to the closing
   * quote at `e`, the first quote after `k`: it is read exactly when the
   * text has a value, and then ends just after `e`.
   */
  lemma {:induction false} AttValueGrammar(s: Str, k: nat, e: nat, quote: CodeUnit, names: seq<Str>, replacements: seq<Str>)
    requires |names| <= |replacements| && k <= e < |s| && IsQuote(quote) && s[e] == quote
    requires forall m :: k <= m < e ==> s[m] != quote
    ensures ValueReadAt(s, k, e, quote, names, replacements)
    decreases e - k, 1
  {
    var p := ValueRunEnd(s, k, e);
    if p < e && s[p] == AMP {
      ValueAfterReference(s, k, e, quote, names, replacements);
      ValueAtReference(s, k, e, quote, names, replacements);
    } else {
      ValueWithoutReference(s, k, e, quote, names, replacements);
    }
  }

  /** The value after the first reference in `s[k..e)` is read as `AttValueText` says. */
  lemma {:induction false} ValueAfterReference(s: Str, k: nat, e: nat, quote: CodeUnit, names: seq<Str>, replacements: seq<Str>)
    requires |names| <= |replacements| && k <= e < |s| && IsQuote(quote) && s[e] == quote
    requires forall m :: k <= m < e ==> s[m] != quote
    requires ValueRunEnd(s, k, e) < e && s[ValueRunEnd(s, k, e)] == AMP
    ensures var r := ReferenceValue(s, ValueRunEnd(s, k, e) + 1, names, replacements);
      r.Done? ==> r.next <= e && ValueReadAt(s, r.next, e, quote, names, replacements)
    decreases e - k, 0
  {
    var p := ValueRunEnd(s, k, e);
    var r := ReferenceValue(s, p + 1, names, replacements);
    if r.Done? {
      ReferenceWithinValue(s, p, e, quote, names, replacements);
      AttValueGrammar(s, r.next, e, quote, names, replacements);
    }
  }

  /** A reference read at `p` inside a value that closes at `e` ends by `e`. */
  lemma {:induction false} ReferenceWithinValue(s: Str, p: nat, e: nat, quote: CodeUnit, names: seq<Str>, replacements: seq<Str>)
    requires |names| <= |replacements| && p < e < |s| && IsQuote(quote) && s[e] == quote
    requires ReferenceValue(s, p + 1, names, replacements).Done?
    ensures p + 1 < ReferenceValue(s, p + 1, names, replacements).next <= e
  {
    ReferenceAvoidsQuotes(s, p + 1);
  }

  /** The step of `AttValueGrammar` where the literal run ends at the closing quote or at `<`. */
  lemma {:induction false} ValueWithoutReference(s: Str, k: nat, e: nat, quote: CodeUnit, names: seq<Str>, replacements: seq<Str>)
    requires |names| <= |replacements| && k <= e < |s| && IsQuote(quote) && s[e] == quote
    requires forall m :: k <= m < e ==> s[m] != quote
    requires ValueRunEnd(s, k, e) == e || s[ValueRunEnd(s, k, e)] == Markup.LT
    ensures ValueReadAt(s, k, e, quote, names, replacements)
  {
    var p := ValueRunEnd(s, k, e);
    var literal := XmlChars.NormalizeAttr(s[k..p]);
    var value := AttValueText(s, k, e, names, replacements);
    var loop := AttrValueLoop(s, k, quote, false, names, replacements);
    var atP := AttrValueLoop(s, p, quote, false, names, replacements);
    ValueRunPlain(s, k, e);
    LiteralRunFold(s, k, p, quote, false, names, replacements);
    XmlChars.AttrFoldIsNormalizeAttr(s[k..p]);
    assert loop == Prefixed(literal, atP);
    if p == e {
      assert atP == Done([], e + 1);
      assert literal + [] == literal;
      assert value == Some(literal);
      assert loop == Done(literal, e + 1);
    } else {
      assert value.None?;
      assert atP.Stop?;
    }
  }

  /** The step of `AttValueGrammar` at a reference, given what it says about the text after the reference. */
  lemma {:induction false} ValueAtReference(s: Str, k: nat, e: nat, quote: CodeUnit, names: seq<Str>, replacements: seq<Str>)
    requires |names| <= |replacements| && k <= e < |s| && IsQuote(quote)
    requires forall m :: k <= m < e ==> s[m] != quote
    requires ValueRunEnd(s, k, e) < e && s[ValueRunEnd(s, k, e)] == AMP
    requires ReferenceValue(s, ValueRunEnd(s, k, e) + 1, names, replacements).Done? ==>
             ReferenceValue(s, ValueRunEnd(s, k, e) + 1, names, replacements).next <= e &&
             ValueReadAt(s, ReferenceValue(s, ValueRunEnd(s, k, e) + 1, names, replacements).next, e, quote, names, replacements)
    ensures ValueReadAt(s, k, e, quote, names, replacements)
  {
    var p := ValueRunEnd(s, k, e);
    var r := ReferenceValue(s, p + 1, names, replacements);
    ValueRunPlain(s, k, e);
    LiteralRunFold(s, k, p, quote, false, names, replacements);
    XmlChars.AttrFoldIsNormalizeAttr(s[k..p]);
    ReferenceStep(s, p, quote, names, replacements);
    AttValueTextAtReference(s, k, e, names, replacements);
    if r.Done? {
      var literal := XmlChars.NormalizeAttr(s[k..p]);
      var atP := AttrValueLoop(s, p, quote, false, names, replacements);
      var after := AttrValueLoop(s, r.next, quote, false, names, replacements);
      var value := AttValueText(s, k, e, names, replacements);
      var rest := AttValueText(s, r.next, e, names, replacements);
      assert R1: AttrValueLoop(s, k, quote, false, names, replacements) == Prefixed(literal, atP);
      assert R3: atP == Prefixed(r.value, after);
      assert R4: value == if rest.None? then None else Some(literal + r.value + rest.value);
      assert R5: (after.Done? <==> rest.Some?) && (rest.Some? ==> after == Done(rest.value, e + 1));
      ReferenceChain(XmlChars.NormalizeAttr(s[k..p]), r, AttrValueLoop(s, p, quote, false, names, replacements),
                     AttrValueLoop(s, k, quote, false, names, replacements), AttrValueLoop(s, r.next, quote, false, names, replacements),
                     AttValueText(s, k, e, names, replacements), AttValueText(s, r.next, e, names, replacements), e);
    } else {
      ReferenceChain(XmlChars.NormalizeAttr(s[k..p]), r, AttrValueLoop(s, p, quote, false, names, replacements),
                     AttrValueLoop(s, k, quote, false, names, replacements), Stop(Truncated),
                     AttValueText(s, k, e, names, replacements), None, e);
    }
  }

  /** The value starting at `k` ends at `n`, just past its closing `quote`, the first after `k`. */
  predicate ClosedAt(s: Str, k: nat, n: nat, quote: CodeUnit)
  {
    k < n <= |s| && s[n - 1] == quote && forall m :: k <= m < n - 1 ==> s[m] != quote
  }

  /** A value the loop reads ends at the first quote after its start. */
  lemma {:induction false} AttrValueLoopEnds(s: Str, k: nat, quote: CodeUnit, afterCR: bool, names: seq<Str>, replacements: seq<Str>)
    requires |names| <= |replacements| && IsQuote(quote) && AttrValueLoop(s, k, quote, afterCR, names, replacements).Done?
    ensures ClosedAt(s, k, AttrValueLoop(s, k, quote, afterCR, names, replacements).next, quote)
    decreases |s| - k, 1
  {
    assert k < |s|;
    if s[k] == AMP {
      ReferenceThenValueEnds(s, k, quote, afterCR, names, replacements);
    } else if s[k] != quote {
      var n := AttrValueLoop(s, k, quote, afterCR, names, replacements).next;
      assert AttrValueLoop(s, k + 1, quote, s[k] == XmlChars.CR, names, replacements).next == n;
      AttrValueLoopEnds(s, k + 1, quote, s[k] == XmlChars.CR, names, replacements);
    }
  }

  /** The step of `AttrValueLoopEnds` at a reference. */
  lemma {:induction false} ReferenceThenValueEnds(s: Str, k: nat, quote: CodeUnit, afterCR: bool, names: seq<Str>, replacements: seq<Str>)
    requires |names| <= |replacements| && IsQuote(quote) && AttrValueLoop(s, k, quote, afterCR, names, replacements).Done?
    requires k < |s| && s[k] == AMP
    ensures ClosedAt(s, k, AttrValueLoop(s, k, quote, afterCR, names, replacements).next, quote)
    decreases |s| - k, 0
  {
    var n := AttrValueLoop(s, k, quote, afterCR, names, replacements).next;
    var ref := ReferenceValue(s, k + 1, names, replacements);
    assert ref.Done? && ref.next == ReferenceScan(s, k + 1).next;
    ReferenceAvoidsQuotes(s, k + 1);
    var m := ref.next;
    assert AttrValueLoop(s, m, quote, false, names, replacements).next == n;
    AttrValueLoopEnds(s, m, quote, false, names, replacements);
    forall j | k <= j < n - 1
      ensures s[j] != quote
    {
      if k < j < m {
        assert !IsQuote(s[j]);
      }
    }
  }

  /** An attribute from its first character at `i`: a name, then its value. */
  function AttributeScan(s: Str, i: nat, namespaces: bool, names: seq<Str>, replacements: seq<Str>)
    : (r: Parsed<(AttributeName, Str)>)
    requires i < |s| && |names| <= |replacements|
    ensures Outcome(r, s, i + 1)
    ensures r.Done? && !namespaces ==> r.value.0.Plain?
  {
    match AttributeNameScan(s, i, namespaces)
    case Stop(sc) => Stop(sc)
    case Done(an, j) => Named(an, ValueAfterName(s, j, names, replacements))
  }

  /** The value `r` read for the attribute name `n`. */
  function Named(n: AttributeName, r: Parsed<Str>): Parsed<(AttributeName, Str)>
  {
    match r
    case Done(v, m) => Done((n, v), m)
    case Stop(sc) => Stop(sc)
  }

  /** The rest of an attribute from the end of its name at `j`: optional white space, `=`, white space, a quoted value. */
  function ValueAfterName(s: Str, j: nat, names: seq<Str>, replacements: seq<Str>): (r: Parsed<Str>)
    requires j <= |s| && |names| <= |replacements|
    ensures Outcome(r, s, j + 1)
  {
    var k := SEnd(s, j);
    if k == |s| then Stop(Truncated)
    else if s[k] != EQUALS then Stop(Reject(ExpectedEquals))
    else
      var q := SEnd(s, k + 1);
      if q == |s| then Stop(Truncated)
      else if !IsQuote(s[q]) then Stop(Reject(ExpectedQuote(s[q])))
      else AttrValueLoop(s, q + 1, s[q], false, names, replacements)
  }

  // ---------------------------------------------------------------------
  // The tag

  /**
   * What `parseAttribute` does with an attribute once its value is read: an
   * ordinary attribute is appended; a declaration of a prefix to the empty
   * URI, or of a prefix (or the default namespace) this tag already
   * declared, is an error; any other declaration is appended to the
   * declarations.
   */
  function Admit(attrs: seq<RawAttribute>, bindings: seq<Binding>, name: AttributeName, value: Str)
    : (r: Result<(seq<RawAttribute>, seq<Binding>), Problem>)
    requires WellFormedBindings(bindings)
    ensures r.Ok? ==> WellFormedBindings(r.value.1) && attrs <= r.value.0 && bindings <= r.value.1
    ensures name.Plain? ==> r == Ok((attrs + [RawAttribute(name.prefix, name.local, value)], bindings))
    ensures name.Xmlns? ==> (r.Ok? <==> (name.declared.Some? ==> |value| > 0) && !Declares(bindings, name.declared))
    ensures name.Xmlns? && r.Ok? ==> r.value == (attrs, bindings + [Binding(name.declared, value)])
    ensures name.Xmlns? && name.declared.Some? && |value| == 0 ==> r == Err(EmptyNonDefaultNamespace)
    ensures name.Xmlns? && (name.declared.Some? ==> |value| > 0) && Declares(bindings, name.declared)
            ==> r == Err(DuplicatedNamespace(name.declared))
  {
    match name
    case Plain(p, n) => Ok((attrs + [RawAttribute(p, n, value)], bindings))
    case Xmlns(p) =>
      if p.Some? && |value| == 0 then Err(EmptyNonDefaultNamespace)
      else if Declares(bindings, p) then Err(DuplicatedNamespace(p))
      else Ok((attrs, bindings + [Binding(p, value)]))
  }

  /** One attribute from its first character at `k`, read and admitted. */
  function AttributeStep(s: Str, k: nat, namespaces: bool, names: seq<Str>, replacements: seq<Str>,
                         attrs: seq<RawAttribute>, bindings: seq<Binding>)
    : (r: Parsed<(seq<RawAttribute>, seq<Binding>)>)
    requires k < |s| && |names| <= |replacements| && WellFormedBindings(bindings)
    ensures Outcome(r, s, k + 1)
    ensures r.Done? ==> WellFormedBindings(r.value.1)
    ensures r.Done? && !namespaces ==> r.value.1 == bindings
  {
    match AttributeScan(s, k, namespaces, names, replacements)
    case Stop(sc) => Stop(sc)
    case Done(a, m) =>
      match Admit(attrs, bindings, a.0, a.1)
      case Err(p) => Stop(Reject(p))
      case Ok(acc) => Done(acc, m)
  }
  /**
   * One step reads an attribute and admits it: it succeeds exactly when the
   * attribute is read and admitted, appends it as an ordinary attribute or
   * as a declaration, and goes on after the attribute.
   */
  lemma AttributeStepAdmits(s: Str, k: nat, namespaces: bool, names: seq<Str>, replacements: seq<Str>,
                            attrs: seq<RawAttribute>, bindings: seq<Binding>)
    requires k < |s| && |names| <= |replacements| && WellFormedBindings(bindings)
    ensures var r := AttributeStep(s, k, namespaces, names, replacements, attrs, bindings);
      var a := AttributeScan(s, k, namespaces, names, replacements);
      && (r.Done? <==> a.Done? && Admit(attrs, bindings, a.value.0, a.value.1).Ok?)
      && (r.Done? ==> r.next == a.next && r.value == Admit(attrs, bindings, a.value.0, a.value.1).value)
  {
  }


  /** The end of the tag at `k`: `>`, or `/>` for an empty-element tag (the value). */
  function TagEnd(s: Str, k: nat): (r: Parsed<bool>)
    requires k < |s| && (s[k] == GT || s[k] == SLASH)
    ensures Outcome(r, s, k + 1) && (r.Done? ==> s[r.next - 1] == GT && (r.value <==> s[k] == SLASH))
  {
    if s[k] == GT then Done(false, k + 1)
    else if k + 1 == |s| then Stop(Truncated)
    else if s[k + 1] != GT then Stop(Reject(ExpectedGtForEmptyTag(s[k + 1])))
    else Done(true, k + 2)
  }

  /**
   * The loop of `parseStartTag` after the name, at offset `k` of the
   * character last read: white space is skipped, then `>` ends the tag,
   * `/>` ends an empty tag, a name start character begins an attribute, and
   * anything else is an error. A declaration is checked as soon as its
   * value is read; attributes follow each other without white space in
   * between as well.
   */
  function AttributesLoop(s: Str, k: nat, namespaces: bool, names: seq<Str>, replacements: seq<Str>,
                          attrs: seq<RawAttribute>, bindings: seq<Binding>)
    : (r: Parsed<(seq<RawAttribute>, seq<Binding>, bool)>)
    requires k <= |s| && |names| <= |replacements| && WellFormedBindings(bindings)
    ensures Outcome(r, s, k + 1) && (r.Done? ==> s[r.next - 1] == GT)
    ensures r.Done? ==> WellFormedBindings(r.value.1)
    ensures r.Done? && !namespaces ==> r.value.1 == bindings
    decreases |s| - k, 1
  {
    var k1 := SEnd(s, k);
    if k1 == |s| then Stop(Truncated)
    else if s[k1] == GT || s[k1] == SLASH then
      var close := TagEnd(s, k1);
      if close.Done? then Done((attrs, bindings, close.value), close.next) else Stop(close.scan)
    else if XmlChars.IsNameStartChar(s[k1]) then AttributeThenLoop(s, k1, namespaces, names, replacements, attrs, bindings)
    else Stop(Reject(StartTagUnexpectedChar(s[k1])))
  }

  /** The attribute that starts at `k`, then the rest of the loop. */
  function AttributeThenLoop(s: Str, k: nat, namespaces: bool, names: seq<Str>, replacements: seq<Str>,
                             attrs: seq<RawAttribute>, bindings: seq<Binding>)
    : (r: Parsed<(seq<RawAttribute>, seq<Binding>, bool)>)
    requires k < |s| && |names| <= |replacements| && WellFormedBindings(bindings)
    ensures Outcome(r, s, k + 2) && (r.Done? ==> s[r.next - 1] == GT)
    ensures r.Done? ==> WellFormedBindings(r.value.1)
    ensures r.Done? && !namespaces ==> r.value.1 == bindings
    decreases |s| - k, 0
  {
    match AttributeStep(s, k, namespaces, names, replacements, attrs, bindings)
    case Stop(sc) => Stop(sc)
    case Done(acc, m) => AttributesLoop(s, m, namespaces, names, replacements, acc.0, acc.1)
  }

  /**
   * `parseStartTag` from the first character of the name at `i` (just past
   * `<`) up to the `>` that ends the tag.
   */
  function StartTagScan(s: Str, i: nat, namespaces: bool, names: seq<Str>, replacements: seq<Str>)
    : (r: Parsed<RawTag>)
    requires i < |s| && |names| <= |replacements|
    ensures Outcome(r, s, i + 2) && (r.Done? ==> s[r.next - 1] == GT)
    ensures r.Done? ==> WellFormedBindings(r.value.bindings)
    ensures r.Done? && !namespaces ==> r.value.bindings == [] && r.value.prefix.None?
  {
    match ElementNameScan(s, i, namespaces)
    case Stop(sc) => Stop(sc)
    case Done(name, j) =>
      match AttributesLoop(s, j, namespaces, names, replacements, [], [])
      case Stop(sc) => Stop(sc)
      case Done(body, m) => Done(RawTag(s[i..j], name.0, name.1, body.0, body.1, body.2), m)
  }

  // ---------------------------------------------------------------------
  // The start tag as a grammar

  /**
   * Where one attribute sits in the input: its name `s[a..b)`, the `=` at
   * `eq`, and the quotes that open and close its value at `q` and `e`.
   */
  datatype AttributeLayout = AttributeLayout(a: nat, b: nat, eq: nat, q: nat, e: nat)

  /**
   * Productions [41] Attribute and [25] Eq as `parseAttribute` reads them:
   * a name, white space, `=`, white space, and a value between two equal
   * quotes with no such quote in between.
   */
  predicate AttributeWritten(s: Str, l: AttributeLayout)
  {
    && l.a < l.b <= l.eq < l.q < l.e < |s|
    && XmlChars.IsNameStartChar(s[l.a]) && NameCharsIn(s, l.a + 1, l.b) && !XmlChars.IsNameChar(s[l.b])
    && SIn(s, l.b, l.eq) && s[l.eq] == EQUALS
    && SIn(s, l.eq + 1, l.q) && IsQuote(s[l.q])
    && s[l.e] == s[l.q] && (forall m :: l.q < m < l.e ==> s[m] != s[l.q])
  }

  /**
   * An attribute laid out as production [41] says is read exactly when its
   * name is allowed and its value text is defined (section 3.3.3), and then
   * it is that name and that text, and reading goes on past the closing
   * quote.
   */
  lemma {:induction false} AttributeGrammar(s: Str, l: AttributeLayout, namespaces: bool, names: seq<Str>, replacements: seq<Str>)
    requires |names| <= |replacements| && AttributeWritten(s, l)
    ensures AttributeScan(s, l.a, namespaces, names, replacements).Done? <==> AttributeRead(s, l, namespaces, names, replacements)
    ensures AttributeRead(s, l, namespaces, names, replacements) ==>
      AttributeScan(s, l.a, namespaces, names, replacements) == Done(AttributeItem(s, l, namespaces, names, replacements), l.e + 1)
  {
    NameEndAt(s, l.a + 1, l.b);
    if AttributeNameAllowed(s, l.a, l.b, namespaces) {
      ValueGrammar(s, l, names, replacements);
    }
  }

  /** The value of an attribute laid out as production [41] says is its value text, and ends past the closing quote. */
  lemma {:induction false} ValueGrammar(s: Str, l: AttributeLayout, names: seq<Str>, replacements: seq<Str>)
    requires |names| <= |replacements| && AttributeWritten(s, l)
    ensures ValueAfterName(s, l.b, names, replacements).Done? <==> AttValueText(s, l.q + 1, l.e, names, replacements).Some?
    ensures ValueAfterName(s, l.b, names, replacements).Done? ==>
      ValueAfterName(s, l.b, names, replacements) == Done(AttValueText(s, l.q + 1, l.e, names, replacements).value, l.e + 1)
  {
    SEndAt(s, l.b, l.eq);
    SEndAt(s, l.eq + 1, l.q);
    AttValueGrammar(s, l.q + 1, l.e, s[l.q], names, replacements);
  }

  /**
   * Conversely, an attribute the scan reads from a name start character is
   * laid out as production [41] says, and ends just past its closing quote.
   */
  lemma {:induction false} AttributeScanLayout(s: Str, i: nat, namespaces: bool, names: seq<Str>, replacements: seq<Str>)
    returns (l: AttributeLayout)
    requires i < |s| && |names| <= |replacements| && XmlChars.IsNameStartChar(s[i])
    requires AttributeScan(s, i, namespaces, names, replacements).Done?
    ensures l.a == i && AttributeWritten(s, l) && AttributeScan(s, i, namespaces, names, replacements).next == l.e + 1
  {
    var b := NameEnd(s, i + 1);
    NameEndRun(s, i + 1);
    l := ValueLayout(s, i, b, names, replacements);
  }

  /** A value read after the name `s[i..b)` is laid out as production [41] says. */
  lemma {:induction false} ValueLayout(s: Str, i: nat, b: nat, names: seq<Str>, replacements: seq<Str>)
    returns (l: AttributeLayout)
    requires i < b < |s| && |names| <= |replacements| && ValueAfterName(s, b, names, replacements).Done?
    requires XmlChars.IsNameStartChar(s[i]) && NameCharsIn(s, i + 1, b) && !XmlChars.IsNameChar(s[b])
    ensures l.a == i && l.b == b && AttributeWritten(s, l) && ValueAfterName(s, b, names, replacements).next == l.e + 1
  {
    var eq := SEnd(s, b);
    var q := SEnd(s, eq + 1);
    SEndRun(s, b);
    SEndRun(s, eq + 1);
    var n := AttrValueLoop(s, q + 1, s[q], false, names, replacements).next;
    AttrValueLoopEnds(s, q + 1, s[q], false, names, replacements);
    l := AttributeLayout(i, b, eq, q, n - 1);
    ClosedValue(s, q, n);
  }

  /** A value closed at `n` by the quote opened at `q` holds no such quote. */
  lemma {:induction false} ClosedValue(s: Str, q: nat, n: nat)
    requires q < |s| && ClosedAt(s, q + 1, n, s[q])
    ensures q < n - 1 < |s| && s[n - 1] == s[q] && forall m :: q < m < n - 1 ==> s[m] != s[q]
  { }

  // The attribute list and the tag

  /** Each attribute of `ls` is laid out as production [41] says. */
  predicate AttributesLaid(s: Str, ls: seq<AttributeLayout>)
    decreases |ls|
  {
    |ls| == 0 || (AttributeWritten(s, ls[0]) && AttributesLaid(s, ls[1..]))
  }

  /** The attribute laid out as `l` has an allowed name and a value text. */
  predicate AttributeRead(s: Str, l: AttributeLayout, namespaces: bool, names: seq<Str>, replacements: seq<Str>)
    requires |names| <= |replacements| && AttributeWritten(s, l)
  {
    AttributeNameAllowed(s, l.a, l.b, namespaces) && AttValueText(s, l.q + 1, l.e, names, replacements).Some?
  }

  /** Each attribute of `ls` has an allowed name and a value text. */
  predicate AttributesRead(s: Str, ls: seq<AttributeLayout>, namespaces: bool, names: seq<Str>, replacements: seq<Str>)
    requires |names| <= |replacements| && AttributesLaid(s, ls)
    decreases |ls|
  {
    |ls| == 0 || (AttributeRead(s, ls[0], namespaces, names, replacements) && AttributesRead(s, ls[1..], namespaces, names, replacements))
  }

  /** The name and value text of the attribute laid out as `l`. */
  function AttributeItem(s: Str, l: AttributeLayout, namespaces: bool, names: seq<Str>, replacements: seq<Str>): (AttributeName, Str)
    requires |names| <= |replacements| && AttributeWritten(s, l) && AttributeRead(s, l, namespaces, names, replacements)
  {
    (AttributeNameOf(s, l.a, l.b, namespaces), AttValueText(s, l.q + 1, l.e, names, replacements).value)
  }

  /** The names and value texts of the attributes laid out as `ls`, in order. */
  function AttributeItems(s: Str, ls: seq<AttributeLayout>, namespaces: bool, names: seq<Str>, replacements: seq<Str>)
    : (r: seq<(AttributeName, Str)>)
    requires |names| <= |replacements| && AttributesLaid(s, ls) && AttributesRead(s, ls, namespaces, names, replacements)
    decreases |ls|
  {
    if |ls| == 0 then []
    else [AttributeItem(s, ls[0], namespaces, names, replacements)] + AttributeItems(s, ls[1..], namespaces, names, replacements)
  }

  /** The ordinary attributes among `items`, in order. */
  function Plains(items: seq<(AttributeName, Str)>): (r: seq<RawAttribute>)
  {
    if |items| == 0 then []
    else
      (match items[0].0
       case Plain(p, n) => [RawAttribute(p, n, items[0].1)]
       case Xmlns(_) => []) + Plains(items[1..])
  }

  /** The namespace declarations among `items`, in order. */
  function Declarations(items: seq<(AttributeName, Str)>): (r: seq<Binding>)
  {
    if |items| == 0 then []
    else
      (match items[0].0
       case Plain(_, _) => []
       case Xmlns(p) => [Binding(p, items[0].1)]) + Declarations(items[1..])
  }

  /** `Admit` applied to each of `items` in turn, as the loop does. */
  function AdmitAll(attrs: seq<RawAttribute>, bindings: seq<Binding>, items: seq<(AttributeName, Str)>)
    : (r: Result<(seq<RawAttribute>, seq<Binding>), Problem>)
    requires WellFormedBindings(bindings)
    decreases |items|
  {
    if |items| == 0 then Ok((attrs, bindings))
    else
      match Admit(attrs, bindings, items[0].0, items[0].1)
      case Err(p) => Err(p)
      case Ok(acc) => AdmitAll(acc.0, acc.1, items[1..])
  }

  /**
   * Admitting the attributes one at a time succeeds exactly when all the
   * declarations together obey the constraints of Namespaces in XML 1.0
   * section 3 (no prefix declared twice, no prefix declared empty), and
   * then the ordinary attributes and the declarations are each appended in
   * order.
   */
  lemma {:induction false} AdmitAllSpec(attrs: seq<RawAttribute>, bindings: seq<Binding>, items: seq<(AttributeName, Str)>)
    requires WellFormedBindings(bindings)
    ensures AdmitAll(attrs, bindings, items).Ok? <==> WellFormedBindings(bindings + Declarations(items))
    ensures AdmitAll(attrs, bindings, items).Ok? ==>
      AdmitAll(attrs, bindings, items).value == (attrs + Plains(items), bindings + Declarations(items))
    decreases |items|, 1
  {
    if |items| == 0 {
      assert attrs + Plains(items) == attrs && bindings + Declarations(items) == bindings;
    } else if items[0].0.Plain? {
      AdmitAllSpecPlain(attrs, bindings, items);
    } else {
      AdmitAllSpecXmlns(attrs, bindings, items);
    }
  }

  /** `AdmitAllSpec` when the first item is an ordinary attribute. */
  lemma {:induction false} AdmitAllSpecPlain(attrs: seq<RawAttribute>, bindings: seq<Binding>, items: seq<(AttributeName, Str)>)
    requires WellFormedBindings(bindings) && |items| > 0 && items[0].0.Plain?
    ensures AdmitAll(attrs, bindings, items).Ok? <==> WellFormedBindings(bindings + Declarations(items))
    ensures AdmitAll(attrs, bindings, items).Ok? ==>
      AdmitAll(attrs, bindings, items).value == (attrs + Plains(items), bindings + Declarations(items))
    decreases |items|, 0
  {
    var rest := items[1..];
    var a := RawAttribute(items[0].0.prefix, items[0].0.local, items[0].1);
    PlainCons(items);
    AdmitAllPlainCons(attrs, bindings, items);
    AdmitAllSpec(attrs + [a], bindings, rest);
    AppendAssoc(attrs, [a], Plains(rest));
  }

  /** Admitting a list that starts with an ordinary attribute appends it, then admits the rest. */
  lemma AdmitAllPlainCons(attrs: seq<RawAttribute>, bindings: seq<Binding>, items: seq<(AttributeName, Str)>)
    requires WellFormedBindings(bindings) && |items| > 0 && items[0].0.Plain?
    ensures AdmitAll(attrs, bindings, items)
         == AdmitAll(attrs + [RawAttribute(items[0].0.prefix, items[0].0.local, items[0].1)], bindings, items[1..])
  {
    AdmitAllCons(attrs, bindings, items);
  }

  lemma AppendAssoc<T>(a: seq<T>, b: seq<T>, c: seq<T>)
    ensures a + b + c == a + (b + c)
  {
  }

  /** An ordinary attribute first adds itself to the ordinary attributes and nothing to the declarations. */
  lemma PlainCons(items: seq<(AttributeName, Str)>)
    requires |items| > 0 && items[0].0.Plain?
    ensures Plains(items) == [RawAttribute(items[0].0.prefix, items[0].0.local, items[0].1)] + Plains(items[1..])
    ensures Declarations(items) == Declarations(items[1..])
  {
    assert [] + Declarations(items[1..]) == Declarations(items[1..]);
  }

  /** `AdmitAllSpec` when the first item is a namespace declaration. */
  lemma {:induction false} AdmitAllSpecXmlns(attrs: seq<RawAttribute>, bindings: seq<Binding>, items: seq<(AttributeName, Str)>)
    requires WellFormedBindings(bindings) && |items| > 0 && items[0].0.Xmlns?
    ensures AdmitAll(attrs, bindings, items).Ok? <==> WellFormedBindings(bindings + Declarations(items))
    ensures AdmitAll(attrs, bindings, items).Ok? ==>
      AdmitAll(attrs, bindings, items).value == (attrs + Plains(items), bindings + Declarations(items))
    decreases |items|, 0
  {
    var rest := items[1..];
    var b := Binding(items[0].0.declared, items[0].1);
    assert Plains(items) == Plains(rest) && Declarations(items) == [b] + Declarations(rest);
    assert bindings + Declarations(items) == bindings + [b] + Declarations(rest);
    BindingsSnoc(bindings, b);
    BindingsPrefix(bindings + [b], Declarations(rest));
    if WellFormedBindings(bindings + [b]) {
      assert AdmitAll(attrs, bindings, items) == AdmitAll(attrs, bindings + [b], rest);
      AdmitAllSpec(attrs, bindings + [b], rest);
    }
  }


  /** A declaration can be appended exactly when it is of a new prefix, to a non-empty URI if it is a prefix. */
  lemma BindingsSnoc(bindings: seq<Binding>, b: Binding)
    requires WellFormedBindings(bindings)
    ensures WellFormedBindings(bindings + [b]) <==> (b.prefix.Some? ==> |b.uri| > 0) && !Declares(bindings, b.prefix)
  {
    var bs := bindings + [b];
    assert bs[..|bindings|] == bindings && bs[..|bindings| + 1] == bs;
    BindingsExtend(bs, |bindings|);
    if Declares(bindings, b.prefix) {
      var x :| x in bindings && x.prefix == b.prefix;
      var j :| 0 <= j < |bindings| && bindings[j] == x;
      assert BindingPrefixes(bindings)[j] == b.prefix;
    }
  }

  /** The declarations before well-formed ones are well-formed. */
  lemma BindingsPrefix(a: seq<Binding>, b: seq<Binding>)
    ensures WellFormedBindings(a + b) ==> WellFormedBindings(a)
  {
    if WellFormedBindings(a + b) {
      BindingsPrefixWellFormed(a, b);
    }
  }

  lemma BindingsPrefixWellFormed(a: seq<Binding>, b: seq<Binding>)
    requires WellFormedBindings(a + b)
    ensures WellFormedBindings(a)
  {
    forall j, i | 0 <= j < i < |a|
      ensures a[j].prefix != a[i].prefix
    {
      assert (a + b)[j] == a[j] && (a + b)[i] == a[i];
    }
    forall k | 0 <= k < |a| && a[k].prefix.Some?
      ensures |a[k].uri| > 0
    {
      assert (a + b)[k] == a[k];
    }
  }

  /** The end of the tag from `k`: white space, then `>` at `c`, or `/>` from `c` for an empty-element tag. */
  predicate TagCloseWritten(s: Str, k: nat, c: nat, empty: bool)
  {
    k <= c < |s| && SIn(s, k, c) && (if empty then c + 1 < |s| && s[c] == SLASH && s[c + 1] == GT else s[c] == GT)
  }

  /** Where a tag closed at `c` ends: just past its `>`. */
  function TagCloseEnd(c: nat, empty: bool): nat
  {
    if empty then c + 2 else c + 1
  }

  /**
   * The rest of production [40] from `k`: attributes laid out as `ls`, each
   * after white space, then the tag close at `c`. Unlike the production,
   * the loop also reads an attribute that follows the previous value with
   * no white space in between (`<a x="1"y="2">`), so that white space may
   * be empty.
   */
  predicate AttributesWritten(s: Str, k: nat, ls: seq<AttributeLayout>, c: nat, empty: bool)
    decreases |ls|
  {
    if |ls| == 0 then TagCloseWritten(s, k, c, empty)
    else
      && AttributeWritten(s, ls[0]) && k <= ls[0].a && SIn(s, k, ls[0].a)
      && AttributesWritten(s, ls[0].e + 1, ls[1..], c, empty)
  }

  /** Each attribute of a list laid out as `AttributesWritten` says is laid out as production [41] says. */
  lemma {:induction false} AttributesWrittenLaid(s: Str, k: nat, ls: seq<AttributeLayout>, c: nat, empty: bool)
    requires AttributesWritten(s, k, ls, c, empty)
    ensures AttributesLaid(s, ls)
    decreases |ls|
  {
    if |ls| > 0 {
      AttributesWrittenLaid(s, ls[0].e + 1, ls[1..], c, empty);
    }
  }

  /** The tag close from `k` is read as `>` or `/>`. */
  lemma {:induction false} TagCloseGrammar(s: Str, k: nat, c: nat, empty: bool, namespaces: bool, names: seq<Str>, replacements: seq<Str>,
                                           attrs: seq<RawAttribute>, bindings: seq<Binding>)
    requires |names| <= |replacements| && WellFormedBindings(bindings) && TagCloseWritten(s, k, c, empty)
    ensures AttributesLoop(s, k, namespaces, names, replacements, attrs, bindings) == Done((attrs, bindings, empty), TagCloseEnd(c, empty))
  {
    SEndAt(s, k, c);
  }

  /**
   * The attribute loop on an attribute list laid out as `AttributesWritten`
   * says (production [40], except that the white space before an attribute
   * may be empty, as the source reads it): it reads the list exactly when every attribute is read and the
   * declarations among them can be admitted, and then it yields the
   * ordinary attributes and the declarations in order, whether the tag is
   * empty, and ends past the `>`.
   */
  lemma {:induction false} AttributesLoopGrammar(s: Str, k: nat, ls: seq<AttributeLayout>, c: nat, empty: bool, namespaces: bool,
                                                 names: seq<Str>, replacements: seq<Str>, attrs: seq<RawAttribute>, bindings: seq<Binding>)
    requires |names| <= |replacements| && WellFormedBindings(bindings) && k <= |s| && AttributesWritten(s, k, ls, c, empty)
    ensures AttributesLaid(s, ls)
    ensures var r := AttributesLoop(s, k, namespaces, names, replacements, attrs, bindings);
      && (r.Done? <==> AttributesRead(s, ls, namespaces, names, replacements)
                       && AdmitAll(attrs, bindings, AttributeItems(s, ls, namespaces, names, replacements)).Ok?)
      && (r.Done? ==> var admitted := AdmitAll(attrs, bindings, AttributeItems(s, ls, namespaces, names, replacements)).value;
                      r == Done((admitted.0, admitted.1, empty), TagCloseEnd(c, empty)))
  {
    LoopLayout(s, k, ls, c, empty, namespaces, names, replacements, attrs, bindings);
    ExpectedLoopItems(s, ls, namespaces, names, replacements, attrs, bindings);
  }

  /**
   * Productions [40] STag and [44] EmptyElemTag as `parseStartTag` reads
   * them (the white space before an attribute may be empty, see
   * `AttributesWritten`), from the first character of the name at `i` (just past `<`): a
   * name `s[i..j)`, then attributes laid out as `ls` and the tag close at
   * `c`. The tag is read exactly when the name obeys the namespace rules,
   * every attribute is read and the declarations among them are well
   * formed (Namespaces in XML 1.0, section 3); it then carries the raw
   * name, its prefix and local name, the ordinary attributes and the
   * declarations in the order written with their normalised values, and
   * whether it is an empty-element tag, and reading goes on past the `>`.
   */
  lemma {:induction false} StartTagGrammar(s: Str, i: nat, j: nat, ls: seq<AttributeLayout>, c: nat, empty: bool,
                                           namespaces: bool, names: seq<Str>, replacements: seq<Str>)
    requires i < j < |s| && |names| <= |replacements|
    requires XmlChars.IsNameStartChar(s[i]) && NameCharsIn(s, i + 1, j) && !XmlChars.IsNameChar(s[j])
    requires AttributesWritten(s, j, ls, c, empty)
    ensures AttributesLaid(s, ls)
    ensures StartTagScan(s, i, namespaces, names, replacements).Done?
            <==> ElementNameAllowed(s, i, j, namespaces) && AttributesRead(s, ls, namespaces, names, replacements)
                 && WellFormedBindings(Declarations(AttributeItems(s, ls, namespaces, names, replacements)))
    ensures StartTagScan(s, i, namespaces, names, replacements).Done? ==>
      var split := SplitName(s, i, j, namespaces);
      var items := AttributeItems(s, ls, namespaces, names, replacements);
      StartTagScan(s, i, namespaces, names, replacements)
        == Done(RawTag(s[i..j], split.0, split.1, Plains(items), Declarations(items), empty), TagCloseEnd(c, empty))
  {
    StartTagAfterName(s, i, j, namespaces, names, replacements);
    AttributesLoopGrammar(s, j, ls, c, empty, namespaces, names, replacements, [], []);
    if AttributesRead(s, ls, namespaces, names, replacements) {
      var items := AttributeItems(s, ls, namespaces, names, replacements);
      AdmitAllSpec([], [], items);
      assert [] + Plains(items) == Plains(items) && [] + Declarations(items) == Declarations(items);
    }
  }

  /** After an element name `s[i..j)` that obeys the namespace rules, the tag is what the attribute loop reads from `j`. */
  lemma {:induction false} StartTagAfterName(s: Str, i: nat, j: nat, namespaces: bool, names: seq<Str>, replacements: seq<Str>)
    requires i < j < |s| && |names| <= |replacements| && NameCharsIn(s, i + 1, j) && !XmlChars.IsNameChar(s[j])
    ensures !ElementNameAllowed(s, i, j, namespaces) ==> StartTagScan(s, i, namespaces, names, replacements).Stop?
    ensures ElementNameAllowed(s, i, j, namespaces) ==>
      var split := SplitName(s, i, j, namespaces);
      StartTagScan(s, i, namespaces, names, replacements)
      == match AttributesLoop(s, j, namespaces, names, replacements, [], [])
         case Stop(sc) => Stop(sc)
         case Done(body, m) => Done(RawTag(s[i..j], split.0, split.1, body.0, body.1, body.2), m)
  {
    NameEndAt(s, i + 1, j);
  }

  /**
   * Conversely, a start tag that is read is laid out as productions [40]
   * and [44] say, except that the white space before an attribute may be
   * empty (`AttributesWritten`): a name `s[i..j)`, then attributes laid out as `ls`, and
   * the tag close at `c` just before where reading goes on.
   */
  lemma {:induction false} StartTagLayout(s: Str, i: nat, namespaces: bool, names: seq<Str>, replacements: seq<Str>)
    returns (j: nat, ls: seq<AttributeLayout>, c: nat, empty: bool)
    requires i < |s| && |names| <= |replacements| && XmlChars.IsNameStartChar(s[i])
    requires StartTagScan(s, i, namespaces, names, replacements).Done?
    ensures i < j < |s| && NameCharsIn(s, i + 1, j) && !XmlChars.IsNameChar(s[j])
    ensures AttributesWritten(s, j, ls, c, empty)
    ensures StartTagScan(s, i, namespaces, names, replacements).next == TagCloseEnd(c, empty)
  {
    j := NameEnd(s, i + 1);
    NameEndRun(s, i + 1);
    ls, c, empty := AttributesLoopLayout(s, j, StartTagScan(s, i, namespaces, names, replacements).next, namespaces, names, replacements, [], []);
  }

  /** A loop that reads to the end of the tag from `k`, ending at `n`, has read attributes laid out as `ls` and the tag close at `c`. */
  lemma {:induction false} AttributesLoopLayout(s: Str, k: nat, n: nat, namespaces: bool, names: seq<Str>, replacements: seq<Str>,
                                                attrs: seq<RawAttribute>, bindings: seq<Binding>)
    returns (ls: seq<AttributeLayout>, c: nat, empty: bool)
    requires k <= |s| && |names| <= |replacements| && WellFormedBindings(bindings)
    requires AttributesLoop(s, k, namespaces, names, replacements, attrs, bindings).Done?
    requires AttributesLoop(s, k, namespaces, names, replacements, attrs, bindings).next == n
    ensures AttributesWritten(s, k, ls, c, empty) == true && n == TagCloseEnd(c, empty)
    decreases |s| - k
  {
    var a := SEnd(s, k);
    SEndRun(s, k);
    if s[a] == GT || s[a] == SLASH {
      ls, c, empty := [], a, s[a] == SLASH;
      LoopCloseLayout(s, k, namespaces, names, replacements, attrs, bindings);
    } else {
      var l, acc := LoopFirstAttribute(s, k, namespaces, names, replacements, attrs, bindings);
      var rest;
      rest, c, empty := AttributesLoopLayout(s, l.e + 1, n, namespaces, names, replacements, acc.0, acc.1);
      ls := [l] + rest;
      LayoutCons(s, k, l, rest, c, empty);
    }
  }

  /** A loop that reads to the end of the tag from `k` and meets no attribute has read the tag close. */
  lemma {:induction false} LoopCloseLayout(s: Str, k: nat, namespaces: bool, names: seq<Str>, replacements: seq<Str>,
                                           attrs: seq<RawAttribute>, bindings: seq<Binding>)
    requires k <= |s| && |names| <= |replacements| && WellFormedBindings(bindings)
    requires AttributesLoop(s, k, namespaces, names, replacements, attrs, bindings).Done?
    requires SEnd(s, k) < |s| && (s[SEnd(s, k)] == GT || s[SEnd(s, k)] == SLASH)
    ensures AttributesWritten(s, k, [], SEnd(s, k), s[SEnd(s, k)] == SLASH)
    ensures AttributesLoop(s, k, namespaces, names, replacements, attrs, bindings).next
            == TagCloseEnd(SEnd(s, k), s[SEnd(s, k)] == SLASH)
  {
    SEndRun(s, k);
  }

  /** A loop that reads to the end of the tag from `k` and meets an attribute goes on past it with what it admitted. */
  lemma {:induction false} LoopFirstAttribute(s: Str, k: nat, namespaces: bool, names: seq<Str>, replacements: seq<Str>,
                                              attrs: seq<RawAttribute>, bindings: seq<Binding>)
    returns (l: AttributeLayout, acc: (seq<RawAttribute>, seq<Binding>))
    requires k <= |s| && |names| <= |replacements| && WellFormedBindings(bindings)
    requires AttributesLoop(s, k, namespaces, names, replacements, attrs, bindings).Done?
    requires SEnd(s, k) < |s| && s[SEnd(s, k)] != GT && s[SEnd(s, k)] != SLASH
    ensures AttributeWritten(s, l) && k <= l.a && SIn(s, k, l.a) && l.e + 1 <= |s| && WellFormedBindings(acc.1)
    ensures AttributesLoop(s, k, namespaces, names, replacements, attrs, bindings)
            == AttributesLoop(s, l.e + 1, namespaces, names, replacements, acc.0, acc.1)
  {
    var a := SEnd(s, k);
    SEndRun(s, k);
    l := AttributeScanLayout(s, a, namespaces, names, replacements);
    var item := AttributeScan(s, a, namespaces, names, replacements).value;
    acc := Admit(attrs, bindings, item.0, item.1).value;
    LoopAtAdmitted(s, k, a, namespaces, names, replacements, attrs, bindings, item, l.e + 1);
  }

  /** An attribute after white space from `k`, then a list from its end, is a list from `k`. */
  lemma LayoutCons(s: Str, k: nat, l: AttributeLayout, rest: seq<AttributeLayout>, c: nat, empty: bool)
    requires AttributeWritten(s, l) && k <= l.a && SIn(s, k, l.a) && AttributesWritten(s, l.e + 1, rest, c, empty)
    ensures AttributesWritten(s, k, [l] + rest, c, empty)
  {
    assert ([l] + rest)[0] == l && ([l] + rest)[1..] == rest;
  }

  /**
   * What the loop is to admit from the attributes laid out as `ls`, one
   * after the other: `None` once one of them cannot be read or is refused.
   */
  function ExpectedLoop(s: Str, ls: seq<AttributeLayout>, namespaces: bool, names: seq<Str>, replacements: seq<Str>,
                        attrs: seq<RawAttribute>, bindings: seq<Binding>): Option<(seq<RawAttribute>, seq<Binding>)>
    requires |names| <= |replacements| && AttributesLaid(s, ls) && WellFormedBindings(bindings)
    decreases |ls|
  {
    if |ls| == 0 then Some((attrs, bindings))
    else if !AttributeRead(s, ls[0], namespaces, names, replacements) then None
    else
      var item := AttributeItem(s, ls[0], namespaces, names, replacements);
      match Admit(attrs, bindings, item.0, item.1)
      case Err(_) => None
      case Ok(acc) => ExpectedLoop(s, ls[1..], namespaces, names, replacements, acc.0, acc.1)
  }

  /** The loop from `k` over the attributes laid out as `ls` yields what `ExpectedLoop` admits. */
  predicate LoopYields(s: Str, k: nat, ls: seq<AttributeLayout>, c: nat, empty: bool, namespaces: bool,
                       names: seq<Str>, replacements: seq<Str>, attrs: seq<RawAttribute>, bindings: seq<Binding>)
    requires |names| <= |replacements| && WellFormedBindings(bindings) && k <= |s| && AttributesLaid(s, ls)
  {
    match ExpectedLoop(s, ls, namespaces, names, replacements, attrs, bindings)
    case None => AttributesLoop(s, k, namespaces, names, replacements, attrs, bindings).Stop?
    case Some(admitted) =>
      AttributesLoop(s, k, namespaces, names, replacements, attrs, bindings)
        == Done((admitted.0, admitted.1, empty), TagCloseEnd(c, empty))
  }

  /** The loop on an attribute list laid out as `AttributesWritten` says yields what `ExpectedLoop` admits. */
  lemma {:induction false} LoopLayout(s: Str, k: nat, ls: seq<AttributeLayout>, c: nat, empty: bool, namespaces: bool,
                                      names: seq<Str>, replacements: seq<Str>, attrs: seq<RawAttribute>, bindings: seq<Binding>)
    requires |names| <= |replacements| && WellFormedBindings(bindings) && k <= |s| && AttributesWritten(s, k, ls, c, empty)
    ensures AttributesLaid(s, ls)
    ensures LoopYields(s, k, ls, c, empty, namespaces, names, replacements, attrs, bindings) == true
    decreases |ls|, 1
  {
    AttributesWrittenLaid(s, k, ls, c, empty);
    if |ls| == 0 {
      LoopLayoutEnd(s, k, ls, c, empty, namespaces, names, replacements, attrs, bindings);
    } else {
      assert AttributeWritten(s, ls[0]) && k <= ls[0].a && SIn(s, k, ls[0].a) && AttributesWritten(s, ls[0].e + 1, ls[1..], c, empty);
      if !AttributeRead(s, ls[0], namespaces, names, replacements) {
        LoopLayoutStops(s, k, ls, c, empty, namespaces, names, replacements, attrs, bindings);
      } else {
        var item := AttributeItem(s, ls[0], namespaces, names, replacements);
        match Admit(attrs, bindings, item.0, item.1)
        case Err(_) =>
          LoopLayoutStops(s, k, ls, c, empty, namespaces, names, replacements, attrs, bindings);
        case Ok(acc) =>
          LoopStep(s, k, ls, c, empty, namespaces, names, replacements, attrs, bindings, acc);
          LoopLayoutNext(s, k, ls, c, empty, namespaces, names, replacements, attrs, bindings, acc);
      }
    }
  }

  /** `LoopLayout` past a first attribute that is read and admitted. */
  lemma {:induction false} LoopLayoutNext(s: Str, k: nat, ls: seq<AttributeLayout>, c: nat, empty: bool, namespaces: bool,
                                          names: seq<Str>, replacements: seq<Str>, attrs: seq<RawAttribute>, bindings: seq<Binding>,
                                          acc: (seq<RawAttribute>, seq<Binding>))
    requires |names| <= |replacements| && WellFormedBindings(bindings) && k <= |s| && |ls| > 0 && AttributesLaid(s, ls)
    requires ls[0].e + 1 <= |s| && WellFormedBindings(acc.1) && AttributesWritten(s, ls[0].e + 1, ls[1..], c, empty)
    requires AttributesLaid(s, ls[1..])
    requires LoopYields(s, k, ls, c, empty, namespaces, names, replacements, attrs, bindings)
          == LoopYields(s, ls[0].e + 1, ls[1..], c, empty, namespaces, names, replacements, acc.0, acc.1)
    ensures LoopYields(s, k, ls, c, empty, namespaces, names, replacements, attrs, bindings) == true
    decreases |ls|, 0
  {
    LoopLayout(s, ls[0].e + 1, ls[1..], c, empty, namespaces, names, replacements, acc.0, acc.1);
  }

  /** `LoopLayout` on an empty list: the loop reads the tag close. */
  lemma {:induction false} LoopLayoutEnd(s: Str, k: nat, ls: seq<AttributeLayout>, c: nat, empty: bool, namespaces: bool,
                                         names: seq<Str>, replacements: seq<Str>, attrs: seq<RawAttribute>, bindings: seq<Binding>)
    requires |names| <= |replacements| && WellFormedBindings(bindings) && k <= |s| && |ls| == 0 && TagCloseWritten(s, k, c, empty)
    ensures AttributesLaid(s, ls)
    ensures LoopYields(s, k, ls, c, empty, namespaces, names, replacements, attrs, bindings) == true
  {
    TagCloseGrammar(s, k, c, empty, namespaces, names, replacements, attrs, bindings);
  }

  /** `LoopLayout` at a first attribute that cannot be read or is refused. */
  lemma {:induction false} LoopLayoutStops(s: Str, k: nat, ls: seq<AttributeLayout>, c: nat, empty: bool, namespaces: bool,
                                           names: seq<Str>, replacements: seq<Str>, attrs: seq<RawAttribute>, bindings: seq<Binding>)
    requires |names| <= |replacements| && WellFormedBindings(bindings) && k <= |s| && |ls| > 0 && AttributesLaid(s, ls)
    requires AttributeWritten(s, ls[0]) && k <= ls[0].a && SIn(s, k, ls[0].a)
    requires AttributeRead(s, ls[0], namespaces, names, replacements) ==>
      var item := AttributeItem(s, ls[0], namespaces, names, replacements); Admit(attrs, bindings, item.0, item.1).Err?
    ensures LoopYields(s, k, ls, c, empty, namespaces, names, replacements, attrs, bindings) == true
  {
    if AttributeRead(s, ls[0], namespaces, names, replacements) {
      LoopRefused(s, k, ls[0], namespaces, names, replacements, attrs, bindings);
    } else {
      LoopUnread(s, k, ls[0], namespaces, names, replacements, attrs, bindings);
    }
    ExpectedLoopStops(s, ls, namespaces, names, replacements, attrs, bindings);
  }

  /** The first attribute of `ls`, after white space from `k`, is read and admitted, giving `acc`. */
  predicate FirstAdmitted(s: Str, k: nat, ls: seq<AttributeLayout>, namespaces: bool, names: seq<Str>, replacements: seq<Str>,
                          attrs: seq<RawAttribute>, bindings: seq<Binding>, acc: (seq<RawAttribute>, seq<Binding>))
  {
    && |names| <= |replacements| && WellFormedBindings(bindings) && k <= |s| && |ls| > 0 && AttributesLaid(s, ls)
    && AttributeWritten(s, ls[0]) && k <= ls[0].a && SIn(s, k, ls[0].a) && AttributeRead(s, ls[0], namespaces, names, replacements)
    && Admit(attrs, bindings, AttributeItem(s, ls[0], namespaces, names, replacements).0,
             AttributeItem(s, ls[0], namespaces, names, replacements).1) == Ok(acc)
  }

  /**
   * Past a first attribute that is read and admitted, the loop yields what
   * `ExpectedLoop` admits exactly when it does so from the next attribute on.
   */
  lemma {:induction false} LoopStep(s: Str, k: nat, ls: seq<AttributeLayout>, c: nat, empty: bool, namespaces: bool,
                                    names: seq<Str>, replacements: seq<Str>, attrs: seq<RawAttribute>, bindings: seq<Binding>,
                                    acc: (seq<RawAttribute>, seq<Binding>))
    requires FirstAdmitted(s, k, ls, namespaces, names, replacements, attrs, bindings, acc) == true
    ensures ls[0].e + 1 <= |s| && WellFormedBindings(acc.1) && AttributesLaid(s, ls[1..])
    ensures LoopYields(s, k, ls, c, empty, namespaces, names, replacements, attrs, bindings)
         == LoopYields(s, ls[0].e + 1, ls[1..], c, empty, namespaces, names, replacements, acc.0, acc.1)
  {
    LoopAdmitted(s, k, ls, namespaces, names, replacements, attrs, bindings, acc);
    ExpectedLoopAdmitted(s, k, ls, namespaces, names, replacements, attrs, bindings, acc);
  }

  /** `ExpectedLoop` admits nothing from a list whose first attribute cannot be read or is refused. */
  lemma {:induction false} ExpectedLoopStops(s: Str, ls: seq<AttributeLayout>, namespaces: bool, names: seq<Str>, replacements: seq<Str>,
                                             attrs: seq<RawAttribute>, bindings: seq<Binding>)
    requires |names| <= |replacements| && |ls| > 0 && AttributesLaid(s, ls) && WellFormedBindings(bindings)
    requires AttributeRead(s, ls[0], namespaces, names, replacements) ==>
      var item := AttributeItem(s, ls[0], namespaces, names, replacements); Admit(attrs, bindings, item.0, item.1).Err?
    ensures ExpectedLoop(s, ls, namespaces, names, replacements, attrs, bindings) == None
  { }

  /** `ExpectedLoop` goes on past a first attribute that is read and admitted. */
  lemma {:induction false} ExpectedLoopAdmitted(s: Str, k: nat, ls: seq<AttributeLayout>, namespaces: bool, names: seq<Str>, replacements: seq<Str>,
                                                attrs: seq<RawAttribute>, bindings: seq<Binding>, acc: (seq<RawAttribute>, seq<Binding>))
    requires FirstAdmitted(s, k, ls, namespaces, names, replacements, attrs, bindings, acc) == true
    ensures AttributesLaid(s, ls[1..]) && WellFormedBindings(acc.1)
    ensures ExpectedLoop(s, ls, namespaces, names, replacements, attrs, bindings)
         == ExpectedLoop(s, ls[1..], namespaces, names, replacements, acc.0, acc.1)
  { }

  /**
   * `ExpectedLoop` admits something exactly when every attribute is read
   * and admitting their items succeeds, and then what that admits.
   */
  lemma {:induction false} ExpectedLoopItems(s: Str, ls: seq<AttributeLayout>, namespaces: bool, names: seq<Str>, replacements: seq<Str>,
                                             attrs: seq<RawAttribute>, bindings: seq<Binding>)
    requires |names| <= |replacements| && AttributesLaid(s, ls) && WellFormedBindings(bindings)
    ensures ExpectedLoop(s, ls, namespaces, names, replacements, attrs, bindings)
         == if AttributesRead(s, ls, namespaces, names, replacements)
               && AdmitAll(attrs, bindings, AttributeItems(s, ls, namespaces, names, replacements)).Ok?
            then Some(AdmitAll(attrs, bindings, AttributeItems(s, ls, namespaces, names, replacements)).value)
            else None
    decreases |ls|
  {
    if |ls| > 0 && AttributeRead(s, ls[0], namespaces, names, replacements) {
      var item := AttributeItem(s, ls[0], namespaces, names, replacements);
      match Admit(attrs, bindings, item.0, item.1)
      case Err(_) =>
        ItemsRefused(s, ls, namespaces, names, replacements, attrs, bindings);
      case Ok(acc) =>
        ItemsAdmitted(s, ls, namespaces, names, replacements, attrs, bindings, acc);
        ExpectedLoopItems(s, ls[1..], namespaces, names, replacements, acc.0, acc.1);
    }
  }

  /** An attribute that cannot be read stops the loop. */
  lemma {:induction false} LoopUnread(s: Str, k: nat, l: AttributeLayout, namespaces: bool, names: seq<Str>, replacements: seq<Str>,
                                      attrs: seq<RawAttribute>, bindings: seq<Binding>)
    requires |names| <= |replacements| && WellFormedBindings(bindings)
    requires AttributeWritten(s, l) && k <= l.a && SIn(s, k, l.a) && !AttributeRead(s, l, namespaces, names, replacements)
    ensures AttributesLoop(s, k, namespaces, names, replacements, attrs, bindings).Stop?
  {
    AttributeGrammar(s, l, namespaces, names, replacements);
    LoopAtAttribute(s, k, l.a, namespaces, names, replacements, attrs, bindings);
  }

  /** An attribute that is read but refused stops the loop. */
  lemma {:induction false} LoopRefused(s: Str, k: nat, l: AttributeLayout, namespaces: bool, names: seq<Str>, replacements: seq<Str>,
                                       attrs: seq<RawAttribute>, bindings: seq<Binding>)
    requires |names| <= |replacements| && WellFormedBindings(bindings)
    requires AttributeWritten(s, l) && k <= l.a && SIn(s, k, l.a) && AttributeRead(s, l, namespaces, names, replacements)
    requires var item := AttributeItem(s, l, namespaces, names, replacements); Admit(attrs, bindings, item.0, item.1).Err?
    ensures AttributesLoop(s, k, namespaces, names, replacements, attrs, bindings).Stop?
  {
    AttributeGrammar(s, l, namespaces, names, replacements);
    LoopAtAttribute(s, k, l.a, namespaces, names, replacements, attrs, bindings);
  }

  /** An attribute that is read and admitted leaves the loop to go on from its end with what was admitted. */
  lemma {:induction false} LoopAdmitted(s: Str, k: nat, ls: seq<AttributeLayout>, namespaces: bool, names: seq<Str>, replacements: seq<Str>,
                                        attrs: seq<RawAttribute>, bindings: seq<Binding>, acc: (seq<RawAttribute>, seq<Binding>))
    requires FirstAdmitted(s, k, ls, namespaces, names, replacements, attrs, bindings, acc) == true
    ensures ls[0].e + 1 <= |s| && WellFormedBindings(acc.1)
    ensures AttributesLoop(s, k, namespaces, names, replacements, attrs, bindings)
      == AttributesLoop(s, ls[0].e + 1, namespaces, names, replacements, acc.0, acc.1)
  {
    var l := ls[0];
    AttributeReadScan(s, l, namespaces, names, replacements);
    LoopAtAdmitted(s, k, l.a, namespaces, names, replacements, attrs, bindings, AttributeItem(s, l, namespaces, names, replacements), l.e + 1);
  }

  /** An attribute that is read is scanned to its item and ends past its closing quote. */
  lemma {:induction false} AttributeReadScan(s: Str, l: AttributeLayout, namespaces: bool, names: seq<Str>, replacements: seq<Str>)
    requires |names| <= |replacements| && AttributeWritten(s, l) && AttributeRead(s, l, namespaces, names, replacements)
    ensures AttributeScan(s, l.a, namespaces, names, replacements) == Done(AttributeItem(s, l, namespaces, names, replacements), l.e + 1)
  {
    AttributeGrammar(s, l, namespaces, names, replacements);
  }

  /** Once the first item of a list is refused, admitting the list fails. */
  lemma {:induction false} ItemsRefused(s: Str, ls: seq<AttributeLayout>, namespaces: bool, names: seq<Str>, replacements: seq<Str>,
                                        attrs: seq<RawAttribute>, bindings: seq<Binding>)
    requires |names| <= |replacements| && WellFormedBindings(bindings)
    requires |ls| > 0 && AttributesLaid(s, ls) && AttributeRead(s, ls[0], namespaces, names, replacements)
    requires var item := AttributeItem(s, ls[0], namespaces, names, replacements); Admit(attrs, bindings, item.0, item.1).Err?
    ensures AttributesRead(s, ls, namespaces, names, replacements) ==>
      AdmitAll(attrs, bindings, AttributeItems(s, ls, namespaces, names, replacements)).Err?
  {
    if AttributesRead(s, ls, namespaces, names, replacements) {
      ItemsCons(s, ls, namespaces, names, replacements);
      AdmitAllCons(attrs, bindings, AttributeItems(s, ls, namespaces, names, replacements));
    }
  }

  /** Once the first item of a list is admitted, admitting the list goes on with the rest of it. */
  lemma {:induction false} ItemsAdmitted(s: Str, ls: seq<AttributeLayout>, namespaces: bool, names: seq<Str>, replacements: seq<Str>,
                                         attrs: seq<RawAttribute>, bindings: seq<Binding>, acc: (seq<RawAttribute>, seq<Binding>))
    requires |names| <= |replacements| && WellFormedBindings(bindings)
    requires |ls| > 0 && AttributesLaid(s, ls) && AttributeRead(s, ls[0], namespaces, names, replacements)
    requires var item := AttributeItem(s, ls[0], namespaces, names, replacements); Admit(attrs, bindings, item.0, item.1) == Ok(acc)
    ensures AttributesLaid(s, ls[1..]) && WellFormedBindings(acc.1)
    ensures AttributesRead(s, ls, namespaces, names, replacements) <==> AttributesRead(s, ls[1..], namespaces, names, replacements)
    ensures AttributesRead(s, ls, namespaces, names, replacements) ==>
      AdmitAll(attrs, bindings, AttributeItems(s, ls, namespaces, names, replacements))
      == AdmitAll(acc.0, acc.1, AttributeItems(s, ls[1..], namespaces, names, replacements))
  {
    if AttributesRead(s, ls, namespaces, names, replacements) {
      ItemsCons(s, ls, namespaces, names, replacements);
      AdmitAllCons(attrs, bindings, AttributeItems(s, ls, namespaces, names, replacements));
    }
  }

  /** The items of a read list are its first item, then the items of the rest. */
  lemma {:induction false} ItemsCons(s: Str, ls: seq<AttributeLayout>, namespaces: bool, names: seq<Str>, replacements: seq<Str>)
    requires |names| <= |replacements| && |ls| > 0 && AttributesLaid(s, ls) && AttributesRead(s, ls, namespaces, names, replacements)
    ensures AttributesLaid(s, ls[1..]) && AttributesRead(s, ls[1..], namespaces, names, replacements)
    ensures var items := AttributeItems(s, ls, namespaces, names, replacements);
      |items| > 0 && items[0] == AttributeItem(s, ls[0], namespaces, names, replacements)
      && items[1..] == AttributeItems(s, ls[1..], namespaces, names, replacements)
  {
    var items := AttributeItems(s, ls, namespaces, names, replacements);
    assert items == [AttributeItem(s, ls[0], namespaces, names, replacements)] + AttributeItems(s, ls[1..], namespaces, names, replacements);
  }

  /** At an attribute, the loop reads it, admits it and goes on from its end. */
  lemma {:induction false} LoopAtAttribute(s: Str, k: nat, a: nat, namespaces: bool, names: seq<Str>, replacements: seq<Str>,
                                           attrs: seq<RawAttribute>, bindings: seq<Binding>)
    requires k <= a < |s| && |names| <= |replacements| && WellFormedBindings(bindings)
    requires SIn(s, k, a) && XmlChars.IsNameStartChar(s[a])
    ensures AttributesLoop(s, k, namespaces, names, replacements, attrs, bindings)
      == match AttributeScan(s, a, namespaces, names, replacements)
         case Stop(sc) => Stop(sc)
         case Done(item, m) =>
           match Admit(attrs, bindings, item.0, item.1)
           case Err(p) => Stop(Reject(p))
           case Ok(acc) => AttributesLoop(s, m, namespaces, names, replacements, acc.0, acc.1)
  {
    SEndAt(s, k, a);
  }

  /** An attribute read and admitted leaves the loop to go on from its end. */
  lemma {:induction false} LoopAtAdmitted(s: Str, k: nat, a: nat, namespaces: bool, names: seq<Str>, replacements: seq<Str>,
                                          attrs: seq<RawAttribute>, bindings: seq<Binding>, item: (AttributeName, Str), m: nat)
    requires k <= a < |s| && |names| <= |replacements| && WellFormedBindings(bindings)
    requires SIn(s, k, a) && XmlChars.IsNameStartChar(s[a])
    requires AttributeScan(s, a, namespaces, names, replacements) == Done(item, m)
    requires Admit(attrs, bindings, item.0, item.1).Ok?
    ensures m <= |s|
    ensures var acc := Admit(attrs, bindings, item.0, item.1).value;
      AttributesLoop(s, k, namespaces, names, replacements, attrs, bindings)
      == AttributesLoop(s, m, namespaces, names, replacements, acc.0, acc.1)
  {
    SEndAt(s, k, a);
  }

  /** Admitting a list admits its first item, then the rest. */
  lemma {:induction false} AdmitAllCons(attrs: seq<RawAttribute>, bindings: seq<Binding>, items: seq<(AttributeName, Str)>)
    requires WellFormedBindings(bindings) && |items| > 0
    ensures AdmitAll(attrs, bindings, items)
      == match Admit(attrs, bindings, items[0].0, items[0].1)
         case Err(p) => Err(p)
         case Ok(acc) => AdmitAll(acc.0, acc.1, items[1..])
  { }


  // ---------------------------------------------------------------------
  // Namespace resolution and uniqueness (Namespaces in XML 1.0, sections 5 and 6.3)

  /** An attribute with its namespace URI. */
  datatype Attribute = Attribute(prefix: Option<Str>, name: Str, uri: Str, value: Str)

  /** A start tag once resolved: the element's prefix, local name and URI, and its attributes. */
  datatype Element = Element(prefix: Option<Str>, name: Str, uri: Str, attributes: seq<Attribute>)

  /** The URI of an element prefix; no prefix and no default declaration in scope is no namespace. */
  function ElementUri(prefixes: seq<Option<Str>>, uris: seq<Option<Str>>, prefix: Option<Str>): (r: Result<Str, Problem>)
    requires |prefixes| <= |uris|
    ensures r.Err? <==> prefix.Some? && NamespaceOf(prefixes, uris, prefix).None?
    ensures r.Err? ==> r.error == UnboundElementPrefix(prefix.value)
    ensures r.Ok? ==> Some(r.value) == NamespaceOf(prefixes, uris, prefix) || r.value == PullApi.NO_NAMESPACE
  {
    match NamespaceOf(prefixes, uris, prefix)
    case Some(u) => Ok(u)
    case None => if prefix.None? then Ok(PullApi.NO_NAMESPACE) else Err(UnboundElementPrefix(prefix.value))
  }

  /** The URI of an attribute prefix; an attribute without a prefix is in no namespace. */
  function AttributeUri(prefixes: seq<Option<Str>>, uris: seq<Option<Str>>, prefix: Option<Str>): Option<Str>
    requires |prefixes| <= |uris|
  {
    if prefix.None? then Some(PullApi.NO_NAMESPACE) else NamespaceOf(prefixes, uris, prefix)
  }

  /** The URI of each attribute's prefix, in order. */
  function AttributeUris(prefixes: seq<Option<Str>>, uris: seq<Option<Str>>, attrs: seq<RawAttribute>): (r: seq<Option<Str>>)
    requires |prefixes| <= |uris|
    ensures |r| == |attrs| && forall k :: 0 <= k < |attrs| ==> r[k] == AttributeUri(prefixes, uris, attrs[k].prefix)
  {
    seq(|attrs|, k requires 0 <= k < |attrs| => AttributeUri(prefixes, uris, attrs[k].prefix))
  }

  /** The attributes with their URIs, or the first whose prefix is not declared. */
  function ResolveAttributes(prefixes: seq<Option<Str>>, uris: seq<Option<Str>>, attrs: seq<RawAttribute>)
    : (r: Result<seq<Attribute>, Problem>)
    requires |prefixes| <= |uris|
    ensures r.Ok? <==> forall k :: 0 <= k < |attrs| ==> AttributeUri(prefixes, uris, attrs[k].prefix).Some?
    ensures r.Ok? ==> |r.value| == |attrs| && forall k :: 0 <= k < |attrs| ==>
      r.value[k] == Attribute(attrs[k].prefix, attrs[k].name, AttributeUri(prefixes, uris, attrs[k].prefix).value, attrs[k].value)
    ensures r.Err? ==>
      exists k :: 0 <= k < |attrs| && AttributeUri(prefixes, uris, attrs[k].prefix).None?
        && r.error == UnboundAttributePrefix(attrs[k].prefix.value)
        && forall m :: 0 <= m < k ==> AttributeUri(prefixes, uris, attrs[m].prefix).Some?
  {
    var resolved := AttributeUris(prefixes, uris, attrs);
    match IndexOf(resolved, None)
    case Some(k) => Err(UnboundAttributePrefix(attrs[k].prefix.value))
    case None =>
      Ok(seq(|attrs|, k requires 0 <= k < |attrs| => Attribute(attrs[k].prefix, attrs[k].name, resolved[k].value, attrs[k].value)))
  }

  /** What the uniqueness check compares: URI and local name with namespaces, the name alone without. */
  function Key(a: Attribute, namespaces: bool): (Str, Str)
  {
    if namespaces then (a.uri, a.name) else ([], a.name)
  }

  function Keys(attrs: seq<Attribute>, namespaces: bool): (r: seq<(Str, Str)>)
    ensures |r| == |attrs| && forall k :: 0 <= k < |attrs| ==> r[k] == Key(attrs[k], namespaces)
  {
    seq(|attrs|, k requires 0 <= k < |attrs| => Key(attrs[k], namespaces))
  }

  /** How the error message names an attribute: `uri:name` with namespaces, the name without. */
  function Qualified(a: Attribute, namespaces: bool): Str
  {
    if namespaces then a.uri + [COLON] + a.name else a.name
  }

  /** The element, unless two of its attributes have the same key; then the first such pair is reported. */
  function Unique(e: Element, namespaces: bool): (r: Result<Element, Problem>)
    ensures r.Ok? <==> forall j, i :: 0 <= j < i < |e.attributes| ==> Key(e.attributes[j], namespaces) != Key(e.attributes[i], namespaces)
    ensures r.Ok? ==> r.value == e
    ensures r.Err? ==>
      exists j, i :: 0 <= j < i < |e.attributes| && Key(e.attributes[j], namespaces) == Key(e.attributes[i], namespaces)
        && r.error == DuplicatedAttributes(Qualified(e.attributes[j], namespaces), Qualified(e.attributes[i], namespaces))
  {
    var keys := Keys(e.attributes, namespaces);
    match FirstDuplicate(keys)
    case None => Ok(e)
    case Some(p) => Err(DuplicatedAttributes(Qualified(e.attributes[p.0], namespaces), Qualified(e.attributes[p.1], namespaces)))
  }

  /** The prefixes in scope inside the tag: the enclosing elements' declarations, then the tag's own. */
  function ScopePrefixes(outerPrefixes: seq<Option<Str>>, tag: RawTag): seq<Option<Str>>
  {
    outerPrefixes + BindingPrefixes(tag.bindings)
  }

  /** The URIs in scope inside the tag, slot by slot with `ScopePrefixes`. */
  function ScopeUris(outerUris: seq<Option<Str>>, tag: RawTag): seq<Option<Str>>
  {
    outerUris + BindingUris(tag.bindings)
  }

  /**
   * The end of `parseStartTag`: with namespaces, the element and then each
   * attribute prefix is resolved against the declarations in scope (those
   * of enclosing elements, `outerPrefixes`/`outerUris`, then this tag's),
   * and no two attributes may share URI and local name; without
   * namespaces, no two attributes may share a name.
   */
  function ResolveStartTag(tag: RawTag, outerPrefixes: seq<Option<Str>>, outerUris: seq<Option<Str>>, namespaces: bool)
    : (r: Result<Element, Problem>)
    requires |outerPrefixes| == |outerUris|
    // no two attributes share a key, and the element has as many attributes as the tag
    ensures r.Ok? ==>
      |r.value.attributes| == |tag.attributes|
      && forall j, i :: 0 <= j < i < |r.value.attributes| ==> Key(r.value.attributes[j], namespaces) != Key(r.value.attributes[i], namespaces)
    // the element keeps its local name, and its prefix with namespaces
    ensures r.Ok? ==> r.value.name == tag.name && r.value.prefix == (if namespaces then tag.prefix else None)
    // each attribute keeps its name and value, and its prefix with namespaces
    ensures r.Ok? ==> forall k :: 0 <= k < |tag.attributes| ==>
      && r.value.attributes[k].name == tag.attributes[k].name
      && r.value.attributes[k].value == tag.attributes[k].value
      && r.value.attributes[k].prefix == (if namespaces then tag.attributes[k].prefix else None)
  {
    var prefixes := ScopePrefixes(outerPrefixes, tag);
    var uris := ScopeUris(outerUris, tag);
    if !namespaces then
      var plain := seq(|tag.attributes|, k requires 0 <= k < |tag.attributes| =>
        Attribute(None, tag.attributes[k].name, PullApi.NO_NAMESPACE, tag.attributes[k].value));
      Unique(Element(None, tag.name, PullApi.NO_NAMESPACE, plain), false)
    else
      match ElementUri(prefixes, uris, tag.prefix)
      case Err(p) => Err(p)
      case Ok(u) =>
        match ResolveAttributes(prefixes, uris, tag.attributes)
        case Err(p) => Err(p)
        case Ok(attributes) => Unique(Element(tag.prefix, tag.name, u, attributes), true)
  }

  /**
   * The names a tag declares and uses resolve in the scope `prefixes`/`uris`:
   * the element prefix, if any, is bound, every attribute prefix is bound,
   * and no two attributes share URI and local name.
   */
  predicate Resolvable(tag: RawTag, prefixes: seq<Option<Str>>, uris: seq<Option<Str>>)
    requires |prefixes| <= |uris|
  {
    && (tag.prefix.Some? ==> NamespaceOf(prefixes, uris, tag.prefix).Some?)
    && (forall k :: 0 <= k < |tag.attributes| ==> AttributeUri(prefixes, uris, tag.attributes[k].prefix).Some?)
    && forall j, i :: 0 <= j < i < |tag.attributes| ==>
         AttributeUri(prefixes, uris, tag.attributes[j].prefix) != AttributeUri(prefixes, uris, tag.attributes[i].prefix)
         || tag.attributes[j].name != tag.attributes[i].name
  }

  /**
   * When a tag resolves: without namespaces exactly when no two attributes
   * share a name; with namespaces exactly when its prefixes are bound in the
   * scope the tag opens and no two attributes share URI and local name.
   */
  lemma ResolveStartTagAccepts(tag: RawTag, outerPrefixes: seq<Option<Str>>, outerUris: seq<Option<Str>>, namespaces: bool)
    requires |outerPrefixes| == |outerUris|
    ensures !namespaces ==>
      (ResolveStartTag(tag, outerPrefixes, outerUris, false).Ok?
       <==> forall j, i :: 0 <= j < i < |tag.attributes| ==> tag.attributes[j].name != tag.attributes[i].name)
    ensures |ScopePrefixes(outerPrefixes, tag)| <= |ScopeUris(outerUris, tag)|
    ensures namespaces ==>
      (ResolveStartTag(tag, outerPrefixes, outerUris, true).Ok?
       <==> Resolvable(tag, ScopePrefixes(outerPrefixes, tag), ScopeUris(outerUris, tag)))
  {
  }

  /** The attributes' names, in order. */
  function Names(attrs: seq<RawAttribute>): (r: seq<Str>)
    ensures |r| == |attrs| && forall k :: 0 <= k < |attrs| ==> r[k] == attrs[k].name
  {
    seq(|attrs|, k requires 0 <= k < |attrs| => attrs[k].name)
  }

  /**
   * Namespaces in XML 1.0, section 5: in a tag that resolves, the element's
   * prefix and every attribute prefix are declared, and stand for the URI
   * of their innermost declaration; so a tag using an undeclared prefix is
   * rejected.
   */
  lemma ResolvedPrefixesBound(tag: RawTag, outerPrefixes: seq<Option<Str>>, outerUris: seq<Option<Str>>)
    requires |outerPrefixes| == |outerUris| && ResolveStartTag(tag, outerPrefixes, outerUris, true).Ok?
    ensures var e := ResolveStartTag(tag, outerPrefixes, outerUris, true).value;
      var prefixes := ScopePrefixes(outerPrefixes, tag);
      var uris := ScopeUris(outerUris, tag);
      && (tag.prefix.Some? ==> NamespaceOf(prefixes, uris, tag.prefix) == Some(e.uri))
      && forall k :: 0 <= k < |tag.attributes| && tag.attributes[k].prefix.Some? ==>
           NamespaceOf(prefixes, uris, tag.attributes[k].prefix) == Some(e.attributes[k].uri)
  {
    var prefixes := ScopePrefixes(outerPrefixes, tag);
    var uris := ScopeUris(outerUris, tag);
    var u := ElementUri(prefixes, uris, tag.prefix);
    var attrs := ResolveAttributes(prefixes, uris, tag.attributes);
    assert u.Ok? && attrs.Ok?;
    assert ResolveStartTag(tag, outerPrefixes, outerUris, true) == Unique(Element(tag.prefix, tag.name, u.value, attrs.value), true);
  }

  // ---------------------------------------------------------------------
  // The uniqueness check as written

  /**
   * Which string object a URI in `attributeUri` is. `getNamespace` returns
   * the constants `NO_NAMESPACE`, `XML_URI` and `XMLNS_URI` themselves, and
   * otherwise the string stored in the declaring slot of the namespace
   * stack, which `parseAttribute` created afresh for that declaration (the
   * interning of these strings is switched off).
   */
  datatype UriObject = Constant(text: Str) | Created(slot: nat)

  /** The object `getNamespace` returns for an attribute prefix, if it is declared. */
  function UriObjectOf(prefixes: seq<Option<Str>>, prefix: Option<Str>): Option<UriObject>
  {
    if prefix.None? then Some(Constant(PullApi.NO_NAMESPACE))
    else match LastIndexOf(prefixes, prefix)
      case Some(i) => Some(Created(i))
      case None =>
        if prefix == Some(Lit("xml")) then Some(Constant(XmlChars.XML_URI))
        else if prefix == Some(Lit("xmlns")) then Some(Constant(XmlChars.XMLNS_URI))
        else None
  }

  /**
   * The namespace-aware uniqueness check as written: two attributes clash
   * when their URIs are the same object (`===`) and their names are equal.
   */
  function DuplicateAttributesAsWritten(prefixes: seq<Option<Str>>, attrs: seq<RawAttribute>): Option<(nat, nat)>
  {
    FirstDuplicate(seq(|attrs|, k requires 0 <= k < |attrs| => (UriObjectOf(prefixes, attrs[k].prefix), attrs[k].name)))
  }

  /**
   * Two prefixes bound to the same URI: `<a xmlns:p="u" xmlns:q="u" p:x=""
   * q:x="">` has two attributes with the same URI and local name (the
   * example of section 6.3), yet the identity comparison sees two different
   * URI objects and lets the tag through; compared by value, the tag is
   * rejected.
   */
  lemma SameUriTwoPrefixesAsWritten()
    ensures var p := Some([0x70]); var q := Some([0x71]); var u := [0x75]; var x := [0x78];
      var tag := RawTag([0x61], None, [0x61], [RawAttribute(p, x, []), RawAttribute(q, x, [])],
                        [Binding(p, u), Binding(q, u)], false);
      && DuplicateAttributesAsWritten(ScopePrefixes([], tag), tag.attributes).None?
      && ResolveStartTag(tag, [], [], true) == Err(DuplicatedAttributes(u + [COLON] + x, u + [COLON] + x))
  {
    var p := Some([0x70]); var q := Some([0x71]); var u := [0x75]; var x := [0x78];
    var tag := RawTag([0x61], None, [0x61], [RawAttribute(p, x, []), RawAttribute(q, x, [])],
                      [Binding(p, u), Binding(q, u)], false);
    var prefixes := ScopePrefixes([], tag);
    var uris := ScopeUris([], tag);
    assert prefixes == [p, q] && uris == [Some(u), Some(u)];
    assert LastIndexOf(prefixes, p) == Some(0) && LastIndexOf(prefixes, q) == Some(1);
    var objects := seq(2, k requires 0 <= k < 2 => (UriObjectOf(prefixes, tag.attributes[k].prefix), tag.attributes[k].name));
    assert objects == [(Some(Created(0)), x), (Some(Created(1)), x)];
    assert IndexOf(objects[..1], objects[1]).None?;
    assert FirstDuplicate(objects[..1]).None?;
    assert objects[..2] == objects;
    var attrs := ResolveAttributes(prefixes, uris, tag.attributes);
    assert NamespaceOf(prefixes, uris, p) == Some(u) && NamespaceOf(prefixes, uris, q) == Some(u);
    assert AttributeUri(prefixes, uris, tag.attributes[0].prefix) == Some(u);
    assert AttributeUri(prefixes, uris, tag.attributes[1].prefix) == Some(u);
    assert attrs.Ok? && |attrs.value| == 2;
    assert attrs.value[0] == Attribute(p, x, u, []) && attrs.value[1] == Attribute(q, x, u, []);
    assert attrs.value == [Attribute(p, x, u, []), Attribute(q, x, u, [])];
    var keys := Keys(attrs.value, true);
    assert keys == [(u, x), (u, x)];
    assert FirstDuplicate(keys[..1]).None? && IndexOf(keys[..1], keys[1]) == Some(0);
    assert keys[..2] == keys;
  }
}
