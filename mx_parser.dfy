/**
 * `MXParser`, the XML 1.0 pull tokenizer: an input buffer with its cursors,
 * the element, attribute, namespace and entity stacks, and the recognisers
 * that `next()` and `nextToken()` dispatch to.
 */
module Parser {
  import opened Kotlin
  import opened Wrappers
  import opened ParserErrors
  import opened PullApi
  import XmlChars
  import CodePoints
  import Utils
  import EntityReplacement
  import CharSource
  import opened Tables
  import opened Scans

  const INITIAL_BUF_SIZE: int := 256
  const INITIAL_PC_SIZE: int := 64
  /** The smallest buffer size whose doubling overflows `Int` to a negative size. */
  const OVERFLOW_SIZE: int := 0x4000_0000

  // ---------------------------------------------------------------------
  // Buffer sizing

  /**
   * `(0.95f * size).toInt()`. The float 0.95f is 15938355 / 2^24 and the
   * buffer sizes are powers of two, so the float product is exact and its
   * truncation is this integer quotient.
   */
  function SoftLimit(size: int): int
  {
    size * 15938355 / 0x100_0000
  }

  lemma SoftLimitBounds(size: int)
    requires size >= INITIAL_BUF_SIZE
    ensures 0 < SoftLimit(size) < size
  {
  }

  /** `fillBuf` compacts (rather than grows) a buffer that is past its soft limit. */
  predicate Compacts(prevent: bool, bufStart: int, softLimit: int, size: int)
  {
    !prevent && (bufStart > softLimit || bufStart >= size / 2)
  }

  /** The length `fillBuf` asks the reader for: the free space, at most one chunk. */
  function ReadLength(size: int, bufEnd: int): int
  {
    if size - bufEnd < XmlChars.READ_CHUNK_SIZE then size - bufEnd else XmlChars.READ_CHUNK_SIZE
  }

  /**
   * After the compaction or growth step the requested length is positive,
   * which is why a `read` returning 0 is an error rather than an end of input.
   */
  lemma ReadLengthPositive(size: int, bufStart: int, bufEnd: int, prevent: bool)
    requires INITIAL_BUF_SIZE <= size && 0 <= bufStart <= bufEnd <= size
    ensures bufEnd <= SoftLimit(size) ==> ReadLength(size, bufEnd) > 0
    ensures bufEnd > SoftLimit(size) && Compacts(prevent, bufStart, SoftLimit(size), size) ==>
      ReadLength(size, bufEnd - bufStart) > 0
    ensures bufEnd > SoftLimit(size) && !Compacts(prevent, bufStart, SoftLimit(size), size) ==>
      ReadLength(2 * size, bufEnd - bufStart) > 0
  {
    SoftLimitBounds(size);
  }

  /** The size `ensurePC(end)` allocates: twice `end`, but at least two chunks. */
  function NewPCSize(end: Int32): Int32
  {
    if end > XmlChars.READ_CHUNK_SIZE then Add32(end, end) else 2 * XmlChars.READ_CHUNK_SIZE
  }

  /** `ensurePC` makes room past `end` whenever `end` is small enough for the doubling not to overflow. */
  lemma NewPCSizeRoom(end: Int32)
    requires 0 <= end < OVERFLOW_SIZE
    ensures NewPCSize(end) > end
  {
  }

  /** Each of the first `count` attributes has a name, and its hash slot holds the hash of that name. */
  predicate NameHashesValid(names: seq<Option<Str>>, hashes: seq<Int32>, count: int)
  {
    0 <= count <= |names| && count <= |hashes|
    && forall k :: 0 <= k < count ==> names[k].Some? && hashes[k] == StringHash(names[k].value)
  }

  /**
   * The inner loop of the duplicate-attribute search: the first attribute
   * before `i` with the same key, comparing hashes before names.
   */
  method EarlierSameKey(uris: seq<Option<Str>>, names: seq<Option<Str>>, hashes: seq<Int32>, count: nat, namespaces: bool, i: nat)
    returns (r: Option<nat>)
    requires NameHashesValid(names, hashes, count) && (namespaces ==> count <= |uris|) && i < count
    ensures r == IndexOf(TableKeys(uris, names, count, namespaces)[..i], TableKeys(uris, names, count, namespaces)[i])
  {
    ghost var keys := TableKeys(uris, names, count, namespaces);
    var j := 0;
    while j < i
      invariant 0 <= j <= i
      invariant forall m :: 0 <= m < j ==> keys[m] != keys[i]
    {
      if (!namespaces || uris[j] == uris[i]) && hashes[j] == hashes[i] && names[j] == names[i] {
        return Some(j);
      }
      j := j + 1;
    }
    return None;
  }

  /** The double loop of `parseStartTag`'s duplicate check over the first `count` attributes. */
  method FindDuplicate(uris: seq<Option<Str>>, names: seq<Option<Str>>, hashes: seq<Int32>, count: nat, namespaces: bool)
    returns (r: Option<(nat, nat)>)
    requires NameHashesValid(names, hashes, count) && (namespaces ==> count <= |uris|)
    ensures r == FirstDuplicate(TableKeys(uris, names, count, namespaces))
  {
    ghost var keys := TableKeys(uris, names, count, namespaces);
    var i := 0;
    while i < count
      invariant 0 <= i <= count
      invariant FirstDuplicate(keys[..i]).None?
    {
      var e := EarlierSameKey(uris, names, hashes, count, namespaces, i);
      FirstDuplicateStep(keys, i);
      if e.Some? {
        FirstDuplicateOfPrefix(keys, i + 1);
        return Some((e.value, i));
      }
      i := i + 1;
    }
    assert keys[..count] == keys;
    return None;
  }

  /** `concatToString(start, end)` of an array's contents: the slice, or the exception for a bad range. */
  function Substring(a: seq<CodeUnit>, start: int, end: int): (r: Result<Str, Failure>)
    ensures r.Ok? <==> 0 <= start <= end <= |a|
    ensures r.Ok? ==> r.value == a[start..end]
  {
    if start < 0 || end > |a| then Err(IndexOutOfBounds(if start < 0 then start else end))
    else if start > end then Err(IllegalArgument)
    else Ok(a[start..end])
  }

  /** `a[i]` of a Kotlin array: the element, or `IndexOutOfBoundsException`. */
  function At<T>(a: seq<T>, i: int): (r: Result<T, Failure>)
    ensures r.Ok? <==> 0 <= i < |a|
    ensures r.Ok? ==> r.value == a[i]
  {
    if 0 <= i < |a| then Ok(a[i]) else Err(IndexOutOfBounds(i))
  }

  /** `a[i] = v` of a Kotlin array. */
  function Update<T>(a: seq<T>, i: int, v: T): (r: Result<seq<T>, Failure>)
    ensures r.Ok? <==> 0 <= i < |a|
    ensures r.Ok? ==> r.value == a[i := v]
  {
    if 0 <= i < |a| then Ok(a[i := v]) else Err(IndexOutOfBounds(i))
  }

  // ---------------------------------------------------------------------
  // Lookups the accessors perform

  /**
   * `isS` over `a[i..end)` as the accessor's loop runs it: true for an empty
   * range, false at the first other character, and the exception of the
   * first index outside the array reached before that.
   */
  function AllSFrom(a: seq<CodeUnit>, i: int, end: int): Result<bool, Failure>
    decreases end - i
  {
    if i >= end then Ok(true)
    else if !(0 <= i < |a|) then Err(IndexOutOfBounds(i))
    else if !XmlChars.IsS(a[i]) then Ok(false)
    else AllSFrom(a, i + 1, end)
  }

  /** Within the array, the loop answers whether the range is all white space; starting outside it, it throws. */
  lemma {:induction false} AllSFromRange(a: seq<CodeUnit>, i: int, end: int)
    requires 0 <= i <= end <= |a|
    ensures AllSFrom(a, i, end) == Ok(AllS(a[i..end]))
    decreases end - i
  {
    if i < end {
      AllSFromRange(a, i + 1, end);
      assert a[i..end] == [a[i]] + a[i + 1..end];
      if !XmlChars.IsS(a[i]) {
        assert !AllS(a[i..end]) by { assert a[i..end][0] == a[i]; }
      } else {
        assert AllS(a[i..end]) == AllS(a[i + 1..end]);
      }
    }
  }

  /** `newString(cbuf, off, len)`: `concatToString(off, off + len)`, the end computed in `Int` arithmetic. */
  function NewString(a: seq<CodeUnit>, off: Int32, len: Int32): (r: Result<Str, Failure>)
    ensures 0 <= off && 0 <= len && off + len <= |a| && off + len <= INT_MAX ==> r == Ok(a[off..off + len])
  {
    Substring(a, off, Add32(off, len))
  }

  /** The `isS` loop of `isWhitespace` over `a[start..end)`. */
  method ScanS(a: array<CodeUnit>, start: int, end: int) returns (r: Result<bool, Failure>)
    ensures r == AllSFrom(a[..], start, end)
  {
    var i := start;
    while i < end
      invariant AllSFrom(a[..], i, end) == AllSFrom(a[..], start, end)
      decreases end - i
    {
      if !(0 <= i < a.Length) {
        return Err(IndexOutOfBounds(i));
      }
      if !XmlChars.IsS(a[i]) {
        return Ok(false);
      }
      i := i + 1;
    }
    return Ok(true);
  }

  /** The comparison loop of `parseEndTag`: whether `a[off..off + len)` spells the first `len` characters of `b`. */
  method SameChars(a: array<CodeUnit>, off: int, b: Str, len: int) returns (same: bool)
    requires 0 <= off && 0 <= len && off + len <= a.Length && len <= |b|
    ensures same <==> a[off..off + len] == b[..len]
  {
    var k := 0;
    while k < len
      invariant 0 <= k <= len && a[off..off + k] == b[..k]
    {
      if a[off + k] != b[k] {
        assert a[off..off + len][k] != b[..len][k];
        return false;
      }
      k := k + 1;
    }
    return true;
  }

  // ---------------------------------------------------------------------
  // The empty-element check

  /**
   * The check behind `isEmptyElementTag`: the flag on START_TAG, and on any
   * other event the exception positioned at the parser's line and column.
   */
  function EmptyElementTagCheck(eventType: EventType, emptyElementTag: bool, lineNumber: int, columnNumber: int): (r: Result<bool, Failure>)
    ensures eventType == START_TAG <==> r.Ok?
    ensures r.Ok? ==> r.value == emptyElementTag
    ensures r.Err? ==> r.error == Xml(NotOnStartTagForEmptyCheck, lineNumber, columnNumber)
  {
    if eventType == START_TAG then Ok(emptyElementTag)
    else Err(Xml(NotOnStartTagForEmptyCheck, lineNumber, columnNumber))
  }

  /**
   * As written, `isEmptyElementTag` is a property with an initializer, so the
   * check runs once, while the object is built, after `lineNumber`,
   * `columnNumber`, `eventType` and `emptyElementTag` got their initial
   * values: the event is START_DOCUMENT, so every construction of the parser
   * throws, at line 0, column 0. The model's constructor builds the parser
   * and `IsEmptyElementTag` runs the check on each read instead.
   */
  lemma ConstructionThrowsAsWritten()
    ensures EmptyElementTagCheck(START_DOCUMENT, false, 0, 0) == Err(Xml(NotOnStartTagForEmptyCheck, 0, 0))
  {
  }

  // ---------------------------------------------------------------------
  // Entity references

  /**
   * What the reference `ref` stands for, given the defined entity names and
   * replacement texts: a character reference or predefined entity its own
   * characters, any other name the replacement of its latest definition.
   */
  function ResolveReference(ref: Reference, names: seq<Str>, replacements: seq<Str>): Option<Str>
    requires |names| <= |replacements|
  {
    if ReferenceChars(ref).Some? then ReferenceChars(ref)
    else
      match ref
      case CharReference(_, _) => None
      case EntityReference(name) => TableLookup(names, replacements, name)
  }

  /** The replacement of the latest definition of `name`, if any. */
  function TableLookup(names: seq<Str>, replacements: seq<Str>, name: Str): (r: Option<Str>)
    requires |names| <= |replacements|
  {
    match LastIndexOf(names, name)
    case Some(k) => Some(replacements[k])
    case None => None
  }

  /** How `parseEntityRef` arrives at `ResolveReference`: what the reference itself gives, else the table entry for its name. */
  lemma ResolveInTwoSteps(ref: Reference, names: seq<Str>, replacements: seq<Str>, name: Str)
    requires |names| <= |replacements|
    requires ReferenceChars(ref).None? ==> ref == EntityReference(name)
    ensures ResolveReference(ref, names, replacements) ==
      if ReferenceChars(ref).Some? then ReferenceChars(ref) else TableLookup(names, replacements, name)
  {
  }

  /** A name is found exactly when it is defined, and then with the replacement of its last definition. */
  lemma TableLookupFindsLast(names: seq<Str>, replacements: seq<Str>, name: Str)
    requires |names| <= |replacements|
    ensures TableLookup(names, replacements, name).Some? <==> name in names
    ensures TableLookup(names, replacements, name).Some? ==>
      exists k :: 0 <= k < |names| && names[k] == name && TableLookup(names, replacements, name).value == replacements[k]
        && forall j :: k < j < |names| ==> names[j] != name
  {
  }

  /** The predefined entities keep their meaning whatever the table defines. */
  lemma PredefinedNotOverridden(name: Str, names: seq<Str>, replacements: seq<Str>)
    requires |names| <= |replacements| && XmlChars.PredefinedEntity(name).Some?
    ensures ResolveReference(EntityReference(name), names, replacements) == Some([XmlChars.PredefinedEntity(name).value])
  {
  }

  /** A name defined last resolves to its latest replacement, unless it is predefined. */
  lemma {:induction false} LatestDefinitionWins(name: Str, text: Str, names: seq<Str>, replacements: seq<Str>)
    requires |names| <= |replacements| && XmlChars.PredefinedEntity(name).None?
    ensures ResolveReference(EntityReference(name), names + [name], replacements[..|names|] + [text]) == Some(text)
  {
    assert (names + [name])[|names|] == name;
    assert LastIndexOf(names + [name], name) == Some(|names|);
  }

  /** An undefined name that is not predefined resolves to nothing. */
  lemma UndefinedUnresolved(name: Str, names: seq<Str>, replacements: seq<Str>)
    requires |names| <= |replacements| && XmlChars.PredefinedEntity(name).None? && name !in names
    ensures ResolveReference(EntityReference(name), names, replacements).None?
  {
  }

  /**
   * `lookuEntityReplacement` on the name `a[off..off + len)` (the live,
   * non-interned branch): the defined entities are searched from the last
   * down, an entry matching only when its hash, length and characters all
   * agree; returns the index of the match.
   */
  method LookupEntityReplacement(t: EntityTable, a: array<CodeUnit>, off: int, len: int) returns (idx: Option<nat>)
    requires t.Valid() && 0 <= off && 0 <= len && off + len <= a.Length
    ensures idx == LastIndexOf(t.entityNameBuf[..t.entityEnd], a[off..off + len])
  {
    ghost var name := a[off..off + len];
    ghost var names := t.entityNameBuf[..t.entityEnd];
    var hash := XmlChars.FastHash(a[off..off + len]);
    var i := t.entityEnd - 1;
    while i >= 0
      invariant -1 <= i < t.entityEnd
      invariant forall j :: i < j < t.entityEnd ==> names[j] != name
    {
      if hash == t.entityNameHash[i] && len == |t.entityNameBuf[i]| {
        var same := SameChars(a, off, t.entityNameBuf[i], len);
        if same {
          assert names[i] == name;
          return Some(i);
        }
      }
      i := i - 1;
    }
    return None;
  }

  /** A `String?` as the `Any?` that `getProperty` returns. */
  function StringProperty(s: Option<Str>): PropertyValue
  {
    match s
    case None => NullValue
    case Some(v) => StringValue(v)
  }

  /** A `Boolean?` as the `Any?` that `getProperty` returns. */
  function BooleanProperty(b: Option<bool>): PropertyValue
  {
    match b
    case None => NullValue
    case Some(v) => BooleanValue(v)
  }

  class MXParser {
    // features
    var processNamespaces: bool
    var roundtripSupported: bool

    // global parser state
    var location: Option<Str>
    var lineNumber: int
    var columnNumber: int
    var seenRoot: bool
    var reachedEnd: bool
    var eventType: EventType
    var emptyElementTag: bool

    // the element, attribute, namespace and entity stacks, each an object of its own
    const elements: ElementStack
    const attributes: AttributeList
    const namespaces: NamespaceStack
    const entities: EntityTable
    const replacementMapTemplate: EntityReplacement.EntityReplacementMap?

    // input
    var reader: CharSource.Reader?
    /** Where in the reader's data the parser's input begins. */
    ghost var inputBase: nat
    /** The characters the reader delivers from the parser's point of view. */
    ghost var input: Str
    var inputEncoding: Option<Str>

    var buf: array<CodeUnit>
    var bufSoftLimit: Int32
    var preventBufferCompaction: bool
    var bufAbsoluteStart: int
    var bufStart: Int32
    var bufEnd: Int32
    var pos: Int32
    var posStart: Int32
    var posEnd: Int32

    var pc: array<CodeUnit>
    var pcStart: Int32
    var pcEnd: Int32

    // parsing state
    var usePC: bool
    var seenStartTag: bool
    var seenEndTag: bool
    var pastEndTag: bool
    var seenAmpersand: bool
    var seenMarkup: bool
    var seenDocdecl: bool
    var tokenize: bool
    var text: Option<Str>
    var entityRefName: Option<Str>
    /** `None` is `BUF_NOT_RESOLVED`. */
    var resolvedEntityRefCharBuf: Option<Str>

    var xmlDeclVersion: Option<Str>
    var xmlDeclStandalone: Option<bool>
    var xmlDeclContent: Option<Str>

    // -------------------------------------------------------------------
    // Invariants

    /** The absolute offset of `pos` in the input: the number of characters consumed. */
    ghost function Offset(): int
      reads this`bufAbsoluteStart, this`pos
    {
      bufAbsoluteStart + pos
    }

    /** The absolute offsets of `bufStart`, `posStart` and `posEnd`, which buffer maintenance preserves. */
    ghost function Anchors(): (int, int, int)
      reads this`bufAbsoluteStart, this`bufStart, this`posStart, this`posEnd
    {
      (bufAbsoluteStart + bufStart, bufAbsoluteStart + posStart, bufAbsoluteStart + posEnd)
    }

    /**
     * The input buffer mirrors the input: `buf[0..bufEnd)` holds the input
     * characters from `bufAbsoluteStart` on, and everything the reader has
     * delivered is in it.
     */
    ghost predicate Valid()
      reads this`buf, this`pc, this`bufSoftLimit, this`bufStart, this`pos, this`bufEnd, this`posStart, this`posEnd,
        this`bufAbsoluteStart, this`reader, this`inputBase, this`input, this`reachedEnd,
        this`pcEnd, buf, reader
    {
      buf != pc
      && INITIAL_BUF_SIZE <= buf.Length <= INT_MAX
      && bufSoftLimit == SoftLimit(buf.Length)
      && 0 <= bufStart <= pos <= bufEnd <= buf.Length
      && -0x8000_0000 <= posStart - bufStart && -0x8000_0000 <= posEnd - bufStart
      && 0 <= bufAbsoluteStart
      && (reader == null ==> bufAbsoluteStart == 0 && bufEnd == 0 && !reachedEnd && input == [])
      && (reader != null ==>
            reader.Valid() && inputBase <= |reader.data| && input == reader.data[inputBase..]
            && inputBase + bufAbsoluteStart + bufEnd == reader.cursor)
      && bufAbsoluteStart + bufEnd <= |input|
      && (forall i :: 0 <= i < bufEnd ==> buf[i] == input[bufAbsoluteStart + i])
      && (reachedEnd ==> pos == bufEnd && bufAbsoluteStart + bufEnd == |input|)
      && pcEnd <= pc.Length <= INT_MAX
    }

    /**
     * `lineNumber` and `columnNumber` are the position `more` has reached in
     * the input: line 1, column 1 before the first character.
     */
    ghost predicate Positioned()
      reads this`reader, this`input, this`bufAbsoluteStart, this`pos, this`lineNumber, this`columnNumber
    {
      reader != null ==> 0 <= Offset() <= |input| && (lineNumber, columnNumber) == Track(input, Offset())
    }

    /** The four stacks keep their own invariants. */
    ghost predicate TablesValid()
      reads elements, attributes, namespaces, entities
    {
      elements.Valid() && attributes.Valid() && namespaces.Valid() && entities.Valid()
    }

    // -------------------------------------------------------------------
    // Construction

    /** `MXParser(entityReplacementMap)`; the no-argument constructor passes `null`. Neither calls `reset()`. */
    constructor (template: EntityReplacement.EntityReplacementMap?)
      ensures Valid() && TablesValid()
      ensures fresh(elements) && fresh(attributes) && fresh(namespaces) && fresh(entities)
      ensures replacementMapTemplate == template && reader == null
      ensures eventType == START_DOCUMENT && lineNumber == 0 && columnNumber == 0 && elements.depth == 0
      ensures entities.entityEnd == 0 && namespaces.namespaceEnd == 0 && attributes.attributeCount == 0
      ensures !processNamespaces && !roundtripSupported
      ensures buf.Length == INITIAL_BUF_SIZE && pc.Length == INITIAL_PC_SIZE
    {
      processNamespaces := false;
      roundtripSupported := false;
      location := None;
      lineNumber := 0;
      columnNumber := 0;
      seenRoot := false;
      reachedEnd := false;
      eventType := START_DOCUMENT;
      emptyElementTag := false;
      elements := new ElementStack();
      attributes := new AttributeList();
      namespaces := new NamespaceStack();
      entities := new EntityTable();
      replacementMapTemplate := template;
      reader := null;
      inputBase := 0;
      input := [];
      inputEncoding := None;
      buf := new CodeUnit[INITIAL_BUF_SIZE];
      bufSoftLimit := SoftLimit(INITIAL_BUF_SIZE);
      preventBufferCompaction := false;
      bufAbsoluteStart := 0;
      bufStart := 0;
      bufEnd := 0;
      pos := 0;
      posStart := 0;
      posEnd := 0;
      pc := new CodeUnit[INITIAL_PC_SIZE];
      pcStart := 0;
      pcEnd := 0;
      usePC := false;
      seenStartTag := false;
      seenEndTag := false;
      pastEndTag := false;
      seenAmpersand := false;
      seenMarkup := false;
      seenDocdecl := false;
      tokenize := false;
      text := None;
      entityRefName := None;
      resolvedEntityRefCharBuf := None;
      xmlDeclVersion := None;
      xmlDeclStandalone := None;
      xmlDeclContent := None;
    }

    // -------------------------------------------------------------------
    // Buffer, cursor and position tracking

    /** The part of the "no more data available" report that lists the open tags, innermost first. */
    function ExpectedTags(): (r: Result<seq<ExpectedTag>, Failure>)
      reads elements, this`buf,
        this`posStart, this`pos, buf
      ensures r.Err? ==> r.error.IndexOutOfBounds? || r.error.IllegalArgument?
    {
      if elements.depth <= 0 then Ok([])
      else if |elements.elRawName| == 0 then
        var name :- Substring(buf[..], posStart + 1, pos);
        Ok([OpeningTag(name)])
      else
        var top :- At(elements.elRawName, elements.depth);
        if top.None? then
          var name :- Substring(buf[..], posStart + 1, pos);
          Ok([OpeningTag(name)])
        else
          ExpectedEndTags(elements.depth)
    }

    /** The entries for levels `i` down to 1. */
    function ExpectedEndTags(i: int): (r: Result<seq<ExpectedTag>, Failure>)
      reads elements, this`buf, this`posStart, this`pos, buf
      ensures r.Err? ==> r.error.IndexOutOfBounds? || r.error.IllegalArgument?
      decreases i
    {
      if i < 1 then Ok([])
      else
        var raw :- At(elements.elRawName, i);
        var entry :-
          if raw.None? then
            var name :- Substring(buf[..], posStart + 1, pos);
            Ok(OpeningTag(name))
          else
            var end :- At(elements.elRawNameEnd, i);
            var name :- Substring(raw.value, 0, end);
            var line :- At(elements.elRawNameLine, i);
            Ok(EndTagOf(name, line));
        var rest :- ExpectedEndTags(i - 1);
        Ok([entry] + rest)
    }

    /** The exception for input that ends while the document is still open. */
    function NoMoreDataFailure(): (f: Failure)
      reads elements, this`buf,
        this`posStart, this`pos, buf
      ensures f.Eof? || f.IndexOutOfBounds? || f.IllegalArgument?
    {
      match ExpectedTags()
      case Ok(tags) => Eof(NoMoreData(tags))
      case Err(e) => e
    }

    /**
     * The first half of `fillBuf`: when `bufEnd` is past the soft limit, the
     * unread part `buf[bufStart..bufEnd)` moves to the front of the buffer
     * (compaction) or of a buffer twice the size (growth), and every cursor
     * moves with it. Compaction is skipped while `preventBufferCompaction`
     * is set.
     */
    method MakeRoom() returns (r: Result<(), Failure>)
      requires Valid()
      modifies this`buf, this`bufSoftLimit, this`bufEnd, this`pos, this`posStart, this`posEnd,
        this`bufAbsoluteStart, this`bufStart, buf
      ensures Valid()
      ensures buf == old(buf) || fresh(buf)
      ensures Offset() == old(Offset()) && Anchors() == old(Anchors()) && pos - bufEnd == old(pos - bufEnd)
      ensures r.Ok? ==> ReadLength(buf.Length, bufEnd) > 0
      ensures old(bufEnd <= bufSoftLimit) ==> r.Ok? && buf == old(buf) && bufStart == old(bufStart)
      ensures old(bufEnd > bufSoftLimit) && r.Ok? ==> bufStart == 0
      ensures old(bufEnd > bufSoftLimit) && Compacts(old(preventBufferCompaction), old(bufStart), old(bufSoftLimit), old(buf.Length)) ==>
        r.Ok? && buf == old(buf)
      ensures old(bufEnd > bufSoftLimit) && !Compacts(old(preventBufferCompaction), old(bufStart), old(bufSoftLimit), old(buf.Length)) && r.Ok? ==>
        buf.Length == 2 * old(buf.Length)
      ensures r.Err? ==> r.error.NegativeArraySize? && old(buf.Length) >= OVERFLOW_SIZE && buf == old(buf)
    {
      ReadLengthPositive(buf.Length, bufStart, bufEnd, preventBufferCompaction);
      if bufEnd <= bufSoftLimit {
        return Ok(());
      }
      if !preventBufferCompaction && (bufStart > bufSoftLimit || bufStart >= buf.Length / 2) {
        // the source copies between boxed temporaries (line 2980); the intended move is modelled
        Relocate(buf);
      } else {
        r := Grow();
        return;
      }
      return Ok(());
    }

    /** The growth branch of `fillBuf`: the unread part moves to the front of a buffer twice the size. */
    method Grow() returns (r: Result<(), Failure>)
      requires Valid()
      modifies this`buf, this`bufSoftLimit, this`bufEnd, this`pos, this`posStart, this`posEnd,
        this`bufAbsoluteStart, this`bufStart
      ensures Valid()
      ensures Offset() == old(Offset()) && Anchors() == old(Anchors()) && pos - bufEnd == old(pos - bufEnd)
      ensures r.Ok? <==> old(buf.Length) < OVERFLOW_SIZE
      ensures r.Ok? ==> fresh(buf) && buf.Length == 2 * old(buf.Length) && bufStart == 0 && bufEnd == old(bufEnd - bufStart)
      ensures r.Err? ==> r.error.NegativeArraySize? && buf == old(buf)
    {
      var newSize := Add32(buf.Length, buf.Length);
      if newSize < 0 {
        return Err(NegativeArraySize(newSize));
      }
      var newBuf := new CodeUnit[newSize];
      // the source copies between boxed temporaries (line 2990); the intended copy is modelled
      Relocate(newBuf);
      return Ok(());
    }

    /** `System.arraycopy(buf, bufStart, dest, 0, bufEnd - bufStart)`; `dest` may be `buf` itself. */
    method CopyUnread(dest: array<CodeUnit>)
      requires 0 <= bufStart <= bufEnd <= buf.Length <= INT_MAX && bufEnd - bufStart <= dest.Length
      modifies dest
      ensures forall i :: 0 <= i < bufEnd - bufStart ==> dest[i] == old(buf[bufStart + i])
    {
      var c := Utils.ArrayCopy(buf, bufStart, dest, 0, bufEnd - bufStart);
    }

    /**
     * Moves the unread part `buf[bufStart..bufEnd)` to the front of `dest`,
     * which becomes the buffer, and shifts every cursor by `bufStart`.
     */
    method Relocate(dest: array<CodeUnit>)
      requires Valid() && dest != pc && INITIAL_BUF_SIZE <= dest.Length <= INT_MAX && bufEnd - bufStart <= dest.Length
      modifies this`buf, this`bufSoftLimit, this`bufEnd, this`pos, this`posStart, this`posEnd,
        this`bufAbsoluteStart, this`bufStart, dest
      ensures Valid()
      ensures buf == dest && bufStart == 0 && bufEnd == old(bufEnd - bufStart)
      ensures Offset() == old(Offset()) && Anchors() == old(Anchors()) && pos - bufEnd == old(pos - bufEnd)
    {
      ghost var abs := bufAbsoluteStart + bufStart;
      CopyUnread(dest);
      assert forall i :: 0 <= i < bufEnd - bufStart ==> dest[i] == input[abs + i];
      buf, bufSoftLimit, bufEnd, pos, posStart, posEnd, bufAbsoluteStart, bufStart :=
        dest, SoftLimit(dest.Length), bufEnd - bufStart, pos - bufStart, posStart - bufStart, posEnd - bufStart,
        bufAbsoluteStart + bufStart, 0;
    }

    /** The read of `fillBuf`: between 1 and `len` characters appended at `bufEnd`, or -1 at the end of input. */
    method ReadChunk() returns (ret: int)
      requires Valid() && reader != null && ReadLength(buf.Length, bufEnd) > 0
      modifies this`bufEnd, buf, reader
      ensures Valid()
      ensures ret == -1 <==> old(bufAbsoluteStart + bufEnd) == |input|
      ensures ret == -1 ==> bufEnd == old(bufEnd)
      ensures ret != -1 ==> ret > 0 && bufEnd == old(bufEnd) + ret
    {
      var len := ReadLength(buf.Length, bufEnd);
      ghost var before := buf[..];
      ghost var c0 := reader.cursor;
      ret := reader.Read(buf, bufEnd, len);
      if ret > 0 {
        assert buf[..] == before[..bufEnd] + reader.data[c0..reader.cursor] + before[bufEnd + ret..];
        forall i | 0 <= i < bufEnd + ret
          ensures buf[i] == input[bufAbsoluteStart + i]
        {
          assert buf[i] == buf[..][i];
          if i >= bufEnd {
            assert buf[..][i] == reader.data[c0..reader.cursor][i - bufEnd];
          } else {
            assert buf[..][i] == before[i];
          }
        }
        bufEnd := bufEnd + ret;
      }
    }

    /**
     * `fillBuf`: makes room, then reads one chunk. The end of input is told
     * apart three ways: no data at all, the normal end in the epilog, or an
     * unexpected end inside the document.
     */
    method FillBuf() returns (r: Result<(), Failure>)
      requires Valid() && pos == bufEnd
      modifies this`buf, this`bufSoftLimit, this`bufEnd, this`pos, this`posStart, this`posEnd,
        this`bufAbsoluteStart, this`bufStart, this`reachedEnd, buf, reader
      ensures Valid()
      ensures buf == old(buf) || fresh(buf)
      ensures Offset() == old(Offset()) && Anchors() == old(Anchors())
      ensures reader == null <==> r == Err(XmlNoPosition(ReaderNotSet))
      ensures r.Ok? ==> pos < bufEnd || (reachedEnd && Offset() == |input|)
      ensures r.Ok? && pos < bufEnd ==> reachedEnd == old(reachedEnd)
      ensures r.Err? && r.error.NegativeArraySize? ==> old(buf.Length) >= OVERFLOW_SIZE
      ensures reader != null && Offset() < |input| ==> (pos < bufEnd && r.Ok?) || (r.Err? && r.error.NegativeArraySize?)
      ensures reader != null && Offset() == |input| && !(r.Err? && r.error.NegativeArraySize?) ==>
        if |input| == 0 then r == Err(Eof(InputContainedNoData))
        else if seenRoot && elements.depth == 0 then r.Ok? && reachedEnd
        else r == Err(NoMoreDataFailure())
    {
      if reader == null {
        return Err(XmlNoPosition(ReaderNotSet));
      }
      r := MakeRoom();
      if r.Err? {
        return;
      }
      var ret := ReadChunk();
      if ret > 0 {
        return Ok(());
      }
      assert ret == -1;
      if bufAbsoluteStart == 0 && pos == 0 {
        return Err(Eof(InputContainedNoData));
      }
      if seenRoot && elements.depth == 0 {
        reachedEnd := true;
        return Ok(());
      }
      return Err(NoMoreDataFailure());
    }

    /**
     * `more`: the next input character, filling the buffer first when it is
     * used up. A `\n` starts a new line at column 1; any other character
     * moves one column on.
     */
    method More() returns (r: Result<CodeUnit, Failure>)
      requires Valid()
      modifies this`buf, this`bufSoftLimit, this`bufEnd, this`pos, this`posStart, this`posEnd,
        this`bufAbsoluteStart, this`bufStart, this`reachedEnd, buf, reader,
        this`lineNumber, this`columnNumber
      ensures Valid()
      ensures buf == old(buf) || fresh(buf)
      ensures Anchors() == old(Anchors())
      ensures r.Ok? ==>
        old(Offset()) < |input| && r.value == input[old(Offset())] && Offset() == old(Offset()) + 1
        && 1 <= pos && buf[pos - 1] == r.value && !reachedEnd
      ensures r.Ok? && r.value == XmlChars.LF ==> lineNumber == old(lineNumber) + 1 && columnNumber == 1
      ensures r.Ok? && r.value != XmlChars.LF ==> lineNumber == old(lineNumber) && columnNumber == old(columnNumber) + 1
      ensures r.Err? ==> Offset() == old(Offset()) && lineNumber == old(lineNumber) && columnNumber == old(columnNumber)
      ensures reader == null ==> r == Err(XmlNoPosition(ReaderNotSet))
      ensures reader != null && old(Offset()) < |input| ==> r.Ok? || r.error.NegativeArraySize?
      ensures r.Err? && r.error.Eof? ==> Offset() == |input|
      ensures reader != null && old(Offset()) == |input| && !(r.Err? && r.error.NegativeArraySize?) ==>
        if |input| == 0 then r == Err(Eof(InputContainedNoData))
        else if seenRoot && elements.depth == 0 then r == Err(Eof(NoMoreDataAfterEnd)) && reachedEnd
        else r == Err(NoMoreDataFailure())
    {
      if pos >= bufEnd {
        var f := FillBuf();
        if f.Err? {
          return Err(f.error);
        }
        if reachedEnd {
          return Err(Eof(NoMoreDataAfterEnd));
        }
      }
      var ch := Advance();
      return Ok(ch);
    }

    /**
     * `more` as the recognisers use it: the next input character, or the
     * end of the input; the line and column follow from `Valid`.
     */
    method Next() returns (r: Result<CodeUnit, Failure>)
      requires Valid() && Positioned()
      modifies this`buf, this`bufSoftLimit, this`bufEnd, this`pos, this`posStart, this`posEnd,
        this`bufAbsoluteStart, this`bufStart, this`reachedEnd, buf, reader,
        this`lineNumber, this`columnNumber
      ensures Valid() && Positioned() && (buf == old(buf) || fresh(buf)) && Anchors() == old(Anchors())
      ensures r.Ok? ==>
        reader != null && old(Offset()) < |input| && r.value == input[old(Offset())] && Offset() == old(Offset()) + 1
      ensures r.Err? ==> Offset() == old(Offset()) && (Overflow(r) || (EndOfInput(r.error) && Offset() == |input|))
    {
      r := More();
    }

    /** The second half of `more`: consume `buf[pos]` and track the line and column. */
    method Advance() returns (ch: CodeUnit)
      requires Valid() && pos < bufEnd
      modifies this`pos, this`lineNumber, this`columnNumber
      ensures Valid()
      ensures old(Offset()) < |input| && ch == input[old(Offset())] && Offset() == old(Offset()) + 1
      ensures pos == old(pos) + 1 && buf[pos - 1] == ch
      ensures ch == XmlChars.LF ==> lineNumber == old(lineNumber) + 1 && columnNumber == 1
      ensures ch != XmlChars.LF ==> lineNumber == old(lineNumber) && columnNumber == old(columnNumber) + 1
    {
      ch := buf[pos];
      pos := pos + 1;
      if ch == XmlChars.LF {
        lineNumber := lineNumber + 1;
        columnNumber := 1;
      } else {
        columnNumber := columnNumber + 1;
      }
    }

    /** `ensurePC(end)`: a larger side buffer holding the first `pcEnd` characters of the old one. */
    method EnsurePC(end: Int32) returns (r: Result<(), Failure>)
      requires Valid()
      modifies this`pc
      ensures Valid()
      ensures r.Ok? <==> NewPCSize(end) >= 0 && 0 <= pcEnd <= NewPCSize(end)
      ensures r.Ok? ==> fresh(pc) && pc.Length == NewPCSize(end) && pc[..pcEnd] == old(pc[..pcEnd])
      ensures r.Err? ==> pc == old(pc)
    {
      var newSize := NewPCSize(end);
      if newSize < 0 {
        return Err(NegativeArraySize(newSize));
      }
      var newPC := new CodeUnit[newSize];
      // the source copies between boxed temporaries (line 3132); the intended copy is modelled
      var c := Utils.ArrayCopy(pc, 0, newPC, 0, pcEnd);
      if c.Err? {
        return Err(Copy(c.error));
      }
      pc := newPC;
      return Ok(());
    }

    /** `if (end >= pc.size) ensurePC(end)`: afterwards index `end` exists, unless the doubling overflowed. */
    method ReservePC(end: Int32) returns (r: Result<(), Failure>)
      requires Valid()
      modifies this`pc
      ensures Valid() && (pc == old(pc) || fresh(pc))
      ensures 0 <= pcEnd ==> pc[..pcEnd] == old(pc[..pcEnd])
      ensures 0 <= end < OVERFLOW_SIZE && 0 <= pcEnd ==> r.Ok?
      ensures r.Ok? ==> end < pc.Length
      ensures r.Err? ==> end >= old(pc.Length)
    {
      if end >= pc.Length {
        if 0 <= end < OVERFLOW_SIZE {
          NewPCSizeRoom(end);
        }
        r := EnsurePC(end);
      } else {
        r := Ok(());
      }
    }

    /**
     * `if (pcEnd >= pc.size) ensurePC(pcEnd); pc[pcEnd++] = ch`, the idiom
     * every normalising scanner uses to append one character to the side buffer.
     */
    method AppendPC(ch: CodeUnit) returns (r: Result<(), Failure>)
      requires Valid()
      modifies this`pc, this`pcEnd, pc
      ensures Valid() && (pc == old(pc) || fresh(pc))
      ensures 0 <= old(pcEnd) < OVERFLOW_SIZE ==> r.Ok?
      ensures old(pcEnd) < 0 ==> r.Err?
      ensures r.Ok? ==> 0 <= old(pcEnd) && pcEnd == old(pcEnd) + 1 && pc[..pcEnd] == old(pc[..pcEnd]) + [ch]
      ensures r.Err? ==> pcEnd == old(pcEnd)
    {
      r := ReservePC(pcEnd);
      if r.Err? {
        return;
      }
      if pcEnd < 0 {
        return Err(IndexOutOfBounds(pcEnd));
      }
      pc[pcEnd] := ch;
      pcEnd := pcEnd + 1;
      return Ok(());
    }

    /**
     * `joinPC`: the side buffer takes over the text `buf[posStart..posEnd)`
     * scanned so far, after growing when fewer than one spare character would remain.
     */
    method JoinPC() returns (r: Result<(), Failure>)
      requires Valid()
      modifies this`pc, this`pcEnd, this`usePC, pc
      ensures Valid() && (pc == old(pc) || fresh(pc))
      ensures 0 <= pcEnd && 0 <= posStart <= posEnd <= buf.Length && old(pcEnd) + (posEnd - posStart) < OVERFLOW_SIZE - 1 ==> r.Ok?
      ensures r.Ok? ==>
        0 <= posStart <= posEnd <= buf.Length && 0 <= old(pcEnd) && 0 <= pcEnd && usePC
        && pc[..pcEnd] == old(pc[..pcEnd]) + buf[posStart..posEnd]
      ensures r.Err? ==> pcEnd == old(pcEnd) && usePC == old(usePC)
    {
      var len := Sub32(posEnd, posStart);
      var newEnd := Add32(Add32(pcEnd, len), 1);
      r := ReservePC(newEnd);
      if r.Err? {
        return;
      }
      r := CopyToPC(len);
      if r.Ok? {
        usePC := true;
      }
    }

    /** The copy of `joinPC`: `len` characters from `posStart` appended at `pcEnd`. */
    method CopyToPC(len: Int32) returns (r: Result<(), Failure>)
      requires Valid()
      modifies this`pcEnd, pc
      ensures Valid()
      ensures r.Ok? <==> Utils.CopyRangesValid(buf.Length, posStart, pc.Length, old(pcEnd), len) && posStart + len <= INT_MAX
      ensures r.Ok? ==> pcEnd == old(pcEnd) + len && pc[..pcEnd] == old(pc[..pcEnd]) + buf[posStart..posStart + len]
      ensures r.Err? ==> pcEnd == old(pcEnd)
    {
      ghost var before := pc[..];
      // the source copies between boxed temporaries (line 3145); the intended copy is modelled
      var c := Utils.ArrayCopy(buf, posStart, pc, pcEnd, len);
      if c.Err? {
        return Err(Copy(c.error));
      }
      assert pc[..pcEnd + len] == before[..pcEnd] + buf[posStart..posStart + len];
      pcEnd := pcEnd + len;
      return Ok(());
    }

    /** `requireInput(ch, input)`: `ch` and the characters after it must spell `expected`; returns the character that follows. */
    method RequireInput(ch: CodeUnit, expected: Str) returns (r: Result<CodeUnit, Failure>)
      requires Valid() && Positioned()
      modifies this`buf, this`bufSoftLimit, this`bufEnd, this`pos, this`posStart, this`posEnd,
        this`bufAbsoluteStart, this`bufStart, this`reachedEnd, buf, reader,
        this`lineNumber, this`columnNumber
      ensures Valid() && Positioned() && (buf == old(buf) || fresh(buf)) && Anchors() == old(Anchors())
      ensures old(Offset()) <= Offset()
      ensures r.Ok? ==>
        Offset() == old(Offset()) + |expected| && [ch] + input[old(Offset())..Offset()] == expected + [r.value]
      ensures |expected| > 0 && ch != expected[0] ==>
        r == Err(Xml(ExpectedInput(expected, ch), lineNumber, columnNumber)) && Offset() == old(Offset())
      ensures r.Err? && r.error.Xml? ==> r.error.problem.ExpectedInput?
    {
      var c := ch;
      var i := 0;
      while i < |expected|
        invariant 0 <= i <= |expected|
        invariant Valid() && Positioned() && (buf == old(buf) || fresh(buf)) && Anchors() == old(Anchors())
        invariant Offset() == old(Offset()) + i
        invariant [ch] + input[old(Offset())..Offset()] == expected[..i] + [c]
        invariant i == 0 ==> c == ch
        invariant i > 0 ==> ch == expected[0]
      {
        if c != expected[i] {
          return Err(Xml(ExpectedInput(expected, c), lineNumber, columnNumber));
        }
        ghost var seen := [ch] + input[old(Offset())..Offset()];
        var m := Next();
        if m.Err? {
          return Err(m.error);
        }
        assert [ch] + input[old(Offset())..Offset()] == seen + [m.value];
        assert expected[..i + 1] == expected[..i] + [c];
        c := m.value;
        i := i + 1;
      }
      return Ok(c);
    }

    /**
     * `skipS(ch)`, where `ch` is the character last read: consumes the run of
     * white space it starts and returns the first character after the run.
     */
    method SkipS(ch: CodeUnit) returns (r: Result<CodeUnit, Failure>)
      requires Valid() && Positioned() && 0 < Offset() && ch == input[Offset() - 1]
      modifies this`buf, this`bufSoftLimit, this`bufEnd, this`pos, this`posStart, this`posEnd,
        this`bufAbsoluteStart, this`bufStart, this`reachedEnd, buf, reader,
        this`lineNumber, this`columnNumber
      ensures Valid() && Positioned() && (buf == old(buf) || fresh(buf)) && Anchors() == old(Anchors())
      ensures r.Ok? ==> Offset() - 1 == SEnd(input, old(Offset()) - 1) < |input| && r.value == input[Offset() - 1]
      ensures r.Err? ==> Overflow(r) || (EndOfInput(r.error) && SEnd(input, old(Offset()) - 1) == |input|)
    {
      var c := ch;
      while XmlChars.IsS(c)
        invariant Valid() && Positioned() && (buf == old(buf) || fresh(buf)) && Anchors() == old(Anchors())
        invariant old(Offset()) <= Offset() <= |input| && c == input[Offset() - 1]
        invariant SIn(input, old(Offset()) - 1, Offset() - 1)
        decreases |input| - Offset()
      {
        var m := Next();
        if m.Err? {
          if !Overflow(m) {
            SEndAt(input, old(Offset()) - 1, Offset());
          }
          return Err(m.error);
        }
        c := m.value;
      }
      SEndAt(input, old(Offset()) - 1, Offset() - 1);
      return Ok(c);
    }

    /**
     * The name loops of the recognisers, `do { ch = more() } while
     * (isNameChar(ch))`: consumes the run of name characters from the current
     * offset and the character after it, which is returned.
     */
    method NameTail() returns (r: Result<CodeUnit, Failure>)
      requires Valid() && Positioned()
      modifies this`buf, this`bufSoftLimit, this`bufEnd, this`pos, this`posStart, this`posEnd,
        this`bufAbsoluteStart, this`bufStart, this`reachedEnd, buf, reader,
        this`lineNumber, this`columnNumber
      ensures Valid() && Positioned() && (buf == old(buf) || fresh(buf)) && Anchors() == old(Anchors())
      ensures r.Ok? ==> Offset() - 1 == NameEnd(input, old(Offset())) < |input| && r.value == input[Offset() - 1]
      ensures r.Err? ==> Overflow(r) || (EndOfInput(r.error) && NameEnd(input, old(Offset())) == |input|)
    {
      var m := Next();
      if m.Err? {
        return Err(m.error);
      }
      var c := m.value;
      while XmlChars.IsNameChar(c)
        invariant Valid() && Positioned() && (buf == old(buf) || fresh(buf)) && Anchors() == old(Anchors())
        invariant old(Offset()) < Offset() <= |input| && c == input[Offset() - 1]
        invariant NameCharsIn(input, old(Offset()), Offset() - 1)
        decreases |input| - Offset()
      {
        m := Next();
        if m.Err? {
          if !Overflow(m) {
            NameEndAt(input, old(Offset()), Offset());
          }
          return Err(m.error);
        }
        c := m.value;
      }
      NameEndAt(input, old(Offset()), Offset() - 1);
      return Ok(c);
    }

    // -------------------------------------------------------------------
    // Recognisers

    /** The buffer from `a` to `b` holds the input at the corresponding absolute offsets. */
    lemma BufferMirrors(a: int, b: int)
      requires Valid() && 0 <= a <= b <= bufEnd
      ensures buf[a..b] == input[bufAbsoluteStart + a..bufAbsoluteStart + b]
    {
      forall k | 0 <= k < b - a
        ensures buf[a..b][k] == input[bufAbsoluteStart + a..bufAbsoluteStart + b][k]
      {
        assert buf[a + k] == input[bufAbsoluteStart + a + k];
      }
    }

    /** `posStart = p`, for a token that starts no earlier than 2^31 characters before `bufStart`. */
    method SetPosStart(p: Int32)
      requires Valid() && p - bufStart >= -0x8000_0000
      modifies this`posStart
      ensures Valid() && posStart == p && Anchors() == (old(Anchors().0), bufAbsoluteStart + p, old(Anchors().2))
    {
      posStart := p;
    }

    /** The end of `parseEndTag`: the tag ends at `pos`, and the element is popped on the next call. */
    method EndTagSeen()
      requires Valid() && pos - bufStart >= -0x8000_0000
      modifies this`posEnd, this`pastEndTag, this`eventType
      ensures Valid() && posEnd == pos && pastEndTag && eventType == END_TAG
    {
      posEnd := pos;
      pastEndTag := true;
      eventType := END_TAG;
    }

    /** `posEnd = p`. */
    method SetPosEnd(p: Int32)
      requires Valid() && p - bufStart >= -0x8000_0000
      modifies this`posEnd
      ensures Valid() && posEnd == p && Anchors() == (old(Anchors().0), old(Anchors().1), bufAbsoluteStart + p)
    {
      posEnd := p;
    }

    /**
     * The name part of `parseEndTag`, entered just past `</`: a name start
     * character, then name characters up to the first character that is not
     * one, which it returns; `posStart` marks the `<`.
     */
    method EndTagName(ghost open: Result<(Str, int), Failure>) returns (r: Result<CodeUnit, Failure>)
      requires Valid() && Positioned() && bufAbsoluteStart + bufStart <= Offset() - 2
      modifies this`buf, this`bufSoftLimit, this`bufEnd, this`pos, this`posStart, this`posEnd,
        this`bufAbsoluteStart, this`bufStart, this`reachedEnd, buf, reader,
        this`lineNumber, this`columnNumber
      ensures Valid() && Positioned() && (buf == old(buf) || fresh(buf))
      ensures r.Err? ==> Agrees(r, EndTagScan(input, old(Offset()), open), Offset(), (lineNumber, columnNumber))
      ensures r.Ok? ==>
        old(Offset()) < |input| && XmlChars.IsNameStartChar(input[old(Offset())])
        && Offset() - 1 == NameEnd(input, old(Offset()) + 1) < |input| && r.value == input[Offset() - 1]
        && Anchors() == (old(Anchors().0), old(Offset()) - 2, old(Anchors().2))
    {
      var m := Next();
      if m.Err? {
        return Err(m.error);
      }
      if !XmlChars.IsNameStartChar(m.value) {
        return Err(Xml(EndTagExpectedNameStart(m.value), lineNumber, columnNumber));
      }
      r := EndTagNameTail(open);
    }

    /** The end tag's name after its first character, which `pos` has just passed; `posStart` moves to the `<`. */
    method EndTagNameTail(ghost open: Result<(Str, int), Failure>) returns (r: Result<CodeUnit, Failure>)
      requires Valid() && Positioned() && bufAbsoluteStart + bufStart <= Offset() - 3
      requires XmlChars.IsNameStartChar(input[Offset() - 1])
      modifies this`buf, this`bufSoftLimit, this`bufEnd, this`pos, this`posStart, this`posEnd,
        this`bufAbsoluteStart, this`bufStart, this`reachedEnd, buf, reader,
        this`lineNumber, this`columnNumber
      ensures Valid() && Positioned() && (buf == old(buf) || fresh(buf))
      ensures r.Err? ==> Agrees(r, EndTagScan(input, old(Offset()) - 1, open), Offset(), (lineNumber, columnNumber))
      ensures r.Ok? ==>
        Offset() - 1 == NameEnd(input, old(Offset())) < |input| && r.value == input[Offset() - 1]
        && Anchors() == (old(Anchors().0), old(Offset()) - 3, old(Anchors().2))
    {
      ghost var i := Offset() - 1;
      ghost var a := Anchors();
      SetPosStart(pos - 3);
      assert Anchors() == (a.0, i - 2, a.2);
      r := NameTail();
      if r.Err? {
        assert EndTagScan(input, i, open) == Truncated || Overflow(r);
      }
    }

    /**
     * The check of `parseEndTag` on the name `buf[off..off+len)`: it must
     * have the length and the characters of the innermost open element's
     * raw name; returns that element's start line.
     */
    method EndTagMatches(off: int, len: int) returns (r: Result<int, Failure>)
      requires elements.Valid() && 0 <= off && 0 <= len && off + len <= buf.Length
      ensures var open := elements.OpenTag();
        var name := buf[off..off + len];
        if open.Err? then r == Err(open.error)
        else if len != |open.value.0| then
          r == Err(Xml(EndTagLengthMismatch(name, open.value.0, open.value.1), lineNumber, columnNumber))
        else if name != open.value.0 then
          r == Err(Xml(EndTagNameMismatch(name, open.value.0, open.value.1), lineNumber, columnNumber))
        else r == Ok(open.value.1)
    {
      if |elements.elRawName| == 0 {
        return Err(NullPointer);
      }
      var cbuf := elements.elRawName[elements.depth];
      var line := elements.elRawNameLine[elements.depth];
      if elements.elRawNameEnd[elements.depth] != len {
        if cbuf.None? {
          return Err(NullPointer);
        }
        var startName := cbuf.value[..elements.elRawNameEnd[elements.depth]];
        return Err(Xml(EndTagLengthMismatch(buf[off..off + len], startName, line), lineNumber, columnNumber));
      }
      if cbuf.None? {
        return Err(NullPointer);
      }
      var same := SameChars(buf, off, cbuf.value, len);
      if !same {
        return Err(Xml(EndTagNameMismatch(buf[off..off + len], cbuf.value[..len], line), lineNumber, columnNumber));
      }
      return Ok(line);
    }

    /**
     * The close of `parseEndTag`, given the character after the name:
     * optional white space, then `>`; the tag ends there, the event is
     * END_TAG and `pastEndTag` defers popping the element to the next call.
     */
    method EndTagClosing(ch: CodeUnit, line: int) returns (r: Result<EventType, Failure>)
      requires Valid() && Positioned() && 0 < Offset() && ch == input[Offset() - 1]
      modifies this`buf, this`bufSoftLimit, this`bufEnd, this`pos, this`posStart, this`posEnd,
        this`bufAbsoluteStart, this`bufStart, this`reachedEnd, buf, reader,
        this`lineNumber, this`columnNumber, this`pastEndTag, this`eventType
      ensures Valid() && Positioned() && (buf == old(buf) || fresh(buf))
      ensures Agrees(r, EndTagClose(input, SEnd(input, old(Offset()) - 1), line), Offset(), (lineNumber, columnNumber))
      ensures r.Ok? ==>
        r.value == END_TAG && eventType == END_TAG && pastEndTag
        && Anchors() == (old(Anchors().0), old(Anchors().1), Offset())
      ensures r.Err? ==> eventType == old(eventType) && pastEndTag == old(pastEndTag)
    {
      var t := SkipS(ch);
      if t.Err? {
        r := Err(t.error);
      } else if t.value != GT {
        r := Err(Xml(EndTagExpectedGt(t.value, line), lineNumber, columnNumber));
      } else {
        EndTagSeen();
        r := Ok(END_TAG);
      }
    }

    /**
     * `parseEndTag`, entered just past `</`: the end tag must close the
     * innermost open element. On success the event is END_TAG, `posStart` and
     * `posEnd` bracket the tag, and `pastEndTag` defers popping the element to
     * the next call.
     */
    method ParseEndTag() returns (r: Result<EventType, Failure>)
      requires Valid() && Positioned() && elements.Valid()
      requires bufAbsoluteStart + bufStart <= Offset() - 2
      modifies this`buf, this`bufSoftLimit, this`bufEnd, this`pos, this`posStart, this`posEnd,
        this`bufAbsoluteStart, this`bufStart, this`reachedEnd, buf, reader,
        this`lineNumber, this`columnNumber, this`pastEndTag, this`eventType
      ensures Valid() && Positioned() && (buf == old(buf) || fresh(buf))
      ensures Agrees(r, EndTagScan(input, old(Offset()), elements.OpenTag()), Offset(), (lineNumber, columnNumber))
      ensures r.Ok? ==>
        r.value == END_TAG && eventType == END_TAG && pastEndTag
        && Anchors() == (old(Anchors().0), old(Offset()) - 2, Offset())
      ensures r.Err? ==> eventType == old(eventType) && pastEndTag == old(pastEndTag)
    {
      ghost var i := Offset();
      ghost var open := elements.OpenTag();
      var n := EndTagName(open);
      if n.Err? {
        return Err(n.error);
      }
      EndTagNamed(input, i, Offset() - 1, open);
      r := EndTagRest(n.value, i, open);
    }

    /**
     * `parseEndTag` once the name `input[i..)` is read up to the character
     * `ch` after it: the name is checked against the open element `open`,
     * then the tag is closed.
     */
    method EndTagRest(ch: CodeUnit, ghost i: int, ghost open: Result<(Str, int), Failure>) returns (r: Result<EventType, Failure>)
      requires Valid() && Positioned() && elements.Valid() && open == elements.OpenTag()
      requires bufAbsoluteStart + bufStart <= i - 2 && bufAbsoluteStart + posStart == i - 2
      requires i < Offset() - 1 < |input| && ch == input[Offset() - 1]
      modifies this`buf, this`bufSoftLimit, this`bufEnd, this`pos, this`posStart, this`posEnd,
        this`bufAbsoluteStart, this`bufStart, this`reachedEnd, buf, reader,
        this`lineNumber, this`columnNumber, this`pastEndTag, this`eventType
      ensures Valid() && Positioned() && (buf == old(buf) || fresh(buf))
      ensures Agrees(r, EndTagAfterName(input, i, old(Offset()) - 1, open), Offset(), (lineNumber, columnNumber))
      ensures r.Ok? ==>
        r.value == END_TAG && eventType == END_TAG && pastEndTag
        && Anchors() == (old(Anchors().0), i - 2, Offset())
      ensures r.Err? ==> eventType == old(eventType) && pastEndTag == old(pastEndTag)
    {
      ghost var j := Offset() - 1;
      EndTagNameChecked(input, i, j, open);
      var off := posStart + 2;
      var len := (pos - 1) - off;
      NameInBuffer(i, j);
      var line := EndTagMatches(off, len);
      if line.Err? {
        return Err(line.error);
      }
      r := EndTagClosing(ch, line.value);
    }

    /** The end tag's name `input[i..j)`, read just past `</`, is in the buffer after the `</` that `posStart` marks. */
    lemma NameInBuffer(i: int, j: int)
      requires Valid() && bufAbsoluteStart + bufStart <= i - 2 && bufAbsoluteStart + posStart == i - 2
      requires i <= j && Offset() == j + 1
      ensures 0 <= posStart + 2 <= pos - 1 <= buf.Length && buf[posStart + 2..pos - 1] == input[i..j]
    {
      BufferMirrors(posStart + 2, pos - 1);
    }

    /** The start of `parseCharOrPredefinedEntityRef`: no entity name yet, the reference starts at `pos`, nothing resolved. */
    method ReferenceStart()
      requires Valid()
      modifies this`entityRefName, this`posStart, this`resolvedEntityRefCharBuf
      ensures Valid() && entityRefName.None? && posStart == pos && resolvedEntityRefCharBuf.None?
      ensures Anchors() == (old(Anchors().0), Offset(), old(Anchors().2))
    {
      entityRefName := None;
      posStart := pos;
      resolvedEntityRefCharBuf := None;
    }

    /**
     * The digit loops of a character reference, entered with `ch`, the
     * character last read: digits of the radix up to `;`, which are returned
     * as the source's string builder holds them.
     */
    method CharRefDigits(ch: CodeUnit, hex: bool) returns (r: Result<Str, Failure>)
      requires Valid() && Positioned() && 0 < Offset() && ch == input[Offset() - 1]
      modifies this`buf, this`bufSoftLimit, this`bufEnd, this`pos, this`posStart, this`posEnd,
        this`bufAbsoluteStart, this`bufStart, this`reachedEnd, buf, reader,
        this`lineNumber, this`columnNumber
      ensures Valid() && Positioned() && (buf == old(buf) || fresh(buf)) && Anchors() == old(Anchors())
      ensures r.Ok? ==>
        (var j := DigitEnd(input, old(Offset()) - 1, hex);
         Offset() == j + 1 && input[j] == SEMI && r.value == input[old(Offset()) - 1..j])
      ensures r.Err? ==>
        Overflow(r) ||
        (var j := DigitEnd(input, old(Offset()) - 1, hex);
         if j == |input| then EndOfInput(r.error)
         else input[j] != SEMI && r == Err(Xml(IllegalDigit(input[j], hex), lineNumber, columnNumber)))
    {
      var run := DigitRun(ch, hex);
      if run.Err? {
        return Err(run.error);
      }
      var (ds, c) := run.value;
      if c != SEMI {
        r := Err(Xml(IllegalDigit(c, hex), lineNumber, columnNumber));
      } else {
        r := Ok(ds);
      }
    }

    /**
     * The digit loops themselves: from `ch`, the character last read, every
     * digit of the radix is collected; returns the digits and the character
     * after them.
     */
    method DigitRun(ch: CodeUnit, hex: bool) returns (r: Result<(Str, CodeUnit), Failure>)
      requires Valid() && Positioned() && 0 < Offset() && ch == input[Offset() - 1]
      modifies this`buf, this`bufSoftLimit, this`bufEnd, this`pos, this`posStart, this`posEnd,
        this`bufAbsoluteStart, this`bufStart, this`reachedEnd, buf, reader,
        this`lineNumber, this`columnNumber
      ensures Valid() && Positioned() && (buf == old(buf) || fresh(buf)) && Anchors() == old(Anchors())
      ensures r.Ok? ==>
        Offset() - 1 == DigitEnd(input, old(Offset()) - 1, hex) && Offset() - 1 < |input|
        && r.value == (input[old(Offset()) - 1..Offset() - 1], input[Offset() - 1])
      ensures r.Err? ==> Overflow(r) || (DigitEnd(input, old(Offset()) - 1, hex) == |input| && EndOfInput(r.error))
    {
      ghost var k := Offset() - 1;
      var c := ch;
      var ds := [];
      while XmlChars.IsDigitOf(c, hex)
        invariant Valid() && Positioned() && (buf == old(buf) || fresh(buf)) && Anchors() == old(Anchors())
        invariant k < Offset() <= |input| && c == input[Offset() - 1]
        invariant DigitsIn(input, k, Offset() - 1, hex)
        invariant ds == input[k..Offset() - 1]
        decreases |input| - Offset()
      {
        SliceSnoc(input, k, Offset() - 1);
        ds := ds + [c];
        var m := Next();
        if m.Err? {
          if !Overflow(m) {
            DigitEndAt(input, k, Offset(), hex);
          }
          return Err(m.error);
        }
        c := m.value;
      }
      DigitEndAt(input, k, Offset() - 1, hex);
      r := Ok((ds, c));
    }

    /** The hexadecimal loop, entered just past `&#x`: reads the first digit, then as `CharRefDigits`. */
    method HexDigits() returns (r: Result<Str, Failure>)
      requires Valid() && Positioned()
      modifies this`buf, this`bufSoftLimit, this`bufEnd, this`pos, this`posStart, this`posEnd,
        this`bufAbsoluteStart, this`bufStart, this`reachedEnd, buf, reader,
        this`lineNumber, this`columnNumber
      ensures Valid() && Positioned() && (buf == old(buf) || fresh(buf)) && Anchors() == old(Anchors())
      ensures r.Ok? ==>
        (var j := DigitEnd(input, old(Offset()), true);
         Offset() == j + 1 && input[j] == SEMI && r.value == input[old(Offset())..j])
      ensures r.Err? ==>
        Overflow(r) ||
        (var j := DigitEnd(input, old(Offset()), true);
         if j == |input| then EndOfInput(r.error)
         else input[j] != SEMI && r == Err(Xml(IllegalDigit(input[j], true), lineNumber, columnNumber)))
    {
      var m := Next();
      if m.Err? {
        r := Err(m.error);
      } else {
        r := CharRefDigits(m.value, true);
      }
    }

    /**
     * The character-reference branch after `&#` and the character `ch`
     * that follows: decimal digits from `ch` on, or, when `ch` is `x`,
     * hexadecimal digits after it, then `;`; the code point must be a
     * `Char`. Returns the characters the reference stands for.
     */
    method CharRefRest(ch: CodeUnit) returns (r: Result<Str, Failure>)
      requires Valid() && Positioned() && 0 < Offset() && ch == input[Offset() - 1]
      modifies this`buf, this`bufSoftLimit, this`bufEnd, this`pos, this`posStart, this`posEnd,
        this`bufAbsoluteStart, this`bufStart, this`reachedEnd, buf, reader,
        this`lineNumber, this`columnNumber
      ensures Valid() && Positioned() && (buf == old(buf) || fresh(buf)) && Anchors() == old(Anchors())
      ensures var hex := ch == HEX_MARK;
        var k := if hex then old(Offset()) else old(Offset()) - 1;
        Agrees(r, CharRefScan(input, k, hex), Offset(), (lineNumber, columnNumber))
        && (r.Ok? ==> r.value == CharRefChars(input[k..DigitEnd(input, k, hex)], hex).value)
    {
      var hex := ch == HEX_MARK;
      var d: Result<Str, Failure>;
      if hex {
        d := HexDigits();
      } else {
        d := CharRefDigits(ch, false);
      }
      if d.Err? {
        r := Err(d.error);
      } else {
        // the source also folds the digits into an unused `Char` as it goes
        var chars := CharRefChars(d.value, hex);
        if chars.None? {
          r := Err(Xml(CharRefInvalid(hex, d.value), lineNumber, columnNumber));
        } else {
          r := Ok(chars.value);
        }
      }
    }

    /** The character-reference branch, entered just past `&#`: returns the characters the reference stands for. */
    method CharRef() returns (r: Result<Str, Failure>)
      requires Valid() && Positioned() && 0 < Offset() && input[Offset() - 1] == HASH
      modifies this`buf, this`bufSoftLimit, this`bufEnd, this`pos, this`posStart, this`posEnd,
        this`bufAbsoluteStart, this`bufStart, this`reachedEnd, buf, reader,
        this`lineNumber, this`columnNumber
      ensures Valid() && Positioned() && (buf == old(buf) || fresh(buf)) && Anchors() == old(Anchors())
      ensures Agrees(r, ReferenceScan(input, old(Offset()) - 1), Offset(), (lineNumber, columnNumber))
      ensures r.Ok? ==> r.value == ReferenceChars(ReferenceAt(input, old(Offset()) - 1)).value
    {
      ghost var i := Offset() - 1;
      var m := Next();
      if m.Err? {
        r := Err(m.error);
      } else {
        CharRefScanAt(input, i);
        r := CharRefRest(m.value);
      }
    }

    /**
     * The entity-reference branch, given its first character `ch` (read;
     * `posStart` marks it): a name start character, name characters, `;`.
     * Returns the name.
     */
    method EntityRefName(ch: CodeUnit) returns (r: Result<Str, Failure>)
      requires Valid() && Positioned() && 0 < Offset() && ch == input[Offset() - 1]
      requires Anchors().0 <= Anchors().1 == Offset() - 1
      modifies this`buf, this`bufSoftLimit, this`bufEnd, this`pos, this`posStart, this`posEnd,
        this`bufAbsoluteStart, this`bufStart, this`reachedEnd, buf, reader,
        this`lineNumber, this`columnNumber
      ensures Valid() && Positioned() && (buf == old(buf) || fresh(buf)) && Anchors() == old(Anchors())
      ensures Agrees(r, EntityNameScan(input, old(Offset()) - 1), Offset(), (lineNumber, columnNumber))
      ensures r.Ok? ==> r.value == input[old(Offset()) - 1..NameEnd(input, old(Offset()))]
    {
      if !XmlChars.IsNameStartChar(ch) {
        r := Err(Xml(EntityNameBadStart(ch), lineNumber, columnNumber));
      } else {
        var t := NameTail();
        if t.Err? {
          r := Err(t.error);
        } else if t.value != SEMI {
          r := Err(Xml(EntityNameBadChar(t.value), lineNumber, columnNumber));
        } else {
          BufferMirrors(posStart, pos - 1);
          r := Ok(buf[posStart..pos - 1]);
        }
      }
    }

    /**
     * The body of `parseCharOrPredefinedEntityRef` once the character `ch`
     * after `&` is read: a character reference after `#`, an entity
     * reference otherwise. Returns what it stands for, if it is a character
     * reference or a predefined entity, and the length the source returns.
     */
    method ReferenceAfter(ch: CodeUnit) returns (r: Result<(Option<Str>, int), Failure>)
      requires Valid() && Positioned() && 0 < Offset() && ch == input[Offset() - 1] && Anchors().0 <= Anchors().1 == Offset() - 1
      modifies this`buf, this`bufSoftLimit, this`bufEnd, this`pos, this`posStart, this`posEnd,
        this`bufAbsoluteStart, this`bufStart, this`reachedEnd, buf, reader,
        this`lineNumber, this`columnNumber
      ensures Valid() && Positioned() && (buf == old(buf) || fresh(buf)) && Anchors() == old(Anchors())
      ensures Agrees(r, ReferenceScan(input, old(Offset()) - 1), Offset(), (lineNumber, columnNumber))
      ensures r.Ok? ==>
        var ref := ReferenceAt(input, old(Offset()) - 1);
        r.value == (ReferenceChars(ref), ReferenceLength(ref))
    {
      if ch == HASH {
        var c := CharRef();
        if c.Err? {
          r := Err(c.error);
        } else {
          r := Ok((Some(c.value), |c.value|));
        }
      } else {
        var n := EntityRefName(ch);
        if n.Err? {
          r := Err(n.error);
        } else {
          var predefined := XmlChars.PredefinedEntity(n.value);
          r := Ok((if predefined.Some? then Some([predefined.value]) else None, |n.value|));
        }
      }
    }

    /** The body of `parseCharOrPredefinedEntityRef`, just past `&`: reads the first character, then as `ReferenceAfter`. */
    method ReferenceBody() returns (r: Result<(Option<Str>, int), Failure>)
      requires Valid() && Positioned() && Anchors().0 <= Anchors().1 == Offset()
      modifies this`buf, this`bufSoftLimit, this`bufEnd, this`pos, this`posStart, this`posEnd,
        this`bufAbsoluteStart, this`bufStart, this`reachedEnd, buf, reader,
        this`lineNumber, this`columnNumber
      ensures Valid() && Positioned() && (buf == old(buf) || fresh(buf)) && Anchors() == old(Anchors())
      ensures Agrees(r, ReferenceScan(input, old(Offset())), Offset(), (lineNumber, columnNumber))
      ensures r.Ok? ==>
        old(Offset()) < |input|
        && r.value == (ReferenceChars(ReferenceAt(input, old(Offset()))), ReferenceLength(ReferenceAt(input, old(Offset()))))
    {
      var m := Next();
      if m.Err? {
        r := Err(m.error);
      } else {
        r := ReferenceAfter(m.value);
      }
    }

    /** The end of `parseCharOrPredefinedEntityRef`: record what the reference stands for; the reference ends at `pos`. */
    method ReferenceEnd(chars: Option<Str>)
      requires Valid()
      modifies this`resolvedEntityRefCharBuf, this`text, this`posEnd
      ensures Valid() && resolvedEntityRefCharBuf == chars && posEnd == pos
      ensures Anchors() == (old(Anchors().0), old(Anchors().1), Offset())
      ensures text == if tokenize && chars.Some? then chars else old(text)
    {
      resolvedEntityRefCharBuf := chars;
      if tokenize && chars.Some? {
        text := chars;
      }
      posEnd := pos;
    }

    /**
     * `parseCharOrPredefinedEntityRef`, entered just past `&`: reads a
     * reference (section 4.1 of XML 1.0) and resolves character references
     * and the five predefined entities. `posStart` and `posEnd` bracket the
     * reference after `&`; in `nextToken()` mode the text is what it stands
     * for. Returns the length of the characters or of the name.
     */
    method ParseCharOrPredefinedEntityRef() returns (r: Result<int, Failure>)
      requires Valid() && Positioned()
      modifies this`buf, this`bufSoftLimit, this`bufEnd, this`pos, this`posStart, this`posEnd,
        this`bufAbsoluteStart, this`bufStart, this`reachedEnd, buf, reader,
        this`lineNumber, this`columnNumber, this`entityRefName, this`resolvedEntityRefCharBuf, this`text
      ensures Valid() && Positioned() && (buf == old(buf) || fresh(buf))
      ensures Agrees(r, ReferenceScan(input, old(Offset())), Offset(), (lineNumber, columnNumber))
      ensures r.Ok? ==>
        old(Offset()) < |input|
        && var ref := ReferenceAt(input, old(Offset()));
        r.value == ReferenceLength(ref) && resolvedEntityRefCharBuf == ReferenceChars(ref) && entityRefName.None?
        && text == (if tokenize && resolvedEntityRefCharBuf.Some? then resolvedEntityRefCharBuf else old(text))
        && Anchors() == (old(Anchors().0), old(Offset()), Offset())
      ensures r.Err? ==> text == old(text)
    {
      ReferenceStart();
      var b := ReferenceBody();
      if b.Err? {
        r := Err(b.error);
      } else {
        ReferenceEnd(b.value.0);
        r := Ok(b.value.1);
      }
    }

    /** The table part of `parseEntityRef`: the entry found, if any, gives the replacement (and, in `nextToken()` mode, the text). */
    method TableResolution(idx: Option<nat>)
      requires entities.Valid() && (idx.Some? ==> idx.value < entities.entityEnd)
      modifies this`resolvedEntityRefCharBuf, this`text
      ensures resolvedEntityRefCharBuf == if idx.Some? then Some(entities.entityReplacementBuf[idx.value]) else None
      ensures text == if !tokenize then old(text) else if idx.Some? then Some(entities.entityReplacement[idx.value]) else None
    {
      if idx.Some? {
        if tokenize {
          text := Some(entities.entityReplacement[idx.value]);
        }
        resolvedEntityRefCharBuf := Some(entities.entityReplacementBuf[idx.value]);
      } else {
        resolvedEntityRefCharBuf := None;
        if tokenize {
          text := None;
        }
      }
    }

    /**
     * The rest of `parseEntityRef` for a name that is not predefined, once
     * `posStart`/`posEnd` bracket it and its `;`: `posEnd` steps back over
     * `;`, and the name `buf[posStart..posEnd)` is looked up in the entity
     * table.
     */
    method ResolveFromTable()
      requires Valid() && entities.Valid() && bufStart <= posStart < posEnd <= bufEnd
      modifies this`posEnd, this`resolvedEntityRefCharBuf, this`text
      ensures Valid() && posEnd == old(posEnd) - 1 && Anchors() == (old(Anchors().0), old(Anchors().1), old(Anchors().2) - 1)
      ensures var names := entities.entityNameBuf[..entities.entityEnd];
        var name := buf[posStart..posEnd];
        resolvedEntityRefCharBuf == TableLookup(names, entities.entityReplacementBuf[..entities.entityEnd], name)
        && text == if tokenize then TableLookup(names, entities.entityReplacement[..entities.entityEnd], name) else old(text)
    {
      posEnd := posEnd - 1;
      var idx := LookupEntityReplacement(entities, buf, posStart, posEnd - posStart);
      TableResolution(idx);
    }

    /** `ResolveFromTable` for the reference `ref`, which names `buf[posStart..posEnd - 1)` and is not predefined. */
    method ResolveNamed(ghost ref: Reference)
      requires Valid() && entities.Valid() && bufStart <= posStart < posEnd <= bufEnd
      requires ReferenceChars(ref).None? && ref == EntityReference(buf[posStart..posEnd - 1])
      modifies this`posEnd, this`resolvedEntityRefCharBuf, this`text
      ensures Valid() && posEnd == old(posEnd) - 1 && Anchors() == (old(Anchors().0), old(Anchors().1), old(Anchors().2) - 1)
      ensures var names := entities.entityNameBuf[..entities.entityEnd];
        resolvedEntityRefCharBuf == ResolveReference(ref, names, entities.entityReplacementBuf[..entities.entityEnd])
        && text == if tokenize then ResolveReference(ref, names, entities.entityReplacement[..entities.entityEnd]) else old(text)
    {
      ghost var names := entities.entityNameBuf[..entities.entityEnd];
      ghost var name := buf[posStart..posEnd - 1];
      ResolveInTwoSteps(ref, names, entities.entityReplacementBuf[..entities.entityEnd], name);
      ResolveInTwoSteps(ref, names, entities.entityReplacement[..entities.entityEnd], name);
      ResolveFromTable();
    }

    /**
     * The end of `parseEntityRef` once the reference from `i` has been read
     * and `posEnd` is just past its `;`: `posEnd` steps back over `;`, and a
     * name that is neither a character reference nor predefined is looked up
     * in the entity table.
     */
    method EntityRefResolution(ghost i: nat, ghost ref: Reference, ghost text0: Option<Str>)
      requires Valid() && entities.Valid()
      requires Anchors().0 <= Anchors().1 == i && Anchors().2 == Offset() <= |input|
      requires resolvedEntityRefCharBuf == ReferenceChars(ref)
      requires resolvedEntityRefCharBuf.None? ==> i < Offset() - 1 && ref == EntityReference(input[i..Offset() - 1])
      requires text == if tokenize && resolvedEntityRefCharBuf.Some? then resolvedEntityRefCharBuf else text0
      modifies this`posEnd, this`resolvedEntityRefCharBuf, this`text
      ensures Valid() && posEnd == old(posEnd) - 1 && Anchors() == (old(Anchors().0), old(Anchors().1), old(Anchors().2) - 1)
      ensures var names := entities.entityNameBuf[..entities.entityEnd];
        resolvedEntityRefCharBuf == ResolveReference(ref, names, entities.entityReplacementBuf[..entities.entityEnd])
        && text == if tokenize then ResolveReference(ref, names, entities.entityReplacement[..entities.entityEnd]) else text0
    {
      if resolvedEntityRefCharBuf.Some? {
        SetPosEnd(posEnd - 1);
      } else {
        BufferMirrors(posStart, posEnd - 1);
        ResolveNamed(ref);
      }
    }

    /**
     * `parseEntityRef`, entered just past `&`: a reference, resolved as a
     * character reference, a predefined entity or the latest definition of
     * its name in the entity table. `posEnd` stops before `;`. In
     * `nextToken()` mode the text is the replacement, or null when the name
     * is unknown.
     */
    method ParseEntityRef() returns (r: Result<(), Failure>)
      requires Valid() && Positioned() && entities.Valid()
      modifies this`buf, this`bufSoftLimit, this`bufEnd, this`pos, this`posStart, this`posEnd,
        this`bufAbsoluteStart, this`bufStart, this`reachedEnd, buf, reader,
        this`lineNumber, this`columnNumber, this`entityRefName, this`resolvedEntityRefCharBuf, this`text
      ensures Valid() && Positioned() && (buf == old(buf) || fresh(buf))
      ensures Agrees(r, ReferenceScan(input, old(Offset())), Offset(), (lineNumber, columnNumber))
      ensures r.Ok? ==>
        old(Offset()) < |input|
        && var ref := ReferenceAt(input, old(Offset()));
        var names := entities.entityNameBuf[..entities.entityEnd];
        resolvedEntityRefCharBuf == ResolveReference(ref, names, entities.entityReplacementBuf[..entities.entityEnd])
        && text == (if tokenize then ResolveReference(ref, names, entities.entityReplacement[..entities.entityEnd]) else old(text))
        && Anchors() == (old(Anchors().0), old(Offset()), Offset() - 1)
    {
      ghost var i := Offset();
      var len := ParseCharOrPredefinedEntityRef();
      if len.Err? {
        r := Err(len.error);
      } else {
        assert ReferenceScan(input, i) == Accept(Offset());
        EntityRefAccepted(i, old(text));
        r := Ok(());
      }
    }

    /**
     * `parseEntityRef` once `parseCharOrPredefinedEntityRef` has accepted
     * the reference from `i` up to `pos`: the table resolves what the
     * predefined entities and character references did not.
     */
    method EntityRefAccepted(ghost i: nat, ghost text0: Option<Str>)
      requires Valid() && entities.Valid()
      requires i < |input| && ReferenceScan(input, i) == Accept(Offset())
      requires Anchors().0 <= Anchors().1 == i && Anchors().2 == Offset()
      requires resolvedEntityRefCharBuf == ReferenceChars(ReferenceAt(input, i))
      requires text == if tokenize && resolvedEntityRefCharBuf.Some? then resolvedEntityRefCharBuf else text0
      modifies this`posEnd, this`resolvedEntityRefCharBuf, this`text
      ensures Valid() && Anchors() == (old(Anchors().0), i, Offset() - 1)
      ensures var ref := ReferenceAt(input, i);
        var names := entities.entityNameBuf[..entities.entityEnd];
        resolvedEntityRefCharBuf == ResolveReference(ref, names, entities.entityReplacementBuf[..entities.entityEnd])
        && text == if tokenize then ResolveReference(ref, names, entities.entityReplacement[..entities.entityEnd]) else text0
    {
      ghost var ref := ReferenceAt(input, i);
      if ReferenceChars(ref).None? {
        ReferenceAcceptedName(input, i, Offset());
      }
      EntityRefResolution(i, ref, text0);
    }

    // -------------------------------------------------------------------
    // Setup: reset, the entity template, features, properties and input

    /** The template's own invariant, which the parser relies on when it adopts the template's table. */
    ghost predicate TemplateValid()
      reads if replacementMapTemplate == null then {} else
        {replacementMapTemplate, replacementMapTemplate.entityName, replacementMapTemplate.entityNameBuf,
         replacementMapTemplate.entityReplacement, replacementMapTemplate.entityReplacementBuf,
         replacementMapTemplate.entityNameHash}
    {
      replacementMapTemplate != null ==>
        replacementMapTemplate.Valid() && replacementMapTemplate.entityEnd == replacementMapTemplate.entityName.Length
    }

    /** The position, event, scanner-flag and XML-declaration fields as `reset()` leaves them: nothing seen yet. */
    ghost predicate ScannerAtStart()
      reads this`location, this`lineNumber, this`columnNumber, this`eventType, this`seenRoot, this`emptyElementTag,
        this`usePC, this`seenStartTag, this`seenEndTag, this`pastEndTag, this`seenAmpersand, this`seenMarkup,
        this`seenDocdecl, this`xmlDeclVersion, this`xmlDeclStandalone, this`xmlDeclContent
    {
      location.None? && lineNumber == 1 && columnNumber == 1 && eventType == START_DOCUMENT
      && xmlDeclVersion.None? && xmlDeclStandalone.None? && xmlDeclContent.None?
      && !(seenRoot || emptyElementTag || usePC || seenStartTag || seenEndTag || pastEndTag || seenAmpersand
           || seenMarkup || seenDocdecl)
    }

    /** The position and event part of `reset()`. */
    method ResetPosition()
      modifies this`location, this`lineNumber, this`columnNumber, this`eventType
      ensures (location, lineNumber, columnNumber, eventType) == (None, 1, 1, START_DOCUMENT)
    {
      location := None;
      lineNumber, columnNumber := 1, 1;
      eventType := START_DOCUMENT;
    }

    /** The scanner-flag part of `reset()`. */
    method ResetFlags()
      modifies this`seenRoot, this`emptyElementTag, this`usePC, this`seenStartTag, this`seenEndTag, this`pastEndTag,
        this`seenAmpersand, this`seenMarkup, this`seenDocdecl
      ensures !(seenRoot || emptyElementTag || usePC || seenStartTag || seenEndTag || pastEndTag || seenAmpersand
                || seenMarkup || seenDocdecl)
    {
      seenRoot, emptyElementTag, usePC := false, false, false;
      seenStartTag, seenEndTag, pastEndTag, seenAmpersand, seenMarkup, seenDocdecl := false, false, false, false, false, false;
    }

    /** The position, event, scanner-flag and XML-declaration part of `reset()`. */
    method ResetScanner()
      modifies this`location, this`lineNumber, this`columnNumber, this`eventType, this`seenRoot, this`emptyElementTag,
        this`usePC, this`seenStartTag, this`seenEndTag, this`pastEndTag, this`seenAmpersand, this`seenMarkup,
        this`seenDocdecl, this`xmlDeclVersion, this`xmlDeclStandalone, this`xmlDeclContent
      ensures ScannerAtStart()
    {
      ResetPosition();
      ResetFlags();
      xmlDeclVersion, xmlDeclStandalone, xmlDeclContent := None, None, None;
    }

    /** The table part of `reset()`: no open element, attribute or namespace declaration, and the template's entities. */
    method ResetTables()
      requires TablesValid() && TemplateValid()
      modifies elements, attributes, namespaces, entities
      ensures TablesValid()
      ensures elements.depth == 0 && attributes.attributeCount == 0 && namespaces.namespaceEnd == 0
      ensures replacementMapTemplate == null ==> entities.entityEnd == 0
      ensures replacementMapTemplate != null ==>
        var t := replacementMapTemplate;
        entities.entityEnd == t.entityEnd && entities.entityName == t.entityName[..]
        && entities.entityReplacement == t.entityReplacement[..]
    {
      elements.depth := 0;
      attributes.attributeCount := 0;
      namespaces.namespaceEnd := 0;
      entities.entityEnd := 0;
      entities.SetupFromTemplate(replacementMapTemplate);
    }

    /** The input part of `reset()`: no reader, no encoding, and nothing read. */
    method ResetInput()
      requires buf != pc && INITIAL_BUF_SIZE <= buf.Length <= INT_MAX && bufSoftLimit == SoftLimit(buf.Length)
      requires pc.Length <= INT_MAX
      modifies this`reader, this`inputBase, this`input, this`inputEncoding, this`preventBufferCompaction,
        this`bufAbsoluteStart, this`bufStart, this`bufEnd, this`posEnd, this`posStart, this`pos, this`pcStart,
        this`pcEnd, this`reachedEnd
      ensures Valid()
      ensures reader == null && inputEncoding.None? && input == [] && !(preventBufferCompaction || reachedEnd)
      ensures (bufAbsoluteStart, bufStart, bufEnd, pos, posStart, posEnd, pcStart, pcEnd) == (0, 0, 0, 0, 0, 0, 0, 0)
    {
      reader, inputEncoding, preventBufferCompaction, reachedEnd := null, None, false, false;
      inputBase, input := 0, [];
      ResetCursors();
    }

    /** The cursor part of `reset()`: every position back to the start of an empty buffer. */
    method ResetCursors()
      requires buf != pc && INITIAL_BUF_SIZE <= buf.Length <= INT_MAX && bufSoftLimit == SoftLimit(buf.Length)
      requires pc.Length <= INT_MAX && reader == null && input == [] && !reachedEnd
      modifies this`bufAbsoluteStart, this`bufStart, this`bufEnd, this`posEnd, this`posStart, this`pos, this`pcStart,
        this`pcEnd
      ensures Valid()
      ensures (bufAbsoluteStart, bufStart, bufEnd, pos, posStart, posEnd, pcStart, pcEnd) == (0, 0, 0, 0, 0, 0, 0, 0)
    {
      bufAbsoluteStart, bufStart, bufEnd, posEnd, posStart, pos, pcStart, pcEnd := 0, 0, 0, 0, 0, 0, 0, 0;
    }

    /** The scanner and input part of `reset()`: nothing seen, nothing read. */
    method ResetScannerAndInput()
      requires buf != pc && INITIAL_BUF_SIZE <= buf.Length <= INT_MAX && bufSoftLimit == SoftLimit(buf.Length)
      requires pc.Length <= INT_MAX
      modifies this`location, this`lineNumber, this`columnNumber, this`eventType, this`seenRoot, this`emptyElementTag,
        this`usePC, this`seenStartTag, this`seenEndTag, this`pastEndTag, this`seenAmpersand, this`seenMarkup,
        this`seenDocdecl, this`xmlDeclVersion, this`xmlDeclStandalone, this`xmlDeclContent
      modifies this`reader, this`inputBase, this`input, this`inputEncoding, this`preventBufferCompaction,
        this`bufAbsoluteStart, this`bufStart, this`bufEnd, this`posEnd, this`posStart, this`pos, this`pcStart,
        this`pcEnd, this`reachedEnd
      ensures Valid() && ScannerAtStart()
      ensures reader == null && inputEncoding.None? && input == [] && !(preventBufferCompaction || reachedEnd)
      ensures (bufAbsoluteStart, bufStart, bufEnd, pos, posStart, posEnd, pcStart, pcEnd) == (0, 0, 0, 0, 0, 0, 0, 0)
    {
      ResetScanner();
      ResetInput();
    }

    /** `reset()`: every parsing field back to its start value, the entity table from the template; the buffers and features are kept. */
    method Reset()
      requires buf != pc && INITIAL_BUF_SIZE <= buf.Length <= INT_MAX && bufSoftLimit == SoftLimit(buf.Length)
      requires pc.Length <= INT_MAX
      requires TablesValid() && TemplateValid()
      modifies this, elements, attributes, namespaces, entities
      ensures Valid() && TablesValid()
      ensures elements.depth == 0 && attributes.attributeCount == 0 && namespaces.namespaceEnd == 0
      ensures ScannerAtStart()
      ensures reader == null && inputEncoding.None? && input == [] && !(preventBufferCompaction || reachedEnd)
      ensures (bufAbsoluteStart, bufStart, bufEnd, pos, posStart, posEnd, pcStart, pcEnd) == (0, 0, 0, 0, 0, 0, 0, 0)
      ensures buf == old(buf) && pc == old(pc)
      ensures processNamespaces == old(processNamespaces) && roundtripSupported == old(roundtripSupported)
      ensures replacementMapTemplate == null ==> entities.entityEnd == 0
      ensures replacementMapTemplate != null ==>
        var t := replacementMapTemplate;
        entities.entityEnd == t.entityEnd && entities.entityName == t.entityName[..]
        && entities.entityReplacement == t.entityReplacement[..]
    {
      ResetTables();
      ResetScannerAndInput();
    }

    /** `setInput(reader)`: a reset parser reading `r` from its current position on. */
    method SetInput(r: CharSource.Reader?)
      requires Valid() && TablesValid() && TemplateValid()
      requires r != null ==> r.Valid()
      modifies this, elements, attributes, namespaces, entities
      ensures Valid() && TablesValid()
      ensures (location, lineNumber, columnNumber, eventType) == (None, 1, 1, START_DOCUMENT)
      ensures (xmlDeclVersion, xmlDeclStandalone, xmlDeclContent) == (None, None, None)
      ensures !(seenRoot || emptyElementTag || usePC || seenStartTag || seenEndTag || pastEndTag || seenAmpersand
                || seenMarkup || seenDocdecl)
      ensures elements.depth == 0 && attributes.attributeCount == 0 && namespaces.namespaceEnd == 0
      ensures reader == r && input == (if r == null then [] else r.data[r.cursor..])
      ensures buf == old(buf) && pc == old(pc)
      ensures processNamespaces == old(processNamespaces) && roundtripSupported == old(roundtripSupported)
      ensures Offset() == 0 && bufStart == 0 && bufEnd == 0 && posStart == 0 && posEnd == 0 && pcEnd == 0
      ensures !reachedEnd && inputEncoding.None?
    {
      Reset();
      AttachReader(r);
    }

    /** The assignment `reader = in` that ends `setInput`: an empty buffer now mirrors `r` from its cursor on. */
    method AttachReader(r: CharSource.Reader?)
      requires Valid() && reader == null && (bufAbsoluteStart, bufEnd) == (0, 0) && !reachedEnd
      requires r != null ==> r.Valid()
      modifies this`reader, this`inputBase, this`input
      ensures Valid() && reader == r && input == (if r == null then [] else r.data[r.cursor..])
    {
      reader := r;
      if r != null {
        inputBase := r.cursor;
        input := r.data[r.cursor..];
      }
    }

    /** `getFeature(name)`: the two switchable features; every other name reads as false. */
    function GetFeature(name: Option<Str>): (r: Result<bool, Failure>)
      reads this`processNamespaces, this`roundtripSupported
      ensures name.None? <==> r == Err(IllegalArgument)
      ensures name == Some(FEATURE_PROCESS_NAMESPACES) ==> r == Ok(processNamespaces)
      ensures name == Some(FEATURE_XML_ROUNDTRIP) ==> r == Ok(roundtripSupported)
      ensures name.Some? && name.value != FEATURE_PROCESS_NAMESPACES && name.value != FEATURE_XML_ROUNDTRIP ==> r == Ok(false)
    {
      if name.None? then Err(IllegalArgument)
      else if name.value == FEATURE_PROCESS_NAMESPACES then Ok(processNamespaces)
      else if name.value == FEATURE_NAMES_INTERNED then Ok(false)
      else if name.value == FEATURE_PROCESS_DOCDECL then Ok(false)
      else if name.value == FEATURE_XML_ROUNDTRIP then Ok(roundtripSupported)
      else Ok(false)
    }

    /**
     * `setFeature(name, state)`: namespace processing may only change before
     * parsing starts; interning and DOCDECL processing may only be switched
     * off; round-trip may be set freely; any other name is unsupported.
     */
    method SetFeature(name: Option<Str>, state: bool) returns (r: Result<(), Failure>)
      modifies this`processNamespaces, this`roundtripSupported
      ensures name.None? ==> r == Err(IllegalArgument)
      ensures name == Some(FEATURE_PROCESS_NAMESPACES) && eventType != START_DOCUMENT ==>
        r == Err(Xml(NamespaceFeatureAfterStart, lineNumber, columnNumber))
      ensures name == Some(FEATURE_NAMES_INTERNED) ==> (r.Ok? <==> !state)
      ensures name == Some(FEATURE_PROCESS_DOCDECL) ==> (r.Ok? <==> !state)
      ensures name == Some(FEATURE_PROCESS_NAMESPACES) && eventType == START_DOCUMENT ==> r.Ok?
      ensures name == Some(FEATURE_XML_ROUNDTRIP) ==> r.Ok?
      ensures name.Some? && !(name.value in {FEATURE_PROCESS_NAMESPACES, FEATURE_NAMES_INTERNED,
                                             FEATURE_PROCESS_DOCDECL, FEATURE_XML_ROUNDTRIP}) ==>
        r == Err(XmlNoPosition(UnsupportedFeature(name.value)))
      ensures r.Ok? ==> GetFeature(name) == Ok(state)
      ensures r.Err? ==> processNamespaces == old(processNamespaces) && roundtripSupported == old(roundtripSupported)
      ensures name != Some(FEATURE_PROCESS_NAMESPACES) ==> processNamespaces == old(processNamespaces)
      ensures name != Some(FEATURE_XML_ROUNDTRIP) ==> roundtripSupported == old(roundtripSupported)
    {
      if name.None? {
        return Err(IllegalArgument);
      }
      var n := name.value;
      if n == FEATURE_PROCESS_NAMESPACES {
        if eventType != START_DOCUMENT {
          return Err(Xml(NamespaceFeatureAfterStart, lineNumber, columnNumber));
        }
        processNamespaces := state;
      } else if n == FEATURE_NAMES_INTERNED {
        if state {
          return Err(XmlNoPosition(InterningNotSupported));
        }
      } else if n == FEATURE_PROCESS_DOCDECL {
        if state {
          return Err(XmlNoPosition(DocdeclProcessingNotSupported));
        }
      } else if n == FEATURE_XML_ROUNDTRIP {
        roundtripSupported := state;
      } else {
        return Err(XmlNoPosition(UnsupportedFeature(n)));
      }
      return Ok(());
    }

    /** The property names `getProperty` knows. */
    static function KnownProperties(): set<Str>
    {
      {PROPERTY_XMLDECL_VERSION, PROPERTY_XMLDECL_STANDALONE, PROPERTY_XMLDECL_CONTENT, PROPERTY_LOCATION}
    }

    /** `getProperty(name)`: the XML declaration's pseudo-attributes and the location; any other name reads as null. */
    function GetProperty(name: Option<Str>): (r: Result<PropertyValue, Failure>)
      reads this`xmlDeclVersion, this`xmlDeclStandalone, this`xmlDeclContent, this`location
      ensures name.None? <==> r == Err(IllegalArgument)
      ensures name == Some(PROPERTY_XMLDECL_VERSION) ==> r == Ok(StringProperty(xmlDeclVersion))
      ensures name == Some(PROPERTY_XMLDECL_STANDALONE) ==> r == Ok(BooleanProperty(xmlDeclStandalone))
      ensures name == Some(PROPERTY_XMLDECL_CONTENT) ==> r == Ok(StringProperty(xmlDeclContent))
      ensures name == Some(PROPERTY_LOCATION) ==> r == Ok(StringProperty(location))
      ensures name.Some? && name.value !in KnownProperties() ==> r == Ok(NullValue)
    {
      assert PROPERTY_XMLDECL_VERSION[|PROPERTIES| + 8] != PROPERTY_XMLDECL_CONTENT[|PROPERTIES| + 8];
      if name.None? then Err(IllegalArgument)
      else if name.value == PROPERTY_XMLDECL_VERSION then Ok(StringProperty(xmlDeclVersion))
      else if name.value == PROPERTY_XMLDECL_STANDALONE then Ok(BooleanProperty(xmlDeclStandalone))
      else if name.value == PROPERTY_XMLDECL_CONTENT then Ok(StringProperty(xmlDeclContent))
      else if name.value == PROPERTY_LOCATION then Ok(StringProperty(location))
      else Ok(NullValue)
    }

    /**
     * `setProperty(name, value)`: only the location can be set, and only to a
     * string or null (`value as String?`); any other name is unsupported.
     */
    method SetProperty(name: Option<Str>, value: PropertyValue) returns (r: Result<(), Failure>)
      modifies this`location
      ensures name == Some(PROPERTY_LOCATION) && !value.BooleanValue? ==> r.Ok? && GetProperty(name) == Ok(value)
      ensures name == Some(PROPERTY_LOCATION) && value.BooleanValue? ==> r == Err(ClassCast)
      ensures name != Some(PROPERTY_LOCATION) ==> r == Err(XmlNoPosition(UnsupportedProperty(name)))
      ensures r.Err? ==> location == old(location)
    {
      if name == Some(PROPERTY_LOCATION) {
        match value
        case NullValue => location := None;
        case StringValue(s) => location := Some(s);
        case BooleanValue(_) => return Err(ClassCast);
      } else {
        return Err(XmlNoPosition(UnsupportedProperty(name)));
      }
      return Ok(());
    }

    // -------------------------------------------------------------------
    // Namespace accessors

    /** `getNamespaceCount(elements.depth)`: the number of declarations in scope at an element elements.depth. */
    function GetNamespaceCount(d: int): (r: Result<int, Failure>)
      requires elements.Valid()
      reads this`processNamespaces, elements
      ensures !processNamespaces || d == 0 ==> r == Ok(0)
      ensures processNamespaces && d != 0 && (d < 0 || d > elements.depth) ==> r == Err(IllegalArgument)
      ensures processNamespaces && 0 < d <= elements.depth ==> d < |elements.elNamespaceCount| && r == Ok(elements.elNamespaceCount[d])
    {
      if !processNamespaces || d == 0 then Ok(0)
      else if d < 0 || d > elements.depth then Err(IllegalArgument)
      else At(elements.elNamespaceCount, d)
    }

    /** `getNamespacePrefix(pos)`: the prefix of declaration `pos`, which must be below `namespaceEnd`. */
    function GetNamespacePrefix(p: int): (r: Result<Option<Str>, Failure>)
      requires namespaces.Valid()
      reads namespaces
      ensures 0 <= p < namespaces.namespaceEnd ==> r == Ok(namespaces.namespacePrefix[p])
      ensures p >= namespaces.namespaceEnd ==> r == Err(XmlNoPosition(NamespacePositionExceeded(p, namespaces.namespaceEnd)))
      ensures p < 0 ==> r.Err? && !r.error.Xml? && !r.error.XmlNoPosition?
    {
      if p < namespaces.namespaceEnd then
        if |namespaces.namespacePrefix| == 0 then Err(NullPointer) else At(namespaces.namespacePrefix, p)
      else Err(XmlNoPosition(NamespacePositionExceeded(p, namespaces.namespaceEnd)))
    }

    /** `getNamespaceUri(pos)`: the URI of declaration `pos`, which must be below `namespaceEnd`. */
    function GetNamespaceUri(p: int): (r: Result<Option<Str>, Failure>)
      requires namespaces.Valid()
      reads namespaces
      ensures 0 <= p < namespaces.namespaceEnd ==> r == Ok(namespaces.namespaceUri[p])
      ensures p >= namespaces.namespaceEnd ==> r == Err(XmlNoPosition(NamespacePositionExceeded(p, namespaces.namespaceEnd)))
      ensures p < 0 ==> r == Err(IndexOutOfBounds(p))
    {
      if p < namespaces.namespaceEnd then At(namespaces.namespaceUri, p)
      else Err(XmlNoPosition(NamespacePositionExceeded(p, namespaces.namespaceEnd)))
    }

    /** `getNamespace(prefix)`: the URI the innermost declaration in scope binds `prefix` to (`None`: the default namespace). */
    method GetNamespace(prefix: Option<Str>) returns (uri: Option<Str>)
      requires namespaces.Valid()
      ensures namespaces.namespaceEnd <= |namespaces.namespaceUri|
      ensures uri == NamespaceOf(namespaces.namespacePrefix[..namespaces.namespaceEnd], namespaces.namespaceUri, prefix)
    {
      ghost var scope := namespaces.namespacePrefix[..namespaces.namespaceEnd];
      var i := namespaces.namespaceEnd - 1;
      while i >= 0
        invariant -1 <= i < namespaces.namespaceEnd
        invariant forall j :: i < j < namespaces.namespaceEnd ==> scope[j] != prefix
      {
        if namespaces.namespacePrefix[i] == prefix {
          assert scope[i] == prefix;
          return namespaces.namespaceUri[i];
        }
        i := i - 1;
      }
      if prefix == Some(Lit("xml")) {
        return Some(XmlChars.XML_URI);
      } else if prefix == Some(Lit("xmlns")) {
        return Some(XmlChars.XMLNS_URI);
      }
      return None;
    }

    // -------------------------------------------------------------------
    // Element nesting

    /** The element nesting the stacks and the two deferral flags describe. */
    function Nest(): Nesting
      reads elements, namespaces, this`pastEndTag, this`emptyElementTag
      requires 0 <= elements.depth < |elements.elNamespaceCount|
    {
      NestingOf(elements, namespaces, pastEndTag, emptyElementTag)
    }

    /** The element and namespace stacks keep their invariants, with consistent prefix hashes, and are nested. */
    ghost predicate NestingValid()
      reads elements, namespaces, this`pastEndTag, this`emptyElementTag
    {
      elements.Valid() && namespaces.Valid() && elements.depth < |elements.elNamespaceCount|
      && namespaces.HashesValid()
      && Nested(Nest())
    }

    /**
     * The start of `nextImpl` (lines 1042-1046): the previous event's text
     * and side buffer are dropped, and the buffer may be compacted up to the
     * end of the previous event.
     */
    method DropEventText()
      requires Valid() && 0 <= posEnd <= pos && -0x8000_0000 <= posStart - posEnd
      modifies this`text, this`pcStart, this`pcEnd, this`usePC, this`bufStart
      ensures Valid() && text.None? && pcStart == 0 && pcEnd == 0 && !usePC && bufStart == posEnd
    {
      text := None;
      pcStart := 0;
      pcEnd := pcStart;
      usePC := false;
      bufStart := posEnd;
    }

    /**
     * The rest of the start of `nextImpl` (lines 1047-1056): an element
     * whose END_TAG was the previous event is popped, its declarations going
     * out of scope, and after `<a/>` the synthetic END_TAG is returned
     * (`endTag`).
     */
    method ResumeNesting() returns (endTag: bool)
      requires NestingValid()
      modifies this`pastEndTag, this`emptyElementTag, this`eventType, elements`depth, namespaces`namespaceEnd
      ensures NestingValid() && (Nest(), endTag) == Resume(old(Nest()))
      ensures eventType == if endTag then END_TAG else old(eventType)
    {
      if pastEndTag {
        pastEndTag := false;
        elements.depth := elements.depth - 1;
        namespaces.namespaceEnd := elements.elNamespaceCount[elements.depth];
        assert elements.elNamespaceCount[..elements.depth + 1] == old(Nest()).counts[..elements.depth + 1];
      }
      if emptyElementTag {
        emptyElementTag := false;
        pastEndTag := true;
        eventType := END_TAG;
        return true;
      }
      return false;
    }

    /**
     * The nesting bookkeeping of `parseStartTag` (lines 1653-1657, 1677-1709,
     * 1750, 1993-2032 and 1813) for a tag with raw name `rawName` declaring
     * `bindings`, given the names and URI read and resolved from the input:
     * afterwards the nesting is `StartElement` of the one before, and a
     * refused declaration is reported as `parseAttribute` reports it.
     */
    method EnterElement(rawName: Str, prefix: Option<Str>, name: Str, uri: Option<Str>, bindings: seq<Binding>, empty: bool)
      returns (r: Result<(), Failure>)
      requires NestingValid() && !pastEndTag && !emptyElementTag
      modifies elements, namespaces, this`emptyElementTag
      ensures r.Ok? <==> WellFormedBindings(bindings)
      ensures r.Err? ==>
        r.error.Xml? && r.error.line == lineNumber
        && (r.error.problem == EmptyNonDefaultNamespace || r.error.problem.DuplicatedNamespace?)
      ensures r.Ok? ==>
        NestingValid() && Nest() == StartElement(old(Nest()), |bindings|, empty)
        && elements.OpenTag() == Ok((rawName, lineNumber))
    {
      emptyElementTag := false;
      var refused := OpenScope(elements, namespaces, rawName, lineNumber, prefix, name, uri, processNamespaces, bindings);
      if refused.Some? {
        return Err(Xml(refused.value, lineNumber, columnNumber));
      }
      emptyElementTag := empty;
      return Ok(());
    }

    /**
     * The uniqueness check at the end of `parseStartTag`: for each attribute
     * `i` from the second on, every earlier attribute `j` is compared by
     * name hash and name, and with namespaces by URI as well; the first
     * clash found is returned (`DuplicatedAttributes` names the pair). URIs
     * are compared by value here; the source compares them by identity.
     */
    method DuplicatedAttribute() returns (r: Option<(nat, nat)>)
      requires attributes.Valid()
      requires NameHashesValid(attributes.attributeName, attributes.attributeNameHash, attributes.attributeCount)
      ensures processNamespaces ==> attributes.attributeCount <= |attributes.attributeUri|
      ensures r == FirstDuplicate(TableKeys(attributes.attributeUri, attributes.attributeName, attributes.attributeCount, processNamespaces))
    {
      r := FindDuplicate(attributes.attributeUri, attributes.attributeName, attributes.attributeNameHash,
        attributes.attributeCount, processNamespaces);
    }

    // -------------------------------------------------------------------
    // Event text accessors

    /** `isWhitespace`: whether the current TEXT or CDSECT content is all white space; IGNORABLE_WHITESPACE always is. */
    method IsWhitespace() returns (r: Result<bool, Failure>)
      ensures (eventType == TEXT || eventType == CDSECT) && usePC ==> r == AllSFrom(pc[..], pcStart, pcEnd)
      ensures (eventType == TEXT || eventType == CDSECT) && !usePC ==> r == AllSFrom(buf[..], posStart, posEnd)
      ensures eventType == IGNORABLE_WHITESPACE ==> r == Ok(true)
      ensures !(eventType == TEXT || eventType == CDSECT || eventType == IGNORABLE_WHITESPACE) ==>
        r == Err(XmlNoPosition(NoContentForWhitespace))
    {
      if eventType == TEXT || eventType == CDSECT {
        if usePC {
          r := ScanS(pc, pcStart, pcEnd);
        } else {
          r := ScanS(buf, posStart, posEnd);
        }
      } else if eventType == IGNORABLE_WHITESPACE {
        r := Ok(true);
      } else {
        r := Err(XmlNoPosition(NoContentForWhitespace));
      }
    }

    /** The text of the current event: the buffer range of tags, or when not collected in `pc`; the `pc` range otherwise. */
    function EventText(): (r: Result<Str, Failure>)
      reads this`usePC, this`eventType, this`buf, this`posStart, this`posEnd, this`pc, this`pcStart, this`pcEnd, buf, pc
      ensures r.Ok? && (!usePC || eventType == START_TAG || eventType == END_TAG) ==>
        0 <= posStart <= posEnd <= buf.Length && r.value == buf[posStart..posEnd]
      ensures r.Ok? && !(!usePC || eventType == START_TAG || eventType == END_TAG) ==>
        0 <= pcStart <= pcEnd <= pc.Length && r.value == pc[pcStart..pcEnd]
      ensures r.Err? ==> r.error.IndexOutOfBounds? || r.error.IllegalArgument?
    {
      if !usePC || eventType == START_TAG || eventType == END_TAG then Substring(buf[..], posStart, Add32(posStart, Sub32(posEnd, posStart)))
      else Substring(pc[..], pcStart, Add32(pcStart, Sub32(pcEnd, pcStart)))
    }

    /** `getText()`: null for the document events, the entity's replacement for ENTITY_REF, else the event text, computed once. */
    method GetText() returns (r: Result<Option<Str>, Failure>)
      modifies this`text
      ensures eventType == START_DOCUMENT || eventType == END_DOCUMENT ==> r == Ok(None)
      ensures eventType == ENTITY_REF ==> r == Ok(text)
      ensures text == old(text) || (old(text).None? && r.Ok? && text == r.value)
      ensures !(eventType == START_DOCUMENT || eventType == END_DOCUMENT || eventType == ENTITY_REF) ==>
        (old(text).Some? ==> r == Ok(old(text)))
        && (old(text).None? ==> match EventText() case Ok(s) => r == Ok(Some(s)) case Err(e) => r == Err(e))
    {
      if eventType == START_DOCUMENT || eventType == END_DOCUMENT {
        return Ok(None);
      } else if eventType == ENTITY_REF {
        return Ok(text);
      }
      if text.None? {
        var s :- EventText();
        text := Some(s);
      }
      return Ok(text);
    }

    /**
     * `getTextCharacters(holder)`: the array holding the event text, with its
     * start and length written into `holder[0]` and `holder[1]`; null and
     * (-1, -1) for the document events.
     */
    method GetTextCharacters(holder: array?<Int32>) returns (r: Result<Option<array<CodeUnit>>, Failure>)
      modifies holder
      ensures holder == null ==> r == Err(IllegalArgument)
      ensures holder != null && holder.Length >= 2 <==> r.Ok?
      ensures r.Ok? && (eventType == START_DOCUMENT || eventType == END_DOCUMENT) ==>
        r.value.None? && holder[0] == -1 && holder[1] == -1
      ensures r.Ok? && eventType == TEXT && usePC ==>
        r.value == Some(pc) && holder[0] == pcStart && holder[1] == Sub32(pcEnd, pcStart)
      ensures r.Ok? && !(eventType == START_DOCUMENT || eventType == END_DOCUMENT || (eventType == TEXT && usePC)) ==>
        r.value == Some(buf) && holder[0] == posStart && holder[1] == Sub32(posEnd, posStart)
      ensures r.Err? && holder != null ==>
        r == Err(IndexOutOfBounds(if eventType == START_DOCUMENT || eventType == END_DOCUMENT then 1 else holder.Length))
      ensures holder != null ==> forall k :: 2 <= k < holder.Length ==> holder[k] == old(holder[k])
    {
      if holder == null {
        return Err(IllegalArgument);
      }
      var start: Int32, len: Int32, result: Option<array<CodeUnit>>;
      if eventType == START_DOCUMENT || eventType == END_DOCUMENT {
        // `holder[1]` is written first, so a short holder fails at index 1.
        if holder.Length < 2 {
          return Err(IndexOutOfBounds(1));
        }
        holder[1] := -1;
        holder[0] := holder[1];
        return Ok(None);
      } else if eventType == TEXT && usePC {
        start, len, result := pcStart, Sub32(pcEnd, pcStart), Some(pc);
      } else {
        start, len, result := posStart, Sub32(posEnd, posStart), Some(buf);
      }
      if holder.Length < 1 {
        return Err(IndexOutOfBounds(0));
      }
      holder[0] := start;
      if holder.Length < 2 {
        return Err(IndexOutOfBounds(1));
      }
      holder[1] := len;
      return Ok(result);
    }

    // -------------------------------------------------------------------
    // Element and attribute accessors

    /** The `namespace` property: the element's URI on a tag event (the empty string without namespace processing), else null. */
    function ElementNamespace(): (r: Result<Option<Str>, Failure>)
      requires elements.Valid()
      reads this`eventType, this`processNamespaces, elements
      ensures !(eventType == START_TAG || eventType == END_TAG) ==> r == Ok(None)
      ensures (eventType == START_TAG || eventType == END_TAG) && !processNamespaces ==> r == Ok(Some(NO_NAMESPACE))
      ensures (eventType == START_TAG || eventType == END_TAG) && processNamespaces && elements.depth < |elements.elUri| ==> r == Ok(elements.elUri[elements.depth])
    {
      if eventType == START_TAG || eventType == END_TAG then
        if processNamespaces then At(elements.elUri, elements.depth) else Ok(Some(NO_NAMESPACE))
      else Ok(None)
    }

    /** The `name` property: the element's local name on a tag event, the entity name on ENTITY_REF (read once from the buffer), else null. */
    method GetName() returns (r: Result<Option<Str>, Failure>)
      requires elements.Valid()
      modifies this`entityRefName
      ensures (eventType == START_TAG || eventType == END_TAG) && elements.depth < |elements.elName| ==> r == Ok(elements.elName[elements.depth])
      ensures (eventType == START_TAG || eventType == END_TAG) && |elements.elName| == 0 ==> r == Err(NullPointer)
      ensures eventType == ENTITY_REF && old(entityRefName).Some? ==> r == Ok(old(entityRefName))
      ensures eventType == ENTITY_REF && old(entityRefName).None? ==>
        match NewString(buf[..], posStart, Sub32(posEnd, posStart))
        case Ok(s) => r == Ok(Some(s)) && entityRefName == Some(s)
        case Err(e) => r == Err(e)
      ensures !(eventType == START_TAG || eventType == END_TAG || eventType == ENTITY_REF) ==> r == Ok(None)
      ensures eventType != ENTITY_REF || old(entityRefName).Some? ==> entityRefName == old(entityRefName)
    {
      if eventType == START_TAG || eventType == END_TAG {
        if |elements.elName| == 0 {
          return Err(NullPointer);
        }
        return At(elements.elName, elements.depth);
      } else if eventType == ENTITY_REF {
        if entityRefName.None? {
          var s :- NewString(buf[..], posStart, Sub32(posEnd, posStart));
          entityRefName := Some(s);
        }
        return Ok(entityRefName);
      }
      return Ok(None);
    }

    /** The `prefix` property: the element's prefix on a tag event, else null. */
    function GetPrefix(): (r: Result<Option<Str>, Failure>)
      reads this`eventType, elements
      ensures (eventType == START_TAG || eventType == END_TAG) && 0 <= elements.depth < |elements.elPrefix| ==> r == Ok(elements.elPrefix[elements.depth])
      ensures !(eventType == START_TAG || eventType == END_TAG) ==> r == Ok(None)
    {
      if eventType == START_TAG || eventType == END_TAG then At(elements.elPrefix, elements.depth) else Ok(None)
    }

    /** The `isEmptyElementTag` property: whether the current start tag was written `<a/>`; an error off START_TAG. */
    function IsEmptyElementTag(): (r: Result<bool, Failure>)
      reads this`eventType, this`emptyElementTag, this`lineNumber, this`columnNumber
      ensures eventType == START_TAG <==> r.Ok?
      ensures r.Ok? ==> r.value == emptyElementTag
      ensures r.Err? ==> r.error == Xml(NotOnStartTagForEmptyCheck, lineNumber, columnNumber)
    {
      EmptyElementTagCheck(eventType, emptyElementTag, lineNumber, columnNumber)
    }

    /** `getAttributeCount()`: the number of attributes of the current start tag, -1 on any other event. */
    function GetAttributeCount(): (n: int)
      requires attributes.Valid()
      reads this`eventType, attributes
      ensures eventType == START_TAG ==> 0 <= n == attributes.attributeCount <= |attributes.attributeName|
      ensures eventType != START_TAG ==> n == -1
    {
      if eventType == START_TAG then attributes.attributeCount else -1
    }

    /** The checks every indexed attribute accessor makes: on a start tag, with `index` among its attributes. */
    function AttributeSlot(index: int): (r: Result<nat, Failure>)
      reads this`eventType, attributes
      ensures r.Ok? <==> eventType == START_TAG && 0 <= index < attributes.attributeCount
      ensures r.Ok? ==> r.value == index
      ensures r.Err? ==> r.error.IndexOutOfBounds?
    {
      if eventType != START_TAG then Err(IndexOutOfBounds(index))
      else if index < 0 || index >= attributes.attributeCount then Err(IndexOutOfBounds(index))
      else Ok(index)
    }

    /** `getAttributeNamespace(index)`: the attribute's URI; the empty string without namespace processing, before the index is checked. */
    function GetAttributeNamespace(index: int): (r: Result<Option<Str>, Failure>)
      requires attributes.Valid()
      reads this`eventType, this`processNamespaces, attributes
      ensures eventType != START_TAG ==> r.Err? && r.error.IndexOutOfBounds?
      ensures eventType == START_TAG && !processNamespaces ==> r == Ok(Some(NO_NAMESPACE))
      ensures eventType == START_TAG && processNamespaces ==>
        (r.Ok? <==> 0 <= index < attributes.attributeCount) && (r.Ok? ==> r.value == attributes.attributeUri[index])
    {
      if eventType != START_TAG then Err(IndexOutOfBounds(index))
      else if !processNamespaces then Ok(Some(NO_NAMESPACE))
      else
        var i :- AttributeSlot(index);
        Ok(attributes.attributeUri[i])
    }

    /** `getAttributeName(index)`: the attribute's local name (its raw name without namespace processing). */
    function GetAttributeName(index: int): (r: Result<Option<Str>, Failure>)
      requires attributes.Valid()
      reads this`eventType, attributes
      ensures r.Ok? <==> eventType == START_TAG && 0 <= index < attributes.attributeCount
      ensures r.Ok? ==> r.value == attributes.attributeName[index]
    {
      var i :- AttributeSlot(index);
      Ok(attributes.attributeName[i])
    }

    /** `getAttributePrefix(index)`: the attribute's prefix; null without namespace processing, before the index is checked. */
    function GetAttributePrefix(index: int): (r: Result<Option<Str>, Failure>)
      requires attributes.Valid()
      reads this`eventType, this`processNamespaces, attributes
      ensures eventType != START_TAG ==> r.Err? && r.error.IndexOutOfBounds?
      ensures eventType == START_TAG && !processNamespaces ==> r == Ok(None)
      ensures eventType == START_TAG && processNamespaces ==>
        (r.Ok? <==> 0 <= index < attributes.attributeCount) && (r.Ok? ==> r.value == attributes.attributePrefix[index])
    {
      if eventType != START_TAG then Err(IndexOutOfBounds(index))
      else if !processNamespaces then Ok(None)
      else
        var i :- AttributeSlot(index);
        Ok(attributes.attributePrefix[i])
    }

    /** `getAttributeType(index)`: every attribute is reported as CDATA. */
    function GetAttributeType(index: int): (r: Result<Str, Failure>)
      reads this`eventType, attributes
      ensures r.Ok? <==> eventType == START_TAG && 0 <= index < attributes.attributeCount
      ensures r.Ok? ==> r.value == Lit("CDATA")
    {
      var _ :- AttributeSlot(index);
      Ok(Lit("CDATA"))
    }

    /** `isAttributeDefault(index)`: no attribute comes from a DTD default. */
    function IsAttributeDefault(index: int): (r: Result<bool, Failure>)
      reads this`eventType, attributes
      ensures r.Ok? <==> eventType == START_TAG && 0 <= index < attributes.attributeCount
      ensures r.Ok? ==> !r.value
    {
      var _ :- AttributeSlot(index);
      Ok(false)
    }

    /** `getAttributeValue(index)`: the attribute's normalised value. */
    function GetAttributeValue(index: int): (r: Result<Option<Str>, Failure>)
      requires attributes.Valid()
      reads this`eventType, attributes
      ensures r.Ok? <==> eventType == START_TAG && 0 <= index < attributes.attributeCount
      ensures r.Ok? ==> r.value == attributes.attributeValue[index]
    {
      var i :- AttributeSlot(index);
      Ok(attributes.attributeValue[i])
    }

    /**
     * `getAttributeValue(namespace, name)`: the value of the first attribute
     * with that name (and, with namespace processing, that URI, a null
     * namespace meaning no namespace); without namespace processing only a
     * null or empty namespace is accepted.
     */
    method GetAttributeValueOf(ns: Option<Str>, name: Option<Str>) returns (r: Result<Option<Str>, Failure>)
      requires attributes.Valid()
      ensures eventType != START_TAG ==> r.Err? && r.error.IndexOutOfBounds?
      ensures eventType == START_TAG && name.None? ==> r == Err(IllegalArgument)
      ensures eventType == START_TAG && name.Some? && !processNamespaces && ns.Some? && ns.value != [] ==> r == Err(IllegalArgument)
      ensures eventType == START_TAG && name.Some? && (processNamespaces || ns.None? || ns.value == []) ==>
        var key := if processNamespaces then Some(ns.GetOr(NO_NAMESPACE)) else None;
        (key.Some? ==> attributes.attributeCount <= |attributes.attributeUri|)
        && r == Ok(match AttributeIndex(attributes.attributeUri, attributes.attributeName, attributes.attributeCount, key, name.value)
                   case Some(i) => attributes.attributeValue[i]
                   case None => None)
    {
      if eventType != START_TAG {
        return Err(IndexOutOfBounds(-1));
      }
      if name.None? {
        return Err(IllegalArgument);
      }
      var key: Option<Str>;
      if processNamespaces {
        key := Some(ns.GetOr(NO_NAMESPACE));
      } else {
        if ns.Some? && ns.value != [] {
          return Err(IllegalArgument);
        }
        key := None;
      }
      var i := 0;
      while i < attributes.attributeCount
        invariant 0 <= i <= attributes.attributeCount
        invariant AttributeIndex(attributes.attributeUri, attributes.attributeName, i, key, name.value).None?
      {
        if (key.None? || key == attributes.attributeUri[i]) && attributes.attributeName[i] == name {
          assert AttributeMatches(attributes.attributeUri, attributes.attributeName, i, key, name.value);
          assert AttributeIndex(attributes.attributeUri, attributes.attributeName, attributes.attributeCount, key, name.value) == Some(i);
          return Ok(attributes.attributeValue[i]);
        }
        i := i + 1;
      }
      return Ok(None);
    }
  }
}
