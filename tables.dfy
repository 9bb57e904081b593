/**
 * The four stacks of `MXParser`: open elements, the attributes of the
 * current start tag, namespace declarations in scope and defined entities.
 * In the source they are fields of the parser itself; here each group of
 * parallel arrays is an object of its own, with the source's field names,
 * so that the parser's scanning methods can state that they leave a whole
 * table alone.
 */
module Tables {
  import opened Kotlin
  import opened Wrappers
  import opened ParserErrors
  import XmlChars
  import EntityReplacement

  // ---------------------------------------------------------------------
  // Stack sizing

  /**
   * A Kotlin array reallocated to `size` slots with its first `keep`
   * elements copied; the other slots hold the element type's default.
   */
  function Resized<T>(s: seq<T>, keep: nat, size: nat, default: T): (r: seq<T>)
    requires keep <= |s| && keep <= size
    ensures |r| == size && r[..keep] == s[..keep]
    ensures forall i :: keep <= i < size ==> r[i] == default
  {
    s[..keep] + seq(size - keep, _ => default)
  }

  /** The element stack size `ensureElementsCapacity` allocates at `depth`: room for at least one more level. */
  function ElementStackSize(depth: int): (n: nat)
    requires depth >= 0
    ensures n > depth + 1
  {
    (if depth >= 7 then 2 * depth else 8) + 2
  }

  /** The size the attribute, namespace and entity stacks grow to when index `size` is needed. */
  function GrownSize(size: int): (n: nat)
    ensures n > size && n >= 8
  {
    if size > 7 then 2 * size else 8
  }

  // ---------------------------------------------------------------------
  // Lookups the accessors perform

  /** The highest index holding `x`, if any. */
  function LastIndexOf<T(==)>(s: seq<T>, x: T): (r: Option<nat>)
    ensures r.Some? ==> r.value < |s| && s[r.value] == x && forall j :: r.value < j < |s| ==> s[j] != x
    ensures r.None? ==> forall j :: 0 <= j < |s| ==> s[j] != x
  {
    if |s| == 0 then None
    else if s[|s| - 1] == x then Some(|s| - 1)
    else LastIndexOf(s[..|s| - 1], x)
  }

  /** The lowest index holding `x`, if any. */
  function IndexOf<T(==)>(s: seq<T>, x: T): (r: Option<nat>)
    ensures r.Some? ==> r.value < |s| && s[r.value] == x && forall j :: 0 <= j < r.value ==> s[j] != x
    ensures r.None? ==> forall j :: 0 <= j < |s| ==> s[j] != x
  {
    if |s| == 0 then None
    else if s[0] == x then Some(0)
    else match IndexOf(s[1..], x)
      case Some(j) => Some(j + 1)
      case None => None
  }

  /**
   * The first repeated key in the order of the double loop `for (i in
   * 1..<n) for (j in 0..<i)`: the smallest `i` whose key occurs before it,
   * with the smallest such `j`; `None` exactly when the keys are distinct.
   */
  function FirstDuplicate<T(==)>(keys: seq<T>): (r: Option<(nat, nat)>)
    ensures r.Some? ==> r.value.0 < r.value.1 < |keys| && keys[r.value.0] == keys[r.value.1]
    ensures r.Some? ==> forall j :: 0 <= j < r.value.0 ==> keys[j] != keys[r.value.1]
    ensures r.None? <==> forall j, i :: 0 <= j < i < |keys| ==> keys[j] != keys[i]
    decreases |keys|
  {
    if |keys| == 0 then None
    else
      var init := keys[..|keys| - 1];
      match FirstDuplicate(init)
      case Some(p) => Some(p)
      case None =>
        match IndexOf(init, keys[|keys| - 1])
        case Some(j) => Some((j, |keys| - 1))
        case None => None
  }

  /**
   * What the uniqueness check of a start tag compares for each of the first
   * `count` attributes: the URI (with namespaces; nothing without) and the name.
   */
  function TableKeys(uris: seq<Option<Str>>, names: seq<Option<Str>>, count: nat, namespaces: bool)
    : (r: seq<(Option<Str>, Option<Str>)>)
    requires count <= |names| && (namespaces ==> count <= |uris|)
    ensures |r| == count
    ensures forall k :: 0 <= k < count ==> r[k] == (if namespaces then uris[k] else None, names[k])
  {
    seq(count, k requires 0 <= k < count => (if namespaces then uris[k] else None, names[k]))
  }

  /** A repetition found among the first `m` keys is the first one of all the keys. */
  lemma {:induction false} FirstDuplicateOfPrefix<T>(keys: seq<T>, m: nat)
    requires m <= |keys| && FirstDuplicate(keys[..m]).Some?
    ensures FirstDuplicate(keys) == FirstDuplicate(keys[..m])
    decreases |keys|
  {
    if m < |keys| {
      var init := keys[..|keys| - 1];
      assert init[..m] == keys[..m];
      FirstDuplicateOfPrefix(init, m);
    } else {
      assert keys[..m] == keys;
    }
  }

  /** Extending a repetition-free prefix by one key: the new key repeats exactly when it occurs earlier. */
  lemma FirstDuplicateStep<T>(keys: seq<T>, i: nat)
    requires i < |keys| && FirstDuplicate(keys[..i]).None?
    ensures FirstDuplicate(keys[..i + 1]) ==
      match IndexOf(keys[..i], keys[i]) case Some(j) => Some((j, i)) case None => None
  {
    assert keys[..i + 1][..i] == keys[..i];
  }

  /**
   * The namespace URI `prefix` stands for, given the declarations in scope
   * (`prefixes[i]` bound to `uris[i]`; `None` is the default namespace):
   * the innermost declaration wins, and `xml` and `xmlns` are bound
   * implicitly (Namespaces in XML 1.0, section 3).
   */
  function NamespaceOf(prefixes: seq<Option<Str>>, uris: seq<Option<Str>>, prefix: Option<Str>): Option<Str>
    requires |prefixes| <= |uris|
  {
    match LastIndexOf(prefixes, prefix)
    case Some(i) => uris[i]
    case None =>
      if prefix == Some(Lit("xml")) then Some(XmlChars.XML_URI)
      else if prefix == Some(Lit("xmlns")) then Some(XmlChars.XMLNS_URI)
      else None
  }

  /** A declaration made after all others decides what its prefix means. */
  lemma {:induction false} NamespaceOfInnermost(prefixes: seq<Option<Str>>, uris: seq<Option<Str>>, p: Option<Str>, u: Option<Str>)
    requires |prefixes| <= |uris|
    ensures NamespaceOf(prefixes + [p], uris[..|prefixes|] + [u], p) == u
  {
    assert (prefixes + [p])[|prefixes|] == p;
  }

  /** `xml` is bound to its fixed URI unless a declaration in scope rebinds it. */
  lemma XmlPrefixImplicit(prefixes: seq<Option<Str>>, uris: seq<Option<Str>>)
    requires |prefixes| <= |uris|
    requires Some(Lit("xml")) !in prefixes
    ensures NamespaceOf(prefixes, uris, Some(Lit("xml"))) == Some(XmlChars.XML_URI)
  {
  }

  /** Attribute `j` has local name `name` and, when `ns` is given, namespace URI `ns`. */
  predicate AttributeMatches(uris: seq<Option<Str>>, names: seq<Option<Str>>, j: nat, ns: Option<Str>, name: Str)
    requires j < |names| && (ns.Some? ==> j < |uris|)
  {
    names[j] == Some(name) && (ns.Some? ==> uris[j] == ns)
  }

  /** The first of the first `count` attributes with local name `name` in namespace `ns` (`None`: raw names only). */
  function AttributeIndex(uris: seq<Option<Str>>, names: seq<Option<Str>>, count: nat, ns: Option<Str>, name: Str): (r: Option<nat>)
    requires count <= |names| && (ns.Some? ==> count <= |uris|)
    ensures r.Some? ==> r.value < count && AttributeMatches(uris, names, r.value, ns, name)
    ensures r.Some? ==> forall j :: 0 <= j < r.value ==> !AttributeMatches(uris, names, j, ns, name)
    ensures r.None? ==> forall j :: 0 <= j < count ==> !AttributeMatches(uris, names, j, ns, name)
    decreases count
  {
    if count == 0 then None
    else
      match AttributeIndex(uris, names, count - 1, ns, name)
      case Some(i) => Some(i)
      case None =>
        if AttributeMatches(uris, names, count - 1, ns, name) then Some(count - 1) else None
  }

  // ---------------------------------------------------------------------
  // Namespace declarations of one start tag

  /** A namespace declaration: its prefix (`None` for the default namespace) and URI. */
  datatype Binding = Binding(prefix: Option<Str>, uri: Str)

  /** `prefix` is declared by one of `bindings`. */
  predicate Declares(bindings: seq<Binding>, prefix: Option<Str>)
  {
    exists b :: b in bindings && b.prefix == prefix
  }

  /**
   * Namespaces in XML 1.0, section 3 and its constraints: no prefix, and
   * not the default namespace either, is declared twice in one tag, and a
   * prefix is never declared to be the empty URI.
   */
  predicate WellFormedBindings(bindings: seq<Binding>)
  {
    (forall j, i :: 0 <= j < i < |bindings| ==> bindings[j].prefix != bindings[i].prefix)
    && (forall k :: 0 <= k < |bindings| && bindings[k].prefix.Some? ==> |bindings[k].uri| > 0)
  }

  /** The prefixes the declarations push onto the namespace stack, in order. */
  function BindingPrefixes(bindings: seq<Binding>): (r: seq<Option<Str>>)
  {
    seq(|bindings|, k requires 0 <= k < |bindings| => bindings[k].prefix)
  }

  /** The URIs the declarations push onto the namespace stack, in order. */
  function BindingUris(bindings: seq<Binding>): (r: seq<Option<Str>>)
  {
    seq(|bindings|, k requires 0 <= k < |bindings| => Some(bindings[k].uri))
  }

  /**
   * Declarations are checked one at a time: the first `k + 1` are
   * well-formed exactly when the first `k` are and the next one declares a
   * new prefix, and a non-empty URI if it is a prefix.
   */
  lemma BindingsExtend(bindings: seq<Binding>, k: nat)
    requires k < |bindings| && WellFormedBindings(bindings[..k])
    ensures BindingPrefixes(bindings[..k + 1]) == BindingPrefixes(bindings[..k]) + [bindings[k].prefix]
    ensures BindingUris(bindings[..k + 1]) == BindingUris(bindings[..k]) + [Some(bindings[k].uri)]
    ensures WellFormedBindings(bindings[..k + 1]) <==>
      (bindings[k].prefix.Some? ==> |bindings[k].uri| > 0) && bindings[k].prefix !in BindingPrefixes(bindings[..k])
    ensures WellFormedBindings(bindings) ==> WellFormedBindings(bindings[..k + 1])
  {
    var b := bindings[..k + 1];
    var a := bindings[..k];
    if bindings[k].prefix in BindingPrefixes(a) {
      var j :| 0 <= j < k && BindingPrefixes(a)[j] == bindings[k].prefix;
      assert b[j].prefix == b[k].prefix;
    } else if bindings[k].prefix.Some? ==> |bindings[k].uri| > 0 {
      forall j, i | 0 <= j < i < k + 1
        ensures b[j].prefix != b[i].prefix
      {
        assert b[j] == a[j] && BindingPrefixes(a)[j] == a[j].prefix;
        if i < k {
          assert b[i] == a[i];
        }
      }
      forall i | 0 <= i < k + 1 && b[i].prefix.Some?
        ensures |b[i].uri| > 0
      {
        if i < k {
          assert b[i] == a[i];
        }
      }
    }
  }

  /** The hash `parseAttribute` stores for a declared prefix: its `hashCode()`, and -1 for the default namespace. */
  function PrefixHash(prefix: Option<Str>): Int32
  {
    if prefix.Some? then StringHash(prefix.value) else -1
  }

  // ---------------------------------------------------------------------
  // Element nesting

  /**
   * The nesting bookkeeping of `nextImpl`, `parseStartTag` and
   * `parseEndTag`: `counts[d]` is `elNamespaceCount[d]` for every depth `d`
   * up to the current one (`depth == |counts| - 1`), `namespaceEnd` the
   * number of declarations in scope, and the two flags that leave work to
   * the next call.
   */
  datatype Nesting = Nesting(counts: seq<int>, namespaceEnd: int, pastEndTag: bool, emptyElementTag: bool)
  {
    function Depth(): int
    {
      |counts| - 1
    }
  }

  /**
   * Between two events: no declaration is in scope outside the root
   * element, each level's declarations extend its parent's, the
   * declarations in scope are those of the current level, and a pending pop
   * or synthetic end tag concerns an element (depth above 0).
   */
  predicate Nested(n: Nesting)
  {
    |n.counts| > 0 && n.counts[0] == 0
    && (forall j, i :: 0 <= j < i < |n.counts| ==> n.counts[j] <= n.counts[i])
    && n.namespaceEnd == n.counts[|n.counts| - 1]
    && (n.pastEndTag ==> |n.counts| > 1 && !n.emptyElementTag)
    && (n.emptyElementTag ==> |n.counts| > 1)
  }

  /**
   * The start of `nextImpl`: an element whose END_TAG was the previous event
   * is popped now, and the declarations it made go out of scope; then, after
   * `<a/>`, the synthetic END_TAG is due (the second component).
   */
  function Resume(n: Nesting): (r: (Nesting, bool))
    requires Nested(n)
    ensures Nested(r.0) && (r.1 <==> n.emptyElementTag)
    ensures r.1 ==> r.0.counts == n.counts && r.0.pastEndTag && !r.0.emptyElementTag
    ensures !r.1 ==> !r.0.pastEndTag && !r.0.emptyElementTag
    ensures !r.1 ==> r.0.counts == if n.pastEndTag then n.counts[..|n.counts| - 1] else n.counts
  {
    var m := if n.pastEndTag then Nesting(n.counts[..|n.counts| - 1], n.counts[|n.counts| - 2], false, false) else n;
    if m.emptyElementTag then (m.(emptyElementTag := false, pastEndTag := true), true) else (m, false)
  }

  /** `parseStartTag` of an element declaring `declared` namespaces: one level deeper, recording the new scope. */
  function StartElement(n: Nesting, declared: nat, empty: bool): (r: Nesting)
    requires Nested(n) && !n.pastEndTag && !n.emptyElementTag
    ensures Nested(r) && r.Depth() == n.Depth() + 1 && r.counts[..|n.counts|] == n.counts
    ensures r.namespaceEnd == n.namespaceEnd + declared && r.emptyElementTag == empty && !r.pastEndTag
  {
    Nesting(n.counts + [n.namespaceEnd + declared], n.namespaceEnd + declared, false, empty)
  }

  /** `parseEndTag`: the depth stays until the next call; only the pop is scheduled. */
  function EndElement(n: Nesting): (r: Nesting)
    requires Nested(n) && !n.pastEndTag && !n.emptyElementTag && n.Depth() > 0
    ensures Nested(r) && r.counts == n.counts && r.namespaceEnd == n.namespaceEnd && r.pastEndTag
  {
    n.(pastEndTag := true)
  }

  /**
   * `<a/>` yields START_TAG, then a synthetic END_TAG at the same depth, and
   * the call after that is back where it was before the tag, with the tag's
   * declarations out of scope.
   */
  lemma EmptyElementRoundTrip(n: Nesting, declared: nat)
    requires Nested(n) && !n.pastEndTag && !n.emptyElementTag
    ensures var a := StartElement(n, declared, true);
      Resume(a).1 && Resume(a).0.Depth() == n.Depth() + 1 && Resume(a).0.namespaceEnd == n.namespaceEnd + declared
      && Resume(Resume(a).0) == (n, false)
  {
    var a := StartElement(n, declared, true);
    assert a.counts[..|a.counts| - 1] == n.counts;
  }

  /**
   * Whatever happens inside an element, once it is back at the element's own
   * level its END_TAG and the next call restore the nesting from before its
   * start tag.
   */
  lemma ElementRoundTrip(n: Nesting, declared: nat, inside: Nesting)
    requires Nested(n) && !n.pastEndTag && !n.emptyElementTag
    requires Nested(inside) && inside.counts == StartElement(n, declared, false).counts
    requires !inside.pastEndTag && !inside.emptyElementTag
    ensures Resume(EndElement(inside)) == (n, false)
  {
    assert inside.counts[..|inside.counts| - 1] == n.counts;
  }

  // ---------------------------------------------------------------------
  // The element stack

  /** Per open element: its raw name (characters and length), the line it started on, name, prefix, URI and namespace count. */
  class ElementStack {
    var depth: int
    // an array the source leaves null is an empty sequence
    var elRawName: seq<Option<Str>>
    var elRawNameEnd: seq<int>
    var elRawNameLine: seq<int>
    var elName: seq<Option<Str>>
    var elPrefix: seq<Option<Str>>
    var elUri: seq<Option<Str>>
    var elNamespaceCount: seq<int>

    /** Seven parallel arrays, of one size once the first element was seen; every raw name's end is within it. */
    ghost predicate Sized()
      reads this
    {
      0 <= depth
      && |elRawName| == |elName|
      && (|elName| > 0 ==>
            |elPrefix| == |elName| && |elUri| == |elName| && |elNamespaceCount| == |elName|
            && |elRawNameEnd| == |elName| && |elRawNameLine| == |elName|)
      && (forall i :: 0 <= i < |elRawName| && elRawName[i].Some? ==> 0 <= elRawNameEnd[i] <= |elRawName[i].value|)
    }

    /** Between two events: sized, and every open element has its slot. */
    ghost predicate Valid()
      reads this
    {
      Sized() && (depth > 0 ==> depth < |elName|)
    }

    /** The field initialisers: no element, two null arrays and five of size 8. */
    constructor ()
      ensures Valid() && depth == 0 && elName == [] && elRawName == []
    {
      depth := 0;
      elRawName := [];
      elRawNameEnd := seq(8, _ => 0);
      elRawNameLine := seq(8, _ => 0);
      elName := [];
      elPrefix := seq(8, _ => None);
      elUri := seq(8, _ => None);
      elNamespaceCount := seq(8, _ => 0);
    }

    /**
     * The raw name and start line of the innermost open element, as
     * `parseEndTag` looks them up: `elRawName!![depth]`, whose entry must not
     * be null either.
     */
    function OpenTag(): (r: Result<(Str, int), Failure>)
      requires Valid()
      reads this
      ensures r.Err? ==> r == Err(NullPointer)
      ensures r.Ok? <==> 0 < |elRawName| && elRawName[depth].Some?
      ensures r.Ok? ==> r.value == (elRawName[depth].value[..elRawNameEnd[depth]], elRawNameLine[depth])
    {
      if |elRawName| == 0 || elRawName[depth].None? then Err(NullPointer)
      else Ok((elRawName[depth].value[..elRawNameEnd[depth]], elRawNameLine[depth]))
    }

    /**
     * `ensureElementsCapacity`, which `parseStartTag` calls right after
     * incrementing `depth`: afterwards there is a slot past `depth + 1`, the
     * old entries are kept, and a first allocation starts the namespace
     * counts at 0.
     */
    method EnsureElementsCapacity()
      requires Sized()
      modifies this
      ensures Valid() && depth == old(depth) && depth + 1 < |elName|
      ensures old(depth + 1 < |elName|) ==>
        elName == old(elName) && elPrefix == old(elPrefix) && elUri == old(elUri)
        && elNamespaceCount == old(elNamespaceCount) && elRawNameEnd == old(elRawNameEnd)
        && elRawNameLine == old(elRawNameLine) && elRawName == old(elRawName)
      ensures old(depth + 1 >= |elName|) ==>
        var k := old(|elName|);
        |elName| == ElementStackSize(depth)
        && elName[..k] == old(elName[..k]) && elPrefix[..k] == old(elPrefix[..k]) && elUri[..k] == old(elUri[..k])
        && elNamespaceCount[..k] == old(elNamespaceCount[..k]) && elRawNameEnd[..k] == old(elRawNameEnd[..k])
        && elRawNameLine[..k] == old(elRawNameLine[..k]) && elRawName[..k] == old(elRawName[..k])
        && (k == 0 ==> elNamespaceCount[0] == 0)
    {
      var size := |elName|;
      if depth + 1 >= size {
        var newSize := ElementStackSize(depth);
        elName := Resized(elName, size, newSize, None);
        elPrefix := Resized(elPrefix, size, newSize, None);
        elUri := Resized(elUri, size, newSize, None);
        // the source copies the three Int arrays between boxed temporaries (lines 127, 137, 143); the intended copies are modelled
        elNamespaceCount := Resized(elNamespaceCount, size, newSize, 0);
        elRawNameEnd := Resized(elRawNameEnd, size, newSize, 0);
        elRawNameLine := Resized(elRawNameLine, size, newSize, 0);
        elRawName := Resized(elRawName, size, newSize, None);
        forall i | 0 <= i < |elRawName| && elRawName[i].Some?
          ensures 0 <= elRawNameEnd[i] <= |elRawName[i].value|
        {
          assert i < size && elRawName[i] == elRawName[..size][i];
          assert elRawNameEnd[i] == elRawNameEnd[..size][i];
        }
      }
    }

    /**
     * The start of `parseStartTag`: one level deeper, with room for it; the
     * namespace counts of the enclosing levels are kept (and start at 0 when
     * the stack is first allocated).
     */
    method Deepen()
      requires Valid()
      modifies this
      ensures Valid() && depth == old(depth) + 1 && depth < |elNamespaceCount|
      ensures old(|elName|) > 0 ==> elNamespaceCount[..depth] == old(elNamespaceCount[..depth + 1])
      ensures old(|elName|) == 0 ==> elNamespaceCount[..depth] == [0]
    {
      ghost var counts := elNamespaceCount;
      ghost var k := |elName|;
      depth := depth + 1;
      EnsureElementsCapacity();
      if k > 0 && depth + 1 >= k {
        assert depth <= k;
        assert elNamespaceCount[..depth] == elNamespaceCount[..k][..depth];
        assert counts[..depth] == counts[..k][..depth];
      }
    }

    /**
     * `parseStartTag` records the new element at `depth`: its raw name (in a
     * character buffer at least as long, reused when it is long enough), the
     * line it starts on, its name and, with namespaces, its prefix and URI.
     */
    method RecordElement(rawName: Str, line: int, prefix: Option<Str>, name: Str, uri: Option<Str>, namespaces: bool)
      requires Valid() && 0 < depth
      modifies this
      ensures Valid() && depth == old(depth)
      ensures OpenTag() == Ok((rawName, line))
      ensures elName == old(elName)[depth := Some(name)]
      ensures elPrefix == if namespaces then old(elPrefix)[depth := prefix] else old(elPrefix)
      ensures elUri == if namespaces then old(elUri)[depth := uri] else old(elUri)
      ensures elNamespaceCount == old(elNamespaceCount)
      ensures elRawNameEnd == old(elRawNameEnd)[depth := |rawName|]
      ensures elRawNameLine == old(elRawNameLine)[depth := line]
      ensures |elRawName| == old(|elRawName|)
      ensures forall d :: 0 <= d < |elRawName| && d != depth ==> elRawName[d] == old(elRawName[d])
    {
      var len := |rawName|;
      var slot := elRawName[depth];
      var chars := if slot.None? || |slot.value| < len then seq(2 * len, _ => 0) else slot.value;
      // the source copies into a boxed temporary (line 1686); the intended copy is modelled
      elRawName := elRawName[depth := Some(rawName + chars[len..])];
      elRawNameEnd := elRawNameEnd[depth := len];
      elRawNameLine := elRawNameLine[depth := line];
      elName := elName[depth := Some(name)];
      if namespaces {
        elPrefix := elPrefix[depth := prefix];
        elUri := elUri[depth := uri];
      }
      assert (rawName + chars[len..])[..len] == rawName;
    }

    /** The end of `parseStartTag` (line 1813): the new level's count of declarations in scope. */
    method RecordNamespaceCount(count: int)
      requires Valid() && depth < |elNamespaceCount|
      modifies this`elNamespaceCount
      ensures Valid() && OpenTag() == old(OpenTag()) && |elNamespaceCount| == old(|elNamespaceCount|)
      ensures elNamespaceCount[..depth + 1] == old(elNamespaceCount[..depth]) + [count]
    {
      elNamespaceCount := elNamespaceCount[depth := count];
      assert elNamespaceCount[..depth + 1] == old(elNamespaceCount[..depth]) + [count];
    }
  }

  // ---------------------------------------------------------------------
  // The attributes of the current start tag

  /** Per attribute: name, name hash, prefix, URI and value; the first `attributeCount` are in use. */
  class AttributeList {
    var attributeCount: int
    var attributeName: seq<Option<Str>>
    var attributeNameHash: seq<Int32>
    var attributePrefix: seq<Option<Str>>
    var attributeUri: seq<Option<Str>>
    var attributeValue: seq<Option<Str>>

    /** Five parallel arrays of one size once the first attribute was seen. */
    ghost predicate Valid()
      reads this
    {
      0 <= attributeCount <= |attributeName| && |attributeNameHash| == |attributeName|
      && (|attributeName| > 0 ==>
            |attributePrefix| == |attributeName| && |attributeUri| == |attributeName| && |attributeValue| == |attributeName|)
    }

    /** The field initialisers: no attribute, a null name array, an empty hash array and three arrays of size 8. */
    constructor ()
      ensures Valid() && attributeCount == 0 && attributeName == []
    {
      attributeCount := 0;
      attributeName := [];
      attributeNameHash := [];
      attributePrefix := seq(8, _ => None);
      attributeUri := seq(8, _ => None);
      attributeValue := seq(8, _ => None);
    }

    /** `ensureAttributesCapacity(size)`: afterwards index `size` exists, and the old entries are kept. */
    method EnsureAttributesCapacity(size: int)
      requires Valid()
      modifies this
      ensures Valid() && attributeCount == old(attributeCount)
      ensures size >= 0 ==> size < |attributeName|
      ensures old(size < |attributeName|) ==>
        attributeName == old(attributeName) && attributePrefix == old(attributePrefix) && attributeUri == old(attributeUri)
        && attributeValue == old(attributeValue) && attributeNameHash == old(attributeNameHash)
      ensures old(size >= |attributeName|) ==>
        var k := old(|attributeName|);
        |attributeName| == GrownSize(size)
        && attributeName[..k] == old(attributeName[..k]) && attributePrefix[..k] == old(attributePrefix[..k])
        && attributeUri[..k] == old(attributeUri[..k]) && attributeValue[..k] == old(attributeValue[..k])
        && attributeNameHash[..k] == old(attributeNameHash[..k])
    {
      var attrPosSize := |attributeName|;
      if size >= attrPosSize {
        var newSize := GrownSize(size);
        attributeName := Resized(attributeName, attrPosSize, newSize, None);
        attributePrefix := Resized(attributePrefix, attrPosSize, newSize, None);
        attributeUri := Resized(attributeUri, attrPosSize, newSize, None);
        attributeValue := Resized(attributeValue, attrPosSize, newSize, None);
        // the source copies the hashes between boxed temporaries (line 215); the intended copy is modelled
        attributeNameHash := Resized(attributeNameHash, attrPosSize, newSize, 0);
      }
    }
  }

  // ---------------------------------------------------------------------
  // The namespace declarations in scope

  /** Per declaration: prefix (`None` for the default namespace), prefix hash and URI; the first `namespaceEnd` are in scope. */
  class NamespaceStack {
    var namespaceEnd: int
    var namespacePrefix: seq<Option<Str>>
    var namespacePrefixHash: seq<Int32>
    var namespaceUri: seq<Option<Str>>

    /** Three parallel arrays of one size once the first declaration was seen. */
    ghost predicate Valid()
      reads this
    {
      0 <= namespaceEnd <= |namespacePrefix|
      && (|namespacePrefix| > 0 ==> |namespaceUri| == |namespacePrefix| && |namespacePrefixHash| == |namespacePrefix|)
    }

    /** The field initialisers: no declaration, a null prefix array, an empty hash array and a URI array of size 8. */
    constructor ()
      ensures Valid() && namespaceEnd == 0 && namespacePrefix == []
    {
      namespaceEnd := 0;
      namespacePrefix := [];
      namespacePrefixHash := [];
      namespaceUri := seq(8, _ => None);
    }

    /** `ensureNamespacesCapacity(size)`: afterwards index `size` exists, and the declarations in scope are kept. */
    method EnsureNamespacesCapacity(size: int)
      requires Valid()
      modifies this
      ensures Valid() && namespaceEnd == old(namespaceEnd)
      ensures size >= 0 ==> size < |namespacePrefix|
      ensures old(size < |namespacePrefix|) ==>
        namespacePrefix == old(namespacePrefix) && namespaceUri == old(namespaceUri)
        && namespacePrefixHash == old(namespacePrefixHash)
      ensures old(size >= |namespacePrefix|) ==> |namespacePrefix| == GrownSize(size)
      ensures namespacePrefix[..namespaceEnd] == old(namespacePrefix[..namespaceEnd])
      ensures namespaceEnd <= |namespaceUri| && namespaceUri[..namespaceEnd] == old(namespaceUri[..namespaceEnd])
      ensures namespacePrefixHash[..namespaceEnd] == old(namespacePrefixHash[..namespaceEnd])
    {
      var namespaceSize := |namespacePrefix|;
      if size >= namespaceSize {
        var newSize := GrownSize(size);
        namespacePrefix := Resized(namespacePrefix, namespaceEnd, newSize, None);
        namespaceUri := Resized(namespaceUri, namespaceEnd, newSize, None);
        // the source copies the hashes between boxed temporaries (line 252); the intended copy is modelled
        namespacePrefixHash := Resized(namespacePrefixHash, namespaceEnd, newSize, 0);
      }
    }

    /** The three writes of `parseAttribute` into slot `namespaceEnd`, before the duplicate search. */
    method WriteDeclaration(prefix: Option<Str>, hash: Int32, uri: Option<Str>)
      requires Valid() && namespaceEnd < |namespacePrefix|
      modifies this`namespacePrefix, this`namespacePrefixHash, this`namespaceUri
      ensures Valid() && namespaceEnd < |namespacePrefix|
      ensures namespacePrefix == old(namespacePrefix)[namespaceEnd := prefix]
      ensures namespacePrefixHash == old(namespacePrefixHash)[namespaceEnd := hash]
      ensures namespaceUri == old(namespaceUri)[namespaceEnd := uri]
    {
      namespacePrefix := namespacePrefix[namespaceEnd := prefix];
      namespacePrefixHash := namespacePrefixHash[namespaceEnd := hash];
      namespaceUri := namespaceUri[namespaceEnd := uri];
    }

    /** Every declaration in scope carries the hash of its prefix. */
    ghost predicate HashesValid()
      reads this
    {
      namespaceEnd <= |namespacePrefix| && namespaceEnd <= |namespacePrefixHash|
      && forall k :: 0 <= k < namespaceEnd ==> namespacePrefixHash[k] == PrefixHash(namespacePrefix[k])
    }

    /**
     * The duplicate search of `parseAttribute`, from the newest declaration
     * down to `start`: the default namespace matches by identity with null, a
     * named prefix by hash first and then by content. Since the hashes are
     * those of the prefixes, it finds exactly the declarations of `prefix`.
     */
    method PrefixDeclaredSince(start: int, prefix: Option<Str>) returns (found: bool)
      requires HashesValid() && 0 <= start <= namespaceEnd
      ensures found <==> prefix in namespacePrefix[start..namespaceEnd]
    {
      var prefixHash := PrefixHash(prefix);
      var i := namespaceEnd - 1;
      while i >= start
        invariant start - 1 <= i < namespaceEnd
        invariant forall k :: i < k < namespaceEnd ==> namespacePrefix[k] != prefix
      {
        var p := namespacePrefix[i];
        if (prefix.None? && p.None?) || (prefix.Some? && namespacePrefixHash[i] == prefixHash && prefix == p) {
          assert namespacePrefix[start..namespaceEnd][i - start] == prefix;
          return true;
        }
        i := i - 1;
      }
      assert forall k :: 0 <= k < namespaceEnd - start ==> namespacePrefix[start..namespaceEnd][k] != prefix;
      return false;
    }

    /**
     * One `xmlns` or `xmlns:p` attribute in `parseAttribute`: a prefixed
     * declaration of the empty URI is refused, and so is a prefix the
     * current element (whose declarations start at `start`) already
     * declared; otherwise the declaration is pushed.
     */
    method Declare(b: Binding, start: int) returns (refused: Option<Problem>)
      requires Valid() && HashesValid() && 0 <= start <= namespaceEnd
      modifies this
      ensures Valid() && HashesValid() && namespaceEnd <= |namespaceUri|
      ensures refused.None? <==> (b.prefix.Some? ==> |b.uri| > 0) && b.prefix !in old(namespacePrefix[start..namespaceEnd])
      ensures refused.Some? ==>
        refused.value == (if b.prefix.Some? && |b.uri| == 0 then EmptyNonDefaultNamespace else DuplicatedNamespace(b.prefix))
        && namespaceEnd == old(namespaceEnd)
        && namespacePrefix[..namespaceEnd] == old(namespacePrefix[..namespaceEnd])
        && namespaceUri[..namespaceEnd] == old(namespaceUri[..namespaceEnd])
      ensures refused.None? ==>
        namespaceEnd == old(namespaceEnd) + 1
        && namespacePrefix[..namespaceEnd] == old(namespacePrefix[..namespaceEnd]) + [b.prefix]
        && namespaceUri[..namespaceEnd] == old(namespaceUri[..namespaceEnd]) + [Some(b.uri)]
    {
      var end := namespaceEnd;
      EnsureNamespacesCapacity(end);
      if b.prefix.Some? && |b.uri| == 0 {
        return Some(EmptyNonDefaultNamespace);
      }
      WriteDeclaration(b.prefix, PrefixHash(b.prefix), Some(b.uri));
      var found := PrefixDeclaredSince(start, b.prefix);
      if found {
        return Some(DuplicatedNamespace(b.prefix));
      }
      namespaceEnd := end + 1;
      return None;
    }

    /**
     * The declarations of one start tag, in order: all are pushed exactly
     * when they are well formed, and the first one that is not is refused.
     */
    method DeclareAll(bindings: seq<Binding>) returns (refused: Option<Problem>)
      requires Valid() && HashesValid()
      modifies this
      ensures Valid() && HashesValid()
      ensures refused.None? <==> WellFormedBindings(bindings)
      ensures refused.Some? ==> refused.value == EmptyNonDefaultNamespace || refused.value.DuplicatedNamespace?
      ensures refused.None? ==>
        namespaceEnd == old(namespaceEnd) + |bindings| <= |namespaceUri|
        && namespacePrefix[..namespaceEnd] == old(namespacePrefix[..namespaceEnd]) + BindingPrefixes(bindings)
        && namespaceUri[..namespaceEnd] == old(namespaceUri[..namespaceEnd]) + BindingUris(bindings)
    {
      var start := namespaceEnd;
      ghost var prefixes0 := namespacePrefix[..start];
      ghost var uris0 := namespaceUri[..start];
      EnsureNamespacesCapacity(start);
      var k := 0;
      while k < |bindings|
        invariant 0 <= k <= |bindings| && WellFormedBindings(bindings[..k])
        invariant Valid() && HashesValid() && namespaceEnd == start + k <= |namespaceUri|
        invariant namespacePrefix[..namespaceEnd] == prefixes0 + BindingPrefixes(bindings[..k])
        invariant namespaceUri[..namespaceEnd] == uris0 + BindingUris(bindings[..k])
      {
        refused := DeclareNext(bindings, k, start, prefixes0, uris0);
        if refused.Some? {
          return;
        }
        k := k + 1;
      }
      assert bindings[..k] == bindings;
      refused := None;
    }

    /** One step of `DeclareAll`: the `k`-th declaration, after the first `k` were pushed. */
    method DeclareNext(bindings: seq<Binding>, k: nat, start: int, ghost prefixes0: seq<Option<Str>>, ghost uris0: seq<Option<Str>>)
      returns (refused: Option<Problem>)
      requires k < |bindings| && WellFormedBindings(bindings[..k]) && 0 <= start
      requires Valid() && HashesValid() && namespaceEnd == start + k <= |namespaceUri|
      requires namespacePrefix[..namespaceEnd] == prefixes0 + BindingPrefixes(bindings[..k]) && |prefixes0| == start
      requires namespaceUri[..namespaceEnd] == uris0 + BindingUris(bindings[..k]) && |uris0| == start
      modifies this
      ensures Valid() && HashesValid()
      ensures refused.None? <==> WellFormedBindings(bindings[..k + 1])
      ensures refused.Some? ==> !WellFormedBindings(bindings)
      ensures refused.Some? ==> refused.value == EmptyNonDefaultNamespace || refused.value.DuplicatedNamespace?
      ensures refused.None? ==>
        namespaceEnd == start + k + 1 <= |namespaceUri|
        && namespacePrefix[..namespaceEnd] == prefixes0 + BindingPrefixes(bindings[..k + 1])
        && namespaceUri[..namespaceEnd] == uris0 + BindingUris(bindings[..k + 1])
    {
      assert namespacePrefix[start..start + k] == namespacePrefix[..namespaceEnd][start..];
      BindingsExtend(bindings, k);
      ghost var p0 := namespacePrefix[..namespaceEnd];
      ghost var u0 := namespaceUri[..namespaceEnd];
      refused := Declare(bindings[k], start);
      if refused.None? {
        assert namespacePrefix[..start + k + 1] == p0 + [bindings[k].prefix];
        assert namespaceUri[..start + k + 1] == u0 + [Some(bindings[k].uri)];
      }
    }
  }

  // ---------------------------------------------------------------------
  // The entity replacement table

  /**
   * Per entity: name, name characters, replacement text (twice) and name
   * hash; an undefined name slot holds the empty string. The first
   * `entityEnd` slots are defined.
   */
  class EntityTable {
    var entityEnd: int
    var entityName: seq<Option<Str>>
    var entityNameBuf: seq<Str>
    var entityReplacement: seq<Str>
    var entityReplacementBuf: seq<Str>
    var entityNameHash: seq<Int32>

    /** Five parallel arrays; each defined entity has its name's characters and hash. */
    ghost predicate Valid()
      reads this
    {
      var n := |entityReplacementBuf|;
      |entityName| == n && |entityNameBuf| == n && |entityReplacement| == n && |entityNameHash| == n
      && 0 <= entityEnd <= n
      && forall i :: 0 <= i < entityEnd ==>
           entityName[i] == Some(entityNameBuf[i]) && entityNameHash[i] == XmlChars.FastHash(entityNameBuf[i])
    }

    /** The field initialisers: five empty arrays. */
    constructor ()
      ensures Valid() && entityEnd == 0
    {
      entityEnd := 0;
      entityName := [];
      entityNameBuf := [];
      entityReplacement := [];
      entityReplacementBuf := [];
      entityNameHash := [];
    }

    /** `ensureEntityCapacity`: afterwards slot `entityEnd` exists, and the defined entities are kept. */
    method EnsureEntityCapacity()
      requires Valid()
      modifies this
      ensures Valid() && entityEnd == old(entityEnd) && entityEnd < |entityReplacementBuf|
      ensures old(entityEnd < |entityReplacementBuf|) ==>
        entityName == old(entityName) && entityNameBuf == old(entityNameBuf) && entityReplacement == old(entityReplacement)
        && entityReplacementBuf == old(entityReplacementBuf) && entityNameHash == old(entityNameHash)
      ensures old(entityEnd >= |entityReplacementBuf|) ==>
        |entityReplacementBuf| == GrownSize(entityEnd) && forall i :: entityEnd <= i < |entityName| ==> entityName[i].None?
      ensures entityName[..entityEnd] == old(entityName[..entityEnd]) && entityNameBuf[..entityEnd] == old(entityNameBuf[..entityEnd])
      ensures entityReplacement[..entityEnd] == old(entityReplacement[..entityEnd])
      ensures entityReplacementBuf[..entityEnd] == old(entityReplacementBuf[..entityEnd])
    {
      var entitySize := |entityReplacementBuf|;
      if entityEnd >= entitySize {
        var newSize := GrownSize(entityEnd);
        entityName := Resized(entityName, entityEnd, newSize, None);
        entityNameBuf := Resized(entityNameBuf, entityEnd, newSize, []);
        entityReplacement := Resized(entityReplacement, entityEnd, newSize, []);
        entityReplacementBuf := Resized(entityReplacementBuf, entityEnd, newSize, []);
        // the source copies the hashes between boxed temporaries (line 299); the intended copy is modelled
        entityNameHash := Resized(entityNameHash, entityEnd, newSize, 0);
        forall i | 0 <= i < entityEnd
          ensures entityName[i] == Some(entityNameBuf[i]) && entityNameHash[i] == XmlChars.FastHash(entityNameBuf[i])
        {
          assert entityName[i] == entityName[..entityEnd][i] && entityNameBuf[i] == entityNameBuf[..entityEnd][i];
          assert entityNameHash[i] == entityNameHash[..entityEnd][i];
        }
      }
    }

    /**
     * The alias loop of `defineEntityReplacementText`. It scans every slot of
     * `entityName`, including any a `reset()` left behind past `entityEnd`.
     */
    method ResolveAlias(replacementText: Str) returns (copy: Str)
      requires Valid()
      ensures copy == EntityReplacement.ResolveIn(entityName, entityReplacement, replacementText)
    {
      copy := replacementText;
      if !(|replacementText| >= 2 && replacementText[0] == '&' as int && replacementText[1] == '#' as int)
        && |replacementText| > 1
      {
        var tmp := replacementText[1..|replacementText| - 1];
        var i := 0;
        while i < |entityName|
          invariant 0 <= i <= |entityName|
          invariant copy == EntityReplacement.ResolveIn(entityName[..i], entityReplacement[..i], replacementText)
        {
          assert entityName[..i + 1][..i] == entityName[..i];
          if entityName[i].Some? && entityName[i].value == tmp {
            copy := entityReplacement[i];
          }
          i := i + 1;
        }
        assert entityName[..i] == entityName && entityReplacement[..i] == entityReplacement;
      }
    }

    /**
     * `defineEntityReplacementText(name, text)`: the next slot of the entity
     * table holds `name`, its hash and `text`, resolved one level when it is
     * an alias `&x;` of a stored name.
     */
    method DefineEntityReplacementText(name: Option<Str>, replacementText: Option<Str>) returns (r: Result<(), Failure>)
      requires Valid()
      modifies this
      ensures name.None? || replacementText.None? ==> r == Err(IllegalArgument) && unchanged(this)
      ensures name.Some? && replacementText.Some? ==> r.Ok?
      ensures Valid()
      ensures r.Ok? ==>
        var e := old(entityEnd);
        var stored := EntityReplacement.ResolveIn(old(entityName), old(entityReplacement), replacementText.value);
        entityEnd == e + 1
        && entityName[..e] == old(entityName[..e]) && entityNameBuf[..e] == old(entityNameBuf[..e])
        && entityReplacement[..e] == old(entityReplacement[..e]) && entityReplacementBuf[..e] == old(entityReplacementBuf[..e])
        && entityName[e] == Some(name.value) && entityNameBuf[e] == name.value
        && entityReplacement[e] == stored && entityReplacementBuf[e] == stored
    {
      if name.None? || replacementText.None? {
        return Err(IllegalArgument);
      }
      var n := name.value;
      var copy := ResolveAlias(replacementText.value);
      EnsureEntityCapacity();
      ghost var e := entityEnd;
      entityName := entityName[entityEnd := Some(n)];
      entityNameBuf := entityNameBuf[entityEnd := n];
      entityReplacement := entityReplacement[entityEnd := copy];
      entityReplacementBuf := entityReplacementBuf[entityEnd := copy];
      entityNameHash := entityNameHash[entityEnd := XmlChars.FastHash(n)];
      entityEnd := entityEnd + 1;
      assert entityName[..e] == old(entityName[..e]);
      return Ok(());
    }

    /**
     * `setupFromTemplate`: the entity table becomes the template's. The source
     * shares the template's arrays; they are exactly full, so the parser's next
     * definition reallocates before it writes and the template is never changed.
     */
    method SetupFromTemplate(t: EntityReplacement.EntityReplacementMap?)
      requires Valid()
      requires t != null ==> t.Valid() && t.entityEnd == t.entityName.Length
      modifies this
      ensures Valid()
      ensures t == null ==> unchanged(this)
      ensures t != null ==>
        entityName == t.entityName[..] && entityNameBuf == t.entityNameBuf[..] && entityReplacement == t.entityReplacement[..]
        && entityReplacementBuf == t.entityReplacementBuf[..] && entityNameHash == t.entityNameHash[..]
        && entityEnd == t.entityEnd
        && forall i :: 0 <= i < entityEnd ==> entityName[i] == Some(t.entries[i].0) && entityReplacement[i] == t.entries[i].1
    {
      if t != null {
        entityName := t.entityName[..];
        entityNameBuf := t.entityNameBuf[..];
        entityReplacement := t.entityReplacement[..];
        entityReplacementBuf := t.entityReplacementBuf[..];
        entityNameHash := t.entityNameHash[..];
        entityEnd := t.entityEnd;
      }
    }
  }

  // ---------------------------------------------------------------------
  // Entering an element

  /** The nesting the element and namespace stacks describe, with the two deferral flags. */
  function NestingOf(el: ElementStack, ns: NamespaceStack, pastEndTag: bool, emptyElementTag: bool): Nesting
    reads el, ns
    requires 0 <= el.depth < |el.elNamespaceCount|
  {
    Nesting(el.elNamespaceCount[..el.depth + 1], ns.namespaceEnd, pastEndTag, emptyElementTag)
  }

  /**
   * The stack bookkeeping of `parseStartTag` for a tag with raw name
   * `rawName` declaring `bindings` (lines 1653, 1677-1709, 1750, 1993-2032
   * and 1813), given the names and URI read and resolved from the input:
   * one level deeper, the element recorded there, its declarations checked
   * and pushed in order, and the new level's count of declarations in scope
   * recorded. The end tag will be matched against `rawName` and `line`.
   */
  method OpenScope(el: ElementStack, ns: NamespaceStack, rawName: Str, line: int, prefix: Option<Str>, name: Str,
                   uri: Option<Str>, namespaces: bool, bindings: seq<Binding>)
    returns (refused: Option<Problem>)
    requires el.Valid() && ns.Valid() && ns.HashesValid() && el.depth < |el.elNamespaceCount|
    requires Nested(NestingOf(el, ns, false, false))
    modifies el, ns
    ensures el.Valid() && ns.Valid() && ns.HashesValid() && el.depth < |el.elNamespaceCount|
    ensures refused.None? <==> WellFormedBindings(bindings)
    ensures refused.Some? ==> refused.value == EmptyNonDefaultNamespace || refused.value.DuplicatedNamespace?
    ensures refused.None? ==>
      NestingOf(el, ns, false, false) == StartElement(old(NestingOf(el, ns, false, false)), |bindings|, false)
      && el.OpenTag() == Ok((rawName, line))
      && ns.namespacePrefix[..ns.namespaceEnd] == old(ns.namespacePrefix[..ns.namespaceEnd]) + BindingPrefixes(bindings)
      && ns.namespaceUri[..ns.namespaceEnd] == old(ns.namespaceUri[..ns.namespaceEnd]) + BindingUris(bindings)
  {
    ghost var before := NestingOf(el, ns, false, false);
    el.Deepen();
    el.RecordElement(rawName, line, prefix, name, uri, namespaces);
    assert el.elNamespaceCount[..el.depth] == before.counts;
    refused := ns.DeclareAll(bindings);
    if refused.Some? {
      return;
    }
    el.RecordNamespaceCount(ns.namespaceEnd);
  }
}
