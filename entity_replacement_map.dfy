/**
 * `EntityReplacementMap`: a table of entity names and replacement texts,
 * built once from (name, replacement) pairs, that a parser can take over as
 * the starting contents of its own entity table.
 */
module EntityReplacement {
  import opened Kotlin
  import opened Wrappers
  import XmlChars

  /** `text` begins with the two characters `&#`. */
  predicate StartsWithCharRef(text: Str)
  {
    |text| >= 2 && text[0] == '&' as int && text[1] == '#' as int
  }

  /**
   * The entity name a replacement text may be an alias of: a text that does
   * not start with `&#` and is longer than one character, with its first and
   * last characters dropped (`&foo;` gives `foo`).
   */
  function AliasName(text: Str): (r: Option<Str>)
    ensures r.Some? <==> !StartsWithCharRef(text) && |text| > 1
    ensures r.Some? ==> text == [text[0]] + r.value + [text[|text| - 1]]
  {
    if !StartsWithCharRef(text) && |text| > 1 then Some(text[1..|text| - 1]) else None
  }

  /** The highest index whose slot holds `name`, or -1. */
  function LastMatch(names: seq<Option<Str>>, name: Str): (r: int)
    ensures -1 <= r < |names|
    ensures r >= 0 ==> names[r] == Some(name)
    ensures forall j :: r < j < |names| ==> names[j] != Some(name)
  {
    if |names| == 0 then -1
    else if names[|names| - 1] == Some(name) then |names| - 1
    else LastMatch(names[..|names| - 1], name)
  }

  /**
   * The one-level alias resolution of `defineEntityReplacementText`: when
   * `text` is an alias of a name stored in `names`, the replacement stored
   * with the last such name; otherwise `text` itself.
   */
  function ResolveIn(names: seq<Option<Str>>, repls: seq<Str>, text: Str): Str
    requires |names| <= |repls|
  {
    match AliasName(text)
    case None => text
    case Some(tmp) =>
      var i := LastMatch(names, tmp);
      if i < 0 then text else repls[i]
  }

  function NamesOf(t: seq<(Str, Str)>): (r: seq<Option<Str>>)
    ensures |r| == |t| && forall i :: 0 <= i < |t| ==> r[i] == Some(t[i].0)
  {
    seq(|t|, i requires 0 <= i < |t| => Some(t[i].0))
  }

  function ReplacementsOf(t: seq<(Str, Str)>): (r: seq<Str>)
    ensures |r| == |t| && forall i :: 0 <= i < |t| ==> r[i] == t[i].1
  {
    seq(|t|, i requires 0 <= i < |t| => t[i].1)
  }

  /** The (name, stored replacement) entries after defining `pairs` one after the other into an empty table. */
  function Table(pairs: seq<(Str, Str)>): seq<(Str, Str)>
  {
    if |pairs| == 0 then []
    else
      var t := Table(pairs[..|pairs| - 1]);
      var (name, text) := pairs[|pairs| - 1];
      t + [(name, ResolveIn(NamesOf(t), ReplacementsOf(t), text))]
  }

  /** Slot i holds pair i's name; only its replacement may have been resolved. */
  lemma {:induction false} TableShape(pairs: seq<(Str, Str)>)
    ensures |Table(pairs)| == |pairs|
    ensures forall i :: 0 <= i < |pairs| ==> Table(pairs)[i].0 == pairs[i].0
  {
    if |pairs| > 0 {
      TableShape(pairs[..|pairs| - 1]);
    }
  }

  /** Defining more entries never changes the earlier ones: resolution only looks back. */
  lemma {:induction false} TablePrefix(pairs: seq<(Str, Str)>, k: nat)
    requires k <= |pairs|
    ensures |Table(pairs)| == |pairs|
    ensures Table(pairs[..k]) == Table(pairs)[..k]
    decreases |pairs|
  {
    TableShape(pairs);
    if k < |pairs| {
      var init := pairs[..|pairs| - 1];
      TablePrefix(init, k);
      assert init[..k] == pairs[..k];
      TableShape(init);
    } else {
      assert pairs[..k] == pairs;
    }
  }

  /** The stored replacement of entry `i`, in terms of the entries before it. */
  lemma TableEntry(pairs: seq<(Str, Str)>, i: nat)
    requires i < |pairs|
    ensures |Table(pairs[..i])| == i && |Table(pairs)| == |pairs|
    ensures Table(pairs)[i] ==
      (pairs[i].0, ResolveIn(NamesOf(Table(pairs[..i])), ReplacementsOf(Table(pairs[..i])), pairs[i].1))
  {
    TablePrefix(pairs, i + 1);
    TableShape(pairs[..i]);
    assert pairs[..i + 1][..i] == pairs[..i];
  }

  /** A replacement that starts with `&#`, or has at most one character, is stored verbatim. */
  lemma NumericReplacementVerbatim(pairs: seq<(Str, Str)>, i: nat)
    requires i < |pairs|
    requires StartsWithCharRef(pairs[i].1) || |pairs[i].1| <= 1
    ensures |Table(pairs)| == |pairs| && Table(pairs)[i].1 == pairs[i].1
  {
    TableEntry(pairs, i);
  }

  /**
   * An alias of an earlier name takes the stored replacement of the last
   * earlier entry with that name; an alias of no earlier name is kept.
   */
  lemma AliasResolution(pairs: seq<(Str, Str)>, i: nat, tmp: Str)
    requires i < |pairs| && AliasName(pairs[i].1) == Some(tmp)
    ensures |Table(pairs)| == |pairs|
    ensures forall j ::
      (0 <= j < i && pairs[j].0 == tmp && (forall k :: j < k < i ==> pairs[k].0 != tmp))
      ==> Table(pairs)[i].1 == Table(pairs)[j].1
    ensures (forall j :: 0 <= j < i ==> pairs[j].0 != tmp) ==> Table(pairs)[i].1 == pairs[i].1
  {
    TableEntry(pairs, i);
    TablePrefix(pairs, i);
    TableShape(pairs);
    var t := Table(pairs[..i]);
    var m := LastMatch(NamesOf(t), tmp);
    forall j | 0 <= j < i && pairs[j].0 == tmp && (forall k :: j < k < i ==> pairs[k].0 != tmp)
      ensures Table(pairs)[i].1 == Table(pairs)[j].1
    {
      assert NamesOf(t)[j] == Some(tmp);
      assert m == j;
    }
    if forall j :: 0 <= j < i ==> pairs[j].0 != tmp {
      assert m < 0;
    }
  }

  /** Resolution is one level deep: an alias of an entity whose own text is a reference copies that reference. */
  lemma AliasOfNumericReference()
    ensures Table([(Lit("fo"), Lit("&#65;")), (Lit("myCustom"), Lit("&fo;"))])
      == [(Lit("fo"), Lit("&#65;")), (Lit("myCustom"), Lit("&#65;"))]
  {
    var pairs: seq<(Str, Str)> := [(Lit("fo"), Lit("&#65;")), (Lit("myCustom"), Lit("&fo;"))];
    assert pairs[..1] == [(Lit("fo"), Lit("&#65;"))];
    assert |pairs[..1][..0]| == 0;
    assert Lit("&fo;")[1..3] == Lit("fo");
  }

  /** A table none of whose replacements is an alias of an earlier name stores every replacement verbatim. */
  lemma NoAliasStoredVerbatim(pairs: seq<(Str, Str)>)
    requires forall i, j :: 0 <= j < i < |pairs| ==> AliasName(pairs[i].1) != Some(pairs[j].0)
    ensures Table(pairs) == pairs
  {
    TableShape(pairs);
    forall i | 0 <= i < |pairs| ensures Table(pairs)[i] == pairs[i] {
      match AliasName(pairs[i].1)
      case None =>
        NumericReplacementVerbatim(pairs, i);
      case Some(tmp) =>
        AliasResolution(pairs, i, tmp);
    }
  }

  /** A replacement that equals a stored name, rather than an alias of it, is not resolved. */
  lemma PlainTextNotResolved()
    ensures Table([(Lit("test"), Lit("value")), (Lit("example"), Lit("sample")), (Lit("sample"), Lit("example"))])
      == [(Lit("test"), Lit("value")), (Lit("example"), Lit("sample")), (Lit("sample"), Lit("example"))]
  {
    var test, value, example, sample := Lit("test"), Lit("value"), Lit("example"), Lit("sample");
    var pairs := [(test, value), (example, sample), (sample, example)];
    forall i, j | 0 <= j < i < 3 ensures AliasName(pairs[i].1) != Some(pairs[j].0) {
      if i == 1 {
        assert test[0] != sample[1];
      } else {
        assert |example| == 7 && |test| == 4 && |pairs[i].1| == 7;
      }
    }
    NoAliasStoredVerbatim(pairs);
  }

  /** Trailing empty slots do not change the last match. */
  lemma {:induction false} LastMatchEmptyTail(names: seq<Option<Str>>, k: nat, name: Str)
    requires k <= |names|
    requires forall j :: k <= j < |names| ==> names[j].None?
    ensures LastMatch(names, name) == LastMatch(names[..k], name)
    decreases |names|
  {
    if k < |names| {
      LastMatchEmptyTail(names[..|names| - 1], k, name);
      assert names[..|names| - 1][..k] == names[..k];
    } else {
      assert names[..k] == names;
    }
  }

  class EntityReplacementMap {
    const entityName: array<Option<Str>>
    /** Each defined name's characters; an undefined slot holds the empty string. */
    const entityNameBuf: array<Str>
    const entityReplacement: array<Str>
    const entityReplacementBuf: array<Str>
    const entityNameHash: array<Int32>
    var entityEnd: int

    /** The entries defined so far, as (name, stored replacement). */
    ghost var entries: seq<(Str, Str)>

    ghost predicate Valid()
      reads this, entityName, entityNameBuf, entityReplacement, entityReplacementBuf, entityNameHash
    {
      var n := entityName.Length;
      entityNameBuf.Length == n && entityReplacement.Length == n
      && entityReplacementBuf.Length == n && entityNameHash.Length == n
      && entityNameBuf != entityReplacement && entityNameBuf != entityReplacementBuf
      && entityReplacement != entityReplacementBuf
      && 0 <= entityEnd <= n && |entries| == entityEnd
      && (forall i :: 0 <= i < entityEnd ==>
            entityName[i] == Some(entries[i].0) && entityNameBuf[i] == entries[i].0
            && entityReplacement[i] == entries[i].1 && entityReplacementBuf[i] == entries[i].1
            && entityNameHash[i] == XmlChars.FastHash(entries[i].0))
      && (forall i :: entityEnd <= i < n ==> entityName[i].None?)
    }

    /** `init`: five arrays of exactly `replacements.size` slots, then every pair defined in order. */
    constructor (replacements: seq<(Str, Str)>)
      ensures Valid()
      ensures fresh(entityName) && fresh(entityNameBuf) && fresh(entityReplacement)
      ensures fresh(entityReplacementBuf) && fresh(entityNameHash)
      ensures entityName.Length == |replacements| && entityNameBuf.Length == |replacements|
      ensures entityReplacement.Length == |replacements| && entityReplacementBuf.Length == |replacements|
      ensures entityNameHash.Length == |replacements|
      ensures entityEnd == |replacements|
      ensures entries == Table(replacements)
      ensures forall i :: 0 <= i < entityEnd ==>
        entityName[i] == Some(replacements[i].0) && entityNameHash[i] == XmlChars.FastHash(replacements[i].0)
    {
      var n := |replacements|;
      entityName := new Option<Str>[n](_ => None);
      entityNameBuf := new Str[n](_ => []);
      entityReplacement := new Str[n](_ => []);
      entityReplacementBuf := new Str[n](_ => []);
      entityNameHash := new Int32[n](_ => 0);
      entityEnd := 0;
      entries := [];
      new;
      var k := 0;
      while k < n
        invariant 0 <= k <= n && entityEnd == k
        invariant Valid()
        invariant entityName.Length == n
        invariant entries == Table(replacements[..k])
        modifies this, entityName, entityNameBuf, entityReplacement, entityReplacementBuf, entityNameHash
      {
        assert replacements[..k + 1][..k] == replacements[..k];
        DefineEntityReplacementText(replacements[k].0, replacements[k].1);
        k := k + 1;
      }
      assert replacements[..n] == replacements;
      TableShape(replacements);
    }

    /** `defineEntityReplacementText`: fills slot `entityEnd` with the name, its resolved replacement and the name's hash. */
    method DefineEntityReplacementText(name: Str, replacementText: Str)
      requires Valid() && entityEnd < entityName.Length
      modifies this, entityName, entityNameBuf, entityReplacement, entityReplacementBuf, entityNameHash
      ensures Valid()
      ensures entityEnd == old(entityEnd) + 1
      ensures entries == old(entries) + [(name, ResolveIn(NamesOf(old(entries)), ReplacementsOf(old(entries)), replacementText))]
    {
      var copy := ResolveReplacement(replacementText);
      entityName[entityEnd] := Some(name);
      entityNameBuf[entityEnd] := name;
      entityReplacement[entityEnd] := copy;
      entityReplacementBuf[entityEnd] := copy;
      entityNameHash[entityEnd] := XmlChars.FastHash(name);
      entries := entries + [(name, copy)];
      entityEnd := entityEnd + 1;
    }

    /** The alias loop of `defineEntityReplacementText`, which scans every slot of `entityName`. */
    method ResolveReplacement(replacementText: Str) returns (copy: Str)
      requires Valid()
      ensures copy == ResolveIn(NamesOf(entries), ReplacementsOf(entries), replacementText)
    {
      copy := replacementText;
      if !(|replacementText| >= 2 && replacementText[0] == '&' as int && replacementText[1] == '#' as int)
        && |replacementText| > 1
      {
        var tmp := replacementText[1..|replacementText| - 1];
        var i := 0;
        while i < entityName.Length
          invariant 0 <= i <= entityName.Length
          invariant copy == ResolveIn(entityName[..i], entityReplacement[..i], replacementText)
        {
          assert entityName[..i + 1][..i] == entityName[..i];
          if entityName[i].Some? && entityName[i].value == tmp {
            copy := entityReplacement[i];
          }
          i := i + 1;
        }
        assert entityName[..i] == entityName[..];
        LastMatchEmptyTail(entityName[..], entityEnd, tmp);
        assert entityName[..][..entityEnd] == NamesOf(entries);
      }
    }
  }
}
