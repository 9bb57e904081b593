/** `arraycopy`, the slice copy behind buffer compaction and growth. */
module Utils {
  import opened Kotlin
  import opened Wrappers

  /** The exceptions `copyInto` throws before it writes anything. */
  datatype CopyError =
    | IndexOutOfBounds
    | IllegalArgument(startIndex: int, endIndex: int)

  /** The ranges `src[srcPos..srcPos+length)` and `dest[destPos..destPos+length)` both exist. */
  predicate CopyRangesValid(srcLength: int, srcPos: int, destLength: int, destPos: int, length: int)
  {
    0 <= srcPos && 0 <= length && srcPos + length <= srcLength && 0 <= destPos && destPos + length <= destLength
  }

  /** `dest` after `length` elements of `src` starting at `srcPos` have been copied to `destPos`. */
  function Copied<T>(src: seq<T>, srcPos: int, dest: seq<T>, destPos: int, length: int): (r: seq<T>)
    requires CopyRangesValid(|src|, srcPos, |dest|, destPos, length)
    ensures |r| == |dest|
    ensures forall k :: destPos <= k < destPos + length ==> r[k] == src[srcPos + (k - destPos)]
    ensures forall k :: 0 <= k < |dest| && !(destPos <= k < destPos + length) ==> r[k] == dest[k]
  {
    dest[..destPos] + src[srcPos..srcPos + length] + dest[destPos + length..]
  }

  /** A copy of zero elements leaves the destination as it was. */
  lemma CopyNothing<T>(src: seq<T>, srcPos: int, dest: seq<T>, destPos: int)
    requires CopyRangesValid(|src|, srcPos, |dest|, destPos, 0)
    ensures Copied(src, srcPos, dest, destPos, 0) == dest
  {
    var r := Copied(src, srcPos, dest, destPos, 0);
    assert forall k :: 0 <= k < |dest| ==> r[k] == dest[k];
  }

  /** Copying all of `src` to the start of an equally long destination makes the two equal. */
  lemma CopyAll<T>(src: seq<T>, dest: seq<T>)
    requires |src| == |dest|
    ensures Copied(src, 0, dest, 0, |src|) == src
  {
    var r := Copied(src, 0, dest, 0, |src|);
    assert forall k :: 0 <= k < |src| ==> r[k] == src[k];
  }

  /**
   * `src.copyInto(dest, destPos, srcPos, srcPos + length)`. The end index is
   * computed in 32 bits, so a sum past `Int.MAX_VALUE` fails as well. The copy behaves as if made through a temporary, so
   * `src` and `dest` may be the same array, with overlapping ranges.
   */
  method ArrayCopy<T>(src: array<T>, srcPos: Int32, dest: array<T>, destPos: Int32, length: Int32)
    returns (r: Result<(), CopyError>)
    modifies dest
    ensures r.Ok? <==> CopyRangesValid(src.Length, srcPos, dest.Length, destPos, length) && srcPos + length <= INT_MAX
    ensures r.Ok? ==> dest[..] == Copied(old(src[..]), srcPos, old(dest[..]), destPos, length)
    ensures r.Err? ==> dest[..] == old(dest[..])
  {
    var endIndex := Wrap32(srcPos + length);
    if srcPos < 0 || endIndex > src.Length {
      return Err(IndexOutOfBounds);
    }
    if srcPos > endIndex {
      return Err(IllegalArgument(srcPos, endIndex));
    }
    var n := endIndex - srcPos;
    if destPos < 0 || destPos + n > dest.Length {
      return Err(IndexOutOfBounds);
    }
    assert n == length;
    var slice := src[srcPos..endIndex];
    var i := 0;
    while i < n
      invariant 0 <= i <= n
      invariant forall k :: 0 <= k < dest.Length ==>
        dest[k] == if destPos <= k < destPos + i then slice[k - destPos] else old(dest[k])
    {
      dest[destPos + i] := slice[i];
      i := i + 1;
    }
    assert dest[..] == Copied(old(src[..]), srcPos, old(dest[..]), destPos, length);
    return Ok(());
  }
}
