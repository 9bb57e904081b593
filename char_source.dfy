/**
 * The character source behind `MXParser`: a `Reader` whose `read(buf, off, len)`
 * is the only input operation the parser performs.
 */
module CharSource {
  import opened Kotlin

  /**
   * A reader over a fixed sequence of characters. Only `read`'s contract is
   * relied on: it returns -1 once everything is consumed, and otherwise between
   * 1 and `len` characters (0 when `len` is 0), copied in order.
   */
  class Reader {
    const data: Str
    var cursor: nat

    ghost predicate Valid()
      reads this
    {
      cursor <= |data|
    }

    constructor (data: Str)
      ensures Valid() && this.data == data && cursor == 0
    {
      this.data := data;
      cursor := 0;
    }

    /** `read(cbuf, off, len)`. */
    method Read(cbuf: array<CodeUnit>, off: int, len: int) returns (n: int)
      requires Valid()
      requires 0 <= off && 0 <= len && off + len <= cbuf.Length
      modifies this, cbuf
      ensures Valid()
      ensures len > 0 ==> (n == -1 <==> old(cursor) == |data|)
      ensures len == 0 ==> n == 0
      ensures n == -1 ==> cursor == old(cursor) && cbuf[..] == old(cbuf[..])
      ensures n != -1 ==>
        0 <= n <= len && (len > 0 ==> n >= 1) &&
        cursor == old(cursor) + n && cursor <= |data| &&
        cbuf[..] == old(cbuf[..off]) + data[old(cursor)..cursor] + old(cbuf[off + n..])
    {
      if len == 0 {
        return 0;
      }
      if cursor == |data| {
        return -1;
      }
      var start := cursor;
      n := if len < |data| - start then len else |data| - start;
      var i := 0;
      while i < n
        invariant 0 <= i <= n
        invariant cbuf[..] == old(cbuf[..off]) + data[start..start + i] + old(cbuf[off + i..])
      {
        cbuf[off + i] := data[start + i];
        i := i + 1;
      }
      cursor := start + n;
    }
  }
}
