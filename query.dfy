/**
 * A database query, abstracted as the finite sequence of rows it yields, in
 * query order, with the two operators the paging code composes: skip a number
 * of rows, then keep at most a number of rows (Take in LINQ, Limit in the
 * MongoDB driver).
 */
module Queries {
  import opened Clr

  const MaxInt32 := 0x7FFF_FFFF

  /** The offset of a page in exact arithmetic. */
  function ExactOffset(pageNumber: int, pageSize: int): int
  {
    (pageNumber - 1) * pageSize
  }

  /** No page starts before the first row, and page `pageNumber + 1` starts where page `pageNumber` ends. */
  lemma OffsetBounds(pageNumber: int, pageSize: int)
    requires pageNumber >= 1 && pageSize >= 0
    ensures ExactOffset(pageNumber, pageSize) >= 0
    ensures ExactOffset(pageNumber + 1, pageSize) == ExactOffset(pageNumber, pageSize) + pageSize
  {
  }

  /**
   * (pageNumber - 1) * pageSize as C# evaluates it for Int32 operands:
   * unchecked, so a product beyond the Int32 range wraps around.
   */
  function Offset(pageNumber: int32, pageSize: int32): (offset: int32)
    requires pageNumber > 0
    ensures (ExactOffset(pageNumber as int, pageSize as int) - offset as int) % 0x1_0000_0000 == 0
    ensures ExactOffset(pageNumber as int, pageSize as int) <= MaxInt32 && pageSize >= 0 ==>
              offset as int == ExactOffset(pageNumber as int, pageSize as int)
  {
    var exact := ExactOffset(pageNumber as int, pageSize as int);
    if pageSize >= 0 then OffsetBounds(pageNumber as int, pageSize as int); Wrap32(exact) else Wrap32(exact)
  }

  /** The rows from position `start`, at most `count` of them: Skip(start) then Take(count). */
  function Window<T>(rows: seq<T>, start: nat, count: nat): (window: seq<T>)
    ensures |window| == if start >= |rows| then 0 else if count < |rows| - start then count else |rows| - start
    ensures forall i :: 0 <= i < |window| ==> window[i] == rows[start + i]
  {
    if start >= |rows| then []
    else if count < |rows| - start then rows[start..start + count]
    else rows[start..]
  }

  /** The rows of the exact page `pageNumber` of size `pageSize` (both at least 1). */
  function PageWindow<T>(rows: seq<T>, pageNumber: nat, pageSize: nat): seq<T>
    requires pageNumber >= 1
  {
    Window(rows, ExactOffset(pageNumber, pageSize), pageSize)
  }

  /** The first `pages` pages of a query, one after another. */
  function Pages<T>(rows: seq<T>, pages: nat, pageSize: nat): seq<T>
  {
    if pages == 0 then [] else Pages(rows, pages - 1, pageSize) + PageWindow(rows, pages, pageSize)
  }

  /** The first `pages` pages are the first pages * pageSize rows. */
  lemma {:induction false} PagesArePrefix<T>(rows: seq<T>, pages: nat, pageSize: nat)
    requires pageSize > 0
    ensures pages * pageSize <= |rows| ==> Pages(rows, pages, pageSize) == rows[..pages * pageSize]
    ensures pages * pageSize > |rows| ==> Pages(rows, pages, pageSize) == rows
  {
    if pages > 0 {
      var start := ExactOffset(pages, pageSize);
      var end := pages * pageSize;
      OffsetBounds(pages, pageSize);
      assert end == start + pageSize;
      PagesArePrefix(rows, pages - 1, pageSize);
      var before := Pages(rows, pages - 1, pageSize);
      assert Pages(rows, pages, pageSize) == before + Window(rows, start, pageSize);
      if end <= |rows| {
        assert before == rows[..start];
        assert rows[..start] + rows[start..end] == rows[..end];
      } else if start <= |rows| {
        assert before == rows[..start];
        assert rows[..start] + rows[start..] == rows;
      } else {
        assert before == rows;
      }
    }
  }
}
