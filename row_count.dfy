/**
 * The two row-count policies of the table: `_equalize` fits as many whole rows
 * as an external panel leaves room for (rounding down), `_maximize` covers the
 * table's own body (rounding up). Both cap the count by a non-zero maxCount.
 */
module RowCount {
  import opened Numbers

  /** The cap both policies apply: Math.min(maxCount, count), only when maxCount is truthy (non-zero). */
  function Clamp(maxCount: int, count: Num): (r: Num)
    ensures maxCount == 0 ==> r == count
    ensures maxCount != 0 ==> r == Min(maxCount, count)
    ensures maxCount != 0 && r.Finite? ==> r.n <= maxCount
    ensures maxCount != 0 && count.Finite? ==> r.Finite? && r.n <= count.n
  {
    if maxCount != 0 then Min(maxCount, count) else count
  }

  /**
   * The count `_equalize` writes: the rows of `rowHeight` pixels that fit in the
   * equalizer's body height less the table head and the root's bottom padding.
   */
  function EqualizeCount(equalizerBody: int, head: int, paddingBottom: int, rowHeight: int, maxCount: int): (r: Num)
    ensures rowHeight != 0 ==> r.Finite?
    ensures rowHeight > 0 ==> r.n * rowHeight <= equalizerBody - head - paddingBottom
    ensures rowHeight > 0 && maxCount != 0 ==> r.n <= maxCount
    ensures rowHeight > 0 && (maxCount == 0 || r.n < maxCount) ==>
      equalizerBody - head - paddingBottom < r.n * rowHeight + rowHeight
    ensures rowHeight < 0 ==> equalizerBody - head - paddingBottom <= r.n * rowHeight
    ensures rowHeight < 0 && maxCount != 0 ==> r.n <= maxCount
    ensures rowHeight < 0 && (maxCount == 0 || r.n < maxCount) ==>
      r.n * rowHeight + rowHeight < equalizerBody - head - paddingBottom
    ensures rowHeight == 0 && maxCount != 0 && equalizerBody - head - paddingBottom > 0 ==> r == Finite(maxCount)
    ensures rowHeight == 0 && (maxCount == 0 || equalizerBody - head - paddingBottom <= 0) ==> !r.Finite?
  {
    var room := equalizerBody - head - paddingBottom;
    var r := Clamp(maxCount, FloorQuotient(room, rowHeight));
    MulMonotone(if r.Finite? then r.n else 0, if rowHeight != 0 then FloorDiv(room, rowHeight) else 0, rowHeight);
    r
  }

  /**
   * The count `_maximize` writes: the rows of `rowHeight` pixels needed to cover
   * the body height less the table head, the last one possibly cut off.
   */
  function MaximizeCount(body: int, head: int, rowHeight: int, maxCount: int): (r: Num)
    ensures rowHeight != 0 ==> r.Finite?
    ensures rowHeight > 0 ==> r.n * rowHeight - rowHeight < body - head
    ensures rowHeight > 0 && maxCount != 0 ==> r.n <= maxCount
    ensures rowHeight > 0 && (maxCount == 0 || r.n < maxCount) ==> body - head <= r.n * rowHeight
    ensures rowHeight < 0 ==> body - head < r.n * rowHeight - rowHeight
    ensures rowHeight < 0 && maxCount != 0 ==> r.n <= maxCount
    ensures rowHeight < 0 && (maxCount == 0 || r.n < maxCount) ==> r.n * rowHeight <= body - head
    ensures rowHeight == 0 && maxCount != 0 && body - head > 0 ==> r == Finite(maxCount)
    ensures rowHeight == 0 && (maxCount == 0 || body - head <= 0) ==> !r.Finite?
  {
    var room := body - head;
    var r := Clamp(maxCount, CeilQuotient(room, rowHeight));
    MulMonotone(if r.Finite? then r.n else 0, if rowHeight != 0 then CeilDiv(room, rowHeight) else 0, rowHeight);
    r
  }

  /** Without a cap, `_equalize` picks the greatest count whose rows fit. */
  lemma {:induction false} EqualizeIsGreatest(equalizerBody: int, head: int, paddingBottom: int, rowHeight: int, c: int)
    requires rowHeight > 0 && c * rowHeight <= equalizerBody - head - paddingBottom
    ensures EqualizeCount(equalizerBody, head, paddingBottom, rowHeight, 0).Finite?
    ensures c <= EqualizeCount(equalizerBody, head, paddingBottom, rowHeight, 0).n
  {
    FloorDivIsGreatest(equalizerBody - head - paddingBottom, rowHeight, c);
  }

  /** Without a cap, `_maximize` picks the least count whose rows cover the body. */
  lemma {:induction false} MaximizeIsLeast(body: int, head: int, rowHeight: int, c: int)
    requires rowHeight > 0 && body - head <= c * rowHeight
    ensures MaximizeCount(body, head, rowHeight, 0).Finite?
    ensures MaximizeCount(body, head, rowHeight, 0).n <= c
  {
    CeilDivIsLeast(body - head, rowHeight, c);
  }
}
