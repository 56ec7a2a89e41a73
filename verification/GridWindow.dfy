/** The rows that the grid view renders at a scroll position (lv_gridview.c, the first half of update_grid). */
module GridWindow {

  /** The sizes update_grid works with. */
  datatype Sizes = Sizes(columns: nat, rowHeight: int, contentHeight: int, padRow: int, padTop: int, padBottom: int) {
    predicate Valid() {
      columns > 0 && rowHeight > 0 && padRow >= 0 && padTop >= 0 && padBottom >= 0
    }

    function Extend(): int { rowHeight / 4 }

    function RowTop(i: int): int { rowHeight * i + padRow * i }

    /** Row i does not end above the rendered area. */
    predicate NotAbove(i: int, y: int) {
      y - padTop - Extend() <= RowTop(i) + rowHeight
    }

    /** Row i does not begin below the rendered area. */
    predicate NotBelow(i: int, y: int) {
      y + contentHeight + padBottom + Extend() >= RowTop(i)
    }

    /** How far one scroll step may go without skipping rows. */
    function Reach(): int {
      contentHeight + padTop + padBottom + 2 * Extend() + rowHeight + 1
    }
  }

  /** ceil(a / b), as the source computes it. */
  function CeilDivide(a: int, b: int): int
    requires b > 0
  {
    (a + b - 1) / b
  }

  /** The first of the rows i, i + 1, ..., rows - 1 that does not end above the rendered area, or -1. */
  function RenderStart(z: Sizes, y: int, rows: int, i: nat): int
    decreases rows - i
  {
    if i >= rows then -1 else if z.NotAbove(i, y) then i else RenderStart(z, y, rows, i + 1)
  }

  /** The last of the rows start, ..., i that does not begin below the rendered area, or -1. */
  function RenderEnd(z: Sizes, y: int, start: int, i: int): int
    decreases i - start
  {
    if i < start then -1 else if z.NotBelow(i, y) then i else RenderEnd(z, y, start, i - 1)
  }

  /** Rows start..end are what is rendered at y. */
  predicate Rendered(z: Sizes, y: int, rows: int, start: int, end: int) {
    start == RenderStart(z, y, rows, 0) && end == RenderEnd(z, y, start, rows - 1)
  }

  function MaxItemEnd(z: Sizes, start: int): int
    requires z.Valid()
  {
    z.columns * (start + CeilDivide(z.contentHeight + z.padRow + z.Extend(), z.rowHeight + z.padRow) + 1) - 1
  }

  /** The loops of update_grid over the rows. */
  method RenderRows(z: Sizes, y: int, rows: int) returns (start: int, end: int)
    ensures Rendered(z, y, rows, start, end)
  {
    start := -1;
    var i := 0;
    while i < rows
      invariant 0 <= i
      invariant RenderStart(z, y, rows, i) == RenderStart(z, y, rows, 0)
      decreases rows - i
    {
      if y - z.padTop - z.Extend() <= z.RowTop(i) + z.rowHeight {
        start := i;
        break;
      }
      i := i + 1;
    }
    end := -1;
    i := rows - 1;
    while i >= start
      invariant RenderEnd(z, y, start, i) == RenderEnd(z, y, start, rows - 1)
      decreases i - start
    {
      if y + z.contentHeight + z.padBottom + z.Extend() >= z.RowTop(i) {
        end := i;
        break;
      }
      i := i - 1;
    }
  }

  lemma {:induction false} StartMeans(z: Sizes, y: int, rows: int, i: nat)
    ensures var s := RenderStart(z, y, rows, i);
      || (s == -1 && forall j :: i <= j < rows ==> !z.NotAbove(j, y))
      || (i <= s < rows && z.NotAbove(s, y) && forall j :: i <= j < s ==> !z.NotAbove(j, y))
    decreases rows - i
  {
    if i < rows && !z.NotAbove(i, y) {
      StartMeans(z, y, rows, i + 1);
    }
  }

  lemma {:induction false} EndMeans(z: Sizes, y: int, start: int, i: int)
    requires start >= 0
    ensures var e := RenderEnd(z, y, start, i);
      || (e == -1 && forall j :: start <= j <= i ==> !z.NotBelow(j, y))
      || (start <= e <= i && z.NotBelow(e, y) && forall j :: e < j <= i ==> !z.NotBelow(j, y))
    decreases i - start
  {
    if start <= i && !z.NotBelow(i, y) {
      EndMeans(z, y, start, i - 1);
    }
  }

  lemma TopsGrow(z: Sizes, i: int, j: int)
    requires z.Valid() && i <= j
    ensures z.RowTop(i) <= z.RowTop(j)
  {
    assert z.rowHeight * i <= z.rowHeight * j;
    assert z.padRow * i <= z.padRow * j;
  }

  /** What the two loops find, in pixels: row j of the content reaches from `top` to `bottom`; the rows found are those that
      overlap the view at scroll position y, extended by the paddings and a quarter of a row on either side, and no others. */
  lemma RenderedMeans(z: Sizes, y: int, rows: int, start: int, end: int, j: int)
    requires z.Valid() && Rendered(z, y, rows, start, end)
    ensures start < rows || start == end == -1
    ensures
      var top := j * (z.rowHeight + z.padRow);
      var bottom := top + z.rowHeight;
      0 <= j < rows ==>
        (0 <= start <= j <= end <==>
          y - z.padTop - z.rowHeight / 4 <= bottom && top <= y + z.contentHeight + z.padBottom + z.rowHeight / 4)
  {
    RenderedRows(z, y, rows, start, end, j);
    hide Rendered;
    assert z.RowTop(j) == j * (z.rowHeight + z.padRow);
  }

  lemma RenderedRows(z: Sizes, y: int, rows: int, start: int, end: int, j: int)
    requires z.Valid() && Rendered(z, y, rows, start, end)
    ensures start < rows || start == end == -1
    ensures 0 <= j < rows ==> (0 <= start <= j <= end <==> z.NotAbove(j, y) && z.NotBelow(j, y))
  {
    hide Sizes.RowTop, Sizes.Extend;
    StartMeans(z, y, rows, 0);
    if start >= 0 {
      EndMeans(z, y, start, rows - 1);
      if start <= j <= end {
        TopsGrow(z, start, j);
        TopsGrow(z, j, end);
      }
    }
  }

  /** The window is the one whose ends overlap the rendered area and whose neighbours do not. */
  lemma IsRendered(z: Sizes, y: int, rows: int, start: int, end: int)
    requires z.Valid() && 0 <= start <= end < rows
    requires z.NotAbove(start, y) && (start > 0 ==> !z.NotAbove(start - 1, y))
    requires z.NotBelow(end, y) && (end + 1 < rows ==> !z.NotBelow(end + 1, y))
    ensures Rendered(z, y, rows, start, end)
  {
    var s, e := RenderStart(z, y, rows, 0), RenderEnd(z, y, start, rows - 1);
    StartMeans(z, y, rows, 0);
    if 0 <= s < start {
      TopsGrow(z, s, start - 1);
    }
    EndMeans(z, y, start, rows - 1);
    if e > end {
      TopsGrow(z, end + 1, e);
    }
  }

  /** A later window begins no further than right behind an earlier one, and ends no further than right in front of it,
      if the scroll step between them is within reach, up or down. */
  lemma StepsTouch(z: Sizes, rows: int, y: int, start: int, end: int, y': int, start': int, end': int)
    requires z.Valid()
    requires Rendered(z, y, rows, start, end) && 0 <= start <= end
    requires Rendered(z, y', rows, start', end') && 0 <= start' <= end'
    requires -z.Reach() <= y' - y <= z.Reach()
    ensures start' <= end + 1 && start <= end' + 1
  {
    StartMeans(z, y, rows, 0);
    EndMeans(z, y, start, rows - 1);
    StartMeans(z, y', rows, 0);
    EndMeans(z, y', start', rows - 1);
    if start' > end + 1 {
      assert !z.NotAbove(start' - 1, y') && !z.NotBelow(end + 1, y);
      TopsGrow(z, end + 1, start' - 1);
    }
    if start > end' + 1 {
      assert !z.NotAbove(start - 1, y) && !z.NotBelow(end' + 1, y');
      TopsGrow(z, end' + 1, start - 1);
    }
  }

  /** A step one further than the reach may skip a row: with rows and a view of height 4, scrolling
      from 2 to 14 goes from rows 0 and 1 to rows 3 and 4. */
  lemma BeyondReachSkips(rows: int)
    requires rows >= 5
    ensures
      var z := Plain(4, 4);
      14 - 2 == z.Reach() + 1 && Rendered(z, 2, rows, 0, 1) && Rendered(z, 14, rows, 3, 4)
  {
    hide Rendered, Sizes.RowTop, Sizes.Extend;
    PlainTops(4, 0);
    PlainTops(4, 2);
    PlainTops(4, 4);
    IsRendered(Plain(4, 4), 2, rows, 0, 1);
    IsRendered(Plain(4, 4), 14, rows, 3, 4);
  }

  /** One column of rows without padding. */
  function Plain(rowHeight: int, contentHeight: int): Sizes {
    Sizes(1, rowHeight, contentHeight, 0, 0, 0)
  }

  lemma PlainTops(h: int, i: int)
    ensures forall c :: Plain(h, c).Extend() == h / 4
    ensures forall c :: Plain(h, c).RowTop(i) == h * i && Plain(h, c).RowTop(i + 1) == h * i + h
  {
  }

  /** While the content has rows and is scrolled neither above its first nor below its last row, and the gap between rows
      is not higher than the view, some row is rendered. */
  lemma SomethingRendered(z: Sizes, y: int, rows: int)
    requires z.Valid() && rows > 0 && z.padRow <= z.contentHeight
    requires z.NotBelow(0, y) && z.NotAbove(rows - 1, y)
    ensures 0 <= RenderStart(z, y, rows, 0) <= RenderEnd(z, y, RenderStart(z, y, rows, 0), rows - 1)
  {
    hide Sizes.RowTop;
    var s := RenderStart(z, y, rows, 0);
    StartMeans(z, y, rows, 0);
    EndMeans(z, y, s, rows - 1);
    if s > 0 {
      assert !z.NotAbove(s - 1, y);
      NextTop(z, s - 1);
    }
    assert z.NotBelow(s, y);
  }

  lemma NextTop(z: Sizes, i: int)
    ensures z.RowTop(i + 1) == z.RowTop(i) + z.rowHeight + z.padRow
  {
  }

  /** max_item_end covers every rendered row exactly if the last one is at most CEIL_DIVIDE(...) rows behind the first. */
  lemma RenderedWithin(z: Sizes, start: int, end: int)
    requires z.Valid() && 0 <= start <= end
    ensures z.columns * (end + 1) - 1 <= MaxItemEnd(z, start) <==>
            (end - start) * (z.rowHeight + z.padRow) < z.contentHeight + z.padRow + z.Extend() + z.rowHeight + z.padRow
  {
    var a, b := z.contentHeight + z.padRow + z.Extend(), z.rowHeight + z.padRow;
    var k := CeilDivide(a, b);
    CeilDivideMeans(a, b, end - start);
    TimesOrder(z.columns, end + 1, start + k + 1);
  }

  lemma TimesOrder(c: nat, a: int, b: int)
    requires c > 0
    ensures c * a <= c * b <==> a <= b
  {
    var d := if a <= b then b - a else a - b;
    assert c * (if a <= b then a + d else b + d) == c * (if a <= b then a else b) + c * d;
  }

  lemma CeilDivideMeans(a: int, b: int, d: int)
    requires b > 0
    ensures d <= CeilDivide(a, b) <==> d * b < a + b
  {
    var k := CeilDivide(a, b);
    assert b * k <= a + b - 1 < b * k + b;
    if d <= k {
      assert d * b <= k * b;
    } else {
      assert d * b >= (k + 1) * b;
    }
  }

  /** It need not: with a view of height 270 and rows of height 100, scrolled to 125, rows 0 to 4 are
      rendered, but max_item_end is the end of row 3. */
  lemma RenderedBeyond(rows: int)
    requires rows >= 5
    ensures
      var z := Plain(100, 270);
      Rendered(z, 125, rows, 0, 4) && MaxItemEnd(z, 0) == 3
  {
    hide MaxItemEnd, Rendered, Sizes.RowTop, Sizes.Extend;
    EndOfFour();
    PlainTops(100, 0);
    PlainTops(100, 4);
    IsRendered(Plain(100, 270), 125, rows, 0, 4);
  }

  lemma EndOfFour()
    ensures MaxItemEnd(Plain(100, 270), 0) == 3
  {
    assert CeilDivide(295, 100) == 3;
  }
}
