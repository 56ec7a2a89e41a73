/** The grid view as a whole: filling the rendered rows, focus and updates (lv_gridview.c), on values. */
module GridFill {
  import opened GridBoard
  import opened GridSplice
  import opened GridSpliceTheorems
  import opened GridWindow

  datatype Option<T> = None | Some(value: T)

  /** The fields of lv_grid_t that change, and the board. */
  datatype Grid = Grid(sizes: Sizes, itemCount: int, rowCount: int, rowStart: int, rowEnd: int,
                       focused: int, focusWhenAvailable: int, board: Board)

  function Max(a: int, b: int): int {
    if a < b then b else a
  }

  /** The first position of a row. */
  function FirstOf(row: int, columns: nat): int {
    row * columns
  }

  /** Recycle the views at from, ..., end - 1, which must be there: None where the assertion
      "should not recycle invalid item" fails. */
  function MustRecycle(b: Board, from: int, end: int): Option<Board>
    decreases end - from
  {
    if from >= end then Some(b)
    else if !Has(b.inuse, from) then None
    else MustRecycle(Recycle(b, from), from + 1, end)
  }

  function ShowRange(b: Board, from: int, end: int, columns: nat): Board
    requires columns > 0
    decreases end - from
  {
    if from >= end then b else ShowRange(Show(b, from, columns), from + 1, end, columns)
  }

  /** lv_gridview_focus, as far as the pools and the fields go. */
  function Focus(g: Grid, p: int): Grid
    requires g.sizes.columns > 0
  {
    if p < 0 || p >= g.itemCount then
      if g.focused >= 0 && p != g.focused then g.(focused := -1) else g
    else
      var b := if Has(g.board.inuse, p) then g.board else Show(g.board, p, g.sizes.columns);
      g.(focused := p, board := b)
  }

  /** The positions of rows start..end that have an item. */
  predicate InRows(p: int, start: int, end: int, columns: nat, items: int) {
    FirstOf(start, columns) <= p < Min(FirstOf(end + 1, columns), items)
  }

  /** The two loops of fill_rows that put excess items to the recycler. */
  function RecycleExcess(g: Grid, start: int, end: int): Option<Board> {
    var columns := g.sizes.columns;
    var above := MustRecycle(g.board, FirstOf(Max(0, g.rowStart), columns), Min(FirstOf(start, columns), g.itemCount));
    if above.None? then None
    else MustRecycle(above.value, FirstOf(Max(0, end + 1), columns), Min(FirstOf(g.rowEnd + 1, columns), g.itemCount))
  }

  /** fill_rows up to the update of row_start and row_end. */
  function Refill(g: Grid, start: int, end: int): Option<Grid>
    requires g.sizes.columns > 0
  {
    var columns := g.sizes.columns;
    var r := RecycleExcess(g, start, end);
    if r.None? then None
    else
      var b := ShowRange(r.value, FirstOf(start, columns), Min(FirstOf(end + 1, columns), g.itemCount), columns);
      Some(g.(board := b, rowStart := start, rowEnd := end))
  }

  /** The focus that was waiting for its item. */
  function FocusPending(g: Grid): Grid
    requires g.sizes.columns > 0
  {
    if 0 <= g.focusWhenAvailable < g.itemCount
    then Focus(g, g.focusWhenAvailable).(focusWhenAvailable := -1)
    else g
  }

  /** fill_rows */
  function FillRows(g: Grid, start: int, end: int): Option<Grid>
    requires g.sizes.columns > 0
  {
    if start < 0 || end < 0 || end < start then Some(g)
    else
      var r := Refill(g, start, end);
      if r.None? then None else Some(FocusPending(r.value))
  }

  /** No change starts below zero. */
  predicate StartsValid(cs: seq<Change>) {
    forall i :: 0 <= i < |cs| ==> cs[i].start >= 0
  }

  /** update_grid at scroll position y, with changes that begin on n items. */
  function UpdateGrid(g: Grid, y: int, cs: seq<Change>, n: int): Option<Grid>
    requires g.sizes.Valid()
  {
    var z := g.sizes;
    if z.contentHeight <= 0 then Some(g)
    else
      var start := RenderStart(z, y, g.rowCount, 0);
      var end := RenderEnd(z, y, start, g.rowCount - 1);
      var before := if cs == [] then g.itemCount else n;
      if !StartsValid(cs) || CountAfter(before, cs) != g.itemCount then None
      else FillRows(g.(board := Splices(g.board, before, cs, z.columns * start, MaxItemEnd(z, start), z.columns)), start, end)
  }

  /** What follows LV_EVENT_SIZE_CHANGED or LV_EVENT_STYLE_CHANGED: update_sizes, and update_grid if that changed anything. */
  function Resize(g: Grid, y: int, contentHeight: int, padRow: int, padTop: int, padBottom: int): Option<Grid>
    requires g.sizes.Valid() && padRow >= 0 && padTop >= 0 && padBottom >= 0
  {
    var z := g.sizes.(contentHeight := contentHeight, padRow := padRow, padTop := padTop, padBottom := padBottom);
    if z == g.sizes then Some(g) else UpdateGrid(g.(sizes := z), y, [], 0)
  }

  /** The count part of lv_gridview_set_data_advanced. */
  function SetCount(g: Grid, items: int): Grid
    requires g.sizes.columns > 0
  {
    var rows := CeilDivide(items, g.sizes.columns);
    if items == g.itemCount then g
    else if rows <= 0 then g.(itemCount := items)
    else g.(itemCount := items, rowCount := rows)
  }

  // ---------- What filling does to the pools ----------

  lemma {:induction false} MustRecycleMeans(b: Board, from: int, end: int)
    requires Distinct(b.inuse) && Conserved(b)
    ensures MustRecycle(b, from, end).Some? <==> forall p :: from <= p < end ==> Has(b.inuse, p)
    ensures
      var r := MustRecycle(b, from, end);
      r.Some? ==>
        && Conserved(r.value)
        && (forall x :: Count(r.value.inuse, x) == if from <= x < end then 0 else Count(b.inuse, x))
        && r.value.bound == b.bound
    decreases end - from
  {
    if from < end && Has(b.inuse, from) {
      TakeCounts(b.inuse, from);
      RecycleConserves(b, from);
      assert forall p :: p != from ==> Has(Recycle(b, from).inuse, p) == Has(b.inuse, p);
      MustRecycleMeans(Recycle(b, from), from + 1, end);
    }
  }

  /** In row-major order each position is bound once, to the view that is at that position in the end. */
  ghost predicate BoundInOrder(log: seq<Entry>, from: int, end: int, s: seq<Entry>) {
    && |log| == Max(0, end - from)
    && forall i :: 0 <= i < |log| ==> log[i].position == from + i && Has(s, from + i) && log[i].item == ViewAt(s, from + i)
  }

  lemma ShowKeepsViews(b: Board, p: int, columns: nat, x: int)
    requires columns > 0 && Has(b.inuse, x)
    ensures Has(Show(b, p, columns).inuse, x) && ViewAt(Show(b, p, columns).inuse, x) == ViewAt(b.inuse, x)
  {
    ShowCounts(b, p, columns);
  }

  lemma {:induction false} ShowRangeMeans(b: Board, from: int, end: int, columns: nat)
    requires Distinct(b.inuse) && Conserved(b) && columns > 0
    ensures
      var r := ShowRange(b, from, end, columns);
      && Conserved(r) && Distinct(r.inuse)
      && (forall x :: Has(r.inuse, x) <==> from <= x < end || Has(b.inuse, x))
      && (forall x :: Has(b.inuse, x) ==> ViewAt(r.inuse, x) == ViewAt(b.inuse, x))
      && b.bound <= r.bound && BoundInOrder(r.bound[|b.bound|..], from, end, r.inuse)
    decreases end - from
  {
    if from < end {
      var a := Show(b, from, columns);
      ShowConserves(b, from, columns);
      ShowCounts(b, from, columns);
      ShowRangeMeans(a, from + 1, end, columns);
      var r := ShowRange(b, from, end, columns);
      assert Has(a.inuse, from);
      assert a.bound[|b.bound|] == Entry(from, ViewAt(a.inuse, from));
      assert r.bound[|b.bound|..] == [a.bound[|b.bound|]] + r.bound[|a.bound|..];
      forall x | Has(b.inuse, x)
        ensures ViewAt(r.inuse, x) == ViewAt(b.inuse, x)
      {
        ShowKeepsViews(b, from, columns, x);
      }
    }
  }

  /** The positions that the two recycling loops of fill_rows visit: above and below the new rows. */
  predicate Excess(g: Grid, start: int, end: int, p: int) {
    var columns := g.sizes.columns;
    || FirstOf(Max(0, g.rowStart), columns) <= p < Min(FirstOf(start, columns), g.itemCount)
    || FirstOf(Max(0, end + 1), columns) <= p < Min(FirstOf(g.rowEnd + 1, columns), g.itemCount)
  }

  lemma RowOrder(a: int, b: int, columns: nat)
    requires a <= b
    ensures FirstOf(a, columns) <= FirstOf(b, columns)
  {
  }

  /** The assertion in grid_recycle_item holds exactly if everything to be recycled is in use. */
  lemma RecycleExcessMeans(g: Grid, start: int, end: int)
    requires Distinct(g.board.inuse) && Conserved(g.board) && 0 <= start <= end
    ensures RecycleExcess(g, start, end).Some? <==> forall p :: Excess(g, start, end, p) ==> Has(g.board.inuse, p)
    ensures
      var r := RecycleExcess(g, start, end);
      r.Some? ==>
        && Conserved(r.value) && Distinct(r.value.inuse) && r.value.bound == g.board.bound
        && forall x :: Has(r.value.inuse, x) <==> Has(g.board.inuse, x) && !Excess(g, start, end, x)
  {
    var columns := g.sizes.columns;
    var b := g.board;
    var from1, end1 := FirstOf(Max(0, g.rowStart), columns), Min(FirstOf(start, columns), g.itemCount);
    var from2, end2 := FirstOf(Max(0, end + 1), columns), Min(FirstOf(g.rowEnd + 1, columns), g.itemCount);
    RowOrder(start, end + 1, columns);
    assert end1 <= from2;
    MustRecycleMeans(b, from1, end1);
    var above := MustRecycle(b, from1, end1);
    if above.Some? {
      MustRecycleMeans(above.value, from2, end2);
      assert forall p :: !(from1 <= p < end1) ==> Has(above.value.inuse, p) == Has(b.inuse, p);
    } else {
      var p :| from1 <= p < end1 && !Has(b.inuse, p);
      assert Excess(g, start, end, p);
    }
  }

  /** fill_rows keeps what is in use, except the excess, adds the rest of the new rows, and binds every position of the
      new rows once, in order. */
  lemma RefillMeans(g: Grid, start: int, end: int)
    requires Distinct(g.board.inuse) && Conserved(g.board) && 0 <= start <= end && g.sizes.columns > 0
    ensures Refill(g, start, end).Some? <==> forall p :: Excess(g, start, end, p) ==> Has(g.board.inuse, p)
    ensures
      var r := Refill(g, start, end);
      r.Some? ==>
        var b := r.value.board;
        && Conserved(b) && Distinct(b.inuse)
        && (forall x :: Has(b.inuse, x) <==>
              InRows(x, start, end, g.sizes.columns, g.itemCount) || (Has(g.board.inuse, x) && !Excess(g, start, end, x)))
        && g.board.bound <= b.bound
        && BoundInOrder(b.bound[|g.board.bound|..], FirstOf(start, g.sizes.columns),
                        Min(FirstOf(end + 1, g.sizes.columns), g.itemCount), b.inuse)
  {
    RecycleExcessMeans(g, start, end);
    var r := RecycleExcess(g, start, end);
    if r.Some? {
      ShowRangeMeans(r.value, FirstOf(start, g.sizes.columns), Min(FirstOf(end + 1, g.sizes.columns), g.itemCount), g.sizes.columns);
    }
  }

  lemma FocusMeans(g: Grid, p: int)
    requires Distinct(g.board.inuse) && Conserved(g.board) && g.sizes.columns > 0
    ensures Conserved(Focus(g, p).board) && Distinct(Focus(g, p).board.inuse)
    ensures forall x :: Has(Focus(g, p).board.inuse, x) <==> Has(g.board.inuse, x) || (x == p && 0 <= p < g.itemCount)
    ensures Focus(g, p) == g.(focused := Focus(g, p).focused, board := Focus(g, p).board)
    ensures if 0 <= p < g.itemCount then Focus(g, p).focused == p
            else Focus(g, p).focused == p == g.focused || Focus(g, p).focused < 0
  {
    ShowConserves(g.board, p, g.sizes.columns);
    ShowCounts(g.board, p, g.sizes.columns);
  }
}
