/** The grid view over whole runs: scrolling, new sizes, splices of the data, focus changes and deleted views, in any order. */
module GridRuns {
  import opened GridBoard
  import opened GridSplice
  import opened GridSpliceTheorems
  import opened GridPositions
  import opened GridWindow
  import opened GridFill

  /** One call from outside.  Between calls the scroll position only changes with a Scroll. */
  datatype Step =
    | Scroll(y: int)
    | NewSizes(contentHeight: int, padRow: int, padTop: int, padBottom: int)
    | Data(items: int, changes: seq<Change>)
    | FocusOn(p: int)
    | FocusLater(p: int)
    | Deleted(v: View)

  function Apply(g: Grid, y: int, s: Step): Option<Grid>
    requires g.sizes.Valid() && (s.NewSizes? ==> s.padRow >= 0 && s.padTop >= 0 && s.padBottom >= 0)
  {
    match s
    case Scroll(y') => UpdateGrid(g, y', [], 0)
    case NewSizes(contentHeight, padRow, padTop, padBottom) => Resize(g, y, contentHeight, padRow, padTop, padBottom)
    case Data(items, changes) => UpdateGrid(SetCount(g, items), y, changes, g.itemCount)
    case FocusOn(p) => Some(Focus(g, p))
    case FocusLater(p) => Some(g.(focusWhenAvailable := p))
    case Deleted(v) => Some(g.(board := Delete(g.board, v)))
  }

  function ScrollAfter(y: int, s: Step): int {
    if s.Scroll? then s.y else y
  }

  /** Some row is rendered at y. */
  predicate Shows(g: Grid, y: int) {
    var start := RenderStart(g.sizes, y, g.rowCount, 0);
    0 <= start <= RenderEnd(g.sizes, y, start, g.rowCount - 1)
  }

  /** The rows of g have been filled for scroll position y, or never. */
  predicate FilledAt(g: Grid, y: int) {
    || (g.rowStart == -1 && g.rowEnd == -1)
    || (0 <= g.rowStart <= g.rowEnd && Rendered(g.sizes, y, g.rowCount, g.rowStart, g.rowEnd))
  }

  /** Position p belongs to the rows filled last. */
  predicate Current(g: Grid, p: int) {
    InRows(p, Max(0, g.rowStart), g.rowEnd, g.sizes.columns, g.itemCount)
  }

  /** What holds of the pools at all times. */
  ghost predicate PoolsOk(g: Grid) {
    && g.sizes.Valid() && g.sizes.contentHeight > 0
    && Conserved(g.board) && Distinct(g.board.inuse) && InRange(g.board.inuse, g.itemCount)
  }

  ghost predicate GridInv(g: Grid, y: int) {
    PoolsOk(g) && FilledAt(g, y)
  }

  /** Every position of the rows filled last has its view. */
  ghost predicate Covered(g: Grid) {
    forall p :: Current(g, p) ==> Has(g.board.inuse, p)
  }

  /** In use are the positions of the rows filled last and no others. */
  ghost predicate Exact(g: Grid) {
    forall p :: Has(g.board.inuse, p) <==> Current(g, p)
  }

  /** No position whose view has been deleted is to be recycled when rows start..end are filled. */
  ghost predicate NoHoleInExcess(g: Grid, start: int, end: int) {
    forall p :: Current(g, p) && !Has(g.board.inuse, p) ==> !Excess(g, start, end, p)
  }

  /** The rows rendered at y overlap or touch those filled last, and deleted views are not in the way. */
  ghost predicate UpdateFits(g: Grid, y: int) {
    var start := RenderStart(g.sizes, y, g.rowCount, 0);
    var end := RenderEnd(g.sizes, y, start, g.rowCount - 1);
    Shows(g, y) && start <= g.rowEnd + 1 && g.rowStart <= end + 1 && NoHoleInExcess(g, start, end)
  }

  /** A scroll step is within reach, the first update shows the first row; new sizes keep the rows together; splices fit the
      data, and no view behind max_item_end is passed by the end of the data; some row is always shown. */
  ghost predicate Allowed(g: Grid, y: int, s: Step)
    requires g.sizes.Valid()
  {
    match s
    case Scroll(y') =>
      var start := RenderStart(g.sizes, y', g.rowCount, 0);
      && Shows(g, y') && NoHoleInExcess(g, start, RenderEnd(g.sizes, y', start, g.rowCount - 1))
      && (if g.rowStart < 0 then start == 0 else -g.sizes.Reach() <= y' - y <= g.sizes.Reach())
    case NewSizes(contentHeight, padRow, padTop, padBottom) =>
      && contentHeight > 0 && padRow >= 0 && padTop >= 0 && padBottom >= 0
      && UpdateFits(g.(sizes := g.sizes.(contentHeight := contentHeight, padRow := padRow, padTop := padTop,
                                         padBottom := padBottom)), y)
    case Data(items, changes) =>
      var h := SetCount(g, items);
      var hi := MaxItemEnd(h.sizes, RenderStart(h.sizes, y, h.rowCount, 0));
      && Shows(h, y) && AllFit(g.itemCount, changes) && CountAfter(g.itemCount, changes) == items
      && (forall p :: Has(g.board.inuse, p) && p > hi ==> StaysIn(p, g.itemCount, changes))
      && (g.rowStart < 0 ==> RenderStart(h.sizes, y, h.rowCount, 0) == 0)
    case FocusOn(p) => true
    case FocusLater(p) => true
    case Deleted(v) => v < g.board.created
  }

  /** How many positions the rows filled last have. */
  function RowsLength(g: Grid): nat {
    Max(0, Min(FirstOf(g.rowEnd + 1, g.sizes.columns), g.itemCount) - FirstOf(g.rowStart, g.sizes.columns))
  }

  /** In the update from g to h each position of the rows of h is bound once, in row-major order, to the view it has there, and
      nothing else is but the item that a focus waited for, if it is outside these rows. */
  ghost predicate BoundOnce(g: Grid, h: Grid) {
    var n := |g.board.bound| + RowsLength(h);
    && g.board.bound <= h.board.bound
    && n <= |h.board.bound| <= n + One(0 <= g.focusWhenAvailable < h.itemCount)
    && BoundInOrder(h.board.bound[|g.board.bound|..n], FirstOf(h.rowStart, h.sizes.columns),
                    Min(FirstOf(h.rowEnd + 1, h.sizes.columns), h.itemCount), h.board.inuse)
    && (n < |h.board.bound| ==>
          && h.focused == g.focusWhenAvailable && Has(h.board.inuse, h.focused)
          && h.board.bound[n] == Entry(h.focused, ViewAt(h.board.inuse, h.focused))
          && !InRows(h.focused, h.rowStart, h.rowEnd, h.sizes.columns, h.itemCount))
  }

  /** In the update from g to h an item that a focus waited for has got it, if there is such an item; else nothing has. */
  predicate FocusTaken(g: Grid, h: Grid) {
    if 0 <= g.focusWhenAvailable < h.itemCount
    then h.focused == g.focusWhenAvailable && Has(h.board.inuse, h.focused) && h.focusWhenAvailable == -1
    else h.focused == g.focused && h.focusWhenAvailable == g.focusWhenAvailable
  }

  /** What the step asks for has been done when it has made h of g. */
  predicate Took(g: Grid, s: Step, h: Grid) {
    match s
    case Scroll(_) => h.sizes == g.sizes && h.itemCount == g.itemCount && FocusTaken(g, h)
    case NewSizes(contentHeight, padRow, padTop, padBottom) =>
      h.sizes == Sizes(g.sizes.columns, g.sizes.rowHeight, contentHeight, padRow, padTop, padBottom) && h.itemCount == g.itemCount
    case Data(items, _) =>
      && h.sizes == g.sizes && h.itemCount == items && FocusTaken(g, h)
      && (items > 0 && items != g.itemCount ==>
            FirstOf(h.rowCount - 1, g.sizes.columns) < items <= FirstOf(h.rowCount, g.sizes.columns))
    case FocusOn(p) =>
      if 0 <= p < g.itemCount then h.focused == p && Has(h.board.inuse, p) else h.board == g.board && (p != g.focused ==> h.focused < 0)
    case FocusLater(p) => h == g.(focusWhenAvailable := p)
    case Deleted(v) => v in h.board.deleted && Uses(h.board.inuse, v) == Uses(h.board.free, v) == 0
  }

  /** A step that fills the rendered rows. */
  predicate Fills(g: Grid, s: Step) {
    || s.Scroll? || s.Data?
    || (s.NewSizes? && g.sizes != g.sizes.(contentHeight := s.contentHeight, padRow := s.padRow, padTop := s.padTop,
                                           padBottom := s.padBottom))
  }

  /** As far as the steps are allowed, none fails an assertion, each does what it is to do and leaves the pools in order,
      after an update every rendered position has its view and has been bound to it once, and only the deletion of a view
      changes that. */
  ghost predicate Runs(g: Grid, y: int, steps: seq<Step>)
    requires g.sizes.Valid()
    decreases |steps|
  {
    steps == [] ||
    (Allowed(g, y, steps[0]) ==>
       var r := Apply(g, y, steps[0]);
       && r.Some? && GridInv(r.value, ScrollAfter(y, steps[0]))
       && (Fills(g, steps[0]) || (Covered(g) && !steps[0].Deleted?) ==> Covered(r.value))
       && (Fills(g, steps[0]) ==> BoundOnce(g, r.value)) && Took(g, steps[0], r.value)
       && Runs(r.value, ScrollAfter(y, steps[0]), steps[1..]))
  }

  // ---------- One update ----------

  /** Filling adjacent or overlapping rows, or rows for other data at the same scroll position, recycles only what is there. */
  lemma FillKeeps(g: Grid, start: int, end: int, y: int)
    requires PoolsOk(g)
    requires 0 <= start <= end && Rendered(g.sizes, y, g.rowCount, start, end)
    requires forall p :: Excess(g, start, end, p) ==> Has(g.board.inuse, p)
    ensures
      var r := FillRows(g, start, end);
      r.Some? && GridInv(r.value, y) && Covered(r.value) && BoundOnce(g, r.value) && r.value.sizes == g.sizes
  {
    RefillMeans(g, start, end);
    var r := Refill(g, start, end).value;
    RowOrder(0, start, g.sizes.columns);
    FillBindsOnce(g, start, end);
    hide BoundOnce;
    if 0 <= r.focusWhenAvailable < r.itemCount {
      FocusMeans(r, r.focusWhenAvailable);
    }
  }

  lemma FillBindsOnce(g: Grid, start: int, end: int)
    requires PoolsOk(g) && 0 <= start <= end && Refill(g, start, end).Some?
    ensures BoundOnce(g, FillRows(g, start, end).value)
  {
    RefillMeans(g, start, end);
    var r := Refill(g, start, end).value;
    hide Refill;
    var n := |g.board.bound| + RowsLength(r);
    assert r.board.bound[|g.board.bound|..n] == r.board.bound[|g.board.bound|..];
    if 0 <= r.focusWhenAvailable < r.itemCount {
      FocusBindsOnce(g, r, r.focusWhenAvailable);
    }
  }

  lemma FocusBindsOnce(g: Grid, r: Grid, p: int)
    requires r.sizes.columns > 0 && p == g.focusWhenAvailable && 0 <= p < r.itemCount
    requires BoundOnce(g, r) && |r.board.bound| == |g.board.bound| + RowsLength(r)
    requires InRows(p, r.rowStart, r.rowEnd, r.sizes.columns, r.itemCount) ==> Has(r.board.inuse, p)
    ensures BoundOnce(g, Focus(r, p).(focusWhenAvailable := -1))
  {
    hide FirstOf, Show, Count, ViewAt, BoundInOrder;
    if !Has(r.board.inuse, p) {
      var b := Show(r.board, p, r.sizes.columns);
      ShownBound(r.board, p, r.sizes.columns);
      assert b.bound[|g.board.bound|..|r.board.bound|] == r.board.bound[|g.board.bound|..|r.board.bound|];
      ShownInOrder(r.board, p, r.sizes.columns, r.board.bound[|g.board.bound|..|r.board.bound|],
                   FirstOf(r.rowStart, r.sizes.columns), Min(FirstOf(r.rowEnd + 1, r.sizes.columns), r.itemCount));
    }
  }

  lemma ShownBound(b: Board, p: int, columns: nat)
    requires columns > 0
    ensures var r := Show(b, p, columns); Has(r.inuse, p) && r.bound == b.bound + [Entry(p, ViewAt(r.inuse, p))]
  {
  }

  lemma ShownInOrder(b: Board, p: int, columns: nat, log: seq<Entry>, from: int, end: int)
    requires columns > 0 && BoundInOrder(log, from, end, b.inuse)
    ensures BoundInOrder(log, from, end, Show(b, p, columns).inuse)
  {
    forall x | Has(b.inuse, x)
      ensures Has(Show(b, p, columns).inuse, x) && ViewAt(Show(b, p, columns).inuse, x) == ViewAt(b.inuse, x)
    {
      ShowKeepsViews(b, p, columns, x);
    }
    hide Show, Count, ViewAt;
    SameInOrder(log, from, end, b.inuse, Show(b, p, columns).inuse);
  }

  lemma SameInOrder(log: seq<Entry>, from: int, end: int, s: seq<Entry>, t: seq<Entry>)
    requires BoundInOrder(log, from, end, s) && forall x :: Has(s, x) ==> Has(t, x) && ViewAt(t, x) == ViewAt(s, x)
    ensures BoundInOrder(log, from, end, t)
  {
    hide Has, ViewAt;
    forall i | 0 <= i < |log|
      ensures log[i].position == from + i && Has(t, from + i) && log[i].item == ViewAt(t, from + i)
    {
      var x := from + i;
      assert log[i].position == x && Has(s, x) && log[i].item == ViewAt(s, x);
    }
  }

  lemma AdjacentExcess(g: Grid, start: int, end: int, p: int)
    requires g.sizes.columns > 0 && 0 <= start <= end && Excess(g, start, end, p)
    requires start <= g.rowEnd + 1 && g.rowStart <= end + 1
    ensures Current(g, p)
  {
    RowOrder(start, g.rowEnd + 1, g.sizes.columns);
    RowOrder(Max(0, g.rowStart), end + 1, g.sizes.columns);
  }

  lemma UpdateKeeps(g: Grid, y: int)
    requires PoolsOk(g) && UpdateFits(g, y)
    ensures
      var r := UpdateGrid(g, y, [], 0);
      r.Some? && GridInv(r.value, y) && Covered(r.value) && BoundOnce(g, r.value) && r.value.sizes == g.sizes
  {
    hide BoundOnce;
    var start := RenderStart(g.sizes, y, g.rowCount, 0);
    var end := RenderEnd(g.sizes, y, start, g.rowCount - 1);
    forall p | Excess(g, start, end, p)
      ensures Has(g.board.inuse, p)
    {
      AdjacentExcess(g, start, end, p);
    }
    FillKeeps(g, start, end, y);
  }

  lemma ScrollFits(g: Grid, y: int, y': int)
    requires GridInv(g, y) && Allowed(g, y, Scroll(y'))
    ensures UpdateFits(g, y')
  {
    var start := RenderStart(g.sizes, y', g.rowCount, 0);
    if g.rowStart >= 0 {
      StepsTouch(g.sizes, g.rowCount, y, g.rowStart, g.rowEnd, y', start, RenderEnd(g.sizes, y', start, g.rowCount - 1));
    }
  }

  lemma ScrollKeeps(g: Grid, y: int, y': int)
    requires GridInv(g, y) && Allowed(g, y, Scroll(y'))
    ensures
      var r := UpdateGrid(g, y', [], 0);
      r.Some? && GridInv(r.value, y') && Covered(r.value) && BoundOnce(g, r.value) && r.value.sizes == g.sizes
  {
    ScrollFits(g, y, y');
    UpdateKeeps(g, y');
  }

  lemma NonPositiveTimes(a: nat, b: int)
    requires b <= 0
    ensures a * b <= 0
  {
  }

  lemma CeilDivideCovers(items: int, columns: nat)
    requires columns > 0
    ensures FirstOf(CeilDivide(items, columns), columns) >= items
    ensures items > 0 ==> CeilDivide(items, columns) > 0 && FirstOf(CeilDivide(items, columns) - 1, columns) < items
  {
    var a := items + columns - 1;
    assert a == columns * (a / columns) + a % columns;
    assert FirstOf(a / columns, columns) == columns * (a / columns);
    assert FirstOf(a / columns - 1, columns) == columns * (a / columns) - columns;
    if a / columns <= 0 {
      NonPositiveTimes(columns, a / columns);
    }
  }

  /** With the scroll position unchanged, other data leave nothing to recycle above the rendered rows,
      and below them only rows past the end of the data. */
  lemma DataExcess(g: Grid, items: int, y: int, start: int, end: int, p: int)
    requires g.sizes.Valid() && g.sizes.contentHeight > 0 && 0 <= g.rowStart <= g.rowEnd
    requires Rendered(g.sizes, y, g.rowCount, g.rowStart, g.rowEnd)
    requires 0 <= start <= end && Rendered(g.sizes, y, SetCount(g, items).rowCount, start, end)
    requires p < items
    ensures !Excess(SetCount(g, items), start, end, p)
  {
    var z, rows := g.sizes, SetCount(g, items).rowCount;
    SameScroll(z, y, g.rowCount, g.rowStart, g.rowEnd, rows, start, end);
    if end < g.rowEnd {
      CeilDivideCovers(items, z.columns);
    } else {
      RowOrder(g.rowEnd + 1, end + 1, z.columns);
    }
  }

  /** The rendered rows for more or fewer rows at the same scroll position. */
  lemma SameScroll(z: Sizes, y: int, rows: int, start: int, end: int, rows': int, start': int, end': int)
    requires z.Valid()
    requires 0 <= start <= end && Rendered(z, y, rows, start, end)
    requires 0 <= start' <= end' && Rendered(z, y, rows', start', end')
    ensures start' == start && end < rows
    ensures end' < end ==> end' == rows' - 1
  {
    hide Sizes.NotAbove, Sizes.NotBelow;
    StartMeans(z, y, rows, 0);
    StartMeans(z, y, rows', 0);
    EndMeans(z, y, start, rows - 1);
    EndMeans(z, y, start', rows' - 1);
    if end' < end && end' + 1 < rows' {
      BelowGrows(z, y, end' + 1, end);
    }
  }

  lemma BelowGrows(z: Sizes, y: int, i: int, j: int)
    requires z.Valid() && i <= j
    ensures z.NotBelow(j, y) ==> z.NotBelow(i, y)
  {
    TopsGrow(z, i, j);
  }

  lemma FitChangesStart(n: int, cs: seq<Change>)
    requires AllFit(n, cs)
    ensures StartsValid(cs)
    decreases |cs|
  {
    if cs != [] {
      FitChangesStart(n + cs[0].Delta(), cs[1..]);
      assert forall i :: 0 < i < |cs| ==> cs[i] == cs[1..][i - 1];
    }
  }

  lemma DataKeeps(g: Grid, y: int, items: int, cs: seq<Change>)
    requires GridInv(g, y) && Allowed(g, y, Data(items, cs))
    ensures
      var r := Apply(g, y, Data(items, cs));
      r.Some? && GridInv(r.value, y) && Covered(r.value) && BoundOnce(g, r.value)
  {
    hide Splices;
    var h := SetCount(g, items);
    var z := g.sizes;
    var start := RenderStart(z, y, h.rowCount, 0);
    var end := RenderEnd(z, y, start, h.rowCount - 1);
    FitChangesStart(g.itemCount, cs);
    SplicesKeep(g.board, g.itemCount, cs, z.columns * start, MaxItemEnd(z, start), z.columns);
    SplicesConserve(g.board, g.itemCount, cs, z.columns * start, MaxItemEnd(z, start), z.columns);
    var k := h.(board := Splices(g.board, g.itemCount, cs, z.columns * start, MaxItemEnd(z, start), z.columns));
    forall p | Excess(k, start, end, p)
      ensures false
    {
      if g.rowStart < 0 {
        RowOrder(0, end + 1, z.columns);
      } else {
        DataExcess(g, items, y, start, end, p);
      }
    }
    FillKeeps(k, start, end, y);
    SplicesBindNothing(g.board, g.itemCount, cs, z.columns * start, MaxItemEnd(z, start), z.columns);
    SameBound(g, k, FillRows(k, start, end).value);
  }

  lemma SameBound(g: Grid, k: Grid, r: Grid)
    requires k.board.bound == g.board.bound && k.focusWhenAvailable == g.focusWhenAvailable && BoundOnce(k, r)
    ensures BoundOnce(g, r)
  {
  }

  lemma NewSizesKeep(g: Grid, y: int, s: Step)
    requires GridInv(g, y) && s.NewSizes? && Allowed(g, y, s)
    ensures
      var r := Apply(g, y, s);
      && r.Some? && GridInv(r.value, y) && (Fills(g, s) || Covered(g) ==> Covered(r.value))
      && (Fills(g, s) ==> BoundOnce(g, r.value))
  {
    var z := g.sizes.(contentHeight := s.contentHeight, padRow := s.padRow, padTop := s.padTop, padBottom := s.padBottom);
    if z != g.sizes {
      UpdateKeeps(g.(sizes := z), y);
      SameBound(g, g.(sizes := z), UpdateGrid(g.(sizes := z), y, [], 0).value);
    }
  }

  lemma DeletedKeeps(g: Grid, y: int, v: View)
    requires GridInv(g, y) && v < g.board.created
    ensures GridInv(g.(board := Delete(g.board, v)), y)
  {
    DeleteConserves(g.board, v);
    FewerPositions(g.board.inuse, v);
    forall x
      ensures Has(Drop(g.board.inuse, v), x) ==> Has(g.board.inuse, x)
      ensures Count(Drop(g.board.inuse, v), x) <= Count(g.board.inuse, x) <= 1
    {
    }
  }

  lemma {:induction false} FewerPositions(s: seq<Entry>, v: View)
    ensures forall x :: Count(Drop(s, v), x) <= Count(s, x)
  {
    if s != [] && s[0].item != v {
      FewerPositions(s[1..], v);
    }
  }

  lemma StepKeeps(g: Grid, y: int, s: Step)
    requires GridInv(g, y) && Allowed(g, y, s)
    ensures
      var r := Apply(g, y, s);
      && r.Some? && GridInv(r.value, ScrollAfter(y, s))
      && (Fills(g, s) || (Covered(g) && !s.Deleted?) ==> Covered(r.value))
      && (Fills(g, s) ==> BoundOnce(g, r.value))
  {
    hide UpdateGrid, BoundOnce;
    match s
    case Scroll(y') => ScrollKeeps(g, y, y');
    case NewSizes(_, _, _, _) => NewSizesKeep(g, y, s);
    case Data(items, cs) => DataKeeps(g, y, items, cs);
    case FocusOn(p) => FocusMeans(g, p);
    case FocusLater(p) =>
    case Deleted(v) => DeletedKeeps(g, y, v);
  }

  lemma FillTakes(g: Grid, start: int, end: int)
    requires g.sizes.columns > 0 && 0 <= start <= end && FillRows(g, start, end).Some?
    ensures
      var h := FillRows(g, start, end).value;
      h.sizes == g.sizes && h.itemCount == g.itemCount && h.rowCount == g.rowCount && FocusTaken(g, h)
  {
    hide RecycleExcess, ShowRange;
    var r := Refill(g, start, end).value;
    if 0 <= r.focusWhenAvailable < r.itemCount {
      ShowCounts(r.board, r.focusWhenAvailable, r.sizes.columns);
    }
  }

  lemma StepTakes(g: Grid, y: int, s: Step)
    requires GridInv(g, y) && Allowed(g, y, s) && Apply(g, y, s).Some?
    ensures Took(g, s, Apply(g, y, s).value)
  {
    hide FillRows, Splices, FocusTaken, RenderStart, RenderEnd, MaxItemEnd;
    match s
    case Scroll(y') =>
      var start := RenderStart(g.sizes, y', g.rowCount, 0);
      NoSplices(g, start);
      FillTakes(g, start, RenderEnd(g.sizes, y', start, g.rowCount - 1));
    case NewSizes(_, _, _, _) => NewSizesTake(g, y, s);
    case Data(items, cs) => DataTakes(g, y, items, cs);
    case FocusOn(p) => ShowCounts(g.board, p, g.sizes.columns);
    case FocusLater(p) =>
    case Deleted(v) =>
      DropCounts(g.board.inuse, v);
      DropCounts(g.board.free, v);
  }

  lemma NoSplices(g: Grid, start: int)
    requires g.sizes.Valid()
    ensures
      Splices(g.board, g.itemCount, [], g.sizes.columns * start, MaxItemEnd(g.sizes, start), g.sizes.columns) == g.board
      && CountAfter(g.itemCount, []) == g.itemCount
  {
  }

  lemma NewSizesTake(g: Grid, y: int, s: Step)
    requires GridInv(g, y) && s.NewSizes? && Allowed(g, y, s) && Apply(g, y, s).Some?
    ensures Took(g, s, Apply(g, y, s).value)
  {
    hide FillRows, Splices, FocusTaken, MaxItemEnd;
    var h := g.(sizes := g.sizes.(contentHeight := s.contentHeight, padRow := s.padRow, padTop := s.padTop,
                                  padBottom := s.padBottom));
    if h.sizes != g.sizes {
      var start := RenderStart(h.sizes, y, h.rowCount, 0);
      NoSplices(h, start);
      FillTakes(h, start, RenderEnd(h.sizes, y, start, h.rowCount - 1));
    }
  }

  lemma DataTakes(g: Grid, y: int, items: int, cs: seq<Change>)
    requires GridInv(g, y) && Allowed(g, y, Data(items, cs)) && Apply(g, y, Data(items, cs)).Some?
    ensures Took(g, Data(items, cs), Apply(g, y, Data(items, cs)).value)
  {
    hide FillRows, Splices, MaxItemEnd;
    var h := SetCount(g, items);
    var z := g.sizes;
    var start := RenderStart(z, y, h.rowCount, 0);
    CeilDivideCovers(items, z.columns);
    FillTakes(h.(board := Splices(g.board, g.itemCount, cs, z.columns * start, MaxItemEnd(z, start), z.columns)), start,
              RenderEnd(z, y, start, h.rowCount - 1));
  }

  /** In every run of allowed steps no assertion of the grid view fails, no view is lost and none is at two positions, and
      after each update every position of the rendered rows has its own view and has been bound to it once. */
  lemma {:induction false} RunsSafely(g: Grid, y: int, steps: seq<Step>)
    requires GridInv(g, y)
    ensures Runs(g, y, steps)
    decreases |steps|
  {
    hide Apply, Fills, Covered, BoundOnce, Took;
    if steps != [] && Allowed(g, y, steps[0]) {
      StepKeeps(g, y, steps[0]);
      StepTakes(g, y, steps[0]);
      RunsSafely(Apply(g, y, steps[0]).value, ScrollAfter(y, steps[0]), steps[1..]);
    }
  }

  /** A grid view that has never been updated. */
  function Fresh(z: Sizes, items: nat, rows: int, focusWhenAvailable: int): Grid {
    Grid(z, items, rows, -1, -1, -1, focusWhenAvailable, EMPTY)
  }

  /** So it is for every run from there. */
  lemma FreshRunsSafely(z: Sizes, items: nat, rows: int, focusWhenAvailable: int, y: int, steps: seq<Step>)
    requires z.Valid() && z.contentHeight > 0
    ensures Runs(Fresh(z, items, rows, focusWhenAvailable), y, steps)
  {
    FreshInv(z, items, rows, focusWhenAvailable, y);
    RunsSafely(Fresh(z, items, rows, focusWhenAvailable), y, steps);
  }

  lemma FreshInv(z: Sizes, items: nat, rows: int, focusWhenAvailable: int, y: int)
    requires z.Valid() && z.contentHeight > 0
    ensures GridInv(Fresh(z, items, rows, focusWhenAvailable), y) && Exact(Fresh(z, items, rows, focusWhenAvailable))
  {
  }

  /** After the view of a position has been deleted, the next scroll step fails the assertion that the view is there if and
      only if that position is to be recycled; else the step gives it a view again. */
  lemma DeletionFailsExactly(g: Grid, y: int, y': int, v: View, p: int)
    requires GridInv(g, y) && Covered(g) && Allowed(g, y, Scroll(y')) && Entry(p, v) in g.board.inuse
    ensures
      var h := g.(board := Delete(g.board, v));
      var start := RenderStart(g.sizes, y', g.rowCount, 0);
      var end := RenderEnd(g.sizes, y', start, g.rowCount - 1);
      && (UpdateGrid(h, y', [], 0).None? <==> Excess(h, start, end, p))
      && (UpdateGrid(h, y', [], 0).Some? ==> Covered(UpdateGrid(h, y', [], 0).value))
  {
    var h := g.(board := Delete(g.board, v));
    var start := RenderStart(g.sizes, y', g.rowCount, 0);
    var end := RenderEnd(g.sizes, y', start, g.rowCount - 1);
    DeletedPosition(g, v, p);
    DeletedKeeps(g, y, v);
    ScrollFits(g, y, y');
    RefillMeans(h, start, end);
    if Excess(h, start, end, p) {
      assert !Has(h.board.inuse, p);
    } else {
      UpdateKeeps(h, y');
    }
  }

  lemma DeletedPosition(g: Grid, v: View, p: int)
    requires PoolsOk(g) && Entry(p, v) in g.board.inuse
    ensures v < g.board.created
    ensures forall x :: Has(Delete(g.board, v).inuse, x) <==> Has(g.board.inuse, x) && x != p
  {
    var s := g.board.inuse;
    Member(s, Entry(p, v));
    assert Uses(s, v) + Uses(g.board.free, v) == 1;
    var q := DropPositions(s, v);
    OnePosition(s, v, p, q);
    forall x
      ensures Has(Delete(g.board, v).inuse, x) <==> Has(s, x) && x != p
    {
      assert Count(s, x) <= 1;
    }
  }

  lemma {:induction false} OnePosition(s: seq<Entry>, v: View, p: int, q: int)
    requires Uses(s, v) == 1 && Entry(p, v) in s && Entry(q, v) in s
    ensures p == q
  {
    if s[0].item == v {
      if Entry(p, v) in s[1..] {
        Member(s[1..], Entry(p, v));
      }
      if Entry(q, v) in s[1..] {
        Member(s[1..], Entry(q, v));
      }
    } else {
      OnePosition(s[1..], v, p, q);
    }
  }

  /** An update fails an assertion exactly if a change starts below zero, the changes do not lead to the number of items, or
      a position to be recycled has no view when they have been made. */
  lemma UpdateFailsExactly(g: Grid, y: int, cs: seq<Change>, n: int)
    requires g.sizes.Valid() && g.sizes.contentHeight > 0 && Conserved(g.board) && cs != []
    requires
      var start := RenderStart(g.sizes, y, g.rowCount, 0);
      Distinct(Splices(g.board, n, cs, g.sizes.columns * start, MaxItemEnd(g.sizes, start), g.sizes.columns).inuse)
    ensures
      var start := RenderStart(g.sizes, y, g.rowCount, 0);
      var end := RenderEnd(g.sizes, y, start, g.rowCount - 1);
      var b := Splices(g.board, n, cs, g.sizes.columns * start, MaxItemEnd(g.sizes, start), g.sizes.columns);
      UpdateGrid(g, y, cs, n).None? <==>
        || (exists c :: c in cs && c.start < 0) || CountAfter(n, cs) != g.itemCount
        || (0 <= start <= end && exists p :: Excess(g, start, end, p) && !Has(b.inuse, p))
  {
    var start := RenderStart(g.sizes, y, g.rowCount, 0);
    var end := RenderEnd(g.sizes, y, start, g.rowCount - 1);
    var b := Splices(g.board, n, cs, g.sizes.columns * start, MaxItemEnd(g.sizes, start), g.sizes.columns);
    SplicesConserve(g.board, n, cs, g.sizes.columns * start, MaxItemEnd(g.sizes, start), g.sizes.columns);
    hide Splices, CountAfter, Excess, Refill, MaxItemEnd, Conserved, Distinct;
    if StartsValid(cs) {
      assert forall c :: c in cs ==> c.start >= 0;
    } else {
      var i :| 0 <= i < |cs| && cs[i].start < 0;
      assert cs[i] in cs;
    }
    if 0 <= start <= end {
      RefillMeans(g.(board := b), start, end);
      SameExcess(g, b, start, end);
    }
  }

  lemma SameExcess(g: Grid, b: Board, start: int, end: int)
    ensures forall p :: Excess(g.(board := b), start, end, p) <==> Excess(g, start, end, p)
  {
  }

  // ---------- Scrolling alone ----------

  /** While only scrolling, with no focus pending, the pool in use is exactly the rendered window. */
  lemma ScrollExact(g: Grid, y: int, y': int)
    requires GridInv(g, y) && Allowed(g, y, Scroll(y')) && Exact(g)
    requires !(0 <= g.focusWhenAvailable < g.itemCount)
    ensures var r := UpdateGrid(g, y', [], 0);
      && r.Some? && Exact(r.value) && BoundOnce(g, r.value)
      && Rendered(g.sizes, y', g.rowCount, r.value.rowStart, r.value.rowEnd)
      && r.value.focusWhenAvailable == g.focusWhenAvailable && r.value.itemCount == g.itemCount
  {
    ScrollKeeps(g, y, y');
    var start := RenderStart(g.sizes, y', g.rowCount, 0);
    var end := RenderEnd(g.sizes, y', start, g.rowCount - 1);
    RefillMeans(g, start, end);
    var r := Refill(g, start, end).value;
    forall p
      ensures Has(r.board.inuse, p) <==> Current(r, p)
    {
      if Current(g, p) && !Excess(g, start, end, p) {
        OldNotExcess(g, start, end, p);
      }
    }
  }

  /** After every step of a run of scrolling the pool in use is exactly the rendered window, and in that step each of its
      positions has been bound once. */
  ghost predicate ScrollsExactly(g: Grid, y: int, ys: seq<int>)
    requires g.sizes.Valid()
    decreases |ys|
  {
    ys == [] ||
    (Allowed(g, y, Scroll(ys[0])) ==>
       var r := UpdateGrid(g, ys[0], [], 0);
       && r.Some? && Exact(r.value) && BoundOnce(g, r.value)
       && Rendered(g.sizes, ys[0], g.rowCount, r.value.rowStart, r.value.rowEnd)
       && r.value.sizes == g.sizes && ScrollsExactly(r.value, ys[0], ys[1..]))
  }

  lemma {:induction false} ScrollingStaysExact(g: Grid, y: int, ys: seq<int>)
    requires GridInv(g, y) && Exact(g) && !(0 <= g.focusWhenAvailable < g.itemCount)
    ensures ScrollsExactly(g, y, ys)
    decreases |ys|
  {
    hide UpdateGrid, Allowed, Exact, BoundOnce, Rendered;
    if ys != [] && Allowed(g, y, Scroll(ys[0])) {
      ScrollKeeps(g, y, ys[0]);
      ScrollExact(g, y, ys[0]);
      ScrollingStaysExact(UpdateGrid(g, ys[0], [], 0).value, ys[0], ys[1..]);
    }
  }

  /** So it is for every run of scrolling from a grid view that has never been updated. */
  lemma FreshScrollsExactly(z: Sizes, items: nat, rows: int, y: int, ys: seq<int>)
    requires z.Valid() && z.contentHeight > 0
    ensures ScrollsExactly(Fresh(z, items, rows, -1), y, ys)
  {
    FreshInv(z, items, rows, -1, y);
    ScrollingStaysExact(Fresh(z, items, rows, -1), y, ys);
  }

  lemma OldNotExcess(g: Grid, start: int, end: int, p: int)
    requires 0 <= start <= end && g.sizes.columns > 0
    requires Current(g, p) && !Excess(g, start, end, p)
    ensures InRows(p, start, end, g.sizes.columns, g.itemCount)
  {
  }

  /** With the window exactly in use, the assertion fails if and only if the new rows neither overlap
      nor touch the old ones. */
  lemma AssertionExactly(g: Grid, y: int, y': int)
    requires GridInv(g, y) && Exact(g) && Shows(g, y')
    requires g.itemCount > 0 && g.rowCount == CeilDivide(g.itemCount, g.sizes.columns)
    ensures
      var start := RenderStart(g.sizes, y', g.rowCount, 0);
      var end := RenderEnd(g.sizes, y', start, g.rowCount - 1);
      UpdateGrid(g, y', [], 0).None? <==> start > g.rowEnd + 1 || g.rowStart > end + 1
  {
    var c := g.sizes.columns;
    var start := RenderStart(g.sizes, y', g.rowCount, 0);
    var end := RenderEnd(g.sizes, y', start, g.rowCount - 1);
    RefillMeans(g, start, end);
    CeilDivideCovers(g.itemCount, c);
    StartMeans(g.sizes, y', g.rowCount, 0);
    if g.rowStart >= 0 {
      EndMeans(g.sizes, y, g.rowStart, g.rowCount - 1);
    }
    if start > g.rowEnd + 1 {
      MissingRow(g, start, end, g.rowEnd + 1);
    } else if g.rowStart > end + 1 {
      MissingRow(g, start, end, end + 1);
    } else {
      forall p | Excess(g, start, end, p)
        ensures Has(g.board.inuse, p)
      {
        AdjacentExcess(g, start, end, p);
      }
    }
  }

  /** The first position of a row between the old rows and the new ones is to be recycled, but not in use. */
  lemma MissingRow(g: Grid, start: int, end: int, row: int)
    requires g.sizes.columns > 0 && 0 <= start <= end && Exact(g)
    requires FirstOf(g.rowCount - 1, g.sizes.columns) < g.itemCount && 0 <= row < g.rowCount
    requires (g.rowEnd + 1 == row < start && g.rowStart <= g.rowEnd + 1) || end + 1 == row < g.rowStart <= g.rowEnd
    ensures exists p :: Excess(g, start, end, p) && !Has(g.board.inuse, p)
  {
    var c := g.sizes.columns;
    var p := FirstOf(row, c);
    RowOrder(row, g.rowCount - 1, c);
    assert FirstOf(row + 1, c) == p + c;
    if row < start {
      RowOrder(row + 1, start, c);
      RowOrder(Max(0, g.rowStart), row, c);
    } else {
      RowOrder(row + 1, g.rowStart, c);
      RowOrder(row + 1, g.rowEnd + 1, c);
    }
    assert Excess(g, start, end, p) && !Current(g, p);
  }
}
