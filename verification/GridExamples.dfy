/** Runs of the grid view from its creation in which a splice of the data goes wrong. */
module GridExamples {
  import opened GridBoard
  import opened GridSplice
  import opened GridSpliceTheorems
  import opened GridPositions
  import opened GridWindow
  import opened GridFill
  import opened GridRuns

  /** The first of the items is removed. */
  const FIRST_REMOVED := Change(0, 1, 0)

  /** An item is put in front of the first. */
  const FIRST_ADDED := Change(0, 0, 1)

  /** Step s, at scroll position y, succeeds and makes r of g. */
  ghost predicate Becomes(g: Grid, y: int, s: Step, r: Grid) {
    && g.sizes.Valid() && (s.NewSizes? ==> s.padRow >= 0 && s.padTop >= 0 && s.padBottom >= 0)
    && Apply(g, y, s) == Some(r)
  }

  /** View v is the one at position p. */
  ghost predicate Shown(g: Grid, p: int, v: View) {
    Has(g.board.inuse, p) && ViewAt(g.board.inuse, p) == v
  }

  /** The step is one of those that the run theorems are about. */
  ghost predicate IsAllowed(g: Grid, y: int, s: Step) {
    g.sizes.Valid() && Allowed(g, y, s)
  }

  /** A grid view in which rows 0 to end have been filled, and nothing else is in use. */
  ghost predicate Filled(g: Grid, z: Sizes, y: int, items: int, rows: int, end: int) {
    && GridInv(g, y) && Exact(g) && g.sizes == z && g.itemCount == items && g.rowCount == rows
    && g.rowStart == 0 && g.rowEnd == end && g.focusWhenAvailable == -1
  }

  /** The first update of a grid view. */
  lemma FirstUpdate(z: Sizes, y: int, items: nat, rows: int, end: int)
    requires z.Valid() && z.contentHeight > 0 && 0 <= end && Rendered(z, y, rows, 0, end)
    ensures var r := Apply(Fresh(z, items, rows, -1), 0, Scroll(y)); r.Some? && Filled(r.value, z, y, items, rows, end)
  {
    var g := Fresh(z, items, rows, -1);
    FreshInv(z, items, rows, -1, 0);
    ScrollKeeps(g, 0, y);
    ScrollExact(g, 0, y);
  }

  /** One splice with the scroll position unchanged, as far as it goes before the rows are filled. */
  lemma AfterSplice(g: Grid, y: int, items: int, c: Change, start: int, end: int)
    requires PoolsOk(g) && c.Fits(g.itemCount) && items == g.itemCount + c.Delta()
    requires 0 <= start <= end && Rendered(g.sizes, y, SetCount(g, items).rowCount, start, end)
    ensures
      var z := g.sizes;
      var b := Splice(g.board, g.itemCount, c, z.columns * start, MaxItemEnd(z, start), z.columns);
      && Conserved(b) && Distinct(b.inuse)
      && Apply(g, y, Data(items, [c])) == FillRows(SetCount(g, items).(board := b), start, end)
  {
    var z := g.sizes;
    var b := Splice(g.board, g.itemCount, c, z.columns * start, MaxItemEnd(z, start), z.columns);
    SpliceDistinct(g.board, g.itemCount, c, z.columns * start, MaxItemEnd(z, start), z.columns);
    SplicesConserve(g.board, g.itemCount, [c], z.columns * start, MaxItemEnd(z, start), z.columns);
    assert [c][1..] == [];
    assert Splices(g.board, g.itemCount, [c], z.columns * start, MaxItemEnd(z, start), z.columns) == b;
    assert CountAfter(g.itemCount, [c]) == items;
  }

  // ---------- a view behind max_item_end ----------

  /** One column; with the content scrolled to 125, rows 0 to 4 of five or six are rendered, or 0 to 3 of four, and
      max_item_end is the end of row 3. */
  ghost predicate FiveRendered(z: Sizes) {
    && z.Valid() && z.contentHeight > 0 && z.columns == 1
    && Rendered(z, 125, 5, 0, 4) && Rendered(z, 125, 6, 0, 4) && Rendered(z, 125, 4, 0, 3) && MaxItemEnd(z, 0) == 3
  }

  /** For example rows of height 100 in a view of height 270. */
  lemma FiveRenderedIn270()
    ensures FiveRendered(Plain(100, 270))
  {
    hide Rendered, Sizes.RowTop, Sizes.Extend, MaxItemEnd;
    RenderedBeyond(5);
    RenderedBeyond(6);
    PlainTops(100, 0);
    PlainTops(100, 3);
    IsRendered(Plain(100, 270), 125, 4, 0, 3);
  }

  /** Five items are there, and the rows are filled for the first time: positions 0 to 4 are in use. */
  lemma FiveFilled(z: Sizes)
    requires FiveRendered(z)
    ensures var r := Apply(Fresh(z, 5, 5, -1), 0, Scroll(125)); r.Some? && Filled(r.value, z, 125, 5, 5, 4)
  {
    FirstUpdate(z, 125, 5, 5, 4);
  }

  /** When then the first item is removed, the view of position 4 stays in use there, with four items left. */
  lemma StaleViewStays(g: Grid)
    requires FiveRendered(g.sizes) && Filled(g, g.sizes, 125, 5, 5, 4)
    ensures var r := Apply(g, 125, Data(4, [FIRST_REMOVED]));
      r.Some? && r.value.itemCount == 4 && Has(r.value.board.inuse, 4)
  {
    FiveCurrent(g);
    hide Splice, SetCount, Apply, FillRows, MaxItemEnd, Rendered, Count, Exact;
    var b := Splice(g.board, 5, FIRST_REMOVED, 0, 3, 1);
    FourRowsLeft(g);
    AfterSplice(g, 125, 4, FIRST_REMOVED, 0, 3);
    BehindWindow(g.board, 5, FIRST_REMOVED, 0, 3, 1, 4);
    FillsFourRows(SetCount(g, 4).(board := b));
  }

  /** From the creation of the grid view on: five items are shown, the first is removed, and a view is left at a position
      without an item. */
  lemma StaleView() returns (z: Sizes, g: Grid, r: Grid)
    ensures z == Plain(100, 270)
    ensures Becomes(Fresh(z, 5, 5, -1), 0, Scroll(125), g) && Becomes(g, 125, Data(4, [FIRST_REMOVED]), r)
    ensures r.itemCount == 4 && Has(r.board.inuse, 4)
  {
    hide *;
    z := Plain(100, 270);
    FiveRenderedIn270();
    g, r := StaleViewIn(z);
  }

  lemma StaleViewIn(z: Sizes) returns (g: Grid, r: Grid)
    requires FiveRendered(z)
    ensures Becomes(Fresh(z, 5, 5, -1), 0, Scroll(125), g) && Becomes(g, 125, Data(4, [FIRST_REMOVED]), r)
    ensures r.itemCount == 4 && Has(r.board.inuse, 4)
  {
    hide Apply, Rendered, MaxItemEnd, Count;
    FiveFilled(z);
    g := Apply(Fresh(z, 5, 5, -1), 0, Scroll(125)).value;
    StaleViewStays(g);
    r := Apply(g, 125, Data(4, [FIRST_REMOVED])).value;
  }

  /** When instead an item is put in front, which is allowed, the view of the last item stays at position 4, and so goes to
      the item that was at position 3, while its own item, now at position 5, has none. */
  lemma LastViewStays(g: Grid)
    requires FiveRendered(g.sizes) && Filled(g, g.sizes, 125, 5, 5, 4)
    ensures Allowed(g, 125, Data(6, [FIRST_ADDED])) && Has(g.board.inuse, 4) && !Wanted(g.board.inuse, FIRST_ADDED, 0, 3, 4)
    ensures var r := Apply(g, 125, Data(6, [FIRST_ADDED]));
      && r.Some? && r.value.itemCount == 6 && Has(r.value.board.inuse, 4)
      && ViewAt(r.value.board.inuse, 4) == ViewAt(g.board.inuse, 4) && !Has(r.value.board.inuse, 5)
  {
    hide Allowed, Wanted, Apply;
    FiveCurrent(g);
    SixRows(g);
    FirstAddedAllowed(g);
    LastNotWanted(g.board.inuse);
    LastViewRefilled(g);
  }

  /** What a splice does behind the window. */
  lemma BehindSplice(b: Board, n: int, c: Change, lo: int, hi: int, columns: nat, p: int)
    requires Distinct(b.inuse) && c.Fits(n) && columns > 0 && p > hi && !(c.start <= p < c.MoveFrom())
    ensures var s := Splice(b, n, c, lo, hi, columns).inuse;
      (Has(s, p) <==> Has(b.inuse, p)) && (Has(b.inuse, p) ==> ViewAt(s, p) == ViewAt(b.inuse, p))
  {
    BehindWindow(b, n, c, lo, hi, columns, p);
    if Has(b.inuse, p) {
      StaysBehind(b, n, c, lo, hi, columns, p);
    }
  }

  lemma LastViewRefilled(g: Grid)
    requires FiveRendered(g.sizes) && Filled(g, g.sizes, 125, 5, 5, 4)
    requires Has(g.board.inuse, 4) && SetCount(g, 6) == g.(itemCount := 6, rowCount := 6)
    ensures var r := Apply(g, 125, Data(6, [FIRST_ADDED]));
      && r.Some? && r.value.itemCount == 6 && Has(r.value.board.inuse, 4)
      && ViewAt(r.value.board.inuse, 4) == ViewAt(g.board.inuse, 4) && !Has(r.value.board.inuse, 5)
  {
    hide *;
    FiveMeans(g);
    var z := g.sizes;
    var hi := MaxItemEnd(z, 0);
    var b := Splice(g.board, g.itemCount, FIRST_ADDED, z.columns * 0, hi, z.columns);
    FirstAddedFits(g);
    AfterSplice(g, 125, 6, FIRST_ADDED, 0, 4);
    BehindSplice(g.board, g.itemCount, FIRST_ADDED, z.columns * 0, hi, z.columns, 4);
    BehindSplice(g.board, g.itemCount, FIRST_ADDED, z.columns * 0, hi, z.columns, 5);
    FillsFiveRows(SetCount(g, 6).(board := b));
  }

  lemma FirstAddedFits(g: Grid)
    requires g.itemCount == 5
    ensures FIRST_ADDED.Fits(g.itemCount) && g.itemCount + FIRST_ADDED.Delta() == 6
    ensures !(FIRST_ADDED.start <= 4 < FIRST_ADDED.MoveFrom()) && !(FIRST_ADDED.start <= 5 < FIRST_ADDED.MoveFrom())
  {
  }

  lemma FiveMeans(g: Grid)
    requires FiveRendered(g.sizes) && Filled(g, g.sizes, 125, 5, 5, 4)
    ensures PoolsOk(g) && g.sizes.Valid() && g.sizes.columns == 1 && MaxItemEnd(g.sizes, 0) == 3 && Rendered(g.sizes, 125, 6, 0, 4)
    ensures Conserved(g.board) && Distinct(g.board.inuse) && !Has(g.board.inuse, 5)
    ensures g.itemCount == 5 && g.rowCount == 5 && g.rowStart == 0 && g.rowEnd == 4 && g.focusWhenAvailable == -1
  {
    hide Rendered, MaxItemEnd, Count;
  }

  lemma LastNotWanted(s: seq<Entry>)
    ensures !Wanted(s, FIRST_ADDED, 0, 3, 4)
  {
  }

  lemma SixRows(g: Grid)
    requires g.sizes.columns == 1 && g.itemCount == 5 && g.rowCount == 5
    ensures SetCount(g, 6) == g.(itemCount := 6, rowCount := 6)
  {
    assert CeilDivide(6, 1) == 6;
  }

  lemma FirstAddedAllowed(g: Grid)
    requires FiveRendered(g.sizes) && Filled(g, g.sizes, 125, 5, 5, 4) && SetCount(g, 6) == g.(itemCount := 6, rowCount := 6)
    ensures Allowed(g, 125, Data(6, [FIRST_ADDED]))
  {
    hide SetCount, MaxItemEnd, Count;
    OneSplice(5, FIRST_ADDED);
  }

  lemma OneSplice(n: int, c: Change)
    requires c.Fits(n)
    ensures AllFit(n, [c]) && CountAfter(n, [c]) == n + c.Delta()
    ensures forall p :: p < n + c.Delta() ==> StaysIn(p, n, [c])
  {
    assert [c][1..] == [];
  }

  /** Filling the same rows again recycles nothing, leaves the views where they are and adds none behind. */
  lemma FillsFiveRows(h: Grid)
    requires Conserved(h.board) && Distinct(h.board.inuse) && h.sizes.columns == 1 && h.itemCount == 6
    requires h.rowStart == 0 && h.rowEnd == 4 && h.focusWhenAvailable == -1
    requires Has(h.board.inuse, 4) && !Has(h.board.inuse, 5)
    ensures var r := FillRows(h, 0, 4);
      && r.Some? && r.value.itemCount == 6 && Has(r.value.board.inuse, 4) && !Has(r.value.board.inuse, 5)
      && ViewAt(r.value.board.inuse, 4) == ViewAt(h.board.inuse, 4)
  {
    hide ShowRange, Count, ViewAt;
    assert RecycleExcess(h, 0, 4) == Some(h.board);
    ShowRangeMeans(h.board, 0, 5, 1);
  }

  /** From the creation of the grid view on: five items are shown, and one is put in front of them. */
  lemma MisplacedView() returns (z: Sizes, g: Grid, r: Grid, v: View)
    ensures z == Plain(100, 270)
    ensures Becomes(Fresh(z, 5, 5, -1), 0, Scroll(125), g) && Becomes(g, 125, Data(6, [FIRST_ADDED]), r)
    ensures IsAllowed(g, 125, Data(6, [FIRST_ADDED])) && Shown(g, 4, v) && Shown(r, 4, v) && !Has(r.board.inuse, 5)
  {
    hide *;
    z := Plain(100, 270);
    FiveRenderedIn270();
    g, r, v := MisplacedViewIn(z);
  }

  lemma MisplacedViewIn(z: Sizes) returns (g: Grid, r: Grid, v: View)
    requires FiveRendered(z)
    ensures Becomes(Fresh(z, 5, 5, -1), 0, Scroll(125), g) && Becomes(g, 125, Data(6, [FIRST_ADDED]), r)
    ensures IsAllowed(g, 125, Data(6, [FIRST_ADDED])) && Shown(g, 4, v) && Shown(r, 4, v) && !Has(r.board.inuse, 5)
  {
    hide Apply, Rendered, MaxItemEnd, Count, ViewAt, Allowed;
    FiveFilled(z);
    g := Apply(Fresh(z, 5, 5, -1), 0, Scroll(125)).value;
    LastViewStays(g);
    r := Apply(g, 125, Data(6, [FIRST_ADDED])).value;
    v := ViewAt(g.board.inuse, 4);
  }

  lemma FiveCurrent(g: Grid)
    requires Exact(g) && g.sizes.columns == 1 && g.itemCount == 5 && g.rowStart == 0 && g.rowEnd == 4
    ensures Has(g.board.inuse, 4)
  {
    assert Current(g, 4);
  }

  lemma FourRowsLeft(g: Grid)
    requires g.sizes.columns == 1 && g.itemCount == 5 && g.rowCount == 5
    ensures SetCount(g, 4) == g.(itemCount := 4, rowCount := 4)
  {
    assert CeilDivide(4, 1) == 4;
  }

  /** Filling the four rows that are left recycles nothing. */
  lemma FillsFourRows(h: Grid)
    requires Conserved(h.board) && Distinct(h.board.inuse) && h.sizes.columns == 1 && h.itemCount == 4
    requires h.rowStart == 0 && h.rowEnd == 4 && h.focusWhenAvailable == -1 && Has(h.board.inuse, 4)
    ensures var r := FillRows(h, 0, 3); r.Some? && r.value.itemCount == 4 && Has(r.value.board.inuse, 4)
  {
    RefillMeans(h, 0, 3);
    assert forall p :: !Excess(h, 0, 3, p);
  }

  // ---------- a gap ----------

  /** Two columns; of two rows the first is rendered, and max_item_end is the end of the second. */
  ghost predicate OneRendered(z: Sizes) {
    z.Valid() && z.contentHeight > 0 && z.columns == 2 && Rendered(z, 0, 2, 0, 0) && MaxItemEnd(z, 0) == 3
  }

  /** For example rows of height 100 in a view of height 70. */
  lemma OneRenderedIn70()
    ensures OneRendered(Plain(100, 70).(columns := 2))
  {
    hide Rendered, Sizes.RowTop, Sizes.Extend;
    PlainTops(100, 0);
    SameTops(Plain(100, 70), 2, 0);
    SameTops(Plain(100, 70), 2, 1);
    assert CeilDivide(95, 100) == 1;
    IsRendered(Plain(100, 70).(columns := 2), 0, 2, 0, 0);
  }

  lemma SameTops(z: Sizes, columns: nat, i: int)
    ensures z.(columns := columns).RowTop(i) == z.RowTop(i) && z.(columns := columns).Extend() == z.Extend()
  {
  }

  /** Four items are there, and the first row is filled: positions 0 and 1 are in use. */
  lemma FirstRowFilled(z: Sizes)
    requires OneRendered(z)
    ensures var r := Apply(Fresh(z, 4, 2, -1), 0, Scroll(0)); r.Some? && Filled(r.value, z, 0, 4, 2, 0)
  {
    FirstUpdate(z, 0, 4, 2, 0);
  }

  /** Then the last item gets the focus although it is not on the screen: positions 0, 1 and 3 are in use. */
  lemma FocusLeavesGap(g: Grid)
    requires OneRendered(g.sizes) && Filled(g, g.sizes, 0, 4, 2, 0)
    ensures var h := Focus(g, 3);
      && Apply(g, 0, FocusOn(3)) == Some(h) && GridInv(h, 0) && forall x :: Has(h.board.inuse, x) <==> x in {0, 1, 3}
  {
    FirstRowCurrent(g);
    hide Focus, Current, Rendered;
    StepKeeps(g, 0, FocusOn(3));
    FocusMeans(g, 3);
  }

  lemma FirstRowCurrent(g: Grid)
    requires g.sizes.columns == 2 && g.itemCount == 4 && g.rowStart == 0 && g.rowEnd == 0
    ensures forall x :: Current(g, x) <==> x in {0, 1}
  {
  }

  /** When then the first item is removed, the focused view should go to position 2, and position 1 be left to be filled; but
      a view stays at or goes on to position 1, and none is left at position 2. */
  lemma GapLosesAPosition(b: Board)
    requires Conserved(b) && Distinct(b.inuse) && forall x :: Has(b.inuse, x) <==> x in {0, 1, 3}
    ensures
      var t := Splice(b, 4, FIRST_REMOVED, 0, 3, 2).inuse;
      && Wanted(b.inuse, FIRST_REMOVED, 0, 3, 2) && !Has(t, 2)
      && !Wanted(b.inuse, FIRST_REMOVED, 0, 3, 1) && Has(t, 1)
  {
    var s := b.inuse;
    var m := PassOf(FIRST_REMOVED, 4, 0, 3, 0);
    assert Has(s, 3) && !Has(s, 2) && Has(s, 1);
    assert Moves(s, 3, 1, m);
    assert Moves(s, 2, 1, m);
    SpliceCounts(b, 4, FIRST_REMOVED, 0, 3, 2, 1);
    SpliceCounts(b, 4, FIRST_REMOVED, 0, 3, 2, 2);
  }

  /** Filling the rows does not bring it back: the item at position 2 has no view any more. */
  lemma GapStays(g: Grid)
    requires GridInv(g, 0) && OneRendered(g.sizes) && g.itemCount == 4 && g.rowCount == 2
    requires g.rowStart == 0 && g.rowEnd == 0 && g.focusWhenAvailable == -1
    requires forall x :: Has(g.board.inuse, x) <==> x in {0, 1, 3}
    ensures var r := Apply(g, 0, Data(3, [FIRST_REMOVED])); r.Some? && !Has(r.value.board.inuse, 2)
  {
    hide Splice, SetCount, Apply, FillRows, MaxItemEnd, Rendered, Count;
    var b := Splice(g.board, 4, FIRST_REMOVED, 0, 3, 2);
    GapLosesAPosition(g.board);
    TwoRowsStill(g);
    AfterSplice(g, 0, 3, FIRST_REMOVED, 0, 0);
    FillsFirstRow(SetCount(g, 3).(board := b));
  }

  lemma TwoRowsStill(g: Grid)
    requires g.sizes.columns == 2 && g.itemCount == 4 && g.rowCount == 2
    ensures SetCount(g, 3) == g.(itemCount := 3)
  {
    assert CeilDivide(3, 2) == 2;
  }

  /** Filling the first row again recycles nothing and adds nothing behind it. */
  lemma FillsFirstRow(h: Grid)
    requires Conserved(h.board) && Distinct(h.board.inuse) && h.sizes.columns == 2 && h.itemCount == 3
    requires h.rowStart == 0 && h.rowEnd == 0 && h.focusWhenAvailable == -1 && !Has(h.board.inuse, 2)
    ensures FillRows(h, 0, 0).Some? && !Has(FillRows(h, 0, 0).value.board.inuse, 2)
  {
    RefillMeans(h, 0, 0);
    assert forall p :: !Excess(h, 0, 0, p);
  }

  lemma LostViewIn(z: Sizes) returns (g: Grid, h: Grid, r: Grid)
    requires OneRendered(z)
    ensures Becomes(Fresh(z, 4, 2, -1), 0, Scroll(0), g) && Becomes(g, 0, FocusOn(3), h)
    ensures Becomes(h, 0, Data(3, [FIRST_REMOVED]), r)
    ensures Wanted(h.board.inuse, FIRST_REMOVED, 0, 3, 2) && !Has(r.board.inuse, 2)
  {
    FirstRowFilled(z);
    g := Apply(Fresh(z, 4, 2, -1), 0, Scroll(0)).value;
    FocusLeavesGap(g);
    h := Focus(g, 3);
    FocusMeans(g, 3);
    hide Apply, Splice, Wanted, Focus, Count, Exact, Covered, Rendered;
    GapLosesAPosition(h.board);
    GapStays(h);
    r := Apply(h, 0, Data(3, [FIRST_REMOVED])).value;
  }

  /** From the creation of the grid view on: the first row of two is shown, the last item gets the focus, the first item is
      removed, and the focused item has lost its view. */
  lemma LostView() returns (z: Sizes, g: Grid, h: Grid, r: Grid)
    ensures z == Plain(100, 70).(columns := 2)
    ensures Becomes(Fresh(z, 4, 2, -1), 0, Scroll(0), g) && Becomes(g, 0, FocusOn(3), h)
    ensures Becomes(h, 0, Data(3, [FIRST_REMOVED]), r)
    ensures Wanted(h.board.inuse, FIRST_REMOVED, 0, 3, 2) && !Has(r.board.inuse, 2)
  {
    hide *;
    z := Plain(100, 70).(columns := 2);
    OneRenderedIn70();
    g, h, r := LostViewIn(z);
  }

  // ---------- swapped views ----------

  /** The entries of new views for positions from to end - 1, as they are put in front of each other. */
  function NewEntries(from: int, end: int, v: View): seq<Entry>
    decreases end - from
  {
    if from >= end then [] else NewEntries(from + 1, end, v + 1) + [Entry(from, v)]
  }

  /** Where nothing can be recycled and nothing is in use, filling puts new views there, the last position first. */
  lemma {:induction false} FillOrder(b: Board, from: int, end: int, columns: nat)
    requires columns > 0 && b.free == [] && forall p :: from <= p < end ==> !Has(b.inuse, p)
    ensures ShowRange(b, from, end, columns).inuse == NewEntries(from, end, b.created) + b.inuse
    decreases end - from
  {
    if from < end {
      var a := Show(b, from, columns);
      ShowCounts(b, from, columns);
      assert a.inuse == [Entry(from, b.created)] + b.inuse && a.created == b.created + 1;
      forall p | from + 1 <= p < end
        ensures !Has(a.inuse, p)
      {
        assert Count(a.inuse, p) == Count(b.inuse, p) && !Has(b.inuse, p);
      }
      FillOrder(a, from + 1, end, columns);
      assert NewEntries(from + 1, end, b.created + 1) + ([Entry(from, b.created)] + b.inuse)
          == NewEntries(from, end, b.created) + b.inuse;
    } else {
      assert NewEntries(from, end, b.created) + b.inuse == b.inuse;
    }
  }

  /** One column; three rows are rendered of three, and two of two, and max_item_end covers them. */
  ghost predicate ThreeRendered(z: Sizes) {
    && z.Valid() && z.contentHeight > 0 && z.columns == 1
    && Rendered(z, 0, 3, 0, 2) && Rendered(z, 0, 2, 0, 1) && MaxItemEnd(z, 0) >= 2
  }

  /** For example rows of height 100 in a view of height 250. */
  lemma ThreeRenderedIn250()
    ensures ThreeRendered(Plain(100, 250))
  {
    hide Rendered, Sizes.RowTop, Sizes.Extend;
    PlainTops(100, 0);
    PlainTops(100, 1);
    PlainTops(100, 2);
    assert CeilDivide(275, 100) == 3;
    IsRendered(Plain(100, 250), 0, 3, 0, 2);
    IsRendered(Plain(100, 250), 0, 2, 0, 1);
  }

  lemma ThreeFilled(z: Sizes)
    requires ThreeRendered(z)
    ensures var r := Apply(Fresh(z, 3, 3, -1), 0, Scroll(0));
      r.Some? && Filled(r.value, z, 0, 3, 3, 2) && r.value.board.inuse == [Entry(2, 2), Entry(1, 1), Entry(0, 0)]
  {
    FirstUpdate(z, 0, 3, 3, 2);
    var g := Fresh(z, 3, 3, -1);
    FillOrder(EMPTY, 0, 3, 1);
    ThreeEntries();
    hide ShowRange, Rendered, MaxItemEnd;
    assert RecycleExcess(g, 0, 2) == Some(EMPTY);
  }

  lemma ThreeEntries()
    ensures NewEntries(0, 3, 0) + [] == [Entry(2, 2), Entry(1, 1), Entry(0, 0)]
  {
    assert NewEntries(2, 3, 2) == [] + [Entry(2, 2)];
    assert NewEntries(1, 3, 1) == [Entry(2, 2)] + [Entry(1, 1)];
  }

  /** From the creation of the grid view on: three items are shown, the first is removed, and the other two have swapped their
      views. */
  lemma SwappedViews(z: Sizes) returns (g: Grid, r: Grid)
    requires ThreeRendered(z)
    ensures Becomes(Fresh(z, 3, 3, -1), 0, Scroll(0), g) && Becomes(g, 0, Data(2, [FIRST_REMOVED]), r)
    ensures Shown(g, 1, 1) && Shown(g, 2, 2) && Shown(r, 0, 2) && Shown(r, 1, 1)
  {
    ThreeFilled(z);
    g := Apply(Fresh(z, 3, 3, -1), 0, Scroll(0)).value;
    TwoRowsLeft(g);
    AfterSplice(g, 0, 2, FIRST_REMOVED, 0, 1);
    hide Apply, FillRows, Splice, Rendered, MaxItemEnd, Exact;
    var b := Splice(g.board, 3, FIRST_REMOVED, 0, MaxItemEnd(z, 0), 1);
    ShrinkSwapsViews(g.board, MaxItemEnd(z, 0));
    TwoShown(b.inuse);
    FillsTwoRows(SetCount(g, 2).(board := b));
    r := Apply(g, 0, Data(2, [FIRST_REMOVED])).value;
    ThreeShown(g.board.inuse);
  }

  lemma TwoRowsLeft(g: Grid)
    requires g.sizes.columns == 1 && g.itemCount == 3 && g.rowCount == 3
    ensures SetCount(g, 2) == g.(itemCount := 2, rowCount := 2)
  {
    assert CeilDivide(2, 1) == 2;
  }

  lemma TwoShown(s: seq<Entry>)
    requires s == [Entry(0, 2), Entry(1, 1)]
    ensures Has(s, 0) && ViewAt(s, 0) == 2 && Has(s, 1) && ViewAt(s, 1) == 1
  {
    assert s[1..] == [Entry(1, 1)];
    assert Has([Entry(1, 1)], 1) && ViewAt([Entry(1, 1)], 1) == 1;
  }

  lemma ThreeShown(s: seq<Entry>)
    requires s == [Entry(2, 2), Entry(1, 1), Entry(0, 0)]
    ensures Has(s, 2) && ViewAt(s, 2) == 2 && Has(s, 1) && ViewAt(s, 1) == 1
  {
    assert s[1..] == [Entry(1, 1), Entry(0, 0)];
    assert Has(s[1..], 1) && ViewAt(s[1..], 1) == 1;
  }

  /** Filling the two rows that are left leaves their views where they are. */
  lemma FillsTwoRows(h: Grid)
    requires Conserved(h.board) && Distinct(h.board.inuse) && h.sizes.columns == 1 && h.itemCount == 2
    requires h.rowStart == 0 && h.rowEnd == 2 && h.focusWhenAvailable == -1 && Has(h.board.inuse, 0) && Has(h.board.inuse, 1)
    ensures var r := FillRows(h, 0, 1);
      && r.Some? && Has(r.value.board.inuse, 0) && ViewAt(r.value.board.inuse, 0) == ViewAt(h.board.inuse, 0)
      && Has(r.value.board.inuse, 1) && ViewAt(r.value.board.inuse, 1) == ViewAt(h.board.inuse, 1)
  {
    hide ShowRange, Count, ViewAt;
    assert RecycleExcess(h, 0, 1) == Some(h.board);
    ShowRangeMeans(h.board, 0, 2, 1);
  }
}
