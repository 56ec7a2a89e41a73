/** How many views the grid view asks for: recycled ones are used again before a new one is created. */
module GridReuse {
  import opened GridBoard
  import opened GridSplice
  import opened GridSpliceTheorems
  import opened GridPositions
  import opened GridWindow
  import opened GridFill
  import opened GridRuns

  // ---------- Counting views ----------

  /** The views that exist. */
  function Live(b: Board): int {
    b.created - |b.deleted|
  }

  /** How often the views 0, 1, ..., n - 1 are in a pool. */
  function Total(s: seq<Entry>, n: nat): nat {
    if n == 0 then 0 else Total(s, n - 1) + Uses(s, n - 1)
  }

  lemma {:induction false} TotalCons(s: seq<Entry>, n: nat)
    requires s != []
    ensures Total(s, n) == Total(s[1..], n) + One(s[0].item < n)
  {
    if n > 0 {
      TotalCons(s, n - 1);
    }
  }

  lemma {:induction false} TotalEmpty(n: nat)
    ensures Total([], n) == 0
  {
    if n > 0 {
      TotalEmpty(n - 1);
    }
  }

  lemma {:induction false} TotalIsLength(s: seq<Entry>, n: nat)
    requires forall i :: 0 <= i < |s| ==> s[i].item < n
    ensures Total(s, n) == |s|
  {
    if s == [] {
      TotalEmpty(n);
    } else {
      TotalCons(s, n);
      TotalIsLength(s[1..], n);
    }
  }

  /** The deleted ones of the views 0, 1, ..., n - 1. */
  function Gone(d: set<View>, n: nat): set<View> {
    set v | v in d && v < n
  }

  lemma {:induction false} TotalLive(b: Board, n: nat)
    requires Conserved(b) && n <= b.created
    ensures Total(b.inuse, n) + Total(b.free, n) == n - |Gone(b.deleted, n)|
  {
    if n == 0 {
      assert Gone(b.deleted, 0) == {};
    } else {
      TotalLive(b, n - 1);
      var v: View := n - 1;
      assert Uses(b.inuse, v) + Uses(b.free, v) == One(v !in b.deleted);
      if v in b.deleted {
        assert Gone(b.deleted, n) == Gone(b.deleted, n - 1) + {v};
      } else {
        assert Gone(b.deleted, n) == Gone(b.deleted, n - 1);
      }
    }
  }

  /** Every existing view is in one of the pools. */
  lemma ViewsCounted(b: Board)
    requires Conserved(b)
    ensures |b.inuse| + |b.free| == Live(b)
  {
    forall i | 0 <= i < |b.inuse|
      ensures b.inuse[i].item < b.created
    {
      Member(b.inuse, b.inuse[i]);
      assert Uses(b.inuse, b.inuse[i].item) + Uses(b.free, b.inuse[i].item) > 0;
    }
    forall i | 0 <= i < |b.free|
      ensures b.free[i].item < b.created
    {
      Member(b.free, b.free[i]);
      assert Uses(b.inuse, b.free[i].item) + Uses(b.free, b.free[i].item) > 0;
    }
    TotalIsLength(b.inuse, b.created);
    TotalIsLength(b.free, b.created);
    TotalLive(b, b.created);
    assert Gone(b.deleted, b.created) == b.deleted;
  }

  // ---------- One step ----------

  /** From a to b views have been created only as far as more were in use than existed. */
  predicate Thrifty(a: Board, b: Board) {
    b.deleted == a.deleted && a.created <= b.created && Live(b) == Max(Live(a), |b.inuse|)
  }

  lemma ShowThrifty(b: Board, p: int, columns: nat)
    requires Conserved(b) && columns > 0
    ensures Thrifty(b, Show(b, p, columns)) && |b.inuse| <= |Show(b, p, columns).inuse|
  {
    ViewsCounted(b);
  }

  lemma {:induction false} ShowRangeThrifty(b: Board, from: int, end: int, columns: nat)
    requires Conserved(b) && columns > 0
    ensures var r := ShowRange(b, from, end, columns); Conserved(r) && Thrifty(b, r) && |b.inuse| <= |r.inuse|
    decreases end - from
  {
    ViewsCounted(b);
    if from < end {
      ShowConserves(b, from, columns);
      ShowThrifty(b, from, columns);
      ShowRangeThrifty(Show(b, from, columns), from + 1, end, columns);
    }
  }

  /** Neither recycling nor renumbering creates or deletes a view. */
  predicate SameViews(a: Board, b: Board) {
    a.created == b.created && a.deleted == b.deleted
  }

  lemma {:induction false} MustRecycleSame(b: Board, from: int, end: int)
    requires MustRecycle(b, from, end).Some?
    ensures SameViews(b, MustRecycle(b, from, end).value)
    decreases end - from
  {
    if from < end {
      MustRecycleSame(Recycle(b, from), from + 1, end);
    }
  }

  lemma {:induction false} RecycleRangeSame(b: Board, from: int, end: int)
    ensures SameViews(b, RecycleRange(b, from, end))
    decreases end - from
  {
    if from < end {
      RecycleRangeSame(Recycle(b, from), from + 1, end);
    }
  }

  lemma {:induction false} MovePassSame(b: Board, p: int, m: Pass)
    requires m.columns > 0
    ensures SameViews(b, MovePass(b, p, m))
    decreases p - m.from
  {
    if p >= m.from {
      MovePassSame(MoveOne(b, p, m), p - 1, m);
    }
  }

  lemma {:induction false} SplicesSame(b: Board, n: int, cs: seq<Change>, lo: int, hi: int, columns: nat)
    requires columns > 0
    ensures SameViews(b, Splices(b, n, cs, lo, hi, columns))
    decreases |cs|
  {
    if cs != [] {
      var c := cs[0];
      RecycleRangeSame(b, c.start, c.MoveFrom());
      MovePassSame(RecycleRange(b, c.start, c.MoveFrom()), Min(n - 1, hi), PassOf(c, n, lo, hi, columns));
      SplicesSame(Splice(b, n, c, lo, hi, columns), n + c.Delta(), cs[1..], lo, hi, columns);
    }
  }

  lemma RefillThrifty(g: Grid, start: int, end: int)
    requires Distinct(g.board.inuse) && Conserved(g.board) && g.sizes.columns > 0
    requires 0 <= start <= end && Refill(g, start, end).Some?
    ensures Thrifty(g.board, Refill(g, start, end).value.board) && Conserved(Refill(g, start, end).value.board)
  {
    var columns := g.sizes.columns;
    RecycleExcessMeans(g, start, end);
    var r := RecycleExcess(g, start, end).value;
    MustRecycleSame(g.board, FirstOf(Max(0, g.rowStart), columns), Min(FirstOf(start, columns), g.itemCount));
    var above := MustRecycle(g.board, FirstOf(Max(0, g.rowStart), columns), Min(FirstOf(start, columns), g.itemCount)).value;
    MustRecycleSame(above, FirstOf(Max(0, end + 1), columns), Min(FirstOf(g.rowEnd + 1, columns), g.itemCount));
    ShowRangeThrifty(r, FirstOf(start, columns), Min(FirstOf(end + 1, columns), g.itemCount), columns);
  }

  lemma FocusThrifty(g: Grid, p: int)
    requires Conserved(g.board) && g.sizes.columns > 0
    ensures Thrifty(g.board, Focus(g, p).board) && |g.board.inuse| <= |Focus(g, p).board.inuse|
  {
    ViewsCounted(g.board);
    ShowThrifty(g.board, p, g.sizes.columns);
  }

  lemma FillThrifty(g: Grid, start: int, end: int)
    requires Distinct(g.board.inuse) && Conserved(g.board) && g.sizes.columns > 0 && FillRows(g, start, end).Some?
    ensures Thrifty(g.board, FillRows(g, start, end).value.board)
  {
    ViewsCounted(g.board);
    if 0 <= start <= end {
      RefillThrifty(g, start, end);
      var r := Refill(g, start, end).value;
      hide Refill, Focus;
      ViewsCounted(r.board);
      if 0 <= r.focusWhenAvailable < r.itemCount {
        FocusThrifty(r, r.focusWhenAvailable);
      }
    }
  }

  lemma UpdateThrifty(g: Grid, y: int, cs: seq<Change>, n: int)
    requires PoolsOk(g) && UpdateGrid(g, y, cs, n).Some?
    requires
      var z := g.sizes;
      var start := RenderStart(z, y, g.rowCount, 0);
      Distinct(Splices(g.board, if cs == [] then g.itemCount else n, cs, z.columns * start, MaxItemEnd(z, start), z.columns).inuse)
    ensures Thrifty(g.board, UpdateGrid(g, y, cs, n).value.board)
  {
    var z := g.sizes;
    var start := RenderStart(z, y, g.rowCount, 0);
    var end := RenderEnd(z, y, start, g.rowCount - 1);
    var before := if cs == [] then g.itemCount else n;
    var b := Splices(g.board, before, cs, z.columns * start, MaxItemEnd(z, start), z.columns);
    SplicesConserve(g.board, before, cs, z.columns * start, MaxItemEnd(z, start), z.columns);
    SplicesSame(g.board, before, cs, z.columns * start, MaxItemEnd(z, start), z.columns);
    hide Splices, FillRows, RenderStart, RenderEnd, MaxItemEnd;
    FillThrifty(g.(board := b), start, end);
  }

  /** Every step but the deletion of a view creates a new one only as far as more are needed at once than exist. */
  lemma StepThrifty(g: Grid, y: int, s: Step)
    requires GridInv(g, y) && Allowed(g, y, s) && !s.Deleted? && Apply(g, y, s).Some?
    ensures Thrifty(g.board, Apply(g, y, s).value.board)
  {
    ViewsCounted(g.board);
    match s
    case Scroll(y') => UpdateThrifty(g, y', [], 0);
    case NewSizes(_, _, _, _) => NewSizesThrifty(g, y, s);
    case Data(items, cs) => DataThrifty(g, y, items, cs);
    case FocusOn(p) => FocusThrifty(g, p);
    case FocusLater(p) =>
  }

  lemma NewSizesThrifty(g: Grid, y: int, s: Step)
    requires GridInv(g, y) && s.NewSizes? && Allowed(g, y, s) && Apply(g, y, s).Some?
    ensures Thrifty(g.board, Apply(g, y, s).value.board)
  {
    ViewsCounted(g.board);
    var z := g.sizes.(contentHeight := s.contentHeight, padRow := s.padRow, padTop := s.padTop, padBottom := s.padBottom);
    if z != g.sizes {
      UpdateThrifty(g.(sizes := z), y, [], 0);
    }
  }

  lemma DataThrifty(g: Grid, y: int, items: int, cs: seq<Change>)
    requires GridInv(g, y) && Allowed(g, y, Data(items, cs)) && Apply(g, y, Data(items, cs)).Some?
    ensures Thrifty(g.board, Apply(g, y, Data(items, cs)).value.board)
  {
    var h := SetCount(g, items);
    var z := g.sizes;
    var start := RenderStart(z, y, h.rowCount, 0);
    var end := RenderEnd(z, y, start, h.rowCount - 1);
    SplicesKeep(g.board, g.itemCount, cs, z.columns * start, MaxItemEnd(z, start), z.columns);
    SplicesConserve(g.board, g.itemCount, cs, z.columns * start, MaxItemEnd(z, start), z.columns);
    SplicesSame(g.board, g.itemCount, cs, z.columns * start, MaxItemEnd(z, start), z.columns);
    hide Splices, FillRows;
    FillThrifty(h.(board := Splices(g.board, g.itemCount, cs, z.columns * start, MaxItemEnd(z, start), z.columns)), start, end);
  }

  lemma DeletionLowers(b: Board, v: View)
    requires Conserved(b) && v < b.created
    ensures Live(Delete(b, v)) <= Live(b) && |Delete(b, v).inuse| <= |b.inuse|
  {
    DropShorter(b.inuse, v);
    assert b.deleted <= b.deleted + {v};
    if v !in b.deleted {
      assert |b.deleted + {v}| == |b.deleted| + 1;
    } else {
      assert b.deleted + {v} == b.deleted;
    }
  }

  lemma {:induction false} DropShorter(s: seq<Entry>, v: View)
    ensures |Drop(s, v)| <= |s|
  {
    if s != [] && s[0].item != v {
      DropShorter(s[1..], v);
    }
  }

  // ---------- Runs ----------

  /** The run of allowed steps goes from g to h. */
  ghost predicate Reaches(g: Grid, y: int, steps: seq<Step>, h: Grid)
    decreases |steps|
  {
    if steps == [] then h == g
    else
      && g.sizes.Valid() && Allowed(g, y, steps[0]) && Apply(g, y, steps[0]).Some?
      && Reaches(Apply(g, y, steps[0]).value, ScrollAfter(y, steps[0]), steps[1..], h)
  }

  /** The largest number of positions in use at once in the run. */
  ghost function Peak(g: Grid, y: int, steps: seq<Step>): nat
    decreases |steps|
  {
    if steps != [] && g.sizes.Valid() && Allowed(g, y, steps[0]) && Apply(g, y, steps[0]).Some?
    then Max(|g.board.inuse|, Peak(Apply(g, y, steps[0]).value, ScrollAfter(y, steps[0]), steps[1..]))
    else |g.board.inuse|
  }

  predicate NoDeletion(steps: seq<Step>) {
    forall i :: 0 <= i < |steps| ==> !steps[i].Deleted?
  }

  /** Over every run the views that exist never become more than there were or than were in use at once; without deletions
      they become exactly as many. */
  lemma {:induction false} ViewsReused(g: Grid, y: int, steps: seq<Step>, h: Grid)
    requires GridInv(g, y) && Reaches(g, y, steps, h)
    ensures Live(h.board) <= Max(Live(g.board), Peak(g, y, steps))
    ensures NoDeletion(steps) ==> Live(h.board) == Max(Live(g.board), Peak(g, y, steps))
    decreases |steps|
  {
    hide Apply, Fills, Covered, BoundOnce;
    PoolsCounted(g, y);
    if steps != [] {
      var r := Apply(g, y, steps[0]).value;
      StepKeeps(g, y, steps[0]);
      ViewsReused(r, ScrollAfter(y, steps[0]), steps[1..], h);
      PoolsCounted(r, ScrollAfter(y, steps[0]));
      if steps[0].Deleted? {
        DeletedStep(g, y, steps[0]);
      } else {
        StepThrifty(g, y, steps[0]);
      }
    }
  }

  lemma PoolsCounted(g: Grid, y: int)
    requires GridInv(g, y)
    ensures |g.board.inuse| <= Live(g.board)
  {
    ViewsCounted(g.board);
  }

  lemma DeletedStep(g: Grid, y: int, s: Step)
    requires GridInv(g, y) && s.Deleted? && Allowed(g, y, s) && Apply(g, y, s).Some?
    ensures Live(Apply(g, y, s).value.board) <= Live(g.board)
  {
    DeletionLowers(g.board, s.v);
  }

  /** So, from a grid view that has never been updated, as many views are created as positions are in use at once at some
      time; when views are deleted, no more than that exist. */
  lemma FreshViewsReused(z: Sizes, items: nat, rows: int, focusWhenAvailable: int, y: int, steps: seq<Step>, h: Grid)
    requires z.Valid() && z.contentHeight > 0 && Reaches(Fresh(z, items, rows, focusWhenAvailable), y, steps, h)
    ensures h.board.created - |h.board.deleted| <= Peak(Fresh(z, items, rows, focusWhenAvailable), y, steps)
    ensures NoDeletion(steps) ==>
      h.board.created - |h.board.deleted| == Peak(Fresh(z, items, rows, focusWhenAvailable), y, steps)
  {
    FreshInv(z, items, rows, focusWhenAvailable, y);
    ViewsReused(Fresh(z, items, rows, focusWhenAvailable), y, steps, h);
  }

  // ---------- Scrolling alone ----------

  /** How many positions the rows filled last have, if any have been. */
  function WindowSize(g: Grid): nat {
    if g.rowStart < 0 then 0 else RowsLength(g)
  }

  /** The largest window that is filled in the run. */
  ghost function LargestWindow(g: Grid, y: int, steps: seq<Step>): nat
    decreases |steps|
  {
    if steps != [] && g.sizes.Valid() && Allowed(g, y, steps[0]) && Apply(g, y, steps[0]).Some?
    then Max(WindowSize(g), LargestWindow(Apply(g, y, steps[0]).value, ScrollAfter(y, steps[0]), steps[1..]))
    else WindowSize(g)
  }

  lemma {:induction false} IntervalSize(s: seq<Entry>, a: int, b: int)
    requires Distinct(s) && forall p :: Has(s, p) <==> a <= p < b
    ensures |s| == Max(0, b - a)
    decreases b - a
  {
    if a < b {
      TakeCounts(s, b - 1);
      TakeLength(s, b - 1);
      var t := Take(s, b - 1);
      forall p
        ensures Has(t, p) <==> a <= p < b - 1
      {
        assert Count(s, p) <= 1 && (Has(s, p) <==> a <= p < b);
      }
      IntervalSize(t, a, b - 1);
    } else if s != [] {
      assert Has(s, s[0].position);
    }
  }

  lemma {:induction false} TakeLength(s: seq<Entry>, p: int)
    requires Has(s, p)
    ensures |Take(s, p)| == |s| - 1
  {
    if s[0].position != p {
      TakeLength(s[1..], p);
    }
  }

  lemma ExactSize(g: Grid, y: int)
    requires GridInv(g, y) && Exact(g)
    ensures |g.board.inuse| == WindowSize(g)
  {
    IntervalSize(g.board.inuse, FirstOf(Max(0, g.rowStart), g.sizes.columns),
                 Min(FirstOf(g.rowEnd + 1, g.sizes.columns), g.itemCount));
  }

  predicate OnlyScrolls(steps: seq<Step>) {
    forall i :: 0 <= i < |steps| ==> steps[i].Scroll?
  }

  lemma {:induction false} PeakIsWindow(g: Grid, y: int, steps: seq<Step>)
    requires GridInv(g, y) && Exact(g) && OnlyScrolls(steps) && !(0 <= g.focusWhenAvailable < g.itemCount)
    ensures Peak(g, y, steps) == LargestWindow(g, y, steps)
    decreases |steps|
  {
    hide UpdateGrid, Allowed, Exact, BoundOnce, Rendered, Covered, WindowSize;
    ExactSize(g, y);
    if steps != [] && Allowed(g, y, steps[0]) && Apply(g, y, steps[0]).Some? {
      ScrollKeeps(g, y, steps[0].y);
      ScrollExact(g, y, steps[0].y);
      PeakIsWindow(Apply(g, y, steps[0]).value, steps[0].y, steps[1..]);
    }
  }

  /** By scrolling alone, from a grid view that has never been updated, exactly as many views are created as the largest
      window has positions. */
  lemma ScrollingCreates(z: Sizes, items: nat, rows: int, y: int, steps: seq<Step>, h: Grid)
    requires z.Valid() && z.contentHeight > 0 && OnlyScrolls(steps) && Reaches(Fresh(z, items, rows, -1), y, steps, h)
    ensures h.board.created - |h.board.deleted| == LargestWindow(Fresh(z, items, rows, -1), y, steps)
  {
    FreshInv(z, items, rows, -1, y);
    FreshViewsReused(z, items, rows, -1, y, steps, h);
    PeakIsWindow(Fresh(z, items, rows, -1), y, steps);
  }
}
