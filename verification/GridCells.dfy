/** The grid cells that views are laid out in (lv_gridview.c, the calls of lv_obj_set_grid_cell). */
module GridCells {
  import opened GridBoard
  import opened GridSplice
  import opened GridFill

  /** Each view in use is laid out in the cell of its position. */
  ghost predicate LaidOut(b: Board, columns: nat)
    requires columns > 0
  {
    forall e :: e in b.inuse ==> e.item in b.cells && b.cells[e.item] == CellOf(e.position, columns)
  }

  /** The cells are counted row by row. */
  lemma CellMeans(p: nat, columns: nat)
    requires columns > 0
    ensures var c := CellOf(p, columns); p == FirstOf(c.row, columns) + c.col && 0 <= c.row && 0 <= c.col < columns
  {
  }

  lemma {:induction false} TakeKeeps(s: seq<Entry>, p: int, e: Entry)
    requires e in Take(s, p)
    ensures e in s
  {
    if s[0].position != p && e != s[0] {
      TakeKeeps(s[1..], p, e);
    }
  }

  /** Everything but the first entry at p stays as it is, and holds another view. */
  lemma {:induction false} RenumberKeeps(s: seq<Entry>, p: int, q: int, e: Entry)
    requires Has(s, p) && (forall v :: Uses(s, v) <= 1) && e in Renumber(s, p, q)
    ensures e == Entry(q, ViewAt(s, p)) || (e in s && e.item != ViewAt(s, p))
  {
    if s[0].position == p {
      assert Uses(s, s[0].item) == 1 + Uses(s[1..], s[0].item);
      if e in s[1..] {
        Member(s[1..], e);
      }
    } else if e == s[0] {
      ViewIn(s[1..], p);
    } else {
      assert forall v :: Uses(s[1..], v) <= Uses(s, v);
      RenumberKeeps(s[1..], p, q, e);
    }
  }

  lemma {:induction false} ViewIn(s: seq<Entry>, p: int)
    requires Has(s, p)
    ensures Entry(p, ViewAt(s, p)) in s && Uses(s, ViewAt(s, p)) >= 1
  {
    if s[0].position != p {
      ViewIn(s[1..], p);
    }
  }

  lemma UsesAtMostOnce(b: Board)
    requires Conserved(b)
    ensures forall v :: Uses(b.inuse, v) <= 1
  {
    forall v: View
      ensures Uses(b.inuse, v) <= 1
    {
      assert Uses(b.inuse, v) + Uses(b.free, v) <= 1;
    }
  }

  lemma RecycleLaidOut(b: Board, p: int, columns: nat)
    requires columns > 0 && LaidOut(b, columns)
    ensures LaidOut(Recycle(b, p), columns)
  {
    forall e | e in Take(b.inuse, p)
      ensures e in b.inuse
    {
      TakeKeeps(b.inuse, p, e);
    }
  }

  /** A view shown for the first time since it was recycled gets its cell; a view that is already there keeps it. */
  lemma ShowLaidOut(b: Board, p: int, columns: nat)
    requires columns > 0 && Conserved(b) && LaidOut(b, columns)
    ensures LaidOut(Show(b, p, columns), columns)
  {
    if !Has(b.inuse, p) {
      var r := Show(b, p, columns);
      var v := ViewAt(r.inuse, p);
      ShowConserves(b, p, columns);
      UsesAtMostOnce(r);
      forall e | e in r.inuse
        ensures e.item in r.cells && r.cells[e.item] == CellOf(e.position, columns)
      {
        if e in b.inuse {
          Member(b.inuse, e);
        }
      }
    }
  }

  /** A moved view is laid out where it belongs exactly if row and column fit the 8-bit variables. */
  lemma NarrowCellExact(q: int, columns: nat)
    requires columns > 0
    ensures NarrowCell(q, columns) == CellOf(q, columns) <==> 0 <= q / columns < 256 && q % columns < 256
  {
  }

  lemma MoveLaidOut(b: Board, p: int, m: Pass)
    requires m.columns > 0 && Conserved(b) && LaidOut(b, m.columns)
    requires m.Lands(p + m.delta) ==> NarrowCell(p + m.delta, m.columns) == CellOf(p + m.delta, m.columns)
    ensures LaidOut(MoveOne(b, p, m), m.columns)
  {
    if Has(b.inuse, p) {
      if m.Lands(p + m.delta) {
        var r := MoveOne(b, p, m);
        UsesAtMostOnce(b);
        forall e | e in r.inuse
          ensures e.item in r.cells && r.cells[e.item] == CellOf(e.position, m.columns)
        {
          RenumberKeeps(b.inuse, p, p + m.delta, e);
        }
      } else {
        RecycleLaidOut(b, p, m.columns);
      }
    }
  }

  /** A view that is moved to a cell beyond the reach of 8 bits is laid out in another one. */
  lemma MoveMislaid(b: Board, p: int, m: Pass)
    requires m.columns > 0 && Has(b.inuse, p) && m.Lands(p + m.delta)
    requires NarrowCell(p + m.delta, m.columns) != CellOf(p + m.delta, m.columns)
    ensures !LaidOut(MoveOne(b, p, m), m.columns)
  {
    RenumberPuts(b.inuse, p, p + m.delta);
  }

  lemma {:induction false} RenumberPuts(s: seq<Entry>, p: int, q: int)
    requires Has(s, p)
    ensures Entry(q, ViewAt(s, p)) in Renumber(s, p, q)
  {
    if s[0].position != p {
      RenumberPuts(s[1..], p, q);
    }
  }

  lemma {:induction false} PassLaidOut(b: Board, p: int, m: Pass)
    requires m.columns > 0 && Conserved(b) && LaidOut(b, m.columns)
    requires m.columns <= 256 && m.hi < 256 * m.columns && m.from + m.delta >= 0
    ensures LaidOut(MovePass(b, p, m), m.columns)
    decreases p - m.from
  {
    if p >= m.from {
      if m.Lands(p + m.delta) {
        RowBelow256(p + m.delta, m.columns);
      }
      MoveLaidOut(b, p, m);
      MoveOneConserves(b, p, m);
      PassLaidOut(MoveOne(b, p, m), p - 1, m);
    }
  }

  lemma RowBelow256(q: int, columns: nat)
    requires 0 < columns <= 256 && 0 <= q < 256 * columns
    ensures NarrowCell(q, columns) == CellOf(q, columns)
  {
    var d := q / columns;
    assert q == columns * d + q % columns;
    TimesSteps(columns, d, 256);
    TimesSteps(columns, d, 0);
  }

  lemma TimesSteps(a: nat, d: int, k: int)
    ensures d >= k ==> a * d >= a * k
    ensures d < k ==> a * d <= a * k - a
  {
    if d < k {
      assert a * k - a == a * (k - 1);
    }
  }

  lemma {:induction false} RecycleRangeLaidOut(b: Board, from: int, end: int, columns: nat)
    requires columns > 0 && LaidOut(b, columns)
    ensures LaidOut(RecycleRange(b, from, end), columns)
    decreases end - from
  {
    if from < end {
      RecycleLaidOut(b, from, columns);
      RecycleRangeLaidOut(Recycle(b, from), from + 1, end, columns);
    }
  }

  /** Splices leave every view in the cell of its new position, while at most 256 rows and columns are in play. */
  lemma {:induction false} SplicesLaidOut(b: Board, n: int, cs: seq<Change>, lo: int, hi: int, columns: nat)
    requires columns > 0 && Conserved(b) && LaidOut(b, columns) && AllFit(n, cs)
    requires columns <= 256 && hi < 256 * columns
    ensures LaidOut(Splices(b, n, cs, lo, hi, columns), columns)
    decreases |cs|
  {
    if cs != [] {
      var c := cs[0];
      RecycleRangeLaidOut(b, c.start, c.MoveFrom(), columns);
      RecycleRangeConserves(b, c.start, c.MoveFrom());
      PassLaidOut(RecycleRange(b, c.start, c.MoveFrom()), Min(n - 1, hi), PassOf(c, n, lo, hi, columns));
      SplicesConserve(b, n, [c], lo, hi, columns);
      assert Splices(b, n, [c], lo, hi, columns) == Splice(b, n, c, lo, hi, columns);
      SplicesLaidOut(Splice(b, n, c, lo, hi, columns), n + c.Delta(), cs[1..], lo, hi, columns);
    }
  }

  lemma {:induction false} MustRecycleLaidOut(b: Board, from: int, end: int, columns: nat)
    requires columns > 0 && Conserved(b) && LaidOut(b, columns)
    ensures
      var r := MustRecycle(b, from, end);
      r.Some? ==> LaidOut(r.value, columns) && Conserved(r.value)
    decreases end - from
  {
    if from < end && Has(b.inuse, from) {
      RecycleLaidOut(b, from, columns);
      RecycleConserves(b, from);
      MustRecycleLaidOut(Recycle(b, from), from + 1, end, columns);
    }
  }

  lemma {:induction false} ShowRangeLaidOut(b: Board, from: int, end: int, columns: nat)
    requires columns > 0 && Conserved(b) && LaidOut(b, columns)
    ensures LaidOut(ShowRange(b, from, end, columns), columns) && Conserved(ShowRange(b, from, end, columns))
    decreases end - from
  {
    if from < end {
      ShowLaidOut(b, from, columns);
      ShowConserves(b, from, columns);
      ShowRangeLaidOut(Show(b, from, columns), from + 1, end, columns);
    }
  }

  /** fill_rows lays out every view it shows. */
  lemma FillLaidOut(g: Grid, start: int, end: int)
    requires g.sizes.columns > 0 && Conserved(g.board) && LaidOut(g.board, g.sizes.columns)
    ensures
      var r := FillRows(g, start, end);
      r.Some? ==> LaidOut(r.value.board, g.sizes.columns)
  {
    var c := g.sizes.columns;
    if 0 <= start <= end {
      MustRecycleLaidOut(g.board, FirstOf(Max(0, g.rowStart), c), Min(FirstOf(start, c), g.itemCount), c);
      var above := MustRecycle(g.board, FirstOf(Max(0, g.rowStart), c), Min(FirstOf(start, c), g.itemCount));
      if above.Some? {
        MustRecycleLaidOut(above.value, FirstOf(Max(0, end + 1), c), Min(FirstOf(g.rowEnd + 1, c), g.itemCount), c);
        var r := RecycleExcess(g, start, end);
        if r.Some? {
          ShowRangeLaidOut(r.value, FirstOf(start, c), Min(FirstOf(end + 1, c), g.itemCount), c);
          ShowLaidOut(Refill(g, start, end).value.board, g.focusWhenAvailable, c);
        }
      }
    }
  }
}
