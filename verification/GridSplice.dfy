/** Renumbering the pool in use after splices of the data (lv_gridview.c, the change loop of update_grid). */
module GridSplice {
  import opened GridBoard

  /** lv_gridview_data_change_t: like the arguments of a splice. */
  datatype Change = Change(start: int, removeCount: int, addCount: int) {
    function Delta(): int { addCount - removeCount }
    function MoveFrom(): int { start + removeCount }

    /** A splice of a list of n elements. */
    predicate Fits(n: int) {
      0 <= start && 0 <= removeCount && 0 <= addCount && start + removeCount <= n
    }
  }

  /** The constants of one move pass: positions from..top move by delta, and those that leave lo..hi are recycled. */
  datatype Pass = Pass(from: int, top: int, delta: int, lo: int, hi: int, columns: nat) {
    predicate Lands(q: int) { lo <= q <= hi }
    predicate Covers(p: int) { from <= p <= top }
  }

  function Min(a: int, b: int): int {
    if a < b then a else b
  }

  /** The cell set while moving: both numbers pass through a uint8_t. */
  function NarrowCell(q: int, columns: nat): Cell
    requires columns > 0
  {
    Cell(q / columns % 256, q % columns % 256)
  }

  /** The pool after one round of the move loop, at old position p. */
  function MoveFirst(s: seq<Entry>, p: int, m: Pass): seq<Entry> {
    if m.Lands(p + m.delta) then Renumber(s, p, p + m.delta) else Take(s, p)
  }

  /** One round of the move loop, at old position p. */
  function MoveOne(b: Board, p: int, m: Pass): (r: Board)
    requires m.columns > 0
    ensures r.inuse == MoveFirst(b.inuse, p, m)
  {
    if Has(b.inuse, p) then
      if m.Lands(p + m.delta) then
        b.(inuse := Renumber(b.inuse, p, p + m.delta),
           cells := b.cells[ViewAt(b.inuse, p) := NarrowCell(p + m.delta, m.columns)])
      else Recycle(b, p)
    else
      MissingStays(b.inuse, p, m);
      b
  }

  lemma {:induction false} MissingStays(s: seq<Entry>, p: int, m: Pass)
    requires !Has(s, p)
    ensures MoveFirst(s, p, m) == s
  {
    if s != [] {
      MissingStays(s[1..], p, m);
    }
  }

  /** The move loop, from old position p down. */
  function MovePass(b: Board, p: int, m: Pass): Board
    requires m.columns > 0
    decreases p - m.from
  {
    if p < m.from then b else MovePass(MoveOne(b, p, m), p - 1, m)
  }

  /** Recycle whatever is in use at from, from + 1, ..., end - 1. */
  function RecycleRange(b: Board, from: int, end: int): Board
    decreases end - from
  {
    if from >= end then b else RecycleRange(Recycle(b, from), from + 1, end)
  }

  function PassOf(c: Change, n: int, lo: int, hi: int, columns: nat): Pass {
    Pass(c.MoveFrom(), Min(n - 1, hi), c.Delta(), lo, hi, columns)
  }

  /** One round of the change loop, on data that had n items before. */
  function Splice(b: Board, n: int, c: Change, lo: int, hi: int, columns: nat): Board
    requires columns > 0
  {
    var r := RecycleRange(b, c.start, c.MoveFrom());
    var m := PassOf(c, n, lo, hi, columns);
    if m.delta == 0 then r else MovePass(r, m.top, m)
  }

  function Splices(b: Board, n: int, cs: seq<Change>, lo: int, hi: int, columns: nat): Board
    requires columns > 0
    decreases |cs|
  {
    if cs == [] then b
    else Splices(Splice(b, n, cs[0], lo, hi, columns), n + cs[0].Delta(), cs[1..], lo, hi, columns)
  }

  /** The number of items after the splices. */
  function CountAfter(n: int, cs: seq<Change>): int
    decreases |cs|
  {
    if cs == [] then n else CountAfter(n + cs[0].Delta(), cs[1..])
  }

  /** Each splice fits the data as the splices before it left them. */
  predicate AllFit(n: int, cs: seq<Change>)
    decreases |cs|
  {
    cs == [] || (cs[0].Fits(n) && AllFit(n + cs[0].Delta(), cs[1..]))
  }

  // ---------- No view is lost ----------

  lemma MoveOneConserves(b: Board, p: int, m: Pass)
    requires Conserved(b) && m.columns > 0
    ensures Conserved(MoveOne(b, p, m))
  {
    if Has(b.inuse, p) {
      if m.Lands(p + m.delta) {
        RenumberCounts(b.inuse, p, p + m.delta);
      } else {
        RecycleConserves(b, p);
      }
    }
  }

  lemma {:induction false} MovePassConserves(b: Board, p: int, m: Pass)
    requires Conserved(b) && m.columns > 0
    ensures Conserved(MovePass(b, p, m))
    decreases p - m.from
  {
    if p >= m.from {
      MoveOneConserves(b, p, m);
      MovePassConserves(MoveOne(b, p, m), p - 1, m);
    }
  }

  lemma {:induction false} RecycleRangeConserves(b: Board, from: int, end: int)
    requires Conserved(b)
    ensures Conserved(RecycleRange(b, from, end))
    decreases end - from
  {
    if from < end {
      RecycleConserves(b, from);
      RecycleRangeConserves(Recycle(b, from), from + 1, end);
    }
  }

  lemma {:induction false} RecycleRangeCounts(b: Board, from: int, end: int)
    requires Distinct(b.inuse)
    ensures forall x :: Count(RecycleRange(b, from, end).inuse, x) == if from <= x < end then 0 else Count(b.inuse, x)
    decreases end - from
  {
    if from < end {
      if Has(b.inuse, from) {
        TakeCounts(b.inuse, from);
      }
      RecycleRangeCounts(Recycle(b, from), from + 1, end);
    }
  }

  /** Whatever the splices are, every view stays in exactly one of the two pools. */
  lemma {:induction false} SplicesConserve(b: Board, n: int, cs: seq<Change>, lo: int, hi: int, columns: nat)
    requires Conserved(b) && columns > 0
    ensures Conserved(Splices(b, n, cs, lo, hi, columns))
    decreases |cs|
  {
    if cs != [] {
      var c := cs[0];
      var r := RecycleRange(b, c.start, c.MoveFrom());
      RecycleRangeConserves(b, c.start, c.MoveFrom());
      MovePassConserves(r, Min(n - 1, hi), PassOf(c, n, lo, hi, columns));
      SplicesConserve(Splice(b, n, c, lo, hi, columns), n + c.Delta(), cs[1..], lo, hi, columns);
    }
  }

  /** Splices bind no view. */
  lemma {:induction false} SplicesBindNothing(b: Board, n: int, cs: seq<Change>, lo: int, hi: int, columns: nat)
    requires columns > 0
    ensures Splices(b, n, cs, lo, hi, columns).bound == b.bound
    decreases |cs|
  {
    if cs != [] {
      var c := cs[0];
      RecycleRangeBindsNothing(b, c.start, c.MoveFrom());
      MovePassBindsNothing(RecycleRange(b, c.start, c.MoveFrom()), Min(n - 1, hi), PassOf(c, n, lo, hi, columns));
      SplicesBindNothing(Splice(b, n, c, lo, hi, columns), n + c.Delta(), cs[1..], lo, hi, columns);
    }
  }

  lemma {:induction false} RecycleRangeBindsNothing(b: Board, from: int, end: int)
    ensures RecycleRange(b, from, end).bound == b.bound
    decreases end - from
  {
    if from < end {
      RecycleRangeBindsNothing(Recycle(b, from), from + 1, end);
    }
  }

  lemma {:induction false} MovePassBindsNothing(b: Board, p: int, m: Pass)
    requires m.columns > 0
    ensures MovePass(b, p, m).bound == b.bound
    decreases p - m.from
  {
    if p >= m.from {
      MovePassBindsNothing(MoveOne(b, p, m), p - 1, m);
    }
  }

  // ---------- Which positions a pass that moves down leaves ----------

  /** When the pass (with delta == -k) reaches old position q, something is there and moves on to q - k.
      What is there may be the entry that was at q before, or one that has just come down from q + k. */
  ghost predicate Moves(s: seq<Entry>, q: int, k: int, m: Pass)
    requires k > 0
    decreases m.top - q
  {
    m.Covers(q) && m.Lands(q - k) && (Has(s, q) || Moves(s, q + k, k, m))
  }

  /** How many entries are at x when the positions above p have been visited. */
  ghost function Partway(s: seq<Entry>, x: int, p: int, k: int, m: Pass): nat
    requires k > 0
  {
    if p < x <= m.top then One(Has(s, x) && Moves(s, x + k, k, m))
    else Count(s, x) + One(x + k > p && Moves(s, x + k, k, m))
  }

  lemma PartwayStep(b: Board, s: seq<Entry>, p: int, k: int, m: Pass)
    requires k > 0 && m.delta == -k && m.columns > 0 && m.Covers(p) && Distinct(s)
    requires forall x :: Count(b.inuse, x) == Partway(s, x, p, k, m)
    ensures forall x :: Count(MoveOne(b, p, m).inuse, x) == Partway(s, x, p - 1, k, m)
  {
    assert Count(b.inuse, p) == Count(s, p) + One(Moves(s, p + k, k, m));
    if Has(b.inuse, p) {
      RenumberCounts(b.inuse, p, p - k);
      TakeCounts(b.inuse, p);
    }
  }

  lemma {:induction false} ShrinkCounts(b: Board, s: seq<Entry>, p: int, k: int, m: Pass)
    requires k > 0 && m.delta == -k && m.columns > 0 && p <= m.top && Distinct(s)
    requires m.from <= p + 1
    requires forall x :: Count(b.inuse, x) == Partway(s, x, p, k, m)
    ensures forall x :: Count(MovePass(b, p, m).inuse, x) == Partway(s, x, m.from - 1, k, m)
    decreases p - m.from
  {
    if p >= m.from {
      PartwayStep(b, s, p, k, m);
      ShrinkCounts(MoveOne(b, p, m), s, p - 1, k, m);
    }
  }
}
