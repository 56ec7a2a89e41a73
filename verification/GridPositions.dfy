/** Which positions are in use after splices of the data, whatever the order of the pool list. */
module GridPositions {
  import opened GridBoard
  import opened GridSplice
  import opened GridSpliceTheorems

  /** Position x should be in use after the splice: its item was in use, and is still there.
      (A pass that moves anything drops what it moves out of the window.) */
  ghost predicate Wanted(s: seq<Entry>, c: Change, lo: int, hi: int, x: int) {
    || (x < c.start && Has(s, x))
    || (x - c.Delta() >= c.MoveFrom() && Has(s, x - c.Delta()) && (c.Delta() == 0 || lo <= x <= hi))
  }

  /** Behind the removed items, the position a view moves down to is in use whenever it moves at all. */
  ghost predicate NoGaps(s: seq<Entry>, from: int, k: int, lo: int, hi: int) {
    forall q :: Has(s, q) && q >= from + k && lo <= q - k <= hi ==> Has(s, q - k)
  }

  /** How many entries are at x after the splice. */
  ghost function CountThen(s: seq<Entry>, n: int, c: Change, lo: int, hi: int, x: int): nat {
    var m := PassOf(c, n, lo, hi, 0);
    var kept := if c.start <= x < c.MoveFrom() then 0 else Count(s, x);
    if c.Delta() == 0 then kept
    else if c.Delta() > 0 then
      (if m.Covers(x) then 0 else kept)
      + (if m.Covers(x - c.Delta()) && m.Lands(x) then Count(s, x - c.Delta()) else 0)
    else
      if m.Covers(x) then One(Has(s, x) && Moves(s, x - c.Delta(), -c.Delta(), m))
      else kept + One(Moves(s, x - c.Delta(), -c.Delta(), m))
  }

  lemma {:induction false} MovesSame(s: seq<Entry>, t: seq<Entry>, q: int, k: int, m: Pass, n: Pass)
    requires k > 0 && n == m.(columns := n.columns)
    requires forall x :: x >= m.from ==> Count(s, x) == Count(t, x)
    ensures Moves(s, q, k, m) == Moves(t, q, k, n)
    decreases m.top - q
  {
    if m.Covers(q) {
      MovesSame(s, t, q + k, k, m, n);
    }
  }

  lemma SpliceCounts(b: Board, n: int, c: Change, lo: int, hi: int, columns: nat, x: int)
    requires Distinct(b.inuse) && c.Fits(n) && columns > 0
    ensures Count(Splice(b, n, c, lo, hi, columns).inuse, x) == CountThen(b.inuse, n, c, lo, hi, x)
  {
    var r := RecycleRange(b, c.start, c.MoveFrom());
    var m := PassOf(c, n, lo, hi, columns);
    RecycleRangeCounts(b, c.start, c.MoveFrom());
    if c.Delta() > 0 {
      Grown(r, m);
      ShiftedCounts(r.inuse, m.from - 1, m, x);
    } else if c.Delta() < 0 {
      var k := -c.Delta();
      MovesSame(r.inuse, b.inuse, x + k, k, m, m.(columns := 0));
      if m.top >= m.from - 1 {
        ShrinkCounts(r, r.inuse, m.top, k, m);
        assert Count(MovePass(r, m.top, m).inuse, x) == Partway(r.inuse, x, m.from - 1, k, m);
      }
    }
  }

  lemma Grown(r: Board, m: Pass)
    requires Distinct(r.inuse) && m.delta > 0 && m.columns > 0
    ensures MovePass(r, m.top, m).inuse == Shifted(r.inuse, m.from - 1, m)
  {
    NotYetMoved(r.inuse, m.top, m);
    if m.top < m.from - 1 {
      NotYetMoved(r.inuse, m.from - 1, m);
    } else {
      forall x | m.from <= x <= m.top
        ensures OldFirst(r.inuse, x, m)
      {
        UpwardsOldFirst(r.inuse, x, m);
      }
      PassShifts(r, r.inuse, m.top, m);
    }
  }

  /** The duplicates that arise while views move down are gone at the end of the pass. */
  lemma SpliceDistinct(b: Board, n: int, c: Change, lo: int, hi: int, columns: nat)
    requires Distinct(b.inuse) && InRange(b.inuse, n) && c.Fits(n) && columns > 0
    ensures Distinct(Splice(b, n, c, lo, hi, columns).inuse)
    ensures NotPast(b.inuse, hi) ==> NotPast(Splice(b, n, c, lo, hi, columns).inuse, hi)
  {
    var s := b.inuse;
    forall x
      ensures Count(Splice(b, n, c, lo, hi, columns).inuse, x) <= 1
      ensures NotPast(s, hi) && x > hi ==> Count(Splice(b, n, c, lo, hi, columns).inuse, x) == 0
    {
      SpliceCounts(b, n, c, lo, hi, columns, x);
      assert Count(s, x) <= 1 && (Has(s, x) ==> 0 <= x < n);
      assert Count(s, x - c.Delta()) <= 1 && (Has(s, x - c.Delta()) ==> 0 <= x - c.Delta() < n);
    }
  }

  /** All positions in use belong to the new data, unless one beyond the window is now past its end:
      such a view is not visited by the pass. */
  lemma BelowNewCount(b: Board, n: int, c: Change, lo: int, hi: int, columns: nat)
    requires Distinct(b.inuse) && InRange(b.inuse, n) && c.Fits(n) && columns > 0
    ensures InRange(Splice(b, n, c, lo, hi, columns).inuse, n + c.Delta()) <==>
            forall p :: Has(b.inuse, p) && p > hi && p >= c.MoveFrom() ==> p < n + c.Delta()
  {
    var s, t := b.inuse, Splice(b, n, c, lo, hi, columns).inuse;
    forall x
      ensures Has(t, x) ==> 0 <= x < n + c.Delta() || (Has(s, x) && x > hi && x >= c.MoveFrom() && x >= n + c.Delta())
      ensures Has(s, x) && x > hi && x >= c.MoveFrom() && x >= n + c.Delta() ==> Has(t, x)
    {
      SpliceCounts(b, n, c, lo, hi, columns, x);
      assert Has(s, x) ==> 0 <= x < n;
      assert Has(s, x - c.Delta()) ==> 0 <= x - c.Delta() < n;
    }
  }

  /** Without gaps, only what was at q when the pass began moves on from q. */
  lemma {:induction false} NothingElseMoves(s: seq<Entry>, q: int, k: int, m: Pass)
    requires k > 0 && NoGaps(s, m.from, k, m.lo, m.hi)
    ensures Moves(s, q, k, m) ==> Has(s, q)
    decreases m.top - q
  {
    if m.Covers(q) && !Has(s, q) {
      NothingElseMoves(s, q + k, k, m);
    }
  }

  /** The positions in use after the splice are exactly the wanted ones if and only if no view that should move is behind
      the window and, when the data shrinks, there is no gap among the views behind the removed items. */
  lemma SpliceExact(b: Board, n: int, c: Change, lo: int, hi: int, columns: nat)
    requires Distinct(b.inuse) && InRange(b.inuse, n) && c.Fits(n) && columns > 0
    ensures (forall x :: Has(Splice(b, n, c, lo, hi, columns).inuse, x) <==> Wanted(b.inuse, c, lo, hi, x)) <==>
            NoneBehind(b.inuse, c, hi) && (c.Delta() < 0 ==> NoGaps(b.inuse, c.MoveFrom(), -c.Delta(), lo, hi))
  {
    if !NoneBehind(b.inuse, c, hi) {
      BehindStays(b, n, c, lo, hi, columns);
    } else if c.Delta() < 0 && !NoGaps(b.inuse, c.MoveFrom(), -c.Delta(), lo, hi) {
      GapLoses(b, n, c, lo, hi, columns);
    } else {
      forall x
        ensures Has(Splice(b, n, c, lo, hi, columns).inuse, x) <==> Wanted(b.inuse, c, lo, hi, x)
      {
        if c.Delta() < 0 {
          ShrinkExactAt(b, n, c, lo, hi, columns, x);
        } else {
          GrowExactAt(b, n, c, lo, hi, columns, x);
        }
      }
    }
  }

  /** A view behind the window that should move stays where it is, whether the data grows or shrinks. */
  lemma BehindStays(b: Board, n: int, c: Change, lo: int, hi: int, columns: nat)
    requires c.Fits(n) && columns > 0 && !NoneBehind(b.inuse, c, hi)
    ensures exists x :: Has(Splice(b, n, c, lo, hi, columns).inuse, x) && !Wanted(b.inuse, c, lo, hi, x)
  {
    var x :| Has(b.inuse, x) && x >= c.MoveFrom() && x > hi;
    StaysBehind(b, n, c, lo, hi, columns, x);
    assert Has(Splice(b, n, c, lo, hi, columns).inuse, x) && !Wanted(b.inuse, c, lo, hi, x);
  }

  lemma GapLoses(b: Board, n: int, c: Change, lo: int, hi: int, columns: nat)
    requires Distinct(b.inuse) && InRange(b.inuse, n) && NoneBehind(b.inuse, c, hi) && c.Fits(n) && columns > 0
    requires c.Delta() < 0 && !NoGaps(b.inuse, c.MoveFrom(), -c.Delta(), lo, hi)
    ensures exists x :: Wanted(b.inuse, c, lo, hi, x) && !Has(Splice(b, n, c, lo, hi, columns).inuse, x)
  {
    var q :| Has(b.inuse, q) && q >= c.MoveFrom() - c.Delta() && lo <= q + c.Delta() <= hi && !Has(b.inuse, q + c.Delta());
    var x := q + c.Delta();
    SpliceCounts(b, n, c, lo, hi, columns, x);
    assert Wanted(b.inuse, c, lo, hi, x) && !Has(Splice(b, n, c, lo, hi, columns).inuse, x);
  }

  lemma GrowExactAt(b: Board, n: int, c: Change, lo: int, hi: int, columns: nat, x: int)
    requires Distinct(b.inuse) && InRange(b.inuse, n) && NoneBehind(b.inuse, c, hi) && c.Fits(n) && columns > 0
    requires c.Delta() >= 0
    ensures Has(Splice(b, n, c, lo, hi, columns).inuse, x) <==> Wanted(b.inuse, c, lo, hi, x)
  {
    SpliceCounts(b, n, c, lo, hi, columns, x);
    assert Has(b.inuse, x) ==> 0 <= x < n;
    assert Has(b.inuse, x - c.Delta()) ==> 0 <= x - c.Delta() < n;
  }

  lemma ShrinkExactAt(b: Board, n: int, c: Change, lo: int, hi: int, columns: nat, x: int)
    requires Distinct(b.inuse) && InRange(b.inuse, n) && NoneBehind(b.inuse, c, hi) && c.Fits(n) && columns > 0
    requires c.Delta() < 0 && NoGaps(b.inuse, c.MoveFrom(), -c.Delta(), lo, hi)
    ensures Has(Splice(b, n, c, lo, hi, columns).inuse, x) <==> Wanted(b.inuse, c, lo, hi, x)
  {
    var s, q := b.inuse, x - c.Delta();
    var m := PassOf(c, n, lo, hi, 0);
    SpliceCounts(b, n, c, lo, hi, columns, x);
    NothingElseMoves(s, q, -c.Delta(), m);
    assert Has(s, x) ==> 0 <= x < n;
    assert Has(s, q) ==> 0 <= q < n;
  }

  /** In particular nothing is lost when the views behind the removed items are consecutive and start no later than the
      window or the place of the splice. */
  lemma BlockHasNoGaps(s: seq<Entry>, from: int, k: int, lo: int, hi: int, first: int, last: int)
    requires k > 0
    requires forall p :: p >= from ==> (Has(s, p) <==> first <= p <= last)
    requires first <= lo || first <= from
    ensures NoGaps(s, from, k, lo, hi)
  {
  }

  // ---------- A list of splices ----------

  /** A position behind the window lies in the data after each splice, until the item there is removed. */
  predicate StaysIn(p: int, n: int, cs: seq<Change>)
    decreases |cs|
  {
    || cs == []
    || cs[0].start <= p < cs[0].MoveFrom()
    || (p < n + cs[0].Delta() && StaysIn(p, n + cs[0].Delta(), cs[1..]))
  }

  /** After each splice all positions in use lie in the data. */
  ghost predicate InRangeThroughout(b: Board, n: int, cs: seq<Change>, lo: int, hi: int, columns: nat)
    requires columns > 0
    decreases |cs|
  {
    cs == [] ||
    (var b' := Splice(b, n, cs[0], lo, hi, columns);
     InRange(b'.inuse, n + cs[0].Delta()) && InRangeThroughout(b', n + cs[0].Delta(), cs[1..], lo, hi, columns))
  }

  /** A splice leaves the views behind the window alone, but for those it removes. */
  lemma BehindWindow(b: Board, n: int, c: Change, lo: int, hi: int, columns: nat, x: int)
    requires Distinct(b.inuse) && c.Fits(n) && columns > 0 && x > hi
    ensures Has(Splice(b, n, c, lo, hi, columns).inuse, x) <==> Has(b.inuse, x) && !(c.start <= x < c.MoveFrom())
  {
    SpliceCounts(b, n, c, lo, hi, columns, x);
  }

  /** The positions in use lie in the data after each of a list of splices exactly if those behind the window do until
      they are removed. */
  lemma {:induction false} InRangeExactly(b: Board, n: int, cs: seq<Change>, lo: int, hi: int, columns: nat)
    requires Distinct(b.inuse) && InRange(b.inuse, n) && AllFit(n, cs) && columns > 0
    ensures InRangeThroughout(b, n, cs, lo, hi, columns) <==> forall p :: Has(b.inuse, p) && p > hi ==> StaysIn(p, n, cs)
    decreases |cs|
  {
    if cs != [] {
      var c := cs[0];
      var b' := Splice(b, n, c, lo, hi, columns);
      var n' := n + c.Delta();
      BelowNewCount(b, n, c, lo, hi, columns);
      forall p | p > hi
        ensures Has(b'.inuse, p) <==> Has(b.inuse, p) && !(c.start <= p < c.MoveFrom())
      {
        BehindWindow(b, n, c, lo, hi, columns, p);
      }
      if InRange(b'.inuse, n') {
        SpliceDistinct(b, n, c, lo, hi, columns);
        InRangeExactly(b', n', cs[1..], lo, hi, columns);
      }
      InRangeCases(b.inuse, b'.inuse, n, cs, hi);
    }
  }

  /** One splice of a list, as far as the views behind the window are concerned. */
  lemma InRangeCases(s: seq<Entry>, t: seq<Entry>, n: int, cs: seq<Change>, hi: int)
    requires cs != [] && cs[0].Fits(n)
    requires InRange(t, n + cs[0].Delta()) <==>
             forall p :: Has(s, p) && p > hi && p >= cs[0].MoveFrom() ==> p < n + cs[0].Delta()
    requires forall p :: p > hi ==> (Has(t, p) <==> Has(s, p) && !(cs[0].start <= p < cs[0].MoveFrom()))
    ensures (forall p :: Has(s, p) && p > hi ==> StaysIn(p, n, cs)) <==>
            InRange(t, n + cs[0].Delta()) && forall p :: Has(t, p) && p > hi ==> StaysIn(p, n + cs[0].Delta(), cs[1..])
  {
    hide Count, InRange;
  }

  /** Any list of splices, each fitting the data as the ones before left it, keeps the positions in use distinct and within
      the data, unless a view behind the window is passed by the end of the data; and none of them comes to lie behind the
      window that did not before. */
  lemma {:induction false} SplicesKeep(b: Board, n: int, cs: seq<Change>, lo: int, hi: int, columns: nat)
    requires Distinct(b.inuse) && InRange(b.inuse, n) && AllFit(n, cs) && columns > 0
    requires forall p :: Has(b.inuse, p) && p > hi ==> StaysIn(p, n, cs)
    ensures
      var s := Splices(b, n, cs, lo, hi, columns).inuse;
      Distinct(s) && InRange(s, CountAfter(n, cs)) && (NotPast(b.inuse, hi) ==> NotPast(s, hi))
    decreases |cs|
  {
    InRangeExactly(b, n, cs, lo, hi, columns);
    if cs != [] {
      var b' := Splice(b, n, cs[0], lo, hi, columns);
      SpliceDistinct(b, n, cs[0], lo, hi, columns);
      InRangeExactly(b', n + cs[0].Delta(), cs[1..], lo, hi, columns);
      SplicesKeep(b', n + cs[0].Delta(), cs[1..], lo, hi, columns);
    }
  }
}
