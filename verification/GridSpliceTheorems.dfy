/** What a list of splices does to the views in use. */
module GridSpliceTheorems {
  import opened GridBoard
  import opened GridSplice

  // ---------- The pool as a shifted copy of what it was ----------

  /** The pool with the entries at positions above p (and at most m.top) moved by m.delta,
      and dropped where that leaves the window. */
  function Shifted(s: seq<Entry>, p: int, m: Pass): seq<Entry> {
    if s == [] then []
    else if p < s[0].position <= m.top then
      if m.Lands(s[0].position + m.delta)
      then [Entry(s[0].position + m.delta, s[0].item)] + Shifted(s[1..], p, m)
      else Shifted(s[1..], p, m)
    else [s[0]] + Shifted(s[1..], p, m)
  }

  /** Entry e is on its way to position p when the entries above p have moved. */
  predicate Arriving(e: Entry, p: int, m: Pass) {
    p < e.position <= m.top && e.position + m.delta == p && m.Lands(p)
  }

  /** Nothing that arrives at p stands in front of what was at p before. */
  predicate OldFirst(s: seq<Entry>, p: int, m: Pass) {
    s == [] || s[0].position == p || (!Arriving(s[0], p, m) && OldFirst(s[1..], p, m))
  }

  /** In other words: in front of everything that arrives at p there is an entry that was at p before. */
  lemma {:induction false} OldFirstMeans(s: seq<Entry>, p: int, m: Pass)
    ensures OldFirst(s, p, m) <==>
            forall j :: 0 <= j < |s| && Arriving(s[j], p, m) ==> exists i :: 0 <= i < j && s[i].position == p
  {
    if s != [] {
      OldFirstMeans(s[1..], p, m);
      assert forall j :: 0 < j < |s| ==> s[j] == s[1..][j - 1];
      if OldFirst(s, p, m) && s[0].position != p {
        forall j | 0 <= j < |s| && Arriving(s[j], p, m)
          ensures exists i :: 0 <= i < j && s[i].position == p
        {
          assert j > 0 && Arriving(s[1..][j - 1], p, m);
          var i :| 0 <= i < j - 1 && s[1..][i].position == p;
          assert s[i + 1].position == p;
        }
      } else if !OldFirst(s, p, m) && !Arriving(s[0], p, m) {
        var j :| 0 <= j < |s[1..]| && Arriving(s[1..][j], p, m)
              && !exists i :: 0 <= i < j && s[1..][i].position == p;
        assert Arriving(s[j + 1], p, m);
        forall i | 0 <= i < j + 1
          ensures s[i].position != p
        {
          if i > 0 {
            assert s[1..][i - 1].position != p;
          }
        }
      }
    }
  }

  lemma {:induction false} NothingThere(s: seq<Entry>, p: int, m: Pass)
    requires Count(s, p) == 0
    ensures Shifted(s, p - 1, m) == Shifted(s, p, m)
  {
    if s != [] {
      NothingThere(s[1..], p, m);
    }
  }

  lemma {:induction false} StepShifts(s: seq<Entry>, p: int, m: Pass)
    requires Count(s, p) <= 1 && p <= m.top && m.delta != 0 && OldFirst(s, p, m)
    ensures MoveFirst(Shifted(s, p, m), p, m) == Shifted(s, p - 1, m)
  {
    if s != [] {
      if s[0].position == p {
        NothingThere(s[1..], p, m);
        assert ([s[0]] + Shifted(s[1..], p, m))[1..] == Shifted(s[1..], p, m);
      } else {
        StepShifts(s[1..], p, m);
        if Shifted(s, p, m) != Shifted(s[1..], p, m) {
          assert Shifted(s, p, m)[1..] == Shifted(s[1..], p, m);
        }
      }
    }
  }

  lemma {:induction false} NotYetMoved(s: seq<Entry>, p: int, m: Pass)
    requires m.top <= p
    ensures Shifted(s, p, m) == s
  {
    if s != [] {
      NotYetMoved(s[1..], p, m);
    }
  }

  lemma {:induction false} PassShifts(b: Board, s: seq<Entry>, p: int, m: Pass)
    requires m.columns > 0 && Distinct(s) && m.delta != 0 && m.from - 1 <= p <= m.top
    requires b.inuse == Shifted(s, p, m)
    requires forall x :: m.from <= x <= p ==> OldFirst(s, x, m)
    ensures MovePass(b, p, m).inuse == Shifted(s, m.from - 1, m)
    decreases p - m.from
  {
    if p >= m.from {
      StepShifts(s, p, m);
      PassShifts(MoveOne(b, p, m), s, p - 1, m);
    }
  }

  lemma {:induction false} UpwardsOldFirst(s: seq<Entry>, p: int, m: Pass)
    requires m.delta > 0
    ensures OldFirst(s, p, m)
  {
    if s != [] {
      UpwardsOldFirst(s[1..], p, m);
    }
  }

  lemma {:induction false} ShiftedCounts(s: seq<Entry>, p: int, m: Pass, x: int)
    ensures Count(Shifted(s, p, m), x) == (if p < x <= m.top then 0 else Count(s, x))
              + (if p < x - m.delta <= m.top && m.Lands(x) then Count(s, x - m.delta) else 0)
  {
    if s != [] {
      ShiftedCounts(s[1..], p, m, x);
      if Shifted(s, p, m) != Shifted(s[1..], p, m) {
        assert Shifted(s, p, m)[1..] == Shifted(s[1..], p, m);
      }
    }
  }

  // ---------- Where a splice keeps each view with its item ----------

  /** The entries that stay, with their views and in their order: before the splice as they were, behind it, wherever
      they are in the data, renumbered, as far as the window reaches. */
  function Renumbered(b: Board, n: int, c: Change, lo: int, hi: int, columns: nat): seq<Entry> {
    var r := RecycleRange(b, c.start, c.MoveFrom()).inuse;
    if c.Delta() == 0 then r else Shifted(r, c.MoveFrom() - 1, PassOf(c, n, lo, hi, columns).(top := n - 1))
  }

  /** No view that should move is beyond hi, where the pass begins. */
  ghost predicate NoneBehind(s: seq<Entry>, c: Change, hi: int) {
    c.Delta() != 0 ==> forall p :: Has(s, p) && p >= c.MoveFrom() ==> p <= hi
  }

  /** In the pool list, no view stands in front of the view it pushes further down. */
  ghost predicate LowerFirst(s: seq<Entry>, m: Pass) {
    forall x :: m.Covers(x) ==> OldFirst(s, x, m)
  }

  /** An entry of view v is below p, or v is not in use. */
  ghost predicate Below(s: seq<Entry>, v: View, p: int) {
    forall i :: 0 <= i < |s| && s[i].item == v ==> s[i].position < p
  }

  lemma {:induction false} MoveFirstBelow(s: seq<Entry>, v: View, p: int, x: int, m: Pass)
    requires Below(s, v, p) && m.delta < 0
    ensures Below(MoveFirst(s, x, m), v, p)
  {
    if s != [] && s[0].position != x {
      assert forall i :: 0 <= i < |s[1..]| ==> s[1..][i] == s[i + 1];
      MoveFirstBelow(s[1..], v, p, x, m);
    }
  }

  lemma {:induction false} PassBelow(b: Board, v: View, p: int, x: int, m: Pass)
    requires Below(b.inuse, v, p) && m.delta < 0 && m.columns > 0
    ensures Below(MovePass(b, x, m).inuse, v, p)
    decreases x - m.from
  {
    if x >= m.from {
      MoveFirstBelow(b.inuse, v, p, x, m);
      PassBelow(MoveOne(b, x, m), v, p, x - 1, m);
    }
  }

  lemma {:induction false} Unused(s: seq<Entry>, v: View)
    requires Uses(s, v) == 0
    ensures forall i :: 0 <= i < |s| ==> s[i].item != v
  {
    forall i | 0 <= i < |s|
      ensures s[i].item != v
    {
      Member(s, s[i]);
    }
  }

  lemma {:induction false} MovedAway(s: seq<Entry>, p: int, m: Pass)
    requires Has(s, p) && m.delta < 0 && Uses(s, ViewAt(s, p)) == 1
    ensures Below(MoveFirst(s, p, m), ViewAt(s, p), p)
  {
    if s[0].position == p {
      Unused(s[1..], s[0].item);
    } else {
      ViewUsed(s[1..], p);
      MovedAway(s[1..], p, m);
    }
  }

  lemma {:induction false} ShiftedUses(s: seq<Entry>, p: int, m: Pass, v: View)
    ensures Uses(Shifted(s, p, m), v) <= Uses(s, v)
  {
    if s != [] {
      ShiftedUses(s[1..], p, m, v);
      if Shifted(s, p, m) != Shifted(s[1..], p, m) {
        assert Shifted(s, p, m)[1..] == Shifted(s[1..], p, m);
      }
    }
  }

  /** If something arrives in front of what was at p, it is the first entry there, and it belongs there. */
  lemma {:induction false} ArrivedFirst(s: seq<Entry>, p: int, m: Pass, z: int)
    requires !OldFirst(s, p, m) && m.delta < 0 && z <= p
    ensures Has(Shifted(s, p, m), p)
    ensures Entry(p, ViewAt(Shifted(s, p, m), p)) in Shifted(s, z, m)
  {
    if !Arriving(s[0], p, m) {
      ArrivedFirst(s[1..], p, m, z);
      if Shifted(s, p, m) != Shifted(s[1..], p, m) {
        assert Shifted(s, p, m)[1..] == Shifted(s[1..], p, m);
      }
    }
  }

  lemma {:induction false} PassMisses(b: Board, s: seq<Entry>, p: int, m: Pass)
    requires m.columns > 0 && Distinct(s) && m.delta < 0 && m.from - 1 <= p <= m.top
    requires forall v :: Uses(s, v) <= 1
    requires b.inuse == Shifted(s, p, m)
    requires exists x :: m.from <= x <= p && !OldFirst(s, x, m)
    ensures MovePass(b, p, m).inuse != Shifted(s, m.from - 1, m)
    decreases p - m.from
  {
    if OldFirst(s, p, m) {
      StepShifts(s, p, m);
      PassMisses(MoveOne(b, p, m), s, p - 1, m);
    } else {
      ArrivedFirst(s, p, m, m.from - 1);
      var v := ViewAt(b.inuse, p);
      ShiftedUses(s, p, m, v);
      ViewUsed(b.inuse, p);
      MovedAway(b.inuse, p, m);
      PassBelow(MoveOne(b, p, m), v, p, p - 1, m);
    }
  }

  lemma {:induction false} ViewUsed(s: seq<Entry>, p: int)
    requires Has(s, p)
    ensures Uses(s, ViewAt(s, p)) >= 1
  {
    if s[0].position != p {
      ViewUsed(s[1..], p);
    }
  }

  /** Over the positions that it visits, the pass is a shift exactly if it does not move down, or the pool lists the
      lower position first wherever a view comes down to a position that is taken. */
  lemma PassIsShift(r: Board, m: Pass)
    requires Distinct(r.inuse) && m.delta != 0 && m.columns > 0
    requires forall v :: Uses(r.inuse, v) <= 1
    ensures MovePass(r, m.top, m).inuse == Shifted(r.inuse, m.from - 1, m) <==> (m.delta < 0 ==> LowerFirst(r.inuse, m))
  {
    NotYetMoved(r.inuse, m.top, m);
    if m.top < m.from - 1 {
      NotYetMoved(r.inuse, m.from - 1, m);
    } else if m.delta > 0 {
      forall x | m.from <= x <= m.top
        ensures OldFirst(r.inuse, x, m)
      {
        UpwardsOldFirst(r.inuse, x, m);
      }
      PassShifts(r, r.inuse, m.top, m);
    } else if LowerFirst(r.inuse, m) {
      PassShifts(r, r.inuse, m.top, m);
    } else {
      PassMisses(r, r.inuse, m.top, m);
    }
  }

  /** If everything that should move is visited, it does not matter where the pass begins. */
  lemma {:induction false} SameTop(s: seq<Entry>, p: int, m: Pass, top: int)
    requires m.top <= top && forall x :: Has(s, x) && p < x <= top ==> x <= m.top
    ensures Shifted(s, p, m) == Shifted(s, p, m.(top := top))
  {
    if s != [] {
      assert Has(s, s[0].position);
      assert forall x :: Has(s[1..], x) ==> Has(s, x);
      SameTop(s[1..], p, m, top);
    }
  }

  lemma {:induction false} TakeLeaves(s: seq<Entry>, p: int, x: int)
    requires Has(s, x) && x != p
    ensures Has(Take(s, p), x) && ViewAt(Take(s, p), x) == ViewAt(s, x)
  {
    if s[0].position != x && s[0].position != p {
      TakeLeaves(s[1..], p, x);
    }
  }

  lemma {:induction false} RenumberLeaves(s: seq<Entry>, p: int, q: int, x: int)
    requires Has(s, x) && x != p && x != q
    ensures Has(Renumber(s, p, q), x) && ViewAt(Renumber(s, p, q), x) == ViewAt(s, x)
  {
    if s[0].position != x && s[0].position != p {
      RenumberLeaves(s[1..], p, q, x);
    }
  }

  lemma {:induction false} RecycleRangeLeaves(b: Board, from: int, end: int, x: int)
    requires Has(b.inuse, x) && !(from <= x < end)
    ensures var r := RecycleRange(b, from, end); Has(r.inuse, x) && ViewAt(r.inuse, x) == ViewAt(b.inuse, x)
    decreases end - from
  {
    if from < end {
      TakeLeaves(b.inuse, from, x);
      RecycleRangeLeaves(Recycle(b, from), from + 1, end, x);
    }
  }

  lemma {:induction false} PassLeaves(b: Board, p: int, m: Pass, x: int)
    requires Has(b.inuse, x) && x > p && x > m.hi && m.columns > 0
    ensures var r := MovePass(b, p, m); Has(r.inuse, x) && ViewAt(r.inuse, x) == ViewAt(b.inuse, x)
    decreases p - m.from
  {
    if p >= m.from {
      if m.Lands(p + m.delta) {
        RenumberLeaves(b.inuse, p, p + m.delta, x);
      } else {
        TakeLeaves(b.inuse, p, x);
      }
      PassLeaves(MoveOne(b, p, m), p - 1, m, x);
    }
  }

  /** A view behind the window stays at its position, whatever becomes of its item, unless that is removed. */
  lemma StaysBehind(b: Board, n: int, c: Change, lo: int, hi: int, columns: nat, x: int)
    requires Has(b.inuse, x) && x > hi && !(c.start <= x < c.MoveFrom()) && columns > 0
    ensures var s := Splice(b, n, c, lo, hi, columns).inuse; Has(s, x) && ViewAt(s, x) == ViewAt(b.inuse, x)
  {
    var m := PassOf(c, n, lo, hi, columns);
    RecycleRangeLeaves(b, c.start, c.MoveFrom(), x);
    PassLeaves(RecycleRange(b, c.start, c.MoveFrom()), m.top, m, x);
  }

  /** A splice keeps every remaining view with its item, as far as the window reaches, and leaves nothing else in use, exactly
      if no view that should move is behind the window and, when the data shrinks, the pool lists the lower position first
      wherever a view comes down to a position that is taken. */
  lemma ViewsKept(b: Board, n: int, c: Change, lo: int, hi: int, columns: nat)
    requires Conserved(b) && Distinct(b.inuse) && InRange(b.inuse, n) && c.Fits(n) && columns > 0
    ensures Splice(b, n, c, lo, hi, columns).inuse == Renumbered(b, n, c, lo, hi, columns) <==>
            && NoneBehind(b.inuse, c, hi)
            && (c.Delta() < 0 ==> LowerFirst(RecycleRange(b, c.start, c.MoveFrom()).inuse, PassOf(c, n, lo, hi, columns)))
  {
    hide LowerFirst, MovePass, Shifted, RecycleRange;
    var r := RecycleRange(b, c.start, c.MoveFrom());
    var m := PassOf(c, n, lo, hi, columns);
    RecycleRangeCounts(b, c.start, c.MoveFrom());
    RecycleRangeConserves(b, c.start, c.MoveFrom());
    if c.Delta() != 0 {
      forall v: View
        ensures Uses(r.inuse, v) <= 1
      {
        assert Uses(r.inuse, v) + Uses(r.free, v) <= 1;
      }
      if NoneBehind(b.inuse, c, hi) {
        assert forall x :: Has(r.inuse, x) ==> Has(b.inuse, x);
        SameTop(r.inuse, m.from - 1, m, n - 1);
        PassIsShift(r, m);
      } else {
        var p :| Has(b.inuse, p) && p >= c.MoveFrom() && p > hi;
        StaysBehind(b, n, c, lo, hi, columns, p);
        ShiftedCounts(r.inuse, m.from - 1, m.(top := n - 1), p);
      }
    }
  }

  // ---------- What Renumbered holds ----------

  lemma {:induction false} TakeMembers(s: seq<Entry>, p: int, e: Entry)
    requires Count(s, p) == 1
    ensures e in Take(s, p) <==> e in s && e.position != p
  {
    if s[0].position != p {
      TakeMembers(s[1..], p, e);
    } else if e in s[1..] {
      Member(s[1..], e);
    }
  }

  lemma {:induction false} RecycleRangeMembers(b: Board, from: int, end: int, e: Entry)
    requires Distinct(b.inuse)
    ensures e in RecycleRange(b, from, end).inuse <==> e in b.inuse && !(from <= e.position < end)
    decreases end - from
  {
    if from < end {
      if Has(b.inuse, from) {
        TakeCounts(b.inuse, from);
        TakeMembers(b.inuse, from, e);
      } else if e in b.inuse {
        Member(b.inuse, e);
      }
      RecycleRangeMembers(Recycle(b, from), from + 1, end, e);
    }
  }

  /** e is what an entry of s that does not move is, or what one that moves becomes. */
  ghost predicate Comes(s: seq<Entry>, p: int, m: Pass, e: Entry) {
    || (e in s && !(p < e.position <= m.top))
    || (p < e.position - m.delta <= m.top && m.Lands(e.position) && Entry(e.position - m.delta, e.item) in s)
  }

  lemma {:induction false} ShiftedMembers(s: seq<Entry>, p: int, m: Pass, e: Entry)
    ensures e in Shifted(s, p, m) <==> Comes(s, p, m, e)
  {
    if s != [] {
      ShiftedMembers(s[1..], p, m, e);
      assert s == [s[0]] + s[1..];
    }
  }

  /** All positions in use belong to one of n items. */
  ghost predicate InRange(s: seq<Entry>, n: int) {
    forall p :: Has(s, p) ==> 0 <= p < n
  }

  /** No position in use lies beyond hi. */
  ghost predicate NotPast(s: seq<Entry>, hi: int) {
    forall p :: Has(s, p) ==> p <= hi
  }

  /** Renumbered is the pool as the splice should leave it: an entry in front of the splice is still there, an entry
      behind it is there at its new position if the window (lo to hi) has it, and there is nothing else. */
  lemma RenumberedMeans(b: Board, n: int, c: Change, lo: int, hi: int, columns: nat, e: Entry)
    requires Distinct(b.inuse) && c.Fits(n) && InRange(b.inuse, n)
    ensures e in Renumbered(b, n, c, lo, hi, columns) <==>
            || (e in b.inuse && e.position < c.start)
            || (e.position - c.Delta() >= c.MoveFrom() && Entry(e.position - c.Delta(), e.item) in b.inuse
                && (c.Delta() == 0 || lo <= e.position <= hi))
  {
    var was := Entry(e.position - c.Delta(), e.item);
    RecycleRangeMembers(b, c.start, c.MoveFrom(), e);
    RecycleRangeMembers(b, c.start, c.MoveFrom(), was);
    ShiftedMembers(RecycleRange(b, c.start, c.MoveFrom()).inuse, c.MoveFrom() - 1,
                   PassOf(c, n, lo, hi, columns).(top := n - 1), e);
    if e in b.inuse {
      Member(b.inuse, e);
    }
    if was in b.inuse {
      Member(b.inuse, was);
    }
  }

  /** Removing the first of three items swaps the views of the other two when the pool lists the later one first,
      which is the order in which fill_rows puts them there. */
  lemma ShrinkSwapsViews(b: Board, hi: int)
    requires b.inuse == [Entry(2, 2), Entry(1, 1), Entry(0, 0)] && hi >= 2
    ensures Splice(b, 3, Change(0, 1, 0), 0, hi, 1).inuse == [Entry(0, 2), Entry(1, 1)]
  {
    var m := PassOf(Change(0, 1, 0), 3, 0, hi, 1);
    var r := Recycle(b, 0);
    assert RecycleRange(b, 0, 1) == r;
    assert b.inuse[1..] == [Entry(1, 1), Entry(0, 0)] && b.inuse[1..][1..] == [Entry(0, 0)];
    assert r.inuse == [Entry(2, 2), Entry(1, 1)] by {
      assert Has(b.inuse, 0) by {
        assert Has([Entry(0, 0)], 0) && Has([Entry(1, 1), Entry(0, 0)], 0);
      }
      assert Take([Entry(0, 0)], 0) == [];
      assert Take([Entry(1, 1), Entry(0, 0)], 0) == [Entry(1, 1)];
    }
    var r1 := MoveOne(r, 2, m);
    assert r1.inuse == [Entry(1, 2), Entry(1, 1)];
    var r2 := MoveOne(r1, 1, m);
    assert r2.inuse == [Entry(0, 2), Entry(1, 1)];
    assert MovePass(r, 2, m) == MovePass(r1, 1, m) == MovePass(r2, 0, m) == r2;
  }
}
