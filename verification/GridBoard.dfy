/** What the grid view (lvgl/widgets/gridview/lv_gridview.c) keeps: two pools of item views.
    This module gives the pools as values; GridPools holds the linked lists that refine them. */
module GridBoard {

  /** An item view, named by the number of views created before it. */
  type View = nat

  /** One view_pool_ll_t node without its links. */
  datatype Entry = Entry(position: int, item: View)

  /** The grid cell a view is laid out in. */
  datatype Cell = Cell(row: int, col: int)

  /** The pools, and what has passed between the grid view and the outside so far: how many views it asked the adapter
      to create, the cell it gave each view, the bind_view calls in order, and the views that have been deleted. */
  datatype Board = Board(inuse: seq<Entry>, free: seq<Entry>, created: nat, cells: map<View, Cell>, bound: seq<Entry>,
                         deleted: set<View>)

  const EMPTY := Board([], [], 0, map[], [], {})

  /** How many entries of a pool are at position p. */
  function Count(s: seq<Entry>, p: int): nat {
    if s == [] then 0 else (if s[0].position == p then 1 else 0) + Count(s[1..], p)
  }

  /** How many entries of a pool hold view v. */
  function Uses(s: seq<Entry>, v: View): nat {
    if s == [] then 0 else (if s[0].item == v then 1 else 0) + Uses(s[1..], v)
  }

  predicate Has(s: seq<Entry>, p: int) {
    Count(s, p) > 0
  }

  /** The view of the first entry at p. */
  function ViewAt(s: seq<Entry>, p: int): View
    requires Has(s, p)
  {
    if s[0].position == p then s[0].item else ViewAt(s[1..], p)
  }

  /** The pool without its first entry at p. */
  function Take(s: seq<Entry>, p: int): seq<Entry> {
    if s == [] then []
    else if s[0].position == p then s[1..]
    else [s[0]] + Take(s[1..], p)
  }

  /** The pool with its first entry at p renumbered to q. */
  function Renumber(s: seq<Entry>, p: int, q: int): seq<Entry> {
    if s == [] then []
    else if s[0].position == p then [Entry(q, s[0].item)] + s[1..]
    else [s[0]] + Renumber(s[1..], p, q)
  }

  /** grid_recycle_item when it may find nothing. */
  function Recycle(b: Board, p: int): Board {
    if Has(b.inuse, p)
    then b.(inuse := Take(b.inuse, p), free := [Entry(-1, ViewAt(b.inuse, p))] + b.free)
    else b
  }

  /** The view to show at a position that has none: a recycled one, else a new one. */
  function Spare(b: Board): View {
    if b.free != [] then b.free[0].item else b.created
  }

  function SpareTaken(b: Board): Board {
    if b.free != [] then b.(free := b.free[1..]) else b.(created := b.created + 1)
  }

  /** grid_obtain_item: the view at p, else a spare one. */
  function Obtain(b: Board, p: int): (r: Board)
    ensures Has(r.inuse, p)
  {
    if Has(b.inuse, p) then b else SpareTaken(b).(inuse := [Entry(p, Spare(b))] + b.inuse)
  }

  /** The cell of a position in a grid of the given number of columns. */
  function CellOf(p: int, columns: nat): Cell
    requires columns > 0
  {
    Cell(p / columns, p % columns)
  }

  /** Obtain the view for p, lay it out if it was not there before, and bind it. */
  function Show(b: Board, p: int, columns: nat): Board
    requires columns > 0
  {
    var r := Obtain(b, p);
    var item := ViewAt(r.inuse, p);
    var cells := if Has(b.inuse, p) then r.cells else r.cells[item := CellOf(p, columns)];
    r.(cells := cells, bound := r.bound + [Entry(p, item)])
  }

  /** The pool without its first entry that holds v. */
  function Drop(s: seq<Entry>, v: View): seq<Entry> {
    if s == [] then []
    else if s[0].item == v then s[1..]
    else [s[0]] + Drop(s[1..], v)
  }

  /** item_delete_cb */
  function Delete(b: Board, v: View): Board {
    b.(inuse := Drop(b.inuse, v), free := Drop(b.free, v), deleted := b.deleted + {v})
  }

  // ---------- Counting ----------

  function One(b: bool): nat {
    if b then 1 else 0
  }

  lemma {:induction false} TakeCounts(s: seq<Entry>, p: int)
    requires Has(s, p)
    ensures forall x :: Count(Take(s, p), x) == Count(s, x) - One(x == p)
    ensures forall v :: Uses(Take(s, p), v) == Uses(s, v) - One(v == ViewAt(s, p))
  {
    if s[0].position != p {
      TakeCounts(s[1..], p);
    }
  }

  lemma {:induction false} RenumberCounts(s: seq<Entry>, p: int, q: int)
    requires Has(s, p)
    ensures forall x :: Count(Renumber(s, p, q), x) == Count(s, x) - One(x == p) + One(x == q)
    ensures forall v :: Uses(Renumber(s, p, q), v) == Uses(s, v)
  {
    if s[0].position != p {
      RenumberCounts(s[1..], p, q);
    }
  }

  lemma {:induction false} DropCounts(s: seq<Entry>, v: View)
    ensures forall w :: Uses(Drop(s, v), w) == if w == v && Uses(s, v) > 0 then Uses(s, v) - 1 else Uses(s, w)
    ensures Uses(s, v) == 0 ==> Drop(s, v) == s
  {
    if s != [] && s[0].item != v {
      DropCounts(s[1..], v);
    }
  }

  /** The position that is free when the only entry of a view has been dropped. */
  lemma {:induction false} DropPositions(s: seq<Entry>, v: View) returns (p: int)
    requires Uses(s, v) == 1
    ensures Entry(p, v) in s
    ensures forall x :: Count(Drop(s, v), x) == Count(s, x) - One(x == p)
  {
    if s[0].item == v {
      p := s[0].position;
    } else {
      p := DropPositions(s[1..], v);
    }
  }

  lemma {:induction false} Member(s: seq<Entry>, e: Entry)
    requires e in s
    ensures Has(s, e.position) && Uses(s, e.item) > 0
  {
    if s[0] != e {
      Member(s[1..], e);
    }
  }

  // ---------- Views are neither lost nor shared ----------

  /** Every view that was created and not deleted is in exactly one pool, exactly once, and no other view is. */
  ghost predicate Conserved(b: Board) {
    && (forall v :: v in b.deleted ==> v < b.created)
    && forall v: View :: Uses(b.inuse, v) + Uses(b.free, v) == One(v < b.created && v !in b.deleted)
  }

  /** No position is bound to two views. */
  ghost predicate Distinct(s: seq<Entry>) {
    forall p :: Count(s, p) <= 1
  }

  lemma RecycleConserves(b: Board, p: int)
    requires Conserved(b)
    ensures Conserved(Recycle(b, p))
  {
    if Has(b.inuse, p) {
      TakeCounts(b.inuse, p);
    }
  }

  lemma DeleteConserves(b: Board, v: View)
    requires Conserved(b) && v < b.created
    ensures Conserved(Delete(b, v))
  {
    DropCounts(b.inuse, v);
    DropCounts(b.free, v);
  }

  lemma ShowConserves(b: Board, p: int, columns: nat)
    requires Conserved(b) && columns > 0
    ensures Conserved(Show(b, p, columns))
  {
  }

  lemma ShowCounts(b: Board, p: int, columns: nat)
    requires columns > 0
    ensures forall x :: Count(Show(b, p, columns).inuse, x) == if x == p && !Has(b.inuse, p) then 1 else Count(b.inuse, x)
  {
  }

  /** After a view has been deleted neither pool mentions it, and nothing else has changed hands. */
  lemma DeletedEverywhere(b: Board, v: View)
    requires Conserved(b)
    ensures Uses(Delete(b, v).inuse, v) == Uses(Delete(b, v).free, v) == 0
    ensures forall w :: w != v ==>
      Uses(Delete(b, v).inuse, w) == Uses(b.inuse, w) && Uses(Delete(b, v).free, w) == Uses(b.free, w)
  {
    DropCounts(b.inuse, v);
    DropCounts(b.free, v);
  }
}
