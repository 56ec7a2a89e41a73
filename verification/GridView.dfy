/** The grid view with its fields and pools (lv_gridview.c): each function of the source as a method,
    proved to do what GridFill says. */
module GridView {
  import opened LinkedLists
  import opened GridBoard
  import opened GridPools
  import opened GridSplice
  import opened GridWindow
  import opened GridFill

  class LvGrid {
    var sizes: Sizes
    var itemCount: int
    var rowCount: int
    var rowStart: int
    var rowEnd: int
    var focused: int
    var focusWhenAvailable: int
    const inuse: ViewPool
    const free: ViewPool
    // what the adapter and the layout have been told
    var created: nat
    var cells: map<View, Cell>
    var bound: seq<Entry>
    var deleted: set<View>
    ghost var Repr: set<object>

    ghost predicate Valid()
      reads this, Repr
    {
      && this in Repr && inuse in Repr && free in Repr
      && (forall i :: 0 <= i < |inuse.nodes| ==> inuse.nodes[i] in Repr)
      && (forall i :: 0 <= i < |free.nodes| ==> free.nodes[i] in Repr)
      && inuse != free && inuse.Valid() && free.Valid()
      && (forall i, j :: 0 <= i < |inuse.nodes| && 0 <= j < |free.nodes| ==> inuse.nodes[i] != free.nodes[j])
      && sizes.Valid()
    }

    ghost function Pools(): Board
      reads this, inuse, inuse.nodes, free, free.nodes
    {
      Board(inuse.Entries(), free.Entries(), created, cells, bound, deleted)
    }

    ghost function State(): Grid
      reads this, inuse, inuse.nodes, free, free.nodes
    {
      Grid(sizes, itemCount, rowCount, rowStart, rowEnd, focused, focusWhenAvailable, Pools())
    }

    constructor (sizes: Sizes)
      requires sizes.Valid()
      ensures Valid() && fresh(Repr)
      ensures State() == Grid(sizes, 0, 0, -1, -1, -1, -1, EMPTY)
    {
      this.sizes := sizes;
      itemCount, rowCount := 0, 0;
      rowStart, rowEnd, focused, focusWhenAvailable := -1, -1, -1, -1;
      created, cells, bound, deleted := 0, map[], [], {};
      inuse := new ViewPool();
      free := new ViewPool();
      Repr := {this, inuse, free};
    }

    /** view_pool_take_by_position on the pool in use. */
    method TakeInUse(p: int) returns (item: Taken)
      requires Valid()
      modifies Repr
      ensures Valid() && fresh(Repr - old(Repr)) && inuse.Entries() == Take(old(inuse.Entries()), p)
      ensures item == if Has(old(inuse.Entries()), p) then Item(ViewAt(old(inuse.Entries()), p)) else Nothing
      ensures State() == old(State()).(board := old(Pools()).(inuse := inuse.Entries()))
    {
      ghost var k;
      item, k := inuse.TakeByPosition(p);
    }

    /** view_pool_put on the pool of spare views. */
    method PutFree(item: View)
      requires Valid()
      modifies Repr
      ensures Valid() && fresh(Repr - old(Repr)) && free.Entries() == [Entry(-1, item)] + old(free.Entries())
      ensures State() == old(State()).(board := old(Pools()).(free := free.Entries()))
    {
      free.Put(-1, item);
      Repr := Repr + {free.nodes[0]};
    }

    /** grid_recycle_item: false if there is no view at p. */
    method RecycleItem(p: int) returns (found: bool)
      requires Valid()
      modifies Repr
      ensures Valid() && fresh(Repr - old(Repr))
      ensures found == Has(old(inuse.Entries()), p)
      ensures State() == old(State()).(board := Recycle(old(Pools()), p))
    {
      hide Linked, Count, ViewAt, Take, Values;
      var item := TakeInUse(p);
      if item.Nothing? {
        ViewPool.NothingTaken(old(inuse.Entries()), p);
        return false;
      }
      PutFree(item.item);
      return true;
    }

    /** The second half of grid_obtain_item, up to the call of view_pool_put. */
    method SpareItem() returns (item: View)
      requires Valid()
      modifies Repr
      ensures Valid() && fresh(Repr - old(Repr)) && item == Spare(old(Pools()))
      ensures State() == old(State()).(board := SpareTaken(old(Pools())))
    {
      var polled := free.Poll();
      if polled.Nothing? {
        item := created;
        created := created + 1;
      } else {
        item := polled.item;
      }
    }

    /** view_pool_put on the pool in use. */
    method PutInUse(p: int, item: View)
      requires Valid()
      modifies Repr
      ensures Valid() && fresh(Repr - old(Repr)) && inuse.Entries() == [Entry(p, item)] + old(inuse.Entries())
      ensures State() == old(State()).(board := old(Pools()).(inuse := inuse.Entries()))
    {
      inuse.Put(p, item);
      Repr := Repr + {inuse.nodes[0]};
    }

    /** grid_obtain_item */
    method ObtainItem(p: int) returns (item: View, isNew: bool)
      requires Valid()
      modifies Repr
      ensures Valid() && fresh(Repr - old(Repr))
      ensures State() == old(State()).(board := Obtain(old(Pools()), p))
      ensures item == ViewAt(inuse.Entries(), p) && isNew == !Has(old(inuse.Entries()), p)
    {
      hide Linked, Count, ViewAt, Values;
      var cur, k := inuse.NodeByPosition(p);
      if cur != null {
        AtFirst(inuse.Entries(), p, k);
        return cur.data.item, false;
      }
      item := SpareItem();
      PutInUse(p, item);
      AtFirst(inuse.Entries(), p, 0);
      isNew := true;
    }

    /** The body of the loop in fill_rows that shows a position. */
    method ShowItem(p: int, row: int, col: int)
      requires Valid() && Cell(row, col) == CellOf(p, sizes.columns)
      modifies Repr
      ensures Valid() && fresh(Repr - old(Repr))
      ensures State() == old(State()).(board := Show(old(Pools()), p, sizes.columns))
    {
      hide Linked, Count, ViewAt, Values;
      var item, isNew := ObtainItem(p);
      if isNew {
        cells := cells[item := Cell(row, col)];
      }
      bound := bound + [Entry(p, item)];
    }

    /** The body of the move loop of update_grid. */
    method MoveItem(p: int, m: Pass)
      requires Valid() && m.columns == sizes.columns
      modifies Repr
      ensures Valid() && fresh(Repr - old(Repr))
      ensures State() == old(State()).(board := MoveOne(old(Pools()), p, m))
    {
      hide Linked, Count, ViewAt, Take, Values, Renumber;
      var q := p + m.delta;
      if q < m.lo || q > m.hi {
        var _ := RecycleItem(p);
        return;
      }
      var node, k := inuse.NodeByPosition(p);
      if node == null {
        return;
      }
      inuse.SetPosition(node, p, q, k);
      cells := cells[node.data.item := Cell(q / sizes.columns % 256, q % sizes.columns % 256)];
    }

    /** The first loop for a change: recycle what has been removed. */
    method RecycleRemoved(from: int, end: int)
      requires Valid()
      modifies Repr
      ensures Valid() && fresh(Repr - old(Repr))
      ensures State() == old(State()).(board := RecycleRange(old(Pools()), from, end))
    {
      hide Linked, Recycle;
      var p := from;
      while p < end
        invariant Valid() && fresh(Repr - old(Repr))
        invariant State() == old(State()).(board := Pools())
        invariant RecycleRange(Pools(), p, end) == RecycleRange(old(Pools()), from, end)
        decreases end - p
      {
        var _ := RecycleItem(p);
        p := p + 1;
      }
    }

    /** The second loop for a change: renumber what has moved. */
    method MoveItems(m: Pass)
      requires Valid() && m.columns == sizes.columns
      modifies Repr
      ensures Valid() && fresh(Repr - old(Repr))
      ensures State() == old(State()).(board := MovePass(old(Pools()), m.top, m))
    {
      hide Linked, MoveOne;
      var p := m.top;
      while p >= m.from
        invariant Valid() && fresh(Repr - old(Repr))
        invariant State() == old(State()).(board := Pools())
        invariant MovePass(Pools(), p, m) == MovePass(old(Pools()), m.top, m)
        decreases p - m.from
      {
        MoveItem(p, m);
        p := p - 1;
      }
    }

    /** The change loop of update_grid: false if one of its assertions fails. */
    method ApplyChanges(cs: seq<Change>, n: int, lo: int, hi: int) returns (ok: bool)
      requires Valid()
      modifies Repr
      ensures Valid() && fresh(Repr - old(Repr))
      ensures ok == (StartsValid(cs) && CountAfter(n, cs) == itemCount)
      ensures State() == old(State()).(board := Pools())
      ensures ok ==> Pools() == Splices(old(Pools()), n, cs, lo, hi, sizes.columns)
    {
      hide Linked, MovePass, RecycleRange, Max;
      var count := n;
      var i := 0;
      while i < |cs|
        invariant Valid() && fresh(Repr - old(Repr)) && 0 <= i <= |cs|
        invariant forall j :: 0 <= j < i ==> cs[j].start >= 0
        invariant State() == old(State()).(board := Pools())
        invariant CountAfter(count, cs[i..]) == CountAfter(n, cs)
        invariant Splices(Pools(), count, cs[i..], lo, hi, sizes.columns) == Splices(old(Pools()), n, cs, lo, hi, sizes.columns)
      {
        var change := cs[i];
        if change.start < 0 {
          return false;
        }
        assert cs[i..][0] == change && cs[i..][1..] == cs[i + 1..];
        ApplyChange(change, count, lo, hi);
        count := count + (change.addCount - change.removeCount);
        i := i + 1;
      }
      ok := count == itemCount;
    }

    method ApplyChange(change: Change, count: int, lo: int, hi: int)
      requires Valid()
      modifies Repr
      ensures Valid() && fresh(Repr - old(Repr))
      ensures State() == old(State()).(board := Splice(old(Pools()), count, change, lo, hi, sizes.columns))
    {
      hide Valid, MovePass, RecycleRange;
      RecycleRemoved(change.start, change.start + change.removeCount);
      var moveFrom, moveDelta := change.start + change.removeCount, change.addCount - change.removeCount;
      if moveDelta != 0 {
        MoveItems(Pass(moveFrom, Min(count - 1, hi), moveDelta, lo, hi, sizes.columns));
      }
    }

    /** One row of the loops in fill_rows that recycle excess items; they stop at position e or at the last item. */
    method RecycleRow(row: int, ghost e: int) returns (ok: bool)
      requires Valid() && e <= itemCount && (e == itemCount || FirstOf(row + 1, sizes.columns) <= e)
      modifies Repr
      ensures Valid() && fresh(Repr - old(Repr))
      ensures !ok ==> MustRecycle(old(Pools()), FirstOf(row, sizes.columns), e).None?
      ensures State() == old(State()).(board := Pools())
      ensures ok ==> MustRecycle(Pools(), FirstOf(row + 1, sizes.columns), e)
                     == MustRecycle(old(Pools()), FirstOf(row, sizes.columns), e)
    {
      hide Linked, Recycle;
      NextRow(row, sizes.columns);
      var col := 0;
      while col < sizes.columns
        invariant Valid() && fresh(Repr - old(Repr)) && 0 <= col <= sizes.columns
        invariant State() == old(State()).(board := Pools())
        invariant MustRecycle(Pools(), FirstOf(row, sizes.columns) + col, e)
                  == MustRecycle(old(Pools()), FirstOf(row, sizes.columns), e)
      {
        var position := row * sizes.columns + col;
        col := col + 1;
        if position >= itemCount {
          continue;
        }
        var found := RecycleItem(position);
        if !found {
          return false;
        }
      }
      return true;
    }

    static lemma NextRow(row: int, columns: nat)
      ensures FirstOf(row + 1, columns) == FirstOf(row, columns) + columns
    {
    }

    /** The loops in fill_rows that recycle excess items, for rows from..end-1. */
    method RecycleRows(from: int, end: int) returns (ok: bool)
      requires Valid()
      modifies Repr
      ensures Valid() && fresh(Repr - old(Repr))
      ensures
        var r := MustRecycle(old(Pools()), FirstOf(from, sizes.columns), Min(FirstOf(end, sizes.columns), itemCount));
        ok == r.Some? && (ok ==> Pools() == r.value) && State() == old(State()).(board := Pools())
    {
      hide Linked, FirstOf, Recycle;
      ghost var e := Min(FirstOf(end, sizes.columns), itemCount);
      var row := from;
      while row < end
        invariant Valid() && fresh(Repr - old(Repr)) && (from <= row <= end || row == from >= end)
        invariant State() == old(State()).(board := Pools())
        invariant MustRecycle(Pools(), FirstOf(row, sizes.columns), e)
                  == MustRecycle(old(Pools()), FirstOf(from, sizes.columns), e)
        decreases end - row
      {
        RowOrder(row + 1, end, sizes.columns);
        var done := RecycleRow(row, e);
        if !done {
          return false;
        }
        row := row + 1;
      }
      RowOrder(end, row, sizes.columns);
      return true;
    }

    /** One row of the loop in fill_rows that shows items. */
    method ShowRow(row: int, ghost e: int)
      requires Valid() && e <= itemCount && (e == itemCount || FirstOf(row + 1, sizes.columns) <= e)
      modifies Repr
      ensures Valid() && fresh(Repr - old(Repr))
      ensures State() == old(State()).(board := Pools())
      ensures ShowRange(Pools(), FirstOf(row + 1, sizes.columns), e, sizes.columns)
              == ShowRange(old(Pools()), FirstOf(row, sizes.columns), e, sizes.columns)
    {
      hide Linked, Show;
      NextRow(row, sizes.columns);
      var col := 0;
      while col < sizes.columns
        invariant Valid() && fresh(Repr - old(Repr)) && 0 <= col <= sizes.columns
        invariant State() == old(State()).(board := Pools())
        invariant ShowRange(Pools(), FirstOf(row, sizes.columns) + col, e, sizes.columns)
                  == ShowRange(old(Pools()), FirstOf(row, sizes.columns), e, sizes.columns)
      {
        var position := row * sizes.columns + col;
        if position >= itemCount {
          break;
        }
        CellAt(row, col, sizes.columns);
        ShowItem(position, row, col);
        col := col + 1;
      }
    }

    static lemma CellAt(row: int, col: int, columns: nat)
      requires 0 <= col < columns
      ensures CellOf(row * columns + col, columns) == Cell(row, col)
    {
      var p := row * columns + col;
      assert p == columns * (p / columns) + p % columns;
      if p / columns < row {
        MoreRows(columns, p / columns, row);
      }
      if p / columns > row {
        MoreRows(columns, row, p / columns);
      }
    }

    static lemma MoreRows(columns: nat, a: int, b: int)
      requires a < b
      ensures columns * b >= columns * a + columns
    {
      if columns > 0 {
        TimesOrder(columns, a + 1, b);
      }
    }

    /** The loop in fill_rows that shows items. */
    method ShowRows(from: int, last: int)
      requires Valid() && from <= last
      modifies Repr
      ensures Valid() && fresh(Repr - old(Repr))
      ensures State() == old(State()).(board := ShowRange(old(Pools()), FirstOf(from, sizes.columns),
                                                           Min(FirstOf(last + 1, sizes.columns), itemCount), sizes.columns))
    {
      hide Linked, FirstOf, Show;
      ghost var e := Min(FirstOf(last + 1, sizes.columns), itemCount);
      var row := from;
      while row <= last
        invariant Valid() && fresh(Repr - old(Repr)) && from <= row <= last + 1
        invariant State() == old(State()).(board := Pools())
        invariant ShowRange(Pools(), FirstOf(row, sizes.columns), e, sizes.columns)
                  == ShowRange(old(Pools()), FirstOf(from, sizes.columns), e, sizes.columns)
      {
        RowOrder(row + 1, last + 1, sizes.columns);
        ShowRow(row, e);
        row := row + 1;
      }
    }

    /** lv_gridview_focus */
    method FocusItem(position: int) returns (ok: bool)
      requires Valid()
      modifies Repr
      ensures Valid() && fresh(Repr - old(Repr))
      ensures ok == (0 <= position < itemCount)
      ensures State() == Focus(old(State()), position)
    {
      if focused >= 0 && position != focused {
        focused := -1;
      }
      if position < 0 || position >= itemCount {
        return false;
      }
      ShowFocused(position);
      focused := position;
      return true;
    }

    /** The part of lv_gridview_focus that brings an item into view. */
    method ShowFocused(position: int)
      requires Valid()
      modifies Repr
      ensures Valid() && fresh(Repr - old(Repr))
      ensures State() == old(State()).(board := if Has(old(inuse.Entries()), position) then old(Pools())
                                                else Show(old(Pools()), position, sizes.columns))
    {
      hide Linked, Show, Count, ViewAt, Values;
      var node, k := inuse.NodeByPosition(position);
      if node == null {
        ShowItem(position, position / sizes.columns, position % sizes.columns);
      }
    }

    /** The part of fill_rows that puts excess items to the recycler. */
    method RecycleExcessRows(start: int, end: int) returns (ok: bool)
      requires Valid()
      modifies Repr
      ensures Valid() && fresh(Repr - old(Repr))
      ensures State() == old(State()).(board := Pools())
      ensures
        var r := RecycleExcess(old(State()), start, end);
        ok == r.Some? && (ok ==> Pools() == r.value)
    {
      hide Linked, MustRecycle, FirstOf;
      var oldStart, oldEnd := rowStart, rowEnd;
      ok := RecycleRows(Max(0, oldStart), start);
      if ok {
        ok := RecycleRows(Max(0, end + 1), oldEnd + 1);
      }
    }

    /** fill_rows up to the update of row_start and row_end. */
    method RefillRows(start: int, end: int) returns (ok: bool)
      requires Valid() && start <= end
      modifies Repr
      ensures Valid() && fresh(Repr - old(Repr))
      ensures
        var r := Refill(old(State()), start, end);
        ok == r.Some? && (ok ==> State() == r.value)
    {
      hide Linked, RecycleExcess, ShowRange, FirstOf;
      ok := RecycleExcessRows(start, end);
      if ok {
        ShowRows(start, end);
        rowStart := start;
        rowEnd := end;
      }
    }

    /** The end of fill_rows: the focus that was waiting for its item. */
    method FocusPendingItem()
      requires Valid()
      modifies Repr
      ensures Valid() && fresh(Repr - old(Repr))
      ensures State() == FocusPending(old(State()))
    {
      hide Linked, Focus;
      if focusWhenAvailable >= 0 && focusWhenAvailable < itemCount {
        var _ := FocusItem(focusWhenAvailable);
        focusWhenAvailable := -1;
      }
    }

    /** fill_rows: false if the assertion in grid_recycle_item fails. */
    method FillRows(start: int, end: int) returns (ok: bool)
      requires Valid()
      modifies Repr
      ensures Valid() && fresh(Repr - old(Repr))
      ensures
        var r := GridFill.FillRows(old(State()), start, end);
        ok == r.Some? && (ok ==> State() == r.value)
    {
      hide Linked, Refill, FocusPending;
      if start < 0 || end < 0 || end < start {
        return true;
      }
      ok := RefillRows(start, end);
      if ok {
        FocusPendingItem();
      }
    }

    /** update_grid: false if one of its assertions fails. */
    method UpdateGrid(y: int, changes: seq<Change>, oldItemCount: int) returns (ok: bool)
      requires Valid()
      modifies Repr
      ensures Valid() && fresh(Repr - old(Repr))
      ensures
        var r := GridFill.UpdateGrid(old(State()), y, changes, oldItemCount);
        ok == r.Some? && (ok ==> State() == r.value)
    {
      hide Splices, RenderStart, RenderEnd, GridFill.FillRows, MaxItemEnd;
      if sizes.contentHeight <= 0 {
        return true;
      }
      var start, end := RenderRows(sizes, y, rowCount);
      var n := if |changes| == 0 then itemCount else oldItemCount;
      ok := ApplyChanges(changes, n, sizes.columns * start, MaxItemEnd(sizes, start));
      if !ok {
        return;
      }
      ok := FillRows(start, end);
    }

    /** The case of lv_gridview_event for a new size or style: update_sizes, and update_grid if that changed anything. */
    method SizeChanged(contentHeight: int, padRow: int, padTop: int, padBottom: int, y: int) returns (ok: bool)
      requires Valid() && padRow >= 0 && padTop >= 0 && padBottom >= 0
      modifies Repr
      ensures Valid() && fresh(Repr - old(Repr))
      ensures
        var r := Resize(old(State()), y, contentHeight, padRow, padTop, padBottom);
        ok == r.Some? && (ok ==> State() == r.value)
    {
      hide GridFill.UpdateGrid;
      var changed := sizes.contentHeight != contentHeight || sizes.padRow != padRow
        || sizes.padTop != padTop || sizes.padBottom != padBottom;
      sizes := sizes.(contentHeight := contentHeight, padRow := padRow, padTop := padTop, padBottom := padBottom);
      ok := true;
      if changed {
        ok := UpdateGrid(y, [], 0);
      }
    }

    /** lv_gridview_set_data_advanced, with a list of changes. */
    method SetDataAdvanced(items: int, changes: seq<Change>, y: int) returns (ok: bool)
      requires Valid()
      modifies Repr
      ensures Valid() && fresh(Repr - old(Repr))
      ensures
        var r := GridFill.UpdateGrid(SetCount(old(State()), items), y, changes, old(itemCount));
        ok == r.Some? && (ok ==> State() == r.value)
    {
      hide GridFill.UpdateGrid;
      var oldItemCount := itemCount;
      if itemCount != items {
        itemCount := items;
        var rows := CeilDivide(items, sizes.columns);
        if rows > 0 {
          rowCount := rows;
        }
      }
      ok := UpdateGrid(y, changes, oldItemCount);
    }

    /** item_delete_cb */
    method DeleteItem(v: View)
      requires Valid()
      modifies Repr
      ensures Valid() && fresh(Repr - old(Repr))
      ensures State() == old(State()).(board := Delete(old(Pools()), v))
    {
      hide Drop;
      DropInUse(v);
      DropFree(v);
      deleted := deleted + {v};
    }

    method DropInUse(v: View)
      requires Valid()
      modifies Repr
      ensures Valid() && fresh(Repr - old(Repr)) && inuse.Entries() == Drop(old(inuse.Entries()), v)
      ensures State() == old(State()).(board := old(Pools()).(inuse := inuse.Entries()))
    {
      hide Drop;
      var _, k := inuse.RemoveByInstance(v);
    }

    method DropFree(v: View)
      requires Valid()
      modifies Repr
      ensures Valid() && fresh(Repr - old(Repr)) && free.Entries() == Drop(old(free.Entries()), v)
      ensures State() == old(State()).(board := old(Pools()).(free := free.Entries()))
    {
      hide Drop;
      var _, k := free.RemoveByInstance(v);
    }

    /** lv_gridview_get_item_view */
    method GetItemView(position: int) returns (r: Taken)
      requires Valid()
      ensures r == if Has(inuse.Entries(), position) then Item(ViewAt(inuse.Entries(), position)) else Nothing
    {
      var node, k := inuse.NodeByPosition(position);
      if node == null {
        return Nothing;
      }
      AtFirst(inuse.Entries(), position, k);
      return Item(node.data.item);
    }

    /** lv_gridview_get_item_data_index */
    method GetItemDataIndex(v: View) returns (position: int)
      requires Valid()
      ensures (exists e :: e in inuse.Entries() && e.item == v) ==> Entry(position, v) in inuse.Entries()
      ensures (forall e :: e in inuse.Entries() ==> e.item != v) ==> position == -1
    {
      var node, k := inuse.NodeByInstance(v);
      if node == null {
        return -1;
      }
      assert inuse.Entries()[k] in inuse.Entries();
      return node.data.position;
    }
  }
}
