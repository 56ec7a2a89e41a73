/** A growable array (util/array-list/array_list.c). */
module ArrayLists {
  import opened CMemory

  const INT_MAX: int := 0x7FFF_FFFF

  /** The loop of ensure_capacity, from a capacity that is positive. */
  function Doubled(capacity: nat, size: nat): (r: nat)
    requires capacity > 0
    ensures r >= size && r >= capacity && (capacity < size ==> r < 2 * size)
    decreases size - capacity
  {
    if capacity >= size then capacity else Doubled(2 * capacity, size)
  }

  /** The capacity that ensure_capacity arrives at. */
  function Grown(capacity: nat, size: nat): nat {
    if capacity >= size then capacity else Doubled(if capacity > 0 then capacity else 1, size)
  }

  /** Up to 2^30 elements the doubling stays within an int, whatever the initial capacity. */
  lemma {:induction false} GrownFits(capacity: nat, size: nat)
    requires capacity <= INT_MAX && size <= 0x4000_0000
    ensures Grown(capacity, size) <= INT_MAX
  {
    assert capacity < size ==> Grown(capacity, size) < 2 * size;
  }

  /** For one element more it leaves the int when the capacity is 2^30. */
  lemma GrownOverflows()
    ensures Grown(0x4000_0000, 0x4000_0001) == INT_MAX + 1
  {
    assert Doubled(0x8000_0000, 0x4000_0001) == 0x8000_0000;
  }

  /** A sequence with room made at one place. */
  lemma Gap<T>(was: seq<T>, now: seq<T>, at: nat)
    requires |now| == |was| + 1 && at < |now|
    requires forall i :: 0 <= i < at ==> now[i] == was[i]
    requires forall i :: at < i < |now| ==> now[i] == was[i - 1]
    ensures now[..at] == was[..at] && now[at + 1..] == was[at..]
  {
  }

  /** The memmove of array_list_add: the n - at elements from index `at` on move up by one. */
  method ShiftUp<T>(a: array<T>, at: nat, n: nat)
    requires at <= n < a.Length
    modifies a
    ensures a[..at] == old(a[..at]) && a[at + 1..n + 1] == old(a[at..n])
  {
    ghost var had := a[..n];
    MemMove(a, at + 1, at, n - at);
    Gap(had, a[..n + 1], at);
    assert had[..at] == old(a[..at]) && had[at..] == old(a[at..n]);
    assert a[..n + 1][..at] == a[..at] && a[..n + 1][at + 1..] == a[at + 1..n + 1];
  }

  class ArrayList<T(0)> {
    var data: array<T>
    var size: nat
    var capacity: nat
    const initialCapacity: nat
    ghost var copied: nat  // elements moved by all regrowths so far
    ghost var adds: nat    // calls of Add that added something

    ghost predicate Valid()
      reads this
    {
      && size <= capacity == data.Length <= INT_MAX
      && size <= adds
      && copied <= capacity - initialCapacity
      && (capacity == initialCapacity || capacity <= 2 * adds)
    }

    ghost function Contents(): (s: seq<T>)
      requires Valid()
      reads this, data
    {
      data[..size]
    }

    /** array_list_init */
    constructor (initialCapacity: nat)
      requires initialCapacity <= INT_MAX
      ensures Valid() && Contents() == [] && copied == adds == 0
      ensures this.initialCapacity == capacity == initialCapacity && fresh(data)
    {
      data := new T[initialCapacity];
      size, capacity := 0, initialCapacity;
      this.initialCapacity := initialCapacity;
      copied, adds := 0, 0;
    }

    /** Over any number of calls the regrowths together move at most two elements for each added one. */
    lemma CopiesAmortised()
      requires Valid()
      ensures copied <= 2 * adds
    {
    }

    /** array_list_get: whether there is such an element, and it. */
    method Get(index: int) returns (found: bool, item: T)
      requires Valid()
      ensures found <==> 0 <= index < |Contents()|
      ensures found ==> item == Contents()[index]
    {
      found := 0 <= index < size;
      var blank := new T[1];
      item := if found then data[index] else blank[0];
    }

    /** ensure_capacity, for one element more. */
    method EnsureCapacity(newSize: nat)
      requires Valid() && newSize == size + 1 && Grown(capacity, newSize) <= INT_MAX
      modifies this
      ensures size == old(size) && adds == old(adds) && (data == old(data) || fresh(data))
      ensures newSize <= capacity == data.Length <= INT_MAX && capacity == Grown(old(capacity), newSize)
      ensures data[..size] == old(data[..size])
      ensures copied <= capacity - initialCapacity
      ensures capacity == initialCapacity || capacity <= 2 * (adds + 1)
    {
      if capacity >= newSize {
        return;
      }
      var newCapacity := if capacity > 0 then capacity else 1;
      while newCapacity < newSize
        invariant 0 < newCapacity && Doubled(newCapacity, newSize) == Doubled(if capacity > 0 then capacity else 1, newSize)
        invariant newCapacity == (if capacity > 0 then capacity else 1) || newCapacity == 2 * capacity
      {
        newCapacity := 2 * newCapacity;
      }
      ghost var had := data[..size];
      data := Realloc(data, newCapacity);
      assert data[..size] == had;
      copied := copied + size;
      capacity := newCapacity;
    }

    /** array_list_add: where the new element is, or -1.  Its value is for the caller to set. */
    method Add(insertBefore: int) returns (slot: int)
      requires Valid() && Grown(capacity, size + 1) <= INT_MAX
      modifies this, data
      ensures Valid() && (data == old(data) || fresh(data))
      ensures slot == if insertBefore > old(size) then -1 else if insertBefore < 0 then old(size) else insertBefore
      ensures slot < 0 ==> Contents() == old(Contents()) && adds == old(adds)
      ensures slot >= 0 ==>
        && |Contents()| == |old(Contents())| + 1 && adds == old(adds) + 1
        && Contents()[..slot] == old(Contents())[..slot] && Contents()[slot + 1..] == old(Contents())[slot..]
    {
      hide Grown, Doubled;
      if insertBefore > size {
        return -1;
      }
      EnsureCapacity(size + 1);
      ghost var had := data[..size];
      assert had == old(Contents());
      adds := adds + 1;
      if insertBefore < 0 {
        slot := size;
      } else {
        slot := insertBefore;
        ShiftUp(data, insertBefore, size);
        assert data[..slot] == had[..slot] && data[slot + 1..size + 1] == had[slot..];
      }
      size := size + 1;
      assert Contents()[..slot] == data[..slot] && Contents()[slot + 1..] == data[slot + 1..size];
    }

    /** array_list_add, and the caller setting the element. */
    method Insert(insertBefore: int, x: T) returns (ok: bool)
      requires Valid() && Grown(capacity, size + 1) <= INT_MAX
      modifies this, data
      ensures Valid() && (data == old(data) || fresh(data))
      ensures ok <==> insertBefore <= old(size)
      ensures !ok ==> Contents() == old(Contents())
      ensures ok ==>
        var at := if insertBefore < 0 then old(size) else insertBefore;
        Contents() == old(Contents())[..at] + [x] + old(Contents())[at..]
    {
      ghost var had := Contents();
      var slot := Add(insertBefore);
      if slot < 0 {
        return false;
      }
      ghost var now := Contents();
      data[slot] := x;
      assert Contents() == now[..slot] + [x] + now[slot + 1..];
      return true;
    }

    /** array_list_remove */
    method Remove(index: int)
      requires Valid()
      modifies this, data
      ensures Valid() && data == old(data) && adds == old(adds) && copied == old(copied)
      ensures Contents() == if 0 <= index < |old(Contents())|
                            then old(Contents())[..index] + old(Contents())[index + 1..] else old(Contents())
    {
      if index < 0 || index >= size {
        return;
      }
      ghost var had := Contents();
      if index < size - 1 {
        MemMove(data, index, index + 1, size - index - 1);
      }
      size := size - 1;
      assert Contents() == had[..index] + had[index + 1..];
    }
  }

  /** n appends to an empty list: the elements in order, and at most 2n of them moved. */
  method AppendAll<T(0)>(initialCapacity: nat, xs: seq<T>) returns (list: ArrayList<T>)
    requires initialCapacity <= INT_MAX && |xs| <= 0x4000_0000
    ensures list.Valid() && list.Contents() == xs && list.copied <= 2 * |xs|
  {
    list := new ArrayList<T>(initialCapacity);
    for i := 0 to |xs|
      invariant list.Valid() && fresh(list) && fresh(list.data) && list.Contents() == xs[..i] && list.adds == i
    {
      GrownFits(list.capacity, i + 1);
      var slot := list.Add(-1);
      ghost var now := list.Contents();
      list.data[slot] := xs[i];
      assert list.Contents() == now[..slot] + [xs[i]];
    }
    list.CopiesAmortised();
  }
}
