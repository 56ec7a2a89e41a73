/** The view pools as linked lists (lv_gridview.c, the view_pool functions). */
module GridPools {
  import opened LinkedLists
  import opened GridBoard

  // ---------- The recursive descriptions in GridBoard, by index ----------

  /** k is the index of the first entry at p. */
  ghost predicate FirstAt(s: seq<Entry>, p: int, k: nat) {
    k < |s| && s[k].position == p && forall i :: 0 <= i < k ==> s[i].position != p
  }

  lemma {:induction false} AtFirst(s: seq<Entry>, p: int, k: nat)
    requires FirstAt(s, p, k)
    ensures Has(s, p) && ViewAt(s, p) == s[k].item
    ensures Take(s, p) == Without(s, k)
    ensures forall q :: Renumber(s, p, q) == s[k := Entry(q, s[k].item)]
  {
    if k > 0 {
      AtFirst(s[1..], p, k - 1);
      assert Without(s, k) == [s[0]] + Without(s[1..], k - 1);
      forall q
        ensures Renumber(s, p, q) == s[k := Entry(q, s[k].item)]
      {
        assert s[k := Entry(q, s[k].item)] == [s[0]] + s[1..][k - 1 := Entry(q, s[k].item)];
      }
    }
  }

  lemma {:induction false} NowhereAt(s: seq<Entry>, p: int)
    requires forall i :: 0 <= i < |s| ==> s[i].position != p
    ensures !Has(s, p)
  {
    if s != [] {
      NowhereAt(s[1..], p);
    }
  }

  lemma {:induction false} DropMeans(s: seq<Entry>, v: View, k: nat)
    requires k <= |s| && forall i :: 0 <= i < k ==> s[i].item != v
    requires k < |s| ==> s[k].item == v
    ensures Drop(s, v) == if k < |s| then Without(s, k) else s
  {
    if k > 0 {
      DropMeans(s[1..], v, k - 1);
      if k < |s| {
        assert Without(s, k) == [s[0]] + Without(s[1..], k - 1);
      }
    }
  }

  // ---------- The pool ----------

  /** A sequence without its element at k, if it has one. */
  ghost function WithoutAt<X>(s: seq<X>, k: nat): (r: seq<X>)
    ensures |r| == if k < |s| then |s| - 1 else |s|
    ensures forall i :: 0 <= i < |r| ==> r[i] == if i < k then s[i] else s[i + 1]
  {
    if k < |s| then Without(s, k) else s
  }

  datatype Taken = Nothing | Item(item: View)

  class ViewPool {
    var head: Node?<Entry>
    ghost var nodes: seq<Node<Entry>>

    ghost predicate Valid()
      reads this, nodes
    {
      Linked(head, nodes)
    }

    ghost function Entries(): (s: seq<Entry>)
      reads this, nodes
      ensures |s| == |nodes| && forall i :: 0 <= i < |s| ==> s[i] == nodes[i].data
    {
      Values(nodes)
    }

    constructor ()
      ensures Valid() && Entries() == [] && nodes == []
    {
      head := null;
      nodes := [];
    }

    /** view_pool_node_by_position */
    method NodeByPosition(p: int) returns (node: Node?<Entry>, ghost k: nat)
      requires Valid()
      ensures node != null <==> Has(Entries(), p)
      ensures node != null ==> k < |nodes| && nodes[k] == node && FirstAt(Entries(), p, k)
    {
      node := head;
      k := 0;
      while node != null && node.data.position != p
        invariant k <= |nodes| && node == if k == |nodes| then null else nodes[k]
        invariant forall i :: 0 <= i < k ==> nodes[i].data.position != p
        decreases |nodes| - k
      {
        node := node.next;
        k := k + 1;
      }
      if node == null {
        NowhereAt(Entries(), p);
      } else {
        AtFirst(Entries(), p, k);
      }
    }

    /** view_pool_node_by_instance */
    method NodeByInstance(v: View) returns (node: Node?<Entry>, ghost k: nat)
      requires Valid()
      ensures k <= |nodes| && node == if k == |nodes| then null else nodes[k]
      ensures forall i :: 0 <= i < k ==> Entries()[i].item != v
      ensures k < |nodes| ==> Entries()[k].item == v
      ensures node != null ==> node.data.item == v
    {
      node := head;
      k := 0;
      while node != null && node.data.item != v
        invariant k <= |nodes| && node == if k == |nodes| then null else nodes[k]
        invariant forall i :: 0 <= i < k ==> nodes[i].data.item != v
        decreases |nodes| - k
      {
        node := node.next;
        k := k + 1;
      }
    }

    /** view_pool_node_unlink, and freeing the node. */
    method Unlink(node: Node<Entry>, ghost k: nat)
      requires Valid() && k < |nodes| && nodes[k] == node
      modifies this, nodes
      ensures Valid() && nodes == Without(old(nodes), k) && Entries() == Without(old(Entries()), k)
    {
      head := Remove(head, node, nodes, k);
      nodes := Without(nodes, k);
    }

    /** view_pool_take_by_position */
    method TakeByPosition(p: int) returns (r: Taken, ghost k: nat)
      requires Valid()
      modifies this, nodes
      ensures Valid() && Entries() == Take(old(Entries()), p)
      ensures r == if Has(old(Entries()), p) then Item(ViewAt(old(Entries()), p)) else Nothing
      ensures nodes == WithoutAt(old(nodes), k)
    {
      ghost var s := Entries();
      var node;
      node, k := NodeByPosition(p);
      if node == null {
        NothingTaken(s, p);
        return Nothing, |nodes|;
      }
      AtFirst(s, p, k);
      r := Item(node.data.item);
      Unlink(node, k);
    }

    static lemma {:induction false} NothingTaken(s: seq<Entry>, p: int)
      requires !Has(s, p)
      ensures Take(s, p) == s
    {
      if s != [] {
        NothingTaken(s[1..], p);
      }
    }

    /** view_pool_remove_by_instance */
    method RemoveByInstance(v: View) returns (found: bool, ghost k: nat)
      requires Valid()
      modifies this, nodes
      ensures Valid() && Entries() == Drop(old(Entries()), v)
      ensures found <==> |Entries()| < |old(Entries())|
      ensures nodes == WithoutAt(old(nodes), k)
    {
      var node;
      node, k := NodeByInstance(v);
      DropMeans(Entries(), v, k);
      if node == null {
        return false, k;
      }
      Unlink(node, k);
      return true, k;
    }

    /** view_pool_poll */
    method Poll() returns (r: Taken)
      requires Valid()
      modifies this, nodes
      ensures Valid()
      ensures if old(Entries()) == [] then r == Nothing && Entries() == []
              else r == Item(old(Entries())[0].item) && Entries() == old(Entries())[1..]
      ensures forall i :: 0 <= i < |nodes| ==> nodes[i] in old(nodes)
    {
      if head == null {
        return Nothing;
      }
      r := Item(head.data.item);
      if head.next != null {
        head.next.prev := null;
      }
      head := head.next;
      nodes := nodes[1..];
    }

    /** view_pool_put */
    method Put(p: int, v: View)
      requires Valid()
      modifies this, nodes
      ensures Valid() && Entries() == [Entry(p, v)] + old(Entries())
      ensures |nodes| == |old(nodes)| + 1 && fresh(nodes[0])
      ensures forall i :: 0 < i < |nodes| ==> nodes[i] == old(nodes)[i - 1]
    {
      var node := new Node(Entry(p, v));
      var oldHead := head;
      node.next := oldHead;
      if oldHead != null {
        oldHead.prev := node;
      }
      head := node;
      nodes := [node] + nodes;
    }

    /** node->position = q, for the first node at p. */
    method SetPosition(node: Node<Entry>, p: int, q: int, ghost k: nat)
      requires Valid() && k < |nodes| && nodes[k] == node && FirstAt(Entries(), p, k) && Has(Entries(), p)
      modifies node
      ensures Valid() && Entries() == Renumber(old(Entries()), p, q)
      ensures node.data.item == ViewAt(old(Entries()), p)
    {
      hide Renumber, Count, ViewAt, Take, Values;
      ghost var s := Entries();
      AtFirst(s, p, k);
      node.data := node.data.(position := q);
      assert Entries() == s[k := Entry(q, s[k].item)];
    }

    /** view_pool_reset */
    method Reset()
      requires Valid()
      modifies this
      ensures Valid() && Entries() == []
    {
      var cur := head;
      ghost var k := 0;
      while cur != null
        invariant 0 <= k <= |nodes| && cur == if k == |nodes| then null else nodes[k]
        decreases |nodes| - k
      {
        // the node visited here is freed
        cur := cur.next;
        k := k + 1;
      }
      head := null;
      nodes := [];
    }
  }
}
