/** Intrusive doubly linked lists (util/linked-list/linked_list.h).

    The C header is a macro template over a node type with `prev` and `next`
    fields.  Here the remaining fields of the node type are gathered in `data`.
    Every operation takes the ghost sequence of nodes that the head pointer
    stands for and states the sequence that the new head stands for. */
module LinkedLists {

  class Node<T> {
    var data: T
    var prev: Node?<T>
    var next: Node?<T>

    constructor (data: T)
      ensures this.data == data && prev == null && next == null
    {
      this.data := data;
      prev, next := null, null;
    }
  }

  /** `head` is the first node of a well-formed list whose nodes are `nodes`, in order:
      links in both directions agree, both ends are null and no node occurs twice. */
  ghost predicate Linked<T>(head: Node?<T>, nodes: seq<Node<T>>)
    reads nodes
  {
    && head == (if nodes == [] then null else nodes[0])
    && (forall i, j :: 0 <= i < j < |nodes| ==> nodes[i] != nodes[j])
    && (forall i {:trigger nodes[i].prev} :: 0 <= i < |nodes| ==> nodes[i].prev == if i == 0 then null else nodes[i - 1])
    && (forall i {:trigger nodes[i].next} :: 0 <= i < |nodes| ==> nodes[i].next == if i + 1 == |nodes| then null else nodes[i + 1])
  }

  /** The payloads of the nodes, in list order. */
  ghost function Values<T>(nodes: seq<Node<T>>): (vs: seq<T>)
    reads nodes
    ensures |vs| == |nodes|
    ensures forall i :: 0 <= i < |nodes| ==> vs[i] == nodes[i].data
  {
    if nodes == [] then [] else [nodes[0].data] + Values(nodes[1..])
  }

  /** A sequence with the element at index k taken out. */
  function Without<X>(s: seq<X>, k: nat): (r: seq<X>)
    requires k < |s|
    ensures |r| == |s| - 1
    ensures forall i :: 0 <= i < |r| ==> r[i] == if i < k then s[i] else s[i + 1]
  {
    s[..k] + s[k + 1..]
  }

  /** A sequence with x put in front of index k. */
  function Inserted<X>(s: seq<X>, k: nat, x: X): (r: seq<X>)
    requires k <= |s|
    ensures |r| == |s| + 1
    ensures forall i :: 0 <= i < |r| ==> r[i] == if i < k then s[i] else if i == k then x else s[i - 1]
  {
    s[..k] + [x] + s[k..]
  }

  method Len<T>(p: Node?<T>, ghost nodes: seq<Node<T>>) returns (length: nat)
    requires Linked(p, nodes)
    ensures length == |nodes|
  {
    length := 0;
    var cur := p;
    while cur != null
      invariant length <= |nodes|
      invariant cur == if length == |nodes| then null else nodes[length]
      decreases |nodes| - length
    {
      cur := cur.next;
      length := length + 1;
    }
  }

  /** The last node, or null. */
  method Top<T>(p: Node?<T>, ghost nodes: seq<Node<T>>) returns (last: Node?<T>)
    requires Linked(p, nodes)
    ensures last == if nodes == [] then null else nodes[|nodes| - 1]
  {
    if p == null {
      return null;
    }
    var cur: Node<T> := p;
    ghost var i := 0;
    while cur.next != null
      invariant 0 <= i < |nodes| && cur == nodes[i]
      decreases |nodes| - i
    {
      cur := cur.next;
      i := i + 1;
    }
    return cur;
  }

  /** The first node on which `fn` answers zero. */
  method FindBy<T>(p: Node?<T>, fn: T -> int, ghost nodes: seq<Node<T>>) returns (ret: Node?<T>, ghost k: nat)
    requires Linked(p, nodes)
    ensures k <= |nodes|
    ensures forall i :: 0 <= i < k ==> fn(nodes[i].data) != 0
    ensures if k < |nodes| then ret == nodes[k] && fn(nodes[k].data) == 0 else ret == null
    ensures ret != null ==> fn(ret.data) == 0
  {
    ret := p;
    k := 0;
    while ret != null && fn(ret.data) != 0
      invariant k <= |nodes|
      invariant ret == if k == |nodes| then null else nodes[k]
      invariant forall i :: 0 <= i < k ==> fn(nodes[i].data) != 0
      decreases |nodes| - k
    {
      ret := ret.next;
      k := k + 1;
    }
  }

  /** Append an unlinked node at the tail. */
  method Append<T>(p: Node?<T>, node: Node<T>, ghost nodes: seq<Node<T>>) returns (head: Node?<T>)
    requires Linked(p, nodes)
    requires node !in nodes && node.prev == null && node.next == null
    modifies nodes, node
    ensures Linked(head, nodes + [node])
    ensures forall n :: n in nodes + [node] ==> n.data == old(n.data)
  {
    if p == null {
      return node;
    }
    var cur: Node<T> := p;
    ghost var i := 0;
    while cur.next != null
      invariant 0 <= i < |nodes| && cur == nodes[i]
      invariant Linked(p, nodes) && node.prev == null && node.next == null
      invariant forall n :: n in nodes + [node] ==> n.data == old(n.data)
      decreases |nodes| - i
    {
      cur := cur.next;
      i := i + 1;
    }
    cur.next := node;
    node.prev := cur;
    return p;
  }

  /** Unlink the k-th node.  Its own two links keep their old values. */
  method Remove<T>(head: Node?<T>, node: Node<T>, ghost nodes: seq<Node<T>>, ghost k: nat) returns (newHead: Node?<T>)
    requires Linked(head, nodes)
    requires k < |nodes| && nodes[k] == node
    modifies nodes
    ensures Linked(newHead, Without(nodes, k))
    ensures forall n :: n in nodes ==> n.data == old(n.data)
  {
    newHead := head;
    var prev, next := node.prev, node.next;
    if prev != null {
      prev.next := next;
    } else {
      // this is the new first item
      newHead := next;
    }
    if next != null {
      next.prev := prev;
    }
  }

  /** Take the first node off, leaving it unlinked. */
  method TakeFirst<T>(first: Node<T>, ghost nodes: seq<Node<T>>) returns (head: Node?<T>)
    requires Linked(first, nodes) && nodes != []
    modifies nodes
    ensures Linked(head, nodes[1..])
    ensures first == nodes[0] && first.prev == null && first.next == null
    ensures forall n :: n in nodes ==> n.data == old(n.data)
  {
    head := first.next;
    if head != null {
      head.prev := null;
    }
    first.prev := null;
    first.next := null;
  }

  /** Where SortedInsert puts a node: in front of the first node that does not order below it. */
  function InsertionPoint<T>(vs: seq<T>, x: T, fn: (T, T) -> int): (k: nat)
    ensures k <= |vs|
    ensures forall i :: 0 <= i < k ==> fn(vs[i], x) < 0
    ensures k < |vs| ==> fn(vs[k], x) >= 0
  {
    if vs == [] || fn(vs[0], x) >= 0 then 0 else 1 + InsertionPoint(vs[1..], x, fn)
  }

  /** Where a payload belongs in a list of nodes. */
  ghost function Place<T>(nodes: seq<Node<T>>, x: T, fn: (T, T) -> int): (k: nat)
    reads nodes
    ensures k <= |nodes|
  {
    InsertionPoint(Values(nodes), x, fn)
  }

  method SortedInsert<T>(p: Node?<T>, node: Node<T>, fn: (T, T) -> int, ghost nodes: seq<Node<T>>) returns (head: Node?<T>)
    requires Linked(p, nodes)
    requires node !in nodes && node.prev == null && node.next == null
    modifies nodes, node
    ensures forall n :: n in nodes + [node] ==> n.data == old(n.data)
    ensures Linked(head, Inserted(nodes, old(Place(nodes, node.data, fn)), node))
  {
    ghost var vs := Values(nodes);
    if p == null {
      return node;
    }
    if fn(p.data, node.data) >= 0 {
      // the node is inserted at the beginning
      head := LinkBefore(p, node, nodes);
      return;
    }
    var current: Node<T> := p;
    ghost var i := 0;
    while current.next != null && fn(current.next.data, node.data) < 0
      invariant 0 <= i < |nodes| && current == nodes[i]
      invariant forall j :: 0 <= j <= i ==> fn(vs[j], node.data) < 0
      decreases |nodes| - i
    {
      current := current.next;
      i := i + 1;
    }
    InsertionPointUnique(vs, node.data, fn, i + 1);
    LinkAfter(p, current, node, nodes, i);
    return p;
  }

  /** The links made by SortedInsert at the beginning of a list. */
  method LinkBefore<T>(p: Node<T>, node: Node<T>, ghost nodes: seq<Node<T>>) returns (head: Node<T>)
    requires Linked(p, nodes)
    requires node !in nodes && node.prev == null && node.next == null
    modifies p, node
    ensures forall n :: n in nodes + [node] ==> n.data == old(n.data)
    ensures Linked(head, Inserted(nodes, 0, node))
  {
    node.next := p;
    p.prev := node;
    return node;
  }

  /** The links made by SortedInsert behind the i-th node. */
  method LinkAfter<T>(p: Node<T>, current: Node<T>, node: Node<T>, ghost nodes: seq<Node<T>>, ghost i: nat)
    requires Linked(p, nodes)
    requires node !in nodes && node.prev == null && node.next == null
    requires i < |nodes| && nodes[i] == current
    modifies nodes, node
    ensures forall n :: n in nodes + [node] ==> n.data == old(n.data)
    ensures Linked(p, Inserted(nodes, i + 1, node))
  {
    node.next := current.next;
    if current.next != null {
      current.next.prev := node;
    }
    current.next := node;
    node.prev := current;
  }

  lemma {:induction false} InsertionPointUnique<T>(vs: seq<T>, x: T, fn: (T, T) -> int, k: nat)
    requires k <= |vs|
    requires forall i :: 0 <= i < k ==> fn(vs[i], x) < 0
    requires k < |vs| ==> fn(vs[k], x) >= 0
    ensures InsertionPoint(vs, x, fn) == k
  {
    if k > 0 {
      assert fn(vs[0], x) < 0;
      InsertionPointUnique(vs[1..], x, fn, k - 1);
    }
  }

  /** Ordered by `fn`: no earlier element compares above a later one. */
  ghost predicate Ordered<T>(vs: seq<T>, fn: (T, T) -> int) {
    forall i, j :: 0 <= i < j < |vs| ==> fn(vs[i], vs[j]) <= 0
  }

  /** `fn` behaves like a comparison: antisymmetric in sign and transitive. */
  ghost predicate IsComparison<T(!new)>(fn: (T, T) -> int) {
    && (forall a, b {:trigger fn(a, b)} :: fn(a, b) <= 0 <==> fn(b, a) >= 0)
    && (forall a, b, c {:trigger fn(a, b), fn(b, c)} :: fn(a, b) <= 0 && fn(b, c) <= 0 ==> fn(a, c) <= 0)
  }

  /** Inserting into an ordered list keeps it ordered and adds exactly the new element;
      equal elements already in the list end up behind it. */
  lemma SortedInsertKeepsOrder<T(!new)>(vs: seq<T>, x: T, fn: (T, T) -> int)
    requires IsComparison(fn) && Ordered(vs, fn)
    ensures Ordered(Inserted(vs, InsertionPoint(vs, x, fn), x), fn)
    ensures multiset(Inserted(vs, InsertionPoint(vs, x, fn), x)) == multiset(vs) + multiset{x}
  {
    var k := InsertionPoint(vs, x, fn);
    RestNotBelow(vs, x, fn);
    InsertedOrdered(vs, x, fn, k);
    InsertedOnce(vs, x, k);
  }

  lemma InsertedOnce<T>(vs: seq<T>, x: T, k: nat)
    requires k <= |vs|
    ensures multiset(Inserted(vs, k, x)) == multiset(vs) + multiset{x}
  {
    assert vs == vs[..k] + vs[k..];
  }

  lemma RestNotBelow<T(!new)>(vs: seq<T>, x: T, fn: (T, T) -> int)
    requires IsComparison(fn) && Ordered(vs, fn)
    ensures forall m :: InsertionPoint(vs, x, fn) <= m < |vs| ==> fn(x, vs[m]) <= 0
  {
    var k := InsertionPoint(vs, x, fn);
    if k < |vs| {
      BelowAll(vs[k..], x, fn);
    }
  }

  lemma BelowAll<T(!new)>(ws: seq<T>, x: T, fn: (T, T) -> int)
    requires IsComparison(fn)
    requires ws != [] && fn(ws[0], x) >= 0
    requires forall m :: 1 <= m < |ws| ==> fn(ws[0], ws[m]) <= 0
    ensures forall m :: 0 <= m < |ws| ==> fn(x, ws[m]) <= 0
  {
    forall m | 0 <= m < |ws|
      ensures fn(x, ws[m]) <= 0
    {
      Transitive(fn, x, ws[0], ws[m]);
    }
  }

  lemma InsertedOrdered<T>(vs: seq<T>, x: T, fn: (T, T) -> int, k: nat)
    requires Ordered(vs, fn) && k <= |vs|
    requires forall m :: 0 <= m < k ==> fn(vs[m], x) <= 0
    requires forall m :: k <= m < |vs| ==> fn(x, vs[m]) <= 0
    ensures Ordered(Inserted(vs, k, x), fn)
  {
    var r := Inserted(vs, k, x);
    forall i, j | 0 <= i < j < |r|
      ensures fn(r[i], r[j]) <= 0
    {
    }
  }

  lemma Transitive<T(!new)>(fn: (T, T) -> int, a: T, b: T, c: T)
    requires IsComparison(fn) && fn(b, a) >= 0 && (b == c || fn(b, c) <= 0)
    ensures fn(a, c) <= 0
  {
    assert fn(a, b) <= 0;
  }

  /** Walk the list and hand every node to the destructor, here: collect the payloads in visiting order. */
  method FreeAll<T>(head: Node?<T>, ghost nodes: seq<Node<T>>) returns (freed: seq<T>)
    requires Linked(head, nodes)
    ensures freed == Values(nodes)
  {
    freed := [];
    var cur := head;
    while cur != null
      invariant |freed| <= |nodes|
      invariant cur == if |freed| == |nodes| then null else nodes[|freed|]
      invariant forall i :: 0 <= i < |freed| ==> freed[i] == nodes[i].data
      decreases |nodes| - |freed|
    {
      var tmp := cur;
      cur := cur.next;
      freed := freed + [tmp.data];
    }
  }
}
