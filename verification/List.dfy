/** The intrusive doubly linked list of src/list.c (first-in first-out variant). */
module List {
  import opened PoolModel

  /** A block of memory whose contents the list and pool treat as one value. */
  class Element<V> {
    var data: V

    constructor (v: V)
      ensures data == v
    {
      data := v;
    }
  }

  class Node<V> {
    const el: Element<V>
    var next: Node?<V>
    var prev: Node?<V>

    constructor (e: Element<V>)
      ensures el == e && next == null && prev == null
    {
      el, next, prev := e, null, null;
    }
  }

  /** `ns` is the list that starts at `head`: both link directions, both ends, no cycle. */
  ghost predicate IsList<V>(head: Node?<V>, ns: seq<Node<V>>)
    reads ns
  {
    && Distinct(ns)
    && (ns == [] ==> head == null)
    && (ns != [] ==> head == ns[0] && ns[0].prev == null && ns[|ns| - 1].next == null)
    && (forall i {:trigger ns[i].next} :: 0 <= i < |ns| - 1 ==> ns[i].next == ns[i + 1])
    && (forall i {:trigger ns[i].prev} :: 1 <= i < |ns| ==> ns[i].prev == ns[i - 1])
  }

  /** The values held by the elements of a list, in order. */
  ghost function Contents<V>(ns: seq<Node<V>>): (s: seq<V>)
    reads set n | n in ns :: n.el
    ensures |s| == |ns|
    ensures forall i :: 0 <= i < |ns| ==> s[i] == ns[i].el.data
  {
    seq(|ns|, i requires 0 <= i < |ns| reads (set n | n in ns :: n.el) => ns[i].el.data)
  }

  /** sel4osapi_list_insert_node: walk to the tail and append. */
  method InsertNode<V>(head: Node?<V>, node: Node<V>, ghost ns: seq<Node<V>>) returns (newHead: Node?<V>)
    requires IsList(head, ns) && node !in ns
    modifies node`next, node`prev, (if ns == [] then {} else {ns[|ns| - 1]})`next
    ensures IsList(newHead, ns + [node])
  {
    var cursor: Node?<V>, prev: Node?<V> := head, null;
    ghost var k := 0;
    while cursor != null
      invariant 0 <= k <= |ns|
      invariant cursor == if k < |ns| then ns[k] else null
      invariant prev == if k > 0 then ns[k - 1] else null
      decreases |ns| - k
    {
      prev := cursor;
      cursor := cursor.next;
      k := k + 1;
    }
    node.next := null;
    if prev != null {
      prev.next := node;
      node.prev := prev;
      newHead := head;
    } else {
      newHead := node;
      node.prev := null;
    }
  }

  /** The k-th node of a list and its neighbours. */
  ghost function Around<V>(ns: seq<Node<V>>, k: nat): (around: set<Node<V>>)
    requires k < |ns|
    ensures forall n :: n in around ==> n in ns
  {
    {ns[k], ns[if k == 0 then 0 else k - 1], ns[if k == |ns| - 1 then k else k + 1]}
  }

  /** sel4osapi_list_unlink: splice a node out and clear its own links. */
  method Unlink<V>(head: Node?<V>, node: Node<V>, ghost ns: seq<Node<V>>, ghost k: nat)
    returns (newHead: Node?<V>)
    requires IsList(head, ns) && k < |ns| && ns[k] == node
    modifies Around(ns, k)`next, Around(ns, k)`prev
    ensures IsList(newHead, RemoveAt(ns, k))
    ensures node.next == null && node.prev == null
  {
    var prev, next := node.prev, node.next;
    if prev != null {
      prev.next := next;
    }
    if next != null {
      next.prev := prev;
    }
    newHead := head;
    if head == node {
      newHead := next;
    }
    node.prev := null;
    node.next := null;
  }

  /** sel4osapi_list_to_array: the elements of the list, in order, up to the capacity of the array. */
  method ToArray<V>(list: Node<V>, out: array<Element<V>>, ghost ns: seq<Node<V>>) returns (len: nat)
    requires IsList(list, ns)
    modifies out
    ensures len == if |ns| < out.Length then |ns| else out.Length
    ensures forall j :: 0 <= j < len ==> out[j] == ns[j].el
    ensures forall j :: len <= j < out.Length ==> out[j] == old(out[j])
  {
    var cursor: Node?<V> := list;
    var i := 0;
    while i < out.Length && cursor != null
      invariant 0 <= i <= |ns| && i <= out.Length
      invariant cursor == if i < |ns| then ns[i] else null
      invariant forall j :: 0 <= j < i ==> out[j] == ns[j].el
      invariant forall j :: i <= j < out.Length ==> out[j] == old(out[j])
    {
      out[i] := cursor.el;
      cursor := cursor.next;
      i := i + 1;
    }
    len := i;
  }
}
