/** The pre-allocated object pool of src/pool.c, on the linked list of src/list.c. */
module Pool {
  import opened PoolModel
  import opened List

  /** The elements of a list of nodes. */
  ghost function Els<V>(ns: seq<Node<V>>): (s: seq<Element<V>>)
    ensures |s| == |ns|
    ensures forall i :: 0 <= i < |ns| ==> s[i] == ns[i].el
  {
    seq(|ns|, i requires 0 <= i < |ns| => ns[i].el)
  }

  lemma TakeView<V>(active: seq<Node<V>>, free: seq<Node<V>>)
    requires free != []
    ensures PoolView(Els(active + [free[0]]), Els(RemoveAt(free, 0))) == Take(PoolView(Els(active), Els(free)))
  {
    assert Els(active + [free[0]]) == Els(active) + [free[0].el];
    assert Els(RemoveAt(free, 0)) == Els(free)[1..];
  }

  lemma GiveView<V>(active: seq<Node<V>>, free: seq<Node<V>>, k: nat)
    requires k < |active|
    ensures PoolView(Els(RemoveAt(active, k)), Els(free + [active[k]])) == GiveAt(PoolView(Els(active), Els(free)), k)
  {
    assert Els(RemoveAt(active, k)) == RemoveAt(Els(active), k);
    assert Els(free + [active[k]]) == Els(free) + [active[k].el];
  }

  /** The nodes of the two lists, and possibly one in transit between them, are nodes of
      the pool, and no node is in two places. */
  ghost predicate Apart<V>(active: seq<Node<V>>, free: seq<Node<V>>, transit: set<Node<V>>,
                           nodes: set<Node<V>>)
  {
    && (forall n :: n in active ==> n in nodes && n !in free && n !in transit)
    && (forall n :: n in free ==> n in nodes && n !in transit)
    && transit <= nodes
  }

  /** The nodes hold elements of the pool, each its own. */
  ghost predicate Owned<V>(nodes: set<Node<V>>, elems: set<Element<V>>) {
    && (forall n :: n in nodes ==> n.el in elems)
    && (forall m, n {:trigger m.el, n.el} :: m in nodes && n in nodes && m.el == n.el ==> m == n)
  }

  /** simple_pool_t. The init and compare callbacks are functions on element contents;
      a pool without a compare callback compares element addresses. */
  class Pool<V> {
    var freeEntries: Node?<V>
    var entries: Node?<V>
    const size: nat
    var currentSize: int
    const init: Option<V -> V>
    const compare: Option<(V, V) -> int>

    ghost var active: seq<Node<V>>
    ghost var free: seq<Node<V>>
    ghost var nodes: set<Node<V>>
    ghost var elems: set<Element<V>>

    ghost function Repr(): set<object>
      reads this
    {
      {this} + nodes + elems
    }

    ghost predicate Linked(transit: set<Node<V>>)
      reads this, Repr()
    {
      && Owned(nodes, elems)
      && Apart(active, free, transit, nodes)
      && IsList(entries, active)
      && IsList(freeEntries, free)
      && currentSize == |active|
    }

    ghost predicate Valid()
      reads this, Repr()
    {
      Linked({}) && |active| + |free| == size
    }

    /** The two sequences of elements that this heap structure stands for. */
    ghost function View(): PoolView<Element<V>>
      reads this
    {
      PoolView(Els(active), Els(free))
    }

    /** The contents of the allocated elements, in order. */
    ghost function Data(): seq<V>
      requires Valid()
      reads this, Repr()
    {
      Contents(active)
    }

    function Initialised(v: V): V {
      match init
      case None => v
      case Some(f) => f(v)
    }

    /** Does the search take the element `e` for the element `x`? */
    ghost predicate Matches(e: Element<V>, x: Element<V>)
      reads e, x
    {
      match compare
      case None => e == x
      case Some(f) => f(e.data, x.data) == 0
    }

    method InitElement(el: Element<V>)
      modifies el
      ensures el.data == Initialised(old(el.data))
    {
      if init.Some? {
        el.data := init.value(el.data);
      }
    }

    method DetachFree(ghost k: nat, entry: Node<V>)
      requires Linked({}) && k < |free| && free[k] == entry
      modifies this`freeEntries, this`free, nodes`next, nodes`prev
      ensures free == RemoveAt(old(free), k)
      ensures Linked({entry}) && entry.next == null
    {
      hide Els, Contents, Owned;
      RemoveAtMembers(free, k);
      ghost var was := free;
      free := RemoveAt(was, k);
      assert Apart(active, free, {entry}, nodes);
      freeEntries := Unlink(freeEntries, entry, was, k);
    }

    method DetachActive(ghost k: nat, entry: Node<V>)
      requires Linked({}) && k < |active| && active[k] == entry
      modifies this`entries, this`active, this`currentSize, nodes`next, nodes`prev
      ensures active == RemoveAt(old(active), k)
      ensures Linked({entry}) && entry.next == null
    {
      hide Els, Contents, Owned;
      RemoveAtMembers(active, k);
      ghost var was := active;
      active := RemoveAt(was, k);
      assert Apart(active, free, {entry}, nodes);
      currentSize := currentSize - 1;
      entries := Unlink(entries, entry, was, k);
    }

    method AttachFree(entry: Node<V>)
      requires Linked({entry})
      modifies this`freeEntries, this`free, nodes`next, nodes`prev
      ensures free == old(free) + [entry]
      ensures Linked({}) && entry.next == null
    {
      freeEntries := InsertNode(freeEntries, entry, free);
      free := free + [entry];
    }

    method AttachActive(entry: Node<V>)
      requires Linked({entry})
      modifies this`entries, this`active, this`currentSize, nodes`next, nodes`prev
      ensures active == old(active) + [entry]
      ensures Linked({}) && entry.next == null
    {
      entries := InsertNode(entries, entry, active);
      active := active + [entry];
      currentSize := currentSize + 1;
    }

    /** One round of the allocation loop of simple_pool_new. */
    method AddElement(raw: V)
      requires Linked({})
      modifies Repr()
      ensures Linked({}) && active == old(active)
      ensures fresh(nodes - old(nodes)) && fresh(elems - old(elems)) && old(nodes) <= nodes
      ensures |free| == |old(free)| + 1
      ensures forall j :: 0 <= j < |old(free)| ==> free[j] == old(free)[j]
      ensures free[|old(free)|].el.data == Initialised(raw)
      ensures old(elems) <= elems && forall e :: e in old(elems) ==> e.data == old(e.data)
    {
      hide Els, Contents;
      var el := new Element<V>(raw);
      InitElement(el);
      var node := new Node<V>(el);
      nodes, elems := nodes + {node}, elems + {el};
      assert Linked({node});
      hide IsList, Apart, Owned, Linked;
      AttachFree(node);
    }

    lemma FreeElements()
      requires Linked({})
      ensures forall j :: 0 <= j < |free| ==> free[j].el in elems
    {
    }

    /** The allocation loop of simple_pool_new. */
    method AddElements(n: nat, raw: nat -> V)
      requires Linked({}) && active == [] && free == []
      modifies Repr()
      ensures Linked({}) && active == [] && |free| == n
      ensures fresh(nodes - old(nodes)) && fresh(elems - old(elems))
      ensures forall i :: 0 <= i < n ==> free[i].el.data == Initialised(raw(i))
    {
      hide Els, Contents, IsList, Apart, Owned, Linked;
      var i := 0;
      while i < n
        invariant 0 <= i <= n && Linked({})
        invariant fresh(nodes - old(nodes)) && fresh(elems - old(elems))
        invariant active == [] && |free| == i
        invariant forall j :: 0 <= j < i ==> free[j].el.data == Initialised(raw(j))
      {
        FreeElements();
        AddElement(raw(i));
        i := i + 1;
      }
    }

    /** simple_pool_new: `raw(i)` is whatever the i-th allocated block contained. */
    constructor (n: nat, raw: nat -> V, init: Option<V -> V>, compare: Option<(V, V) -> int>)
      requires n > 0
      ensures Valid() && fresh(Repr())
      ensures size == n && this.init == init && this.compare == compare
      ensures active == [] && |free| == n
      ensures forall i :: 0 <= i < n ==> free[i].el.data == Initialised(raw(i))
    {
      size := n;
      this.init := init;
      this.compare := compare;
      currentSize := 0;
      freeEntries, entries := null, null;
      active, free, nodes, elems := [], [], {}, {};
      new;
      hide Els, Contents;
      assert Linked({});
      hide IsList, Apart, Owned;
      AddElements(n, raw);
    }

    /** simple_pool_alloc_entry, when there is a free entry. */
    method AllocFirst(entry: Node<V>)
      requires Valid() && free != [] && free[0] == entry
      modifies Repr()
      ensures Valid() && nodes == old(nodes) && elems == old(elems)
      ensures View() == Take(old(View()))
      ensures active == old(active) + [entry] && free == RemoveAt(old(free), 0)
      ensures entry.el.data == Initialised(old(entry.el.data))
      ensures forall e :: e in elems && e != entry.el ==> e.data == old(e.data)
    {
      hide Els, Contents;
      assert entry in nodes && entry.el in elems;
      hide IsList, Apart, Owned, Take, GiveAt, RemoveAt;
      DetachFree(0, entry);
      InitElement(entry.el);
      AttachActive(entry);
      TakeView(old(active), old(free));
    }

    /** simple_pool_alloc_entry */
    method AllocEntry() returns (entry: Node?<V>)
      requires Valid()
      modifies Repr()
      ensures Valid() && nodes == old(nodes) && elems == old(elems)
      ensures View() == Take(old(View()))
      ensures old(free) == [] ==> entry == null && active == old(active) && free == old(free)
      ensures old(free) == [] ==> forall e :: e in elems ==> e.data == old(e.data)
      ensures old(free) != [] ==> entry == old(free)[0] && active == old(active) + [entry] && free == RemoveAt(old(free), 0)
      ensures old(free) != [] ==> entry.el.data == Initialised(old(entry.el.data))
      ensures old(free) != [] ==> forall e :: e in elems && e != entry.el ==> e.data == old(e.data)
    {
      hide Els, Contents;
      entry := freeEntries;
      if entry != null {
        AllocFirst(entry);
      }
    }

    /** simple_pool_alloc */
    method Alloc() returns (el: Element?<V>)
      requires Valid()
      modifies Repr()
      ensures Valid() && nodes == old(nodes) && elems == old(elems)
      ensures View() == Apply(old(View()), AllocOp)
      ensures el == null <==> |old(active)| == size
      ensures el == null ==> active == old(active) && free == old(free) && Data() == old(Data())
      ensures el != null ==> |old(free)| > 0 && el == old(free[0]).el && el in elems
      ensures el != null ==> active == old(active) + [old(free[0])] && free == RemoveAt(old(free), 0)
      ensures el != null ==> Data() == old(Data()) + [el.data] && el.data == Initialised(old(el.data))
    {
      hide Els, Contents;
      var entry := AllocEntry();
      if entry == null {
        return null;
      }
      return entry.el;
    }

    /** An assignment to the contents of an allocated element, as the pool's clients make. */
    method Store(el: Element<V>, v: V, ghost k: nat)
      requires Valid() && k < |active| && el == active[k].el
      modifies el
      ensures Valid() && View() == old(View())
      ensures Data() == old(Data())[k := v]
    {
      hide Els, Contents;
      el.data := v;
    }

    /** simple_pool_free_entry */
    method FreeEntry(entry: Node<V>, ghost k: nat)
      requires Valid() && k < |active| && active[k] == entry
      modifies Repr()
      ensures Valid() && nodes == old(nodes) && elems == old(elems)
      ensures View() == GiveAt(old(View()), k)
      ensures active == RemoveAt(old(active), k) && free == old(free) + [entry]
      ensures entry.next == null
      ensures entry.el.data == Initialised(old(entry.el.data))
      ensures forall e :: e in elems && e != entry.el ==> e.data == old(e.data)
    {
      hide Els, Contents;
      assert entry in nodes && entry.el in elems;
      hide IsList, Apart, Owned, Take, GiveAt, RemoveAt;
      DetachActive(k, entry);
      InitElement(entry.el);
      AttachFree(entry);
      GiveView(old(active), old(free), k);
    }

    /** simple_pool_find_node: the first allocated node the search matches. */
    method FindNode(x: Element<V>) returns (entry: Node?<V>, ghost k: nat)
      requires Valid()
      ensures k <= |active|
      ensures entry == null <==> forall i :: 0 <= i < |active| ==> !Matches(active[i].el, x)
      ensures entry == if k < |active| then active[k] else null
      ensures k < |active| ==> Matches(active[k].el, x)
      ensures forall i :: 0 <= i < k ==> !Matches(active[i].el, x)
    {
      var cursor := entries;
      entry := null;
      k := 0;
      ghost var i := 0;
      while cursor != null && entry == null
        invariant 0 <= k <= i <= |active|
        invariant cursor == if i < |active| then active[i] else null
        invariant forall j :: 0 <= j < k ==> !Matches(active[j].el, x)
        invariant entry == null ==> k == i
        invariant entry != null ==> k < i && entry == active[k] && Matches(active[k].el, x)
        decreases |active| - i
      {
        if compare.Some? {
          if compare.value(cursor.el.data, x.data) == 0 {
            entry := cursor;
          }
        } else {
          if cursor.el == x {
            entry := cursor;
          }
        }
        k := if entry == null then k + 1 else k;
        cursor := cursor.next;
        i := i + 1;
      }
    }

    /** simple_pool_free: release the first element that the search matches, or report failure.
        The ghost `k` is the position of that element, or the number of active ones. */
    method Free(x: Element<V>, ghost k: nat) returns (error: int)
      requires Valid() && x in elems
      requires k <= |active|
      requires k < |active| ==> Matches(active[k].el, x)
      requires forall i :: 0 <= i < k ==> !Matches(active[i].el, x)
      modifies Repr()
      ensures Valid() && nodes == old(nodes) && elems == old(elems)
      ensures error == if k < |old(active)| then 0 else -1
      ensures View() == if k < |old(active)| then GiveAt(old(View()), k) else old(View())
      ensures compare == None ==> View() == Apply(old(View()), FreeOp(x))
      ensures k == |old(active)| ==> active == old(active) && free == old(free) && Data() == old(Data())
      ensures k < |old(active)| ==> active == RemoveAt(old(active), k) && free == old(free) + [old(active[k])]
      ensures k < |old(active)| ==> old(active[k]).next == null
      ensures k < |old(active)| ==> old(active[k]).el.data == Initialised(old(active[k].el.data))
      ensures k < |old(active)| ==> Data() == RemoveAt(old(Data()), k)
    {
      hide Els, Contents, GiveAt, RemoveAt;
      if compare == None {
        IndexIs(View().active, x, k);
      }
      var entry, j := FindNode(x);
      if entry == null {
        return -1;
      }
      FreeEntry(entry, k);
      return 0;
    }

    /** Where a client's walk over the active list starts, and where it goes from position `k`. */
    lemma FirstEntry()
      requires Valid()
      ensures entries == if |active| > 0 then active[0] else null
      ensures |active| + |free| == size
    {
    }

    lemma NextEntry(k: nat)
      requires Valid() && k < |active|
      ensures active[k].next == if k + 1 < |active| then active[k + 1] else null
      ensures active[k] in nodes && active[k].el in elems
    {
    }

    /** simple_pool_get_current_size */
    method GetCurrentSize() returns (n: int)
      requires Valid()
      ensures n == |View().active|
    {
      n := currentSize;
    }
  }
}
