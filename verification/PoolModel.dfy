/** The pool of src/pool.c on values: two sequences, the allocated and the free elements. */
module PoolModel {

  datatype Option<+T> = None | Some(value: T)

  datatype PoolView<T> = PoolView(active: seq<T>, free: seq<T>)

  /** What a client of the pool may ask for. */
  datatype PoolOp<T> = AllocOp | FreeOp(x: T)

  ghost predicate Distinct<T>(s: seq<T>) {
    forall i, j :: 0 <= i < j < |s| ==> s[i] != s[j]
  }

  function RemoveAt<T>(s: seq<T>, k: nat): (r: seq<T>)
    requires k < |s|
    ensures |r| == |s| - 1
    ensures forall i :: 0 <= i < k ==> r[i] == s[i]
    ensures forall i :: k <= i < |r| ==> r[i] == s[i + 1]
  {
    s[..k] + s[k + 1..]
  }

  /** Position of the first `x`, or the length when there is none. */
  function IndexOf<T(==)>(s: seq<T>, x: T): (k: nat)
    ensures k <= |s|
    ensures k < |s| ==> s[k] == x
    ensures forall i :: 0 <= i < k ==> s[i] != x
    ensures k == |s| <==> x !in s
  {
    if s == [] then 0 else if s[0] == x then 0 else 1 + IndexOf(s[1..], x)
  }

  lemma IndexIs<T>(s: seq<T>, x: T, k: nat)
    requires k <= |s| && (k < |s| ==> s[k] == x) && forall i :: 0 <= i < k ==> s[i] != x
    ensures IndexOf(s, x) == k
  {
  }

  /** Allocation: the head of the free list goes to the tail of the active list. */
  function Take<T>(p: PoolView<T>): PoolView<T> {
    if p.free == [] then p else PoolView(p.active + [p.free[0]], p.free[1..])
  }

  /** Release of the k-th active element: it goes to the tail of the free list. */
  function GiveAt<T>(p: PoolView<T>, k: nat): PoolView<T>
    requires k < |p.active|
  {
    PoolView(RemoveAt(p.active, k), p.free + [p.active[k]])
  }

  /** Release of an element, found by searching the active list. */
  function Give<T(==)>(p: PoolView<T>, x: T): PoolView<T> {
    var k := IndexOf(p.active, x);
    if k == |p.active| then p else GiveAt(p, k)
  }

  function Apply<T(==)>(p: PoolView<T>, op: PoolOp<T>): PoolView<T> {
    match op
    case AllocOp => Take(p)
    case FreeOp(x) => Give(p, x)
  }

  function RunOps<T(==)>(p: PoolView<T>, ops: seq<PoolOp<T>>): PoolView<T>
    decreases |ops|
  {
    if ops == [] then p else Apply(RunOps(p, ops[..|ops| - 1]), ops[|ops| - 1])
  }

  lemma AppendThenSet<T>(s: seq<T>, x: T, y: T)
    ensures (s + [x])[|s| := y] == s + [y]
  {
  }

  lemma RemoveAtMembers<T>(s: seq<T>, k: nat)
    requires Distinct(s) && k < |s|
    ensures forall x {:trigger x in RemoveAt(s, k)} :: x in RemoveAt(s, k) <==> x in s && x != s[k]
  {
    forall x | x in s && x != s[k] ensures x in RemoveAt(s, k) {
      var i :| 0 <= i < |s| && s[i] == x;
      assert x == if i < k then RemoveAt(s, k)[i] else RemoveAt(s, k)[i - 1];
    }
  }

  lemma RemoveAtMultiset<T>(s: seq<T>, k: nat)
    requires k < |s|
    ensures multiset(RemoveAt(s, k)) + multiset{s[k]} == multiset(s)
  {
    assert s == s[..k] + [s[k]] + s[k + 1..];
  }

  /** Elements with no repetition, seen through multiplicities. */
  lemma {:induction false} DistinctMultiset<T>(s: seq<T>)
    ensures Distinct(s) <==> forall x :: multiset(s)[x] <= 1
  {
    if s != [] {
      var t := s[1..];
      DistinctMultiset(t);
      assert s == [s[0]] + t;
      assert forall x :: multiset(s)[x] == multiset{s[0]}[x] + multiset(t)[x];
      if Distinct(s) {
        assert Distinct(t);
        assert s[0] !in t;
      }
    }
  }

  /** One operation moves elements between the two lists and never loses or repeats one. */
  lemma ApplyConserves<T>(p: PoolView<T>, op: PoolOp<T>)
    ensures multiset(Apply(p, op).active) + multiset(Apply(p, op).free) == multiset(p.active) + multiset(p.free)
  {
    match op
    case AllocOp =>
      if p.free != [] {
        assert p.free == [p.free[0]] + p.free[1..];
      }
    case FreeOp(x) =>
      var k := IndexOf(p.active, x);
      if k < |p.active| {
        RemoveAtMultiset(p.active, k);
      }
  }

  /** After any sequence of operations the two lists partition exactly the original elements. */
  lemma {:induction false} RunConserves<T>(p: PoolView<T>, ops: seq<PoolOp<T>>)
    requires Distinct(p.active + p.free)
    ensures var q := RunOps(p, ops);
            && Distinct(q.active + q.free)
            && multiset(q.active) + multiset(q.free) == multiset(p.active) + multiset(p.free)
            && |q.active| + |q.free| == |p.active| + |p.free|
    decreases |ops|
  {
    var q := RunOps(p, ops);
    if ops != [] {
      RunConserves(p, ops[..|ops| - 1]);
      ApplyConserves(RunOps(p, ops[..|ops| - 1]), ops[|ops| - 1]);
    }
    assert multiset(q.active + q.free) == multiset(p.active + p.free);
    assert |multiset(q.active + q.free)| == |multiset(p.active + p.free)|;
    DistinctMultiset(q.active + q.free);
    DistinctMultiset(p.active + p.free);
  }

  /** Releasing what was just allocated restores the allocated elements and sends the
      element to the back of the free list: elements are recycled in turn. */
  lemma TakeThenGive<T>(p: PoolView<T>)
    requires Distinct(p.active + p.free) && p.free != []
    ensures Give(Take(p), p.free[0]) == PoolView(p.active, p.free[1..] + [p.free[0]])
  {
    var q := Take(p);
    var x := p.free[0];
    assert (p.active + p.free)[|p.active|] == x;
    assert forall i :: 0 <= i < |p.active| ==> (p.active + p.free)[i] == p.active[i];
    assert q.active[|p.active|] == x;
    assert IndexOf(q.active, x) == |p.active|;
  }
}
