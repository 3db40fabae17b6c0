/** The queue the engine is meant to implement, as a plain sequence of
    entries in extraction order: highest priority first, and first in,
    first out among equal priorities. */
module PriorityQueueSpec {
  import opened Prelude
  import opened MessageQueue

  /** What a sender hands in and a receiver gets back. */
  datatype Entry = Entry(prio: Prio, data: seq<Byte>)

  /** Priority of the entry at position `i`. */
  function PrioAt(q: seq<Entry>, i: int): Prio
    requires 0 <= i < |q|
  {
    q[i].prio
  }

  /** Non-increasing priority from head to tail. */
  predicate Sorted(q: seq<Entry>)
  {
    forall i, j {:trigger PrioAt(q, i), PrioAt(q, j)} :: 0 <= i < j < |q| ==> PrioAt(q, i) >= PrioAt(q, j)
  }

  /** Reference insertion: behind every entry of at least the same
      priority, in front of the first entry of lower priority. */
  function Enqueue(q: seq<Entry>, e: Entry): seq<Entry>
    decreases |q|
  {
    if q == [] then [e]
    else if q[0].prio >= e.prio then [q[0]] + Enqueue(q[1..], e)
    else [e] + q
  }

  /** How many leading entries have at least the priority of `e`. */
  function Place(q: seq<Entry>, e: Entry): (j: nat)
    ensures j <= |q|
    ensures forall i :: 0 <= i < j ==> q[i].prio >= e.prio
    ensures j < |q| ==> q[j].prio < e.prio
    decreases |q|
  {
    if q == [] || q[0].prio < e.prio then 0 else 1 + Place(q[1..], e)
  }

  /** Receiving takes the head. */
  function Dequeue(q: seq<Entry>): (Entry, seq<Entry>)
    requires q != []
  {
    (q[0], q[1..])
  }

  /** The entries of priority `p`, in queue order. */
  function Filter(q: seq<Entry>, p: Prio): seq<Entry>
    decreases |q|
  {
    if q == [] then []
    else (if q[0].prio == p then [q[0]] else []) + Filter(q[1..], p)
  }

  /** The queue after sending `es` one by one into an empty queue. */
  function SendAll(es: seq<Entry>): seq<Entry>
    decreases |es|
  {
    if es == [] then [] else Enqueue(SendAll(es[..|es| - 1]), es[|es| - 1])
  }

  /** Inserting between a prefix of higher-or-equal and a suffix of lower
      priority is what `Enqueue` does. */
  lemma {:induction false} EnqueueSplit(a: seq<Entry>, b: seq<Entry>, e: Entry)
    requires forall i :: 0 <= i < |a| ==> a[i].prio >= e.prio
    requires forall i :: 0 <= i < |b| ==> b[i].prio < e.prio
    ensures Enqueue(a + b, e) == a + [e] + b
    decreases |a|
  {
    if a == [] {
      assert a + b == b;
    } else {
      assert (a + b)[0] == a[0] && (a + b)[1..] == a[1..] + b;
      EnqueueSplit(a[1..], b, e);
    }
  }

  /** Putting an entry between the higher-or-equal prefix and the lower
      suffix of a sorted queue keeps it sorted. */
  lemma {:induction false} SortedInsert(q: seq<Entry>, j: nat, e: Entry)
    requires Sorted(q) && j <= |q|
    requires forall i :: 0 <= i < j ==> q[i].prio >= e.prio
    requires forall i :: j <= i < |q| ==> q[i].prio < e.prio
    ensures Sorted(q[..j] + [e] + q[j..])
  {
    var r := q[..j] + [e] + q[j..];
    forall a, b | 0 <= a < b < |r| ensures PrioAt(r, a) >= PrioAt(r, b) {
      if a < j && b < j {
        assert PrioAt(q, a) >= PrioAt(q, b);
      } else if a > j && b > j {
        assert PrioAt(q, a - 1) >= PrioAt(q, b - 1);
      }
      var x := if a < j then q[a].prio else if a == j then e.prio else q[a - 1].prio;
      var y := if b < j then q[b].prio else if b == j then e.prio else q[b - 1].prio;
      assert r[a].prio == x && r[b].prio == y;
    }
  }

  /** On a sorted queue, `Enqueue` puts the new entry behind every entry
      of equal or higher priority and in front of every lower one, and the
      queue stays sorted. */
  lemma {:induction false} EnqueueSorted(q: seq<Entry>, e: Entry)
    requires Sorted(q)
    ensures Sorted(Enqueue(q, e))
    ensures var j := Place(q, e);
      && Enqueue(q, e) == q[..j] + [e] + q[j..]
      && (forall i :: 0 <= i < j ==> q[i].prio >= e.prio)
      && (forall i :: j <= i < |q| ==> q[i].prio < e.prio)
  {
    var j := Place(q, e);
    assert forall i :: j <= i < |q| ==> q[i].prio < e.prio by {
      forall i | j <= i < |q| ensures q[i].prio < e.prio {
        assert PrioAt(q, j) >= PrioAt(q, i);
      }
    }
    assert q == q[..j] + q[j..];
    EnqueueSplit(q[..j], q[j..], e);
    assert Enqueue(q, e) == q[..j] + [e] + q[j..];
    SortedInsert(q, j, e);
  }

  lemma {:induction false} FilterAppend(a: seq<Entry>, b: seq<Entry>, p: Prio)
    ensures Filter(a + b, p) == Filter(a, p) + Filter(b, p)
    decreases |a|
  {
    if a == [] {
      assert a + b == b;
    } else {
      var ab, head := a + b, if a[0].prio == p then [a[0]] else [];
      assert ab[0] == a[0] && ab[1..] == a[1..] + b;
      FilterAppend(a[1..], b, p);
      assert Filter(ab, p) == head + Filter(a[1..] + b, p);
      assert Filter(a, p) == head + Filter(a[1..], p);
    }
  }

  lemma {:induction false} FilterNone(q: seq<Entry>, p: Prio)
    requires forall i :: 0 <= i < |q| ==> q[i].prio != p
    ensures Filter(q, p) == []
    decreases |q|
  {
    if q != [] {
      FilterNone(q[1..], p);
    }
  }

  /** Sending `e` appends it to the entries of its own priority and leaves
      the entries of every other priority as they were. */
  lemma {:induction false} FilterEnqueue(q: seq<Entry>, e: Entry, p: Prio)
    requires Sorted(q)
    ensures Filter(Enqueue(q, e), p) == Filter(q, p) + (if e.prio == p then [e] else [])
  {
    EnqueueSorted(q, e);
    var j := Place(q, e);
    var a, b := q[..j], q[j..];
    assert q == a + b;
    FilterAppend(a, b, p);
    FilterAppend(a + [e], b, p);
    FilterAppend(a, [e], p);
    var single := Filter([e], p);
    assert single == (if e.prio == p then [e] else []) by {
      assert [e][1..] == [];
    }
    assert Filter(Enqueue(q, e), p) == Filter(a, p) + single + Filter(b, p);
    if e.prio == p {
      FilterNone(b, p);
    }
  }

  /** Priority order and FIFO within a priority: after any sequence of
      sends the queue is sorted, and its entries of each priority are
      exactly the entries of that priority in the order they were sent. */
  lemma {:induction false} SendAllOrdered(es: seq<Entry>, p: Prio)
    ensures Sorted(SendAll(es))
    ensures Filter(SendAll(es), p) == Filter(es, p)
    decreases |es|
  {
    if es != [] {
      var init, e := es[..|es| - 1], es[|es| - 1];
      SendAllOrdered(init, p);
      EnqueueSorted(SendAll(init), e);
      FilterEnqueue(SendAll(init), e, p);
      assert es == init + [e];
      FilterAppend(init, [e], p);
      assert [e][1..] == [];
    }
  }

  /** An example: "A" and "B" sent at priority 5, then "C"
      at priority 10, come out as C, A, B. */
  lemma {:induction false} ExampleOrder(a: seq<Byte>, b: seq<Byte>, c: seq<Byte>)
    ensures SendAll([Entry(5, a), Entry(5, b), Entry(10, c)]) ==
      [Entry(10, c), Entry(5, a), Entry(5, b)]
  {
    var es := [Entry(5, a), Entry(5, b), Entry(10, c)];
    assert es[..2] == [Entry(5, a), Entry(5, b)];
    assert es[..2][..1] == [Entry(5, a)];
    assert es[..2][..1][..0] == [];
    assert SendAll(es[..2][..1]) == [Entry(5, a)];
    assert Enqueue([Entry(5, a)], Entry(5, b)) == [Entry(5, a)] + Enqueue([], Entry(5, b));
    assert SendAll(es[..2]) == [Entry(5, a), Entry(5, b)];
    assert Enqueue([Entry(5, a), Entry(5, b)], Entry(10, c)) ==
      [Entry(10, c), Entry(5, a), Entry(5, b)];
  }
}
