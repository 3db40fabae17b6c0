/** Facts about the group layout, the two linked lists, the pointer
    surgery and the insertion scan, used by the correctness proofs of the
    post steps. */
module MessageQueueLemmas {
  import opened Prelude
  import opened MessageQueue
  import opened MessageQueueLayout

  // ----- groups and their flattening

  lemma {:induction false} FlattenAppend(a: seq<Group>, b: seq<Group>)
    ensures Flatten(a + b) == Flatten(a) + Flatten(b)
    decreases |a|
  {
    if a == [] {
      assert a + b == b;
    } else {
      assert (a + b)[0] == a[0] && (a + b)[1..] == a[1..] + b;
      FlattenAppend(a[1..], b);
    }
  }

  lemma {:induction false} FlattenOne(g: Group)
    ensures Flatten([g]) == g.ids
  {
    assert [g][1..] == [];
  }

  /** Adding group `k` to the prefix adds its messages. */
  lemma {:induction false} FlattenPrefix(gs: seq<Group>, k: nat)
    requires k < |gs|
    ensures Flatten(gs[..k + 1]) == Flatten(gs[..k]) + gs[k].ids
  {
    assert gs[..k + 1] == gs[..k] + [gs[k]];
    FlattenAppend(gs[..k], [gs[k]]);
    FlattenOne(gs[k]);
  }

  /** The receive order splits around group `k`. */
  lemma {:induction false} FlattenAround(gs: seq<Group>, k: nat)
    requires k < |gs|
    ensures Flatten(gs) == Flatten(gs[..k]) + gs[k].ids + Flatten(gs[k + 1..])
  {
    FlattenPrefix(gs, k);
    FlattenSplit(gs, k + 1);
  }

  lemma {:induction false} FlattenSplit(gs: seq<Group>, k: nat)
    requires k <= |gs|
    ensures Flatten(gs) == Flatten(gs[..k]) + Flatten(gs[k..])
  {
    assert gs == gs[..k] + gs[k..];
    FlattenAppend(gs[..k], gs[k..]);
  }

  /** The group a message of the receive order belongs to. */
  function GroupOf(gs: seq<Group>, x: Id): (l: nat)
    requires x in Flatten(gs)
    ensures l < |gs| && x in gs[l].ids
    decreases |gs|
  {
    if x in gs[0].ids then 0 else 1 + GroupOf(gs[1..], x)
  }

  lemma {:induction false} GroupMember(gs: seq<Group>, k: nat, x: Id)
    requires k < |gs| && x in gs[k].ids
    ensures x in Flatten(gs)
  {
    FlattenAround(gs, k);
  }

  /** Offset of group `k` in the receive order. */
  function Offset(gs: seq<Group>, k: nat): nat
    requires k <= |gs|
  {
    |Flatten(gs[..k])|
  }

  /** The last message of group `k` sits just before group `k + 1`. */
  lemma {:induction false} TailPosition(gs: seq<Group>, k: nat)
    requires GroupsOk(gs) && k < |gs|
    ensures Offset(gs, k + 1) == Offset(gs, k) + |gs[k].ids|
    ensures 1 <= Offset(gs, k + 1) <= |Flatten(gs)|
    ensures Flatten(gs)[Offset(gs, k + 1) - 1] == Tails(gs)[k]
    ensures Tails(gs)[k] in gs[k].ids
  {
    FlattenPrefix(gs, k);
    FlattenSplit(gs, k + 1);
    var ids := gs[k].ids;
    assert ids != [];
    var F := Flatten(gs);
    assert F[Offset(gs, k + 1) - 1] == ids[|ids| - 1];
  }

  /** Every message in front of group `k` has a priority of at least `p`
      when every earlier group does. */
  lemma {:induction false} PrefixAbove(d: Mqd, gs: seq<Group>, k: nat, p: int)
    requires Priorities(d, gs) && k <= |gs|
    requires forall l :: 0 <= l < k ==> gs[l].prio >= p
    ensures Offset(gs, k) <= |Flatten(gs)|
    ensures forall i :: 0 <= i < Offset(gs, k) ==>
      Flatten(gs)[i] in d.heap && d.heap[Flatten(gs)[i]].priority >= p
  {
    FlattenSplit(gs, k);
    forall i | 0 <= i < Offset(gs, k)
      ensures Flatten(gs)[i] in d.heap && d.heap[Flatten(gs)[i]].priority >= p
    {
      var x := Flatten(gs)[i];
      assert x == Flatten(gs[..k])[i];
      var l := GroupOf(gs[..k], x);
      assert x in gs[l].ids;
    }
  }

  /** Every message from group `k` on has a priority below `p` when every
      group from `k` on does. */
  lemma {:induction false} SuffixBelow(d: Mqd, gs: seq<Group>, k: nat, p: int)
    requires Priorities(d, gs) && k <= |gs|
    requires forall l :: k <= l < |gs| ==> gs[l].prio < p
    ensures forall i :: Offset(gs, k) <= i < |Flatten(gs)| ==>
      Flatten(gs)[i] in d.heap && d.heap[Flatten(gs)[i]].priority < p
  {
    FlattenSplit(gs, k);
    forall i | Offset(gs, k) <= i < |Flatten(gs)|
      ensures Flatten(gs)[i] in d.heap && d.heap[Flatten(gs)[i]].priority < p
    {
      var x := Flatten(gs)[i];
      assert x == Flatten(gs[k..])[i - Offset(gs, k)];
      var l := GroupOf(gs[k..], x);
      assert x in gs[k + l].ids;
    }
  }

  // ----- distinctness

  lemma {:induction false} DistinctInsert(s: seq<Id>, j: nat, m: Id)
    requires Distinct(s) && j <= |s| && m !in s
    ensures Distinct(s[..j] + [m] + s[j..])
  {
    var r := s[..j] + [m] + s[j..];
    forall a, b | 0 <= a < b < |r| ensures r[a] != r[b] {
      if a < j && b > j {
        assert r[a] == s[a] && r[b] == s[b - 1];
      } else if a > j {
        assert r[a] == s[a - 1] && r[b] == s[b - 1];
      } else if b < j {
        assert r[a] == s[a] && r[b] == s[b];
      } else if a == j {
        assert r[b] == s[b - 1];
      } else {
        assert r[a] == s[a];
      }
    }
  }

  lemma {:induction false} DistinctReplace(s: seq<Id>, k: nat, m: Id)
    requires Distinct(s) && k < |s| && m !in s
    ensures Distinct(s[k := m])
  {
  }

  lemma {:induction false} DistinctTail(s: seq<Id>)
    requires Distinct(s) && s != []
    ensures Distinct(s[1..]) && s[0] !in s[1..]
  {
    assert forall i :: 0 <= i < |s| - 1 ==> s[1..][i] == s[i + 1];
  }

  // ----- the two linked lists

  /** A list stays as it was when its head and links do. */
  lemma {:induction false} ChainFrame(d: Mqd, d': Mqd, f: bool, L: seq<Id>)
    requires Chain(d, f, L)
    requires Load(d', Head(f)) == Load(d, Head(f))
    requires forall i :: 0 <= i < |L| ==> L[i] in d'.heap
    requires forall i {:trigger Link(L[i], f)} :: 0 <= i < |L| ==>
      Load(d', Link(L[i], f)) == Load(d, Link(L[i], f))
    ensures Chain(d', f, L)
  {
  }

  /** Linking `m` in at position `j`: it points where position `j` used to
      be reached from, and its predecessor (or the head) points at it. */
  lemma {:induction false} ChainInsert(d: Mqd, d': Mqd, f: bool, L: seq<Id>, j: nat, m: Id)
    requires Chain(d, f, L) && j <= |L|
    requires m in d'.heap && Load(d', Link(m, f)) == At(L, j)
    requires j == 0 ==> Load(d', Head(f)) == Some(m)
    requires j > 0 ==>
      && Load(d', Head(f)) == Load(d, Head(f))
      && L[j - 1] in d'.heap && Load(d', Link(L[j - 1], f)) == Some(m)
    requires forall i :: 0 <= i < |L| ==> L[i] in d'.heap
    requires forall i {:trigger Link(L[i], f)} :: 0 <= i < |L| && i != j - 1 ==>
      Load(d', Link(L[i], f)) == Load(d, Link(L[i], f))
    ensures Chain(d', f, L[..j] + [m] + L[j..])
  {
    var r := L[..j] + [m] + L[j..];
    forall i | 0 <= i < |r|
      ensures r[i] in d'.heap && Load(d', Link(r[i], f)) == At(r, i + 1)
    {
      if i < j - 1 {
        assert r[i] == L[i] && At(r, i + 1) == At(L, i + 1);
      } else if i == j - 1 {
        assert r[i] == L[i] && At(r, i + 1) == Some(m);
      } else if i == j {
        assert r[i] == m && At(r, i + 1) == At(L, j);
      } else {
        assert r[i] == L[i - 1] && At(r, i + 1) == At(L, i);
      }
    }
    assert At(r, 0) == if j == 0 then Some(m) else At(L, 0);
  }

  /** Putting `m` in the place of position `k`. */
  lemma {:induction false} ChainReplace(d: Mqd, d': Mqd, f: bool, L: seq<Id>, k: nat, m: Id)
    requires Chain(d, f, L) && k < |L|
    requires m in d'.heap && Load(d', Link(m, f)) == At(L, k + 1)
    requires k == 0 ==> Load(d', Head(f)) == Some(m)
    requires k > 0 ==>
      && Load(d', Head(f)) == Load(d, Head(f))
      && L[k - 1] in d'.heap && Load(d', Link(L[k - 1], f)) == Some(m)
    requires forall i :: 0 <= i < |L| ==> L[i] in d'.heap
    requires forall i {:trigger Link(L[i], f)} :: 0 <= i < |L| && i != k - 1 && i != k ==>
      Load(d', Link(L[i], f)) == Load(d, Link(L[i], f))
    ensures Chain(d', f, L[k := m])
  {
    var r := L[k := m];
    forall i | 0 <= i < |r|
      ensures r[i] in d'.heap && Load(d', Link(r[i], f)) == At(r, i + 1)
    {
      if i == k - 1 {
        assert r[i] == L[i] && At(r, i + 1) == Some(m);
      } else if i == k {
        assert At(r, i + 1) == At(L, i + 1);
      } else {
        assert r[i] == L[i] && At(r, i + 1) == At(L, i + 1);
      }
    }
  }

  /** Unlinking the first element: the head moves to the second. */
  lemma {:induction false} ChainPop(d: Mqd, d': Mqd, f: bool, L: seq<Id>)
    requires Chain(d, f, L) && L != []
    requires Load(d', Head(f)) == At(L, 1)
    requires forall i :: 1 <= i < |L| ==> L[i] in d'.heap
    requires forall i {:trigger Link(L[i], f)} :: 1 <= i < |L| ==>
      Load(d', Link(L[i], f)) == Load(d, Link(L[i], f))
    ensures Chain(d', f, L[1..])
  {
    var r := L[1..];
    forall i | 0 <= i < |r|
      ensures r[i] in d'.heap && Load(d', Link(r[i], f)) == At(r, i + 1)
    {
      assert r[i] == L[i + 1] && At(r, i + 1) == At(L, i + 2);
    }
  }

  // ----- the pointer surgery

  /** Net effect of the same-priority splice: `m` takes over the tail's
      two links, the tail's receive link and the skip-list pointer at `at`
      point to `m`, and no other link or payload changes. */
  lemma {:induction false} SpliceSameGroup(d: Mqd, m: Id, at: Loc, tail: Id)
    requires m in d.heap && tail in d.heap && m != tail && Addressable(d, at)
    requires at != NextReceive(m) && at != NextSend(m) && at != NextReceive(tail)
    ensures var r := Splice(d, m, SameGroup(at, tail));
      && Load(r, NextReceive(m)) == Load(d, NextReceive(tail))
      && Load(r, NextSend(m)) == Load(d, NextSend(tail))
      && Load(r, NextReceive(tail)) == Some(m)
      && Load(r, at) == Some(m)
      && (forall l :: (l != NextReceive(m) && l != NextSend(m) &&
                       l != NextReceive(tail) && l != at) ==> Load(r, l) == Load(d, l))
  {
  }

  /** Net effect of the new-priority splice: `m` takes over what the two
      cursors pointed to and both cursors point to `m`. */
  lemma {:induction false} SpliceNewGroup(d: Mqd, m: Id, recv: Loc, send: Loc)
    requires m in d.heap && Addressable(d, recv) && Addressable(d, send)
    requires recv != send && recv != NextReceive(m) && recv != NextSend(m)
    requires send != NextReceive(m) && send != NextSend(m)
    ensures var r := Splice(d, m, NewGroup(recv, send));
      && Load(r, NextReceive(m)) == Load(d, recv)
      && Load(r, recv) == Some(m)
      && Load(r, NextSend(m)) == Load(d, send)
      && Load(r, send) == Some(m)
      && (forall l :: (l != NextReceive(m) && l != NextSend(m) &&
                       l != recv && l != send) ==> Load(r, l) == Load(d, l))
  {
  }


  // ----- the insertion scan

  /** The tails of the first `k` groups: the messages the scan has passed
      after `k` steps. */
  function Passed(T: seq<Id>, k: nat): set<Id>
    requires k <= |T|
  {
    set i | 0 <= i < k :: T[i]
  }

  lemma {:induction false} PassedNext(T: seq<Id>, k: nat)
    requires k < |T|
    ensures Passed(T, k + 1) == Passed(T, k) + {T[k]}
  {
  }

  /** Each tail is allocated and carries its group's priority. */
  lemma {:induction false} TailPriorities(d: Mqd, gs: seq<Group>)
    requires GroupsOk(gs) && Priorities(d, gs)
    ensures forall i :: 0 <= i < |Tails(gs)| ==>
      Tails(gs)[i] in d.heap && d.heap[Tails(gs)[i]].priority == gs[i].prio
  {
    forall i | 0 <= i < |Tails(gs)|
      ensures Tails(gs)[i] in d.heap && d.heap[Tails(gs)[i]].priority == gs[i].prio
    {
      assert gs[i].ids != [];
      assert Tails(gs)[i] in gs[i].ids;
    }
  }

  /** The scan's view of the skip list after `k` groups. */
  lemma {:induction false} SendCursorLoad(d: Mqd, T: seq<Id>, k: nat)
    requires Chain(d, true, T) && k <= |T|
    ensures Addressable(d, RecvCursor(T, k)) && Addressable(d, SendCursor(T, k))
    ensures Load(d, SendCursor(T, k)) == At(T, k)
  {
    if k > 0 {
      assert Load(d, Link(T[k - 1], true)) == At(T, k);
    }
  }

  /** From the cursors after `k` groups, the scan walks the skip list to
      the first group of priority at most `prio` and stops at the expected
      spot; it never gets stuck. */
  lemma {:induction false} ScanFinds(d: Mqd, gs: seq<Group>, T: seq<Id>, prio: Prio, k: nat)
    requires |T| == |gs| && Distinct(T) && Chain(d, true, T)
    requires forall i :: 0 <= i < |T| ==> T[i] in d.heap && d.heap[T[i]].priority == gs[i].prio
    requires k <= FirstAtMost(gs, prio)
    ensures Addressable(d, RecvCursor(T, k)) && Addressable(d, SendCursor(T, k))
    ensures Scan(d, RecvCursor(T, k), SendCursor(T, k), prio, Passed(T, k)) == ExpectedSpot(gs, T, prio)
    decreases |gs| - k
  {
    SendCursorLoad(d, T, k);
    if k < |gs| {
      var s := T[k];
      assert s !in Passed(T, k);
      if k < FirstAtMost(gs, prio) {
        PassedNext(T, k);
        assert NextReceive(s) == RecvCursor(T, k + 1) && NextSend(s) == SendCursor(T, k + 1);
        ScanFinds(d, gs, T, prio, k + 1);
      }
    }
  }
}
