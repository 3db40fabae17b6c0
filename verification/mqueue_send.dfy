/** `mq_send_post` against the reference queue: on a valid queue the new
    message lands exactly where `Enqueue` puts it, and the result is valid
    again. */
module MessageQueueSendProof {
  import opened Prelude
  import opened MessageQueue
  import opened PriorityQueueSpec
  import opened MessageQueueLayout
  import opened MessageQueueLemmas

  // ----- sequences of groups under one insertion or replacement

  lemma {:induction false} GroupsInsertOk(gs: seq<Group>, k: nat, g: Group)
    requires GroupsOk(gs) && k <= |gs| && g.ids != []
    requires forall l :: 0 <= l < k ==> gs[l].prio > g.prio
    requires forall l :: k <= l < |gs| ==> gs[l].prio < g.prio
    ensures GroupsOk(gs[..k] + [g] + gs[k..])
  {
    var r := gs[..k] + [g] + gs[k..];
    assert forall i :: 0 <= i < k ==> r[i] == gs[i];
    assert r[k] == g;
    assert forall i :: k < i < |r| ==> r[i] == gs[i - 1];
  }

  lemma {:induction false} GroupsReplaceOk(gs: seq<Group>, k: nat, g: Group)
    requires GroupsOk(gs) && k < |gs| && g.ids != [] && g.prio == gs[k].prio
    ensures GroupsOk(gs[k := g])
  {
  }

  lemma {:induction false} TailsInsert(gs: seq<Group>, k: nat, g: Group)
    requires k <= |gs|
    ensures Tails(gs[..k] + [g] + gs[k..]) == Tails(gs)[..k] + [LastId(g)] + Tails(gs)[k..]
  {
    var r := gs[..k] + [g] + gs[k..];
    var T := Tails(gs);
    var t := T[..k] + [LastId(g)] + T[k..];
    assert |Tails(r)| == |t|;
    forall i | 0 <= i < |r| ensures Tails(r)[i] == t[i] {
      if i < k {
        assert r[i] == gs[i] && t[i] == T[i];
      } else if i == k {
        assert r[i] == g && t[i] == LastId(g);
      } else {
        assert r[i] == gs[i - 1] && t[i] == T[i - 1];
      }
    }
  }

  lemma {:induction false} TailsReplace(gs: seq<Group>, k: nat, g: Group)
    requires k < |gs|
    ensures Tails(gs[k := g]) == Tails(gs)[k := LastId(g)]
  {
  }

  lemma {:induction false} FlattenInsert(gs: seq<Group>, k: nat, g: Group)
    requires k <= |gs|
    ensures Offset(gs, k) <= |Flatten(gs)|
    ensures var F, j := Flatten(gs), Offset(gs, k);
      Flatten(gs[..k] + [g] + gs[k..]) == F[..j] + g.ids + F[j..]
  {
    FlattenSplit(gs, k);
    FlattenAppend(gs[..k] + [g], gs[k..]);
    FlattenAppend(gs[..k], [g]);
    FlattenOne(g);
  }

  lemma {:induction false} FlattenReplace(gs: seq<Group>, k: nat, g: Group)
    requires k < |gs|
    ensures Flatten(gs[k := g]) == Flatten(gs[..k]) + g.ids + Flatten(gs[k + 1..])
  {
    var r := gs[k := g];
    assert r[..k] == gs[..k] && r[k + 1..] == gs[k + 1..];
    FlattenAround(r, k);
  }

  /** Appending `m` to group `k` inserts it into the receive order right
      after the group's old tail. */
  lemma {:induction false} FlattenAppendTo(gs: seq<Group>, k: nat, m: Id)
    requires GroupsOk(gs) && k < |gs|
    ensures var F, j := Flatten(gs), Offset(gs, k + 1);
      && 1 <= j <= |F|
      && F[j - 1] == Tails(gs)[k]
      && Flatten(gs[k := Group(gs[k].prio, gs[k].ids + [m])]) == F[..j] + [m] + F[j..]
  {
    TailPosition(gs, k);
    FlattenReplace(gs, k, Group(gs[k].prio, gs[k].ids + [m]));
    FlattenPrefix(gs, k);
    FlattenSplit(gs, k + 1);
    assert gs[k + 1..] == gs[..][k + 1..];
  }

  // ----- the groups after the insertion

  /** A message of an existing priority joins the end of its group `k`:
      it enters the receive order at `j`, right after the group's old
      tail ... */
  lemma {:induction false} SameFlatten(gs: seq<Group>, prio: Prio, m: Id, k: nat, j: nat)
    requires GroupsOk(gs)
    requires k == FirstAtMost(gs, prio) && k < |gs| && gs[k].prio == prio
    requires j == Offset(gs, k + 1)
    ensures 1 <= j <= |Flatten(gs)| && Flatten(gs)[j - 1] == Tails(gs)[k]
    ensures Flatten(InsertGroups(gs, prio, m)) == Flatten(gs)[..j] + [m] + Flatten(gs)[j..]
  {
    FlattenAppendTo(gs, k, m);
  }

  /** ... and replaces that tail in the send order. */
  lemma {:induction false} SameTails(gs: seq<Group>, prio: Prio, m: Id, k: nat)
    requires GroupsOk(gs)
    requires k == FirstAtMost(gs, prio) && k < |gs| && gs[k].prio == prio
    ensures Tails(InsertGroups(gs, prio, m)) == Tails(gs)[k := m]
    ensures GroupsOk(InsertGroups(gs, prio, m))
  {
    var g := Group(prio, gs[k].ids + [m]);
    TailsReplace(gs, k, g);
    GroupsReplaceOk(gs, k, g);
  }

  /** A message of a new priority opens a group of its own at `k`, in
      front of the first lower priority: it enters the receive order at
      `j`, right after the tail of group `k - 1` ... */
  lemma {:induction false} NewFlatten(gs: seq<Group>, prio: Prio, m: Id, k: nat, j: nat)
    requires GroupsOk(gs)
    requires k == FirstAtMost(gs, prio) && !(k < |gs| && gs[k].prio == prio)
    requires j == Offset(gs, k)
    ensures j <= |Flatten(gs)| && (k == 0 ==> j == 0)
    ensures k > 0 ==> 1 <= j && Flatten(gs)[j - 1] == Tails(gs)[k - 1]
    ensures Flatten(InsertGroups(gs, prio, m)) == Flatten(gs)[..j] + [m] + Flatten(gs)[j..]
  {
    if k > 0 {
      TailPosition(gs, k - 1);
    }
    FlattenInsert(gs, k, Group(prio, [m]));
  }

  /** ... and the send order at `k`. */
  lemma {:induction false} NewTails(gs: seq<Group>, prio: Prio, m: Id, k: nat)
    requires k == FirstAtMost(gs, prio) && !(k < |gs| && gs[k].prio == prio)
    ensures Tails(InsertGroups(gs, prio, m)) == Tails(gs)[..k] + [m] + Tails(gs)[k..]
  {
    TailsInsert(gs, k, Group(prio, [m]));
  }

  /** The new group keeps the priorities strictly descending: everything
      from `k` on is lower. */
  lemma {:induction false} NewGroupsOk(gs: seq<Group>, prio: Prio, m: Id, k: nat)
    requires GroupsOk(gs)
    requires k == FirstAtMost(gs, prio) && !(k < |gs| && gs[k].prio == prio)
    ensures forall l :: k <= l < |gs| ==> gs[l].prio < prio
    ensures GroupsOk(InsertGroups(gs, prio, m))
  {
    forall l | k <= l < |gs| ensures gs[l].prio < prio {
      assert l == k || gs[k].prio > gs[l].prio;
    }
    GroupsInsertOk(gs, k, Group(prio, [m]));
  }

  // ----- the pointer surgery against the layout

  /** Allocating a record outside the list keeps the list. */
  lemma {:induction false} ChainExtend(d: Mqd, f: bool, L: seq<Id>, m: Id, msg: Message)
    requires Chain(d, f, L) && m !in d.heap
    ensures Chain(d.(heap := d.heap[m := msg]), f, L)
  {
    var d' := d.(heap := d.heap[m := msg]);
    forall i | 0 <= i < |L| ensures L[i] in d'.heap && L[i] != m {
    }
    ChainFrame(d, d', f, L);
  }

  /** Linking `m` in behind `L[j - 1]` (or at the head when `j` is 0)
      inserts it into the list at `j`. */
  lemma {:induction false} ChainBehind(d: Mqd, d': Mqd, f: bool, L: seq<Id>, j: nat, m: Id)
    requires Chain(d, f, L) && Distinct(L) && j <= |L| && m !in L
    requires m in d'.heap && forall i :: 0 <= i < |L| ==> L[i] in d'.heap
    requires Load(d', Link(m, f)) == At(L, j)
    requires j == 0 ==> Load(d', Head(f)) == Some(m)
    requires j > 0 ==> Load(d', Head(f)) == Load(d, Head(f)) && Load(d', Link(L[j - 1], f)) == Some(m)
    requires forall x :: x != m && (j == 0 || x != L[j - 1]) ==> Load(d', Link(x, f)) == Load(d, Link(x, f))
    ensures Chain(d', f, L[..j] + [m] + L[j..])
  {
    forall i | 0 <= i < |L| && i != j - 1
      ensures Load(d', Link(L[i], f)) == Load(d, Link(L[i], f))
    {
      assert L[i] != m && (j == 0 || L[i] != L[j - 1]);
    }
    ChainInsert(d, d', f, L, j, m);
  }

  /** Putting `m` in the place of `L[k]`, taking over its link, replaces
      it in the list. */
  lemma {:induction false} ChainInstead(d: Mqd, d': Mqd, f: bool, L: seq<Id>, k: nat, m: Id)
    requires Chain(d, f, L) && Distinct(L) && k < |L| && m !in L
    requires m in d'.heap && forall i :: 0 <= i < |L| ==> L[i] in d'.heap
    requires Load(d', Link(m, f)) == Load(d, Link(L[k], f))
    requires k == 0 ==> Load(d', Head(f)) == Some(m)
    requires k > 0 ==> Load(d', Head(f)) == Load(d, Head(f)) && Load(d', Link(L[k - 1], f)) == Some(m)
    requires forall x :: x != m && (k == 0 || x != L[k - 1]) ==> Load(d', Link(x, f)) == Load(d, Link(x, f))
    ensures Chain(d', f, L[k := m])
  {
    forall i | 0 <= i < |L| && i != k - 1 && i != k
      ensures Load(d', Link(L[i], f)) == Load(d, Link(L[i], f))
    {
      assert L[i] != m && (k == 0 || L[i] != L[k - 1]);
    }
    ChainReplace(d, d', f, L, k, m);
  }

  /** What the splice for a priority already queued does to the links
      (see `SpliceSameGroup`): `m` goes behind `tail` in the receive list
      and takes its place, through `at`, in the send list. */
  ghost predicate SameSpliced(d: Mqd, d': Mqd, m: Id, at: Loc, tail: Id)
  {
    && d'.heap.Keys == d.heap.Keys
    && Load(d', NextReceive(m)) == Load(d, NextReceive(tail))
    && Load(d', NextSend(m)) == Load(d, NextSend(tail))
    && Load(d', NextReceive(tail)) == Some(m)
    && Load(d', at) == Some(m)
    && (forall l :: (l != NextReceive(m) && l != NextSend(m) &&
                     l != NextReceive(tail) && l != at) ==> Load(d', l) == Load(d, l))
  }

  /** Joining group `k` touches the receive links of `m` and of the
      group's tail only, and the skip-list links of `m` and of the tail
      before the group only. */
  lemma {:induction false} SameFrame(d: Mqd, d': Mqd, m: Id, T: seq<Id>, k: nat)
    requires k < |T|
    requires SameSpliced(d, d', m, SendCursor(T, k), T[k])
    ensures forall x :: x != m && x != T[k] ==>
      Load(d', Link(x, false)) == Load(d, Link(x, false))
    ensures forall x :: x != m && (k == 0 || x != T[k - 1]) ==>
      Load(d', Link(x, true)) == Load(d, Link(x, true))
  {
    var at := SendCursor(T, k);
    forall x | x != m && x != T[k] ensures Load(d', Link(x, false)) == Load(d, Link(x, false)) {
      assert NextReceive(x) != at;
    }
    forall x | x != m && (k == 0 || x != T[k - 1]) ensures Load(d', Link(x, true)) == Load(d, Link(x, true)) {
      assert NextSend(x) != at;
    }
  }

  lemma {:induction false} SameRecvChain(d: Mqd, d': Mqd, gs: seq<Group>, prio: Prio, m: Id, k: nat)
    requires GroupsOk(gs) && Distinct(Flatten(gs)) && Chain(d, false, Flatten(gs))
    requires m in d.heap && m !in Flatten(gs)
    requires k == FirstAtMost(gs, prio) && k < |gs| && gs[k].prio == prio
    requires SameSpliced(d, d', m, SendCursor(Tails(gs), k), Tails(gs)[k])
    ensures Chain(d', false, Flatten(InsertGroups(gs, prio, m)))
  {
    var F, T := Flatten(gs), Tails(gs);
    var j := Offset(gs, k + 1);
    SameFlatten(gs, prio, m, k, j);
    var at, tail := SendCursor(T, k), T[k];
    assert Load(d, Link(tail, false)) == At(F, j) by {
      assert Load(d, Link(F[j - 1], false)) == At(F, j);
    }
    SameFrame(d, d', m, T, k);
    ChainBehind(d, d', false, F, j, m);
  }

  lemma {:induction false} SameSendChain(d: Mqd, d': Mqd, gs: seq<Group>, prio: Prio, m: Id, k: nat)
    requires GroupsOk(gs) && Distinct(Tails(gs)) && Chain(d, true, Tails(gs))
    requires m in d.heap && m !in Tails(gs)
    requires k == FirstAtMost(gs, prio) && k < |gs| && gs[k].prio == prio
    requires SameSpliced(d, d', m, SendCursor(Tails(gs), k), Tails(gs)[k])
    ensures Chain(d', true, Tails(InsertGroups(gs, prio, m)))
  {
    var T := Tails(gs);
    TailsReplace(gs, k, Group(prio, gs[k].ids + [m]));
    SameFrame(d, d', m, T, k);
    ChainInstead(d, d', true, T, k, m);
  }

  /** What the splice for a new priority does to the links (see
      `SpliceNewGroup`): `m` goes in where the two cursors pointed. */
  ghost predicate NewSpliced(d: Mqd, d': Mqd, m: Id, recv: Loc, send: Loc)
  {
    && d'.heap.Keys == d.heap.Keys
    && Load(d', NextReceive(m)) == Load(d, recv)
    && Load(d', recv) == Some(m)
    && Load(d', NextSend(m)) == Load(d, send)
    && Load(d', send) == Some(m)
    && (forall l :: (l != NextReceive(m) && l != NextSend(m) &&
                     l != recv && l != send) ==> Load(d', l) == Load(d, l))
  }

  lemma {:induction false} NewRecvChain(d: Mqd, d': Mqd, gs: seq<Group>, prio: Prio, m: Id, k: nat)
    requires GroupsOk(gs) && Distinct(Flatten(gs)) && Chain(d, false, Flatten(gs))
    requires m in d.heap && m !in Flatten(gs)
    requires k == FirstAtMost(gs, prio) && !(k < |gs| && gs[k].prio == prio)
    requires NewSpliced(d, d', m, RecvCursor(Tails(gs), k), SendCursor(Tails(gs), k))
    ensures Chain(d', false, Flatten(InsertGroups(gs, prio, m)))
  {
    var F, T := Flatten(gs), Tails(gs);
    var j := Offset(gs, k);
    NewFlatten(gs, prio, m, k, j);
    if k > 0 {
      assert Load(d, Link(F[j - 1], false)) == At(F, j);
    }
    NewFrame(d, d', m, T, k, false);
    ChainBehind(d, d', false, F, j, m);
  }

  lemma {:induction false} NewSendChain(d: Mqd, d': Mqd, gs: seq<Group>, prio: Prio, m: Id, k: nat)
    requires GroupsOk(gs) && Distinct(Tails(gs)) && Chain(d, true, Tails(gs))
    requires m in d.heap && m !in Tails(gs)
    requires k == FirstAtMost(gs, prio) && !(k < |gs| && gs[k].prio == prio)
    requires NewSpliced(d, d', m, RecvCursor(Tails(gs), k), SendCursor(Tails(gs), k))
    ensures Chain(d', true, Tails(InsertGroups(gs, prio, m)))
  {
    var T := Tails(gs);
    NewTails(gs, prio, m, k);
    SendCursorLoad(d, T, k);
    NewFrame(d, d', m, T, k, true);
    ChainBehind(d, d', true, T, k, m);
  }

  /** A new group touches, in either list, the links of `m` and of the
      tail before it only. */
  lemma {:induction false} NewFrame(d: Mqd, d': Mqd, m: Id, T: seq<Id>, k: nat, f: bool)
    requires k <= |T|
    requires NewSpliced(d, d', m, RecvCursor(T, k), SendCursor(T, k))
    ensures forall x :: x != m && (k == 0 || x != T[k - 1]) ==>
      Load(d', Link(x, f)) == Load(d, Link(x, f))
  {
    var recv, send := RecvCursor(T, k), SendCursor(T, k);
    forall x | x != m && (k == 0 || x != T[k - 1])
      ensures Load(d', Link(x, f)) == Load(d, Link(x, f))
    {
      assert Link(x, f) != recv && Link(x, f) != send;
    }
  }

  /** On a well-formed pair of lists the scan reaches the spot the groups
      predict, and the splice there lays out the groups with `m` added. */
  lemma {:induction false} InsertLinks(d: Mqd, gs: seq<Group>, prio: Prio, m: Id)
    requires GroupsOk(gs) && Distinct(Flatten(gs)) && Distinct(Tails(gs))
    requires Chain(d, false, Flatten(gs)) && Chain(d, true, Tails(gs))
    requires forall i :: 0 <= i < |Tails(gs)| ==>
      Tails(gs)[i] in d.heap && d.heap[Tails(gs)[i]].priority == gs[i].prio
    requires m in d.heap && m !in Flatten(gs) && m !in Tails(gs)
    ensures Insert(d, m, prio).Some?
    ensures Chain(Insert(d, m, prio).value, false, Flatten(InsertGroups(gs, prio, m)))
    ensures Chain(Insert(d, m, prio).value, true, Tails(InsertGroups(gs, prio, m)))
  {
    var T := Tails(gs);
    var k := FirstAtMost(gs, prio);
    ScanFinds(d, gs, T, prio, 0);
    assert Passed(T, 0) == {};
    var spot := ExpectedSpot(gs, T, prio);
    var d' := Splice(d, m, spot);
    assert Insert(d, m, prio) == Some(d');
    if k < |gs| && gs[k].prio == prio {
      assert spot == SameGroup(SendCursor(T, k), T[k]);
      SameLinks(d, gs, prio, m, k);
    } else {
      assert spot == NewGroup(RecvCursor(T, k), SendCursor(T, k));
      NewLinks(d, gs, prio, m, k);
    }
  }

  /** The splice that appends `m` to the existing group `k` lays out
      both lists of the groups with `m` added. */
  lemma {:induction false} SameLinks(d: Mqd, gs: seq<Group>, prio: Prio, m: Id, k: nat)
    requires GroupsOk(gs) && Distinct(Flatten(gs)) && Distinct(Tails(gs))
    requires Chain(d, false, Flatten(gs)) && Chain(d, true, Tails(gs))
    requires m in d.heap && m !in Flatten(gs) && m !in Tails(gs)
    requires k == FirstAtMost(gs, prio) && k < |gs| && gs[k].prio == prio
    ensures var d' := Splice(d, m, SameGroup(SendCursor(Tails(gs), k), Tails(gs)[k]));
      && Chain(d', false, Flatten(InsertGroups(gs, prio, m)))
      && Chain(d', true, Tails(InsertGroups(gs, prio, m)))
  {
    var T := Tails(gs);
    var at, tail := SendCursor(T, k), T[k];
    SendCursorLoad(d, T, k);
    var d' := Splice(d, m, SameGroup(at, tail));
    SpliceSameGroup(d, m, at, tail);
    assert SameSpliced(d, d', m, at, tail);
    SameRecvChain(d, d', gs, prio, m, k);
    SameSendChain(d, d', gs, prio, m, k);
  }

  /** The splice that opens a new group for `m` in front of group `k`
      lays out both lists of the groups with `m` added. */
  lemma {:induction false} NewLinks(d: Mqd, gs: seq<Group>, prio: Prio, m: Id, k: nat)
    requires GroupsOk(gs) && Distinct(Flatten(gs)) && Distinct(Tails(gs))
    requires Chain(d, false, Flatten(gs)) && Chain(d, true, Tails(gs))
    requires m in d.heap && m !in Flatten(gs) && m !in Tails(gs)
    requires k == FirstAtMost(gs, prio) && !(k < |gs| && gs[k].prio == prio)
    ensures var d' := Splice(d, m, NewGroup(RecvCursor(Tails(gs), k), SendCursor(Tails(gs), k)));
      && Chain(d', false, Flatten(InsertGroups(gs, prio, m)))
      && Chain(d', true, Tails(InsertGroups(gs, prio, m)))
  {
    var T := Tails(gs);
    var recv, send := RecvCursor(T, k), SendCursor(T, k);
    SendCursorLoad(d, T, k);
    if k > 0 {
      assert T[k - 1] != m;
    }
    var d' := Splice(d, m, NewGroup(recv, send));
    SpliceNewGroup(d, m, recv, send);
    assert NewSpliced(d, d', m, recv, send);
    NewRecvChain(d, d', gs, prio, m, k);
    NewSendChain(d, d', gs, prio, m, k);
  }

  // ----- the invariant and the view after a send

  /** Inserting `m` into a sequence adds exactly `m` to its elements. */
  lemma {:induction false} InsertMembers(s: seq<Id>, j: nat, m: Id)
    requires j <= |s|
    ensures |s[..j] + [m] + s[j..]| == |s| + 1
    ensures forall x :: x in s[..j] + [m] + s[j..] <==> x in s || x == m
  {
    assert s == s[..j] + s[j..];
  }

  /** The groups after a send: still ordered, the two orders still free
      of repetitions, and the receive order holds exactly one more
      message, `m`. */
  lemma {:induction false} InsertOrders(gs: seq<Group>, prio: Prio, m: Id)
    requires GroupsOk(gs) && Distinct(Flatten(gs)) && Distinct(Tails(gs))
    requires m !in Flatten(gs) && m !in Tails(gs)
    ensures GroupsOk(InsertGroups(gs, prio, m))
    ensures Distinct(Flatten(InsertGroups(gs, prio, m))) && Distinct(Tails(InsertGroups(gs, prio, m)))
    ensures |Flatten(InsertGroups(gs, prio, m))| == |Flatten(gs)| + 1
    ensures forall x :: x in Flatten(InsertGroups(gs, prio, m)) <==> x in Flatten(gs) || x == m
  {
    var k := FirstAtMost(gs, prio);
    if k < |gs| && gs[k].prio == prio {
      SameOrders(gs, prio, m, k);
    } else {
      NewOrders(gs, prio, m, k);
    }
  }

  lemma {:induction false} SameOrders(gs: seq<Group>, prio: Prio, m: Id, k: nat)
    requires GroupsOk(gs) && Distinct(Flatten(gs)) && Distinct(Tails(gs))
    requires m !in Flatten(gs) && m !in Tails(gs)
    requires k == FirstAtMost(gs, prio) && k < |gs| && gs[k].prio == prio
    ensures GroupsOk(InsertGroups(gs, prio, m))
    ensures Distinct(Flatten(InsertGroups(gs, prio, m))) && Distinct(Tails(InsertGroups(gs, prio, m)))
    ensures |Flatten(InsertGroups(gs, prio, m))| == |Flatten(gs)| + 1
    ensures forall x :: x in Flatten(InsertGroups(gs, prio, m)) <==> x in Flatten(gs) || x == m
  {
    var j := Offset(gs, k + 1);
    SameFlatten(gs, prio, m, k, j);
    SameTails(gs, prio, m, k);
    DistinctReplace(Tails(gs), k, m);
    DistinctInsert(Flatten(gs), j, m);
    InsertMembers(Flatten(gs), j, m);
  }

  lemma {:induction false} NewOrders(gs: seq<Group>, prio: Prio, m: Id, k: nat)
    requires GroupsOk(gs) && Distinct(Flatten(gs)) && Distinct(Tails(gs))
    requires m !in Flatten(gs) && m !in Tails(gs)
    requires k == FirstAtMost(gs, prio) && !(k < |gs| && gs[k].prio == prio)
    ensures GroupsOk(InsertGroups(gs, prio, m))
    ensures Distinct(Flatten(InsertGroups(gs, prio, m))) && Distinct(Tails(InsertGroups(gs, prio, m)))
    ensures |Flatten(InsertGroups(gs, prio, m))| == |Flatten(gs)| + 1
    ensures forall x :: x in Flatten(InsertGroups(gs, prio, m)) <==> x in Flatten(gs) || x == m
  {
    var j := Offset(gs, k);
    NewFlatten(gs, prio, m, k, j);
    NewTails(gs, prio, m, k);
    NewGroupsOk(gs, prio, m, k);
    DistinctInsert(Tails(gs), k, m);
    DistinctInsert(Flatten(gs), j, m);
    InsertMembers(Flatten(gs), j, m);
  }

  /** Every message keeps its priority, and `m` carries `prio`: the
      groups after a send agree with the records. */
  lemma {:induction false} PrioritiesInsert(d: Mqd, q: Mqd, gs: seq<Group>, prio: Prio, m: Id)
    requires Priorities(d, gs)
    requires forall x :: x in d.heap ==> x in q.heap && q.heap[x].priority == d.heap[x].priority
    requires m in q.heap && q.heap[m].priority == prio
    ensures Priorities(q, InsertGroups(gs, prio, m))
  {
    var k := FirstAtMost(gs, prio);
    var gs' := InsertGroups(gs, prio, m);
    if k < |gs| && gs[k].prio == prio {
      forall l, x | 0 <= l < |gs'| && x in gs'[l].ids
        ensures x in q.heap && q.heap[x].priority == gs'[l].prio
      {
        if l != k || x != m {
          assert x in gs[l].ids;
        }
      }
    } else {
      forall l, x | 0 <= l < |gs'| && x in gs'[l].ids
        ensures x in q.heap && q.heap[x].priority == gs'[l].prio
      {
        if l < k {
          assert gs'[l] == gs[l];
        } else if l > k {
          assert gs'[l] == gs[l - 1];
        }
      }
    }
  }

  /** Inserting the record `m` into the receive order at `j`, between
      the messages of priority at least `prio` and those below it, shows
      the receiver the reference queue with the new entry enqueued. */
  lemma {:induction false} ViewPlace(h: map<Id, Message>, h': map<Id, Message>, F: seq<Id>, j: nat, m: Id, e: Entry)
    requires j <= |F| && m in h' && EntryOf(h', m) == e
    requires forall i :: 0 <= i < |F| ==> F[i] in h && F[i] in h'
    requires forall x :: x in h && x in h' ==> h'[x].priority == h[x].priority && h'[x].contents == h[x].contents
    requires forall i :: 0 <= i < j ==> h[F[i]].priority >= e.prio
    requires forall i :: j <= i < |F| ==> h[F[i]].priority < e.prio
    ensures View(h', F[..j] + [m] + F[j..]) == Enqueue(View(h, F), e)
  {
    var v := View(h, F);
    var a, b := v[..j], v[j..];
    EnqueueSplit(a, b, e);
    assert v == a + b;
    var F' := F[..j] + [m] + F[j..];
    var w := View(h', F');
    forall i | 0 <= i < |F'| ensures w[i] == (a + [e] + b)[i] {
      if i < j {
        assert F'[i] == F[i];
      } else if i > j {
        assert F'[i] == F[i - 1];
      }
    }
  }

  /** Where a send of a queued priority enters the receive order: after
      every message of priority at least `prio`, before the rest. */
  lemma {:induction false} SameBounds(d: Mqd, gs: seq<Group>, prio: Prio, m: Id, k: nat) returns (j: nat)
    requires GroupsOk(gs) && Priorities(d, gs)
    requires k == FirstAtMost(gs, prio) && k < |gs| && gs[k].prio == prio
    ensures j <= |Flatten(gs)|
    ensures j == Offset(gs, k + 1)
    ensures forall i :: 0 <= i < j ==>
      Flatten(gs)[i] in d.heap && d.heap[Flatten(gs)[i]].priority >= prio
    ensures forall i :: j <= i < |Flatten(gs)| ==>
      Flatten(gs)[i] in d.heap && d.heap[Flatten(gs)[i]].priority < prio
  {
    j := Offset(gs, k + 1);
    forall l | k + 1 <= l < |gs| ensures gs[l].prio < prio {
      assert gs[k].prio > gs[l].prio;
    }
    PrefixAbove(d, gs, k + 1, prio);
    SuffixBelow(d, gs, k + 1, prio);
  }

  /** Where a send of a new priority enters the receive order: the same
      boundary, between groups `k - 1` and `k`. */
  lemma {:induction false} NewBounds(d: Mqd, gs: seq<Group>, prio: Prio, m: Id, k: nat) returns (j: nat)
    requires GroupsOk(gs) && Priorities(d, gs)
    requires k == FirstAtMost(gs, prio) && !(k < |gs| && gs[k].prio == prio)
    ensures j <= |Flatten(gs)|
    ensures j == Offset(gs, k)
    ensures forall i :: 0 <= i < j ==>
      Flatten(gs)[i] in d.heap && d.heap[Flatten(gs)[i]].priority >= prio
    ensures forall i :: j <= i < |Flatten(gs)| ==>
      Flatten(gs)[i] in d.heap && d.heap[Flatten(gs)[i]].priority < prio
  {
    j := Offset(gs, k);
    NewGroupsOk(gs, prio, m, k);
    PrefixAbove(d, gs, k, prio);
    SuffixBelow(d, gs, k, prio);
  }

  /** The view after a send is the reference queue after `Enqueue`. */
  lemma {:induction false} ViewEnqueue(d: Mqd, h': map<Id, Message>, gs: seq<Group>, prio: Prio, m: Id, payload: seq<Byte>)
    requires GroupsOk(gs) && Priorities(d, gs)
    requires forall x :: x in d.heap ==>
      x in h' && h'[x].priority == d.heap[x].priority && h'[x].contents == d.heap[x].contents
    requires m in h' && h'[m].priority == prio && h'[m].contents == payload
    ensures View(h', Flatten(InsertGroups(gs, prio, m))) == Enqueue(View(d.heap, Flatten(gs)), Entry(prio, payload))
  {
    var k := FirstAtMost(gs, prio);
    var j;
    if k < |gs| && gs[k].prio == prio {
      j := SameBounds(d, gs, prio, m, k);
      SameFlatten(gs, prio, m, k, j);
    } else {
      j := NewBounds(d, gs, prio, m, k);
      NewFlatten(gs, prio, m, k, j);
    }
    ViewPlace(d.heap, h', Flatten(gs), j, m, Entry(prio, payload));
  }

  /** The lists live in the link fields and the two heads only. */
  lemma {:induction false} ChainHeads(d: Mqd, q: Mqd, f: bool, L: seq<Id>)
    requires Chain(d, f, L)
    requires q.heap == d.heap && q.queueReceive == d.queueReceive && q.queueSend == d.queueSend
    ensures Chain(q, f, L)
  {
    ChainFrame(d, q, f, L);
  }

  /** The pieces of `Valid` after a send, for a descriptor `q` whose
      records are those of `d` plus `m`. */
  lemma {:induction false} ValidInsert(d: Mqd, q: Mqd, gs: seq<Group>, prio: Prio, m: Id)
    requires Valid(d, gs) && m !in d.heap
    requires q.heap.Keys == d.heap.Keys + {m}
    requires forall x :: x in d.heap ==>
      q.heap[x].priority == d.heap[x].priority && q.heap[x].length == d.heap[x].length &&
      q.heap[x].contents == d.heap[x].contents
    requires q.heap[m].priority == prio && q.heap[m].length == |q.heap[m].contents|
    requires q.attr.curmsgs == d.attr.curmsgs + 1
    requires Chain(q, false, Flatten(InsertGroups(gs, prio, m)))
    requires Chain(q, true, Tails(InsertGroups(gs, prio, m)))
    ensures Valid(q, InsertGroups(gs, prio, m))
  {
    var F := Flatten(gs);
    assert m !in F by {
      assert forall i :: 0 <= i < |F| ==> F[i] in d.heap;
    }
    InsertLayout(d, q, gs, prio, m);
  }

  /** The pointer structure after a send matches the groups with `m`
      added, given that both lists were relinked accordingly. */
  lemma {:induction false} InsertLayout(d: Mqd, q: Mqd, gs: seq<Group>, prio: Prio, m: Id)
    requires Layout(d, gs) && m !in d.heap
    requires forall x :: x in d.heap ==> x in q.heap && q.heap[x].priority == d.heap[x].priority
    requires m in q.heap && q.heap[m].priority == prio
    requires Chain(q, false, Flatten(InsertGroups(gs, prio, m)))
    requires Chain(q, true, Tails(InsertGroups(gs, prio, m)))
    ensures Layout(q, InsertGroups(gs, prio, m))
    ensures |Flatten(InsertGroups(gs, prio, m))| == |Flatten(gs)| + 1
    ensures forall x :: x in Flatten(InsertGroups(gs, prio, m)) <==> x in Flatten(gs) || x == m
  {
    var F, T := Flatten(gs), Tails(gs);
    assert m !in F && m !in T by {
      assert forall i :: 0 <= i < |F| ==> F[i] in d.heap;
      assert forall i :: 0 <= i < |T| ==> T[i] in d.heap;
    }
    InsertOrders(gs, prio, m);
    PrioritiesInsert(d, q, gs, prio, m);
  }

  /** The record allocated for the message, before it is linked in,
      leaves both lists intact; the scan and the splice then lay out the
      groups with `m` added. */
  lemma {:induction false} AllocLinks(d: Mqd, gs: seq<Group>, payload: seq<Byte>, prio: Prio, m: Id)
    requires Valid(d, gs) && |payload| < 0x1_0000_0000_0000_0000 && m !in d.heap
    ensures var d1 := d.(heap := d.heap[m := Message(None, None, |payload|, prio, payload)]);
      && Insert(d1, m, prio).Some?
      && Chain(Insert(d1, m, prio).value, false, Flatten(InsertGroups(gs, prio, m)))
      && Chain(Insert(d1, m, prio).value, true, Tails(InsertGroups(gs, prio, m)))
  {
    var F, T := Flatten(gs), Tails(gs);
    var msg := Message(None, None, |payload|, prio, payload);
    var d1 := d.(heap := d.heap[m := msg]);
    assert m !in F && m !in T by {
      assert forall i :: 0 <= i < |F| ==> F[i] in d.heap;
      assert forall i :: 0 <= i < |T| ==> T[i] in d.heap;
    }
    ChainExtend(d, false, F, m, msg);
    ChainExtend(d, true, T, m, msg);
    TailPriorities(d, gs);
    InsertLinks(d1, gs, prio, m);
  }

  /** `mq_send_post` with the priority stored succeeds on a valid queue,
      and its result holds both lists of the groups with `m` added. */
  lemma {:induction false} SendLinks(d: Mqd, gs: seq<Group>, payload: seq<Byte>, prio: Prio, m: Id)
    requires Valid(d, gs) && d.locked && |payload| < 0x1_0000_0000_0000_0000 && m !in d.heap
    ensures SendPost(d, payload, prio, Some(m)).Some?
    ensures var q := SendPost(d, payload, prio, Some(m)).value.q;
      && Chain(q, false, Flatten(InsertGroups(gs, prio, m)))
      && Chain(q, true, Tails(InsertGroups(gs, prio, m)))
  {
    AllocLinks(d, gs, payload, prio, m);
    var d1 := d.(heap := d.heap[m := Message(None, None, |payload|, prio, payload)]);
    var d2 := Insert(d1, m, prio).value;
    var q := d2.(attr := d2.attr.(curmsgs := d2.attr.curmsgs + 1), locked := false);
    assert SendPost(d, payload, prio, Some(m)) == Some(Sent(0, q));
    ChainHeads(d2, q, false, Flatten(InsertGroups(gs, prio, m)));
    ChainHeads(d2, q, true, Tails(InsertGroups(gs, prio, m)));
  }

  /** `mq_send_post`, with the priority stored, on a valid queue: it
      succeeds, the result is valid for the groups with `m` added, and
      the receiver sees the reference queue with the message enqueued. */
  lemma {:induction false} SendPostCorrect(d: Mqd, gs: seq<Group>, payload: seq<Byte>, prio: Prio, m: Id)
    requires Valid(d, gs) && d.locked && |payload| < 0x1_0000_0000_0000_0000 && m !in d.heap
    ensures SendPost(d, payload, prio, Some(m)).Some?
    ensures var r := SendPost(d, payload, prio, Some(m)).value;
      && r.status == 0 && !r.q.locked
      && Valid(r.q, InsertGroups(gs, prio, m))
      && View(r.q.heap, Flatten(InsertGroups(gs, prio, m))) == Enqueue(View(d.heap, Flatten(gs)), Entry(prio, payload))
  {
    SendLinks(d, gs, payload, prio, m);
    var q := SendPost(d, payload, prio, Some(m)).value.q;
    ValidInsert(d, q, gs, prio, m);
    ViewEnqueue(d, q.heap, gs, prio, m, payload);
  }
}
