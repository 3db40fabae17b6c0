/** `mq_receive_post` against the reference queue: on a valid, non-empty
    queue it hands out exactly the head entry and leaves a valid queue
    holding the rest. */
module MessageQueueReceiveProof {
  import opened Prelude
  import opened MessageQueue
  import opened PriorityQueueSpec
  import opened MessageQueueLayout
  import opened MessageQueueLemmas

  // ----- the groups after taking the head

  /** The head message is the first of the first group, and taking it
      drops it from the front of the receive order. */
  lemma {:induction false} PopFlatten(gs: seq<Group>)
    requires GroupsOk(gs) && gs != []
    ensures Flatten(gs) != [] && Flatten(gs)[0] == gs[0].ids[0]
    ensures Flatten(PopGroups(gs)) == Flatten(gs)[1..]
  {
    var ids := gs[0].ids;
    assert ids != [];
    assert Flatten(gs) == ids + Flatten(gs[1..]);
    if |ids| > 1 {
      var g := Group(gs[0].prio, ids[1..]);
      var r := [g] + gs[1..];
      assert r[0] == g && r[1..] == gs[1..];
      assert Flatten(r) == ids[1..] + Flatten(gs[1..]);
    }
  }

  /** A group of one loses its tail from the send order; a larger first
      group keeps its tail. */
  lemma {:induction false} PopTails(gs: seq<Group>)
    requires GroupsOk(gs) && gs != []
    ensures |gs[0].ids| == 1 ==> Tails(PopGroups(gs)) == Tails(gs)[1..] && Tails(gs)[0] == gs[0].ids[0]
    ensures |gs[0].ids| > 1 ==> Tails(PopGroups(gs)) == Tails(gs)
  {
    var ids := gs[0].ids;
    assert ids != [];
    if |ids| > 1 {
      var g := Group(gs[0].prio, ids[1..]);
      assert LastId(g) == LastId(gs[0]);
      var r := [g] + gs[1..];
      forall i | 0 <= i < |gs| ensures Tails(r)[i] == Tails(gs)[i] {
        if i > 0 {
          assert r[i] == gs[i];
        }
      }
    } else {
      forall i | 0 <= i < |gs| - 1 ensures Tails(gs[1..])[i] == Tails(gs)[i + 1] {
        assert gs[1..][i] == gs[i + 1];
      }
    }
  }

  lemma {:induction false} PopGroupsOk(gs: seq<Group>)
    requires GroupsOk(gs) && gs != []
    ensures GroupsOk(PopGroups(gs))
  {
    assert gs[0].ids != [];
    if |gs[0].ids| > 1 {
      var r := [Group(gs[0].prio, gs[0].ids[1..])] + gs[1..];
      forall a, b | 0 <= a < b < |r| ensures r[a].prio > r[b].prio {
        assert r[b] == gs[b];
        assert r[a].prio == gs[a].prio;
      }
      forall a | 0 <= a < |r| ensures r[a].ids != [] {
        if a > 0 {
          assert r[a] == gs[a];
        }
      }
    }
  }

  /** The head message is no tail except its own group's, when it is the
      only message there: every later tail has a lower priority and the
      first group's tail sits further back in the receive order. */
  lemma {:induction false} HeadNotTail(d: Mqd, gs: seq<Group>)
    requires GroupsOk(gs) && Priorities(d, gs) && Distinct(Flatten(gs)) && gs != []
    ensures forall i :: 0 <= i < |Tails(gs)| && (i > 0 || |gs[0].ids| > 1) ==>
      Tails(gs)[i] != gs[0].ids[0]
  {
    var m := gs[0].ids[0];
    var T := Tails(gs);
    assert m in gs[0].ids;
    TailPriorities(d, gs);
    TailPosition(gs, 0);
    PopFlatten(gs);
    assert Offset(gs, 0) == 0 by {
      assert gs[..0] == [];
    }
    forall i | 0 <= i < |T| && (i > 0 || |gs[0].ids| > 1) ensures T[i] != m {
      if i > 0 {
        assert d.heap[T[i]].priority == gs[i].prio < gs[0].prio;
      } else {
        assert T[0] == Flatten(gs)[|gs[0].ids| - 1];
      }
    }
  }

  /** A message of group `l` after the pop was in group `l'` before, with
      the same priority. */
  lemma {:induction false} PopSource(gs: seq<Group>, l: nat, x: Id) returns (l': nat)
    requires gs != [] && gs[0].ids != [] && l < |PopGroups(gs)| && x in PopGroups(gs)[l].ids
    ensures l' < |gs| && x in gs[l'].ids && gs[l'].prio == PopGroups(gs)[l].prio
  {
    var r := PopGroups(gs);
    if |gs[0].ids| == 1 {
      l' := l + 1;
      assert r[l] == gs[l + 1];
    } else if l > 0 {
      l' := l;
      assert r[l] == gs[l];
    } else {
      l' := 0;
      assert x in gs[0].ids[1..];
    }
  }

  /** Every remaining message keeps its record and its priority. */
  lemma {:induction false} PopPriorities(d: Mqd, q: Mqd, gs: seq<Group>)
    requires Priorities(d, gs) && gs != [] && gs[0].ids != []
    requires q.heap == d.heap - {gs[0].ids[0]}
    requires gs[0].ids[0] !in Flatten(PopGroups(gs))
    ensures Priorities(q, PopGroups(gs))
  {
    var r := PopGroups(gs);
    forall l, x | 0 <= l < |r| && x in r[l].ids
      ensures x in q.heap && q.heap[x].priority == r[l].prio
    {
      GroupMember(r, l, x);
      var l' := PopSource(gs, l, x);
      assert x in d.heap && d.heap[x].priority == gs[l'].prio;
    }
  }

  // ----- the pointer updates

  /** The head moves along `next_receive`; the skip-list head moves along
      `next_send` only when it was the message taken. */
  ghost predicate Popped(d: Mqd, q: Mqd, m: Id)
    requires m in d.heap
  {
    && q.heap == d.heap - {m}
    && q.queueReceive == d.heap[m].nextReceive
    && (d.queueSend == Some(m) ==> q.queueSend == d.heap[m].nextSend)
    && (d.queueSend != Some(m) ==> q.queueSend == d.queueSend)
  }

  lemma {:induction false} PopRecvChain(d: Mqd, q: Mqd, gs: seq<Group>)
    requires GroupsOk(gs) && gs != [] && Distinct(Flatten(gs)) && Chain(d, false, Flatten(gs))
    requires gs[0].ids[0] in d.heap && Popped(d, q, gs[0].ids[0])
    ensures Chain(q, false, Flatten(PopGroups(gs)))
  {
    var F := Flatten(gs);
    PopFlatten(gs);
    DistinctTail(F);
    assert Load(d, Link(F[0], false)) == At(F, 1);
    forall i | 1 <= i < |F| ensures F[i] in q.heap {
    }
    ChainPop(d, q, false, F);
  }

  /** Freeing the first message of the send list, with the head moved
      along its link, leaves the rest of the list. */
  lemma {:induction false} SendDropHead(d: Mqd, q: Mqd, T: seq<Id>)
    requires Chain(d, true, T) && T != [] && forall i :: 1 <= i < |T| ==> T[i] != T[0]
    requires q.heap == d.heap - {T[0]} && q.queueSend == d.heap[T[0]].nextSend
    ensures Chain(q, true, T[1..])
  {
    assert Load(d, Link(T[0], true)) == At(T, 1);
    ChainPop(d, q, true, T);
  }

  /** Freeing a message off the send list, with its head kept, leaves the
      list. */
  lemma {:induction false} SendKeep(d: Mqd, q: Mqd, T: seq<Id>, m: Id)
    requires Chain(d, true, T) && forall i :: 0 <= i < |T| ==> T[i] != m
    requires q.heap == d.heap - {m} && q.queueSend == d.queueSend
    ensures Chain(q, true, T)
  {
    ChainFrame(d, q, true, T);
  }

  lemma {:induction false} PopSendChain(d: Mqd, q: Mqd, gs: seq<Group>)
    requires GroupsOk(gs) && Priorities(d, gs) && gs != [] && Distinct(Flatten(gs))
    requires Chain(d, true, Tails(gs))
    requires gs[0].ids[0] in d.heap && Popped(d, q, gs[0].ids[0])
    ensures Chain(q, true, Tails(PopGroups(gs)))
  {
    var T := Tails(gs);
    PopTails(gs);
    HeadNotTail(d, gs);
    if |gs[0].ids| == 1 {
      SendDropHead(d, q, T);
    } else {
      assert d.queueSend == Some(T[0]);
      SendKeep(d, q, T, gs[0].ids[0]);
    }
  }

  // ----- the receive step

  /** The pieces of `Valid` after taking the head `m`. */
  lemma {:induction false} ValidPop(d: Mqd, q: Mqd, gs: seq<Group>)
    requires Valid(d, gs) && gs != [] && gs[0].ids != [] && gs[0].ids[0] in d.heap
    requires Popped(d, q, gs[0].ids[0]) && q.attr.curmsgs == d.attr.curmsgs - 1
    ensures Valid(q, PopGroups(gs))
  {
    var F := Flatten(gs);
    PopLayout(d, q, gs);
    PopFlatten(gs);
    assert F == [F[0]] + F[1..];
  }

  /** Taking the head keeps the pointer structure in line with the
      groups minus their first message. */
  lemma {:induction false} PopLayout(d: Mqd, q: Mqd, gs: seq<Group>)
    requires Layout(d, gs) && gs != [] && gs[0].ids != [] && gs[0].ids[0] in d.heap
    requires Popped(d, q, gs[0].ids[0])
    ensures Layout(q, PopGroups(gs))
  {
    var F, T := Flatten(gs), Tails(gs);
    PopFlatten(gs);
    PopRecvChain(d, q, gs);
    PopSendChain(d, q, gs);
    PopGroupsOk(gs);
    PopTails(gs);
    DistinctTail(F);
    if |gs[0].ids| == 1 {
      DistinctTail(T);
    }
    PopPriorities(d, q, gs);
  }

  /** Dropping the head record drops the head entry of the view. */
  lemma {:induction false} ViewPop(h: map<Id, Message>, F: seq<Id>)
    requires F != [] && F[0] !in F[1..]
    ensures View(h - {F[0]}, F[1..]) == View(h, F)[1..]
  {
    var h' := h - {F[0]};
    forall i | 0 <= i < |F| - 1 ensures EntryOf(h', F[1..][i]) == EntryOf(h, F[i + 1]) {
      assert F[1..][i] == F[i + 1] != F[0];
    }
  }

  /** `mq_receive_post` on a valid queue holding messages: it returns the
      head entry, its length and (when asked) its priority, and leaves a
      valid queue whose view is the rest of the reference queue. */
  lemma {:induction false} ReceivePostCorrect(d: Mqd, gs: seq<Group>, wantPrio: bool)
    requires Valid(d, gs) && d.locked && d.attr.curmsgs > 0
    ensures gs != [] && d.queueReceive.Some? && d.queueReceive.value in d.heap
    ensures var r := ReceivePost(d, wantPrio);
      var v := View(d.heap, Flatten(gs));
      && v != []
      && Dequeue(v) == (Entry(v[0].prio, r.data), View(r.q.heap, Flatten(PopGroups(gs))))
      && r.length == |r.data|
      && (r.prio.Some? <==> wantPrio)
      && (wantPrio ==> r.prio.value == v[0].prio)
      && !r.q.locked
      && Valid(r.q, PopGroups(gs))
  {
    var F := Flatten(gs);
    assert F != [] && gs != [];
    PopFlatten(gs);
    var m := F[0];
    assert m in d.heap;
    assert d.queueReceive == Some(m);
    var r := ReceivePost(d, wantPrio);
    assert Popped(d, r.q, m);
    ValidPop(d, r.q, gs);
    DistinctTail(F);
    ViewPop(d.heap, F);
  }
}
