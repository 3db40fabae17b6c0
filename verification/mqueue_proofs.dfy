/** The engine against the reference queue: with the invariant `Valid`,
    a send inserts exactly where `Enqueue` does, a receive takes exactly
    the head, and both keep the invariant. */
module MessageQueueProofs {
  import opened Prelude
  import opened MessageQueue
  import opened PriorityQueueSpec
  import opened MessageQueueLayout
  import opened MessageQueueLemmas

  /** A freshly opened queue: no messages, both heads NULL. */
  lemma {:induction false} EmptyValid(attr: Attr)
    requires attr.curmsgs == 0
    ensures Valid(Mqd(false, attr, None, None, map[]), [])
  {
    assert Flatten([]) == [];
  }

  /** The receive head, the skip-list head and `mq_curmsgs` all say
      whether the queue is empty; the skip-list head is the last message
      of the highest priority. */
  lemma {:induction false} HeadsAgree(d: Mqd, gs: seq<Group>)
    requires Valid(d, gs)
    ensures d.queueReceive.None? <==> gs == []
    ensures d.queueSend.None? <==> gs == []
    ensures d.attr.curmsgs == 0 <==> gs == []
    ensures gs != [] ==> d.queueSend == Some(LastId(gs[0])) && d.queueReceive == Some(gs[0].ids[0])
  {
    if gs != [] {
      FlattenAround(gs, 0);
      assert Flatten(gs)[0] == gs[0].ids[0];
    }
  }

  /** A message ahead of another in the receive order has at least its
      priority. */
  lemma {:induction false} AheadNotLower(d: Mqd, gs: seq<Group>, a: nat, b: nat)
    requires GroupsOk(gs) && Priorities(d, gs) && a < b < |Flatten(gs)|
    ensures Flatten(gs)[a] in d.heap && Flatten(gs)[b] in d.heap
    ensures d.heap[Flatten(gs)[a]].priority >= d.heap[Flatten(gs)[b]].priority
  {
    var F := Flatten(gs);
    // F[b] lies in group l, so it sits before group l + 1 ...
    var l := GroupOf(gs, F[b]);
    var p := gs[l].prio;
    SuffixBelow(d, gs, l + 1, p);
    assert b < Offset(gs, l + 1);
    // ... and so does F[a], whose group is at most l.
    PrefixAbove(d, gs, l + 1, p);
  }

  /** The view of a valid queue is sorted by priority. */
  lemma {:induction false} ValidSorted(d: Mqd, gs: seq<Group>)
    requires Valid(d, gs)
    ensures Sorted(View(d.heap, Flatten(gs)))
  {
    var v := View(d.heap, Flatten(gs));
    forall a, b | 0 <= a < b < |v| ensures PrioAt(v, a) >= PrioAt(v, b) {
      AheadNotLower(d, gs, a, b);
    }
  }

  /** Taking the lock changes nothing the invariant looks at. */
  lemma {:induction false} ValidLocked(d: Mqd, gs: seq<Group>, locked: bool)
    requires Valid(d, gs)
    ensures Valid(d.(locked := locked), gs)
  {
    var q := d.(locked := locked);
    ChainFrame(d, q, false, Flatten(gs));
    ChainFrame(d, q, true, Tails(gs));
  }

  /** `mq_receive_pre` in non-blocking mode on a valid queue: it lets the
      caller through exactly when the buffer is large enough and a message
      is queued, and then `mq_receive_post` finds a head to take. */
  lemma {:induction false} ReceiveReady(d: Mqd, gs: seq<Group>, msgLen: Size)
    requires Valid(d, gs) && !d.locked && d.attr.nonblock
    ensures ReceivePre(d, msgLen).Proceed? <==> msgLen >= ToSize(d.attr.msgsize) && gs != []
    ensures ReceivePre(d, msgLen).Proceed? ==>
      var q := ReceivePre(d, msgLen).q;
      q.locked && q.attr.curmsgs > 0 && Valid(q, gs)
  {
    HeadsAgree(d, gs);
    ValidLocked(d, gs, true);
  }

  /** `mq_send_pre` in non-blocking mode on a valid queue: it lets the
      caller through exactly when the message fits and the queue holds
      fewer than `mq_maxmsg` messages, so the send keeps the count within
      the limit. */
  lemma {:induction false} SendReady(d: Mqd, gs: seq<Group>, msgLen: Size)
    requires Valid(d, gs) && !d.locked && d.attr.nonblock
    ensures SendPre(d, msgLen).Proceed? <==>
      msgLen <= ToSize(d.attr.msgsize) && |Flatten(gs)| < d.attr.maxmsg
    ensures SendPre(d, msgLen).Proceed? ==>
      var q := SendPre(d, msgLen).q;
      q.locked && q.attr.curmsgs + 1 <= q.attr.maxmsg && Valid(q, gs)
  {
    ValidLocked(d, gs, true);
  }
}
