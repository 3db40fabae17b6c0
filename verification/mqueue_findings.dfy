/** Two places where `mqueue_impl.h` departs from what its comments and
    its callers rely on, each shown on a concrete queue, next to the
    corrected step the rest of the model uses. */
module MessageQueueFindings {
  import opened Prelude
  import opened MessageQueue

  /** A queue of up to ten messages of up to eight bytes, blocking mode. */
  const attr := Attr(false, 10, 8, 0)

  /** The freshly opened queue, with the lock held by a sender. */
  const empty := Mqd(true, attr, None, None, map[])

  /** The queue holding message 1 (body `[1]`) filed at priority `p`. */
  function One(p: Prio): Mqd
  {
    Mqd(true, attr.(curmsgs := 1), Some(1), Some(1), map[1 := Message(None, None, 1, p, [1])])
  }

  /** Sending message 1 at priority 5 into the empty queue, where the new
      record's priority field holds `stale`. */
  lemma {:induction false} FirstSend(stale: Prio)
    ensures SendPostAsWritten(empty, [1], 5, Some(1), stale) == Some(Sent(0, One(stale).(locked := false)))
  {
    var d1 := empty.(heap := map[1 := Message(None, None, 1, stale, [1])]);
    assert Scan(d1, QueueReceive, QueueSend, 5, {}) == NewGroup(QueueReceive, QueueSend);
    var e1 := LinkBehind(d1, QueueReceive, NextReceive(1), 1);
    assert e1 == d1.(queueReceive := Some(1));
    var e2 := LinkBehind(e1, QueueSend, NextSend(1), 1);
    assert e2 == e1.(queueSend := Some(1));
    assert Insert(d1, 1, 5) == Some(e2);
  }

  // ----- mq_send_post does not store the priority

  /** Lines 117-123 never store `msg_prio` into the new record. When the
      memory `malloc` hands out holds 0 where the priority goes, message 1
      sent at priority 5 is filed at priority 0 (`FirstSend(0)`), and
      message 2 sent at priority 3 then goes in front of it: it is
      received first. */
  lemma {:induction false} StalePriorityAsWritten()
    ensures One(0).heap[1].priority == 0
    ensures var r := SendPostAsWritten(One(0), [2], 3, Some(2), 3);
      r.Some? && r.value.q.queueReceive == Some(2)
  {
    var d2 := One(0).(heap := One(0).heap[2 := Message(None, None, 1, 3, [2])]);
    assert Scan(d2, QueueReceive, QueueSend, 3, {}) == NewGroup(QueueReceive, QueueSend);
    var e1 := LinkBehind(d2, QueueReceive, NextReceive(2), 2);
    var e2 := LinkBehind(e1, QueueSend, NextSend(2), 2);
    assert Insert(d2, 2, 3) == Some(e2);
  }

  /** With the priority stored, message 1 stays ahead of message 2. */
  lemma {:induction false} StoredPriorityKeepsOrder()
    ensures var r := SendPost(One(5), [2], 3, Some(2));
      r.Some? && r.value.q.queueReceive == Some(1)
  {
    var d2 := One(5).(heap := One(5).heap[2 := Message(None, None, 1, 3, [2])]);
    assert Scan(d2, NextReceive(1), NextSend(1), 3, {1}) == NewGroup(NextReceive(1), NextSend(1));
    assert Scan(d2, QueueReceive, QueueSend, 3, {}) == NewGroup(NextReceive(1), NextSend(1));
    var e1 := LinkBehind(d2, NextReceive(1), NextReceive(2), 2);
    assert Load(e1, QueueReceive) == Some(1);
    var e2 := LinkBehind(e1, NextSend(1), NextSend(2), 2);
    assert Load(e2, QueueReceive) == Some(1);
    assert Insert(d2, 2, 3) == Some(e2);
  }

  // ----- mq_receive_post advances along the wrong link

  /** The queue holding message 1, then message 2, both at priority 5:
      message 2 is the last of its priority, so message 1's `next_send`
      is NULL. */
  const twoQueued := Mqd(true, attr.(curmsgs := 2), Some(1), Some(2),
    map[1 := Message(Some(2), None, 1, 5, [1]), 2 := Message(None, None, 1, 5, [2])])

  /** A second send at priority 5 builds `twoQueued`. */
  lemma {:induction false} SecondSend()
    ensures SendPost(One(5), [2], 5, Some(2)) == Some(Sent(0, twoQueued.(locked := false)))
  {
    var d2 := One(5).(heap := One(5).heap[2 := Message(None, None, 1, 5, [2])]);
    assert Scan(d2, QueueReceive, QueueSend, 5, {}) == SameGroup(QueueSend, 1);
    var e1 := Store(d2, NextReceive(2), None);
    assert e1 == d2;
    var e2 := Store(e1, NextSend(2), None);
    assert e2 == d2;
    var e3 := Store(e2, NextReceive(1), Some(2));
    assert e3 == d2.(heap := twoQueued.heap);
    var e4 := Store(e3, QueueSend, Some(2));
    assert e4 == e3.(queueSend := Some(2));
    assert Insert(d2, 2, 5) == Some(e4);
  }

  /** Line 75 advances the head along `next_send`. Message 1 is not the
      last of its priority, so its `next_send` is NULL: after the first
      receive the head is NULL while the count still says one message is
      queued, and message 2 is never received. */
  lemma {:induction false} ReceiveSkipsAsWritten()
    ensures var r := ReceivePostAsWritten(twoQueued, false);
      r.q.queueReceive.None? && r.q.attr.curmsgs == 1 && 2 in r.q.heap
  {
  }

  /** Advancing along `next_receive` hands out message 2 next. */
  lemma {:induction false} ReceiveAdvances()
    ensures var r := ReceivePost(twoQueued, false);
      r.q.queueReceive == Some(2) && r.q.attr.curmsgs == 1 && 2 in r.q.heap
  {
  }
}
