/** The message-queue engine of src/libc/mqueue/mqueue_impl.h.

    Messages live in an arena `heap` keyed by address; NULL is `None`. The
    descriptor's lock is a plain flag: the pre steps take it, the post steps
    release it. The `struct message **` cursors of the insertion loop are
    `Loc` values naming either a head field of the descriptor or a link
    field of a message. */
module MessageQueue {
  import opened Prelude

  /** Address of a message record. */
  type Id = nat

  /** `unsigned int` */
  type Prio = x: int | 0 <= x < 0x1_0000_0000

  /** `size_t` */
  type Size = x: int | 0 <= x < 0x1_0000_0000_0000_0000

  /** `struct message`: the body is the trailing `contents` array. */
  datatype Message = Message(
    nextReceive: Option<Id>,
    nextSend: Option<Id>,
    length: Size,
    priority: Prio,
    contents: seq<Byte>)

  /** `struct mq_attr`; `nonblock` is `(mq_flags & O_NONBLOCK) != 0`. The
      other fields are `long`. */
  datatype Attr = Attr(nonblock: bool, maxmsg: int, msgsize: int, curmsgs: int)

  /** `struct __mqd`, with the mutex reduced to whether it is held. */
  datatype Mqd = Mqd(
    locked: bool,
    attr: Attr,
    queueReceive: Option<Id>,
    queueSend: Option<Id>,
    heap: map<Id, Message>)

  /** The `(size_t)` conversion of a `long`: reduction modulo 2^64, so a
      negative value becomes a huge one. */
  function ToSize(x: int): (r: Size)
    ensures 0 <= x < 0x1_0000_0000_0000_0000 ==> r == x
    ensures x < 0 && -0x1_0000_0000_0000_0000 <= x ==> r == x + 0x1_0000_0000_0000_0000
  {
    x % 0x1_0000_0000_0000_0000
  }

  datatype Errno = EMSGSIZE | EAGAIN

  /** Result of a pre step: `true` with the lock held (`Proceed`), or
      `false` with `errno` set and the lock released (`Fail`). */
  datatype Pre = Proceed(q: Mqd) | Fail(errno: Errno, q: Mqd)

  /** `mq_receive_pre`: the buffer must hold a message of the size
      attribute, whatever the queued messages' real lengths; an empty queue
      fails only in non-blocking mode. */
  function ReceivePre(d: Mqd, msgLen: Size): (r: Pre)
    requires !d.locked
    ensures r.Fail? && r.errno == EMSGSIZE <==> msgLen < ToSize(d.attr.msgsize)
    ensures r.Fail? && r.errno == EAGAIN <==>
      !(msgLen < ToSize(d.attr.msgsize)) && d.attr.curmsgs <= 0 && d.attr.nonblock
    ensures r.q == d.(locked := r.Proceed?)
  {
    var q := d.(locked := true);
    if msgLen < ToSize(q.attr.msgsize) then Fail(EMSGSIZE, q.(locked := false))
    else if q.attr.curmsgs <= 0 && q.attr.nonblock then Fail(EAGAIN, q.(locked := false))
    else Proceed(q)
  }

  /** `mq_send_pre`: the size check comes first; a full queue fails only in
      non-blocking mode. */
  function SendPre(d: Mqd, msgLen: Size): (r: Pre)
    requires !d.locked
    ensures r.Fail? && r.errno == EMSGSIZE <==> msgLen > ToSize(d.attr.msgsize)
    ensures r.Fail? && r.errno == EAGAIN <==>
      !(msgLen > ToSize(d.attr.msgsize)) && d.attr.curmsgs >= d.attr.maxmsg && d.attr.nonblock
    ensures r.q == d.(locked := r.Proceed?)
  {
    var q := d.(locked := true);
    if msgLen > ToSize(q.attr.msgsize) then Fail(EMSGSIZE, q.(locked := false))
    else if q.attr.curmsgs >= q.attr.maxmsg && q.attr.nonblock then Fail(EAGAIN, q.(locked := false))
    else Proceed(q)
  }

  /** A `struct message *` variable's address: one of the descriptor's two
      heads, or a link field of a message. */
  datatype Loc = QueueReceive | QueueSend | NextReceive(node: Id) | NextSend(node: Id)

  /** The location can be dereferenced: a link field of an allocated
      message, or a head field. */
  predicate Addressable(d: Mqd, l: Loc)
  {
    match l
    case NextReceive(n) => n in d.heap
    case NextSend(n) => n in d.heap
    case _ => true
  }

  /** `*l`. Every dereference in the engine is of an addressable
      location; reading an unallocated record's link as NULL only keeps
      this function total. */
  function Load(d: Mqd, l: Loc): (r: Option<Id>)
    ensures !Addressable(d, l) ==> r.None?
    ensures r.Some? && (l.NextReceive? || l.NextSend?) ==> l.node in d.heap
  {
    match l
    case QueueReceive => d.queueReceive
    case QueueSend => d.queueSend
    case NextReceive(n) => if n in d.heap then d.heap[n].nextReceive else None
    case NextSend(n) => if n in d.heap then d.heap[n].nextSend else None
  }

  /** `*l = v`: only the one location changes. */
  function Store(d: Mqd, l: Loc, v: Option<Id>): (r: Mqd)
    requires Addressable(d, l)
    ensures r.heap.Keys == d.heap.Keys && r.attr == d.attr && r.locked == d.locked
    ensures Load(r, l) == v
    ensures forall l' :: l' != l ==> Load(r, l') == Load(d, l')
    ensures forall x :: x in d.heap ==>
      && r.heap[x].priority == d.heap[x].priority
      && r.heap[x].length == d.heap[x].length
      && r.heap[x].contents == d.heap[x].contents
  {
    match l
    case QueueReceive => d.(queueReceive := v)
    case QueueSend => d.(queueSend := v)
    case NextReceive(n) => d.(heap := d.heap[n := d.heap[n].(nextReceive := v)])
    case NextSend(n) => d.(heap := d.heap[n := d.heap[n].(nextSend := v)])
  }

  /** Where the insertion loop stopped: behind the last message `tail` of
      the same priority, whose skip-list pointer lives at `at`; or in front
      of the first lower priority, with the two cursors `recv` and `send`;
      or nowhere, because a skip-list pointer dangled or led back to a
      message already passed (the C loop would fault or never end). */
  datatype Spot = SameGroup(at: Loc, tail: Id) | NewGroup(recv: Loc, send: Loc) | Stuck

  predicate SpotOk(d: Mqd, s: Spot)
  {
    match s
    case SameGroup(at, tail) => Addressable(d, at) && tail in d.heap
    case NewGroup(recv, send) => Addressable(d, recv) && Addressable(d, send)
    case Stuck => true
  }

  /** The loop of lines 127-147. `visited` holds the messages already
      passed; it only serves to show that the walk ends. */
  function Scan(d: Mqd, mReceive: Loc, mSend: Loc, prio: Prio, visited: set<Id>): (r: Spot)
    requires Addressable(d, mReceive) && Addressable(d, mSend)
    ensures SpotOk(d, r)
    decreases d.heap.Keys - visited
  {
    match Load(d, mSend)
    case None => NewGroup(mReceive, mSend)
    case Some(s) =>
      if s !in d.heap || s in visited then Stuck
      else if d.heap[s].priority <= prio then
        if d.heap[s].priority == prio then SameGroup(mSend, s)
        else NewGroup(mReceive, mSend)
      else Scan(d, NextReceive(s), NextSend(s), prio, visited + {s})
  }

  /** `*field = *cursor; *cursor = m`: the new message `m` takes over
      what the cursor pointed to, through its link `field`, and the cursor
      then points to `m`. */
  function LinkBehind(d: Mqd, cursor: Loc, field: Loc, m: Id): (r: Mqd)
    requires Addressable(d, cursor) && Addressable(d, field)
    ensures r.heap.Keys == d.heap.Keys && r.attr == d.attr && r.locked == d.locked
    ensures Load(r, cursor) == Some(m)
    ensures cursor != field ==> Load(r, field) == Load(d, cursor)
    ensures forall l :: l != cursor && l != field ==> Load(r, l) == Load(d, l)
    ensures forall x :: x in d.heap ==>
      && r.heap[x].priority == d.heap[x].priority
      && r.heap[x].length == d.heap[x].length
      && r.heap[x].contents == d.heap[x].contents
  {
    Store(Store(d, field, Load(d, cursor)), cursor, Some(m))
  }

  /** The pointer surgery of lines 136-139 (`SameGroup`) or 151-154
      (`NewGroup`), store by store, for the new message `m`. */
  function Splice(d: Mqd, m: Id, s: Spot): (r: Mqd)
    requires m in d.heap && SpotOk(d, s) && !s.Stuck?
    ensures r.heap.Keys == d.heap.Keys && r.attr == d.attr && r.locked == d.locked
    ensures forall x :: x in d.heap ==>
      && r.heap[x].priority == d.heap[x].priority
      && r.heap[x].length == d.heap[x].length
      && r.heap[x].contents == d.heap[x].contents
  {
    match s
    case SameGroup(at, tail) =>
      var d1 := Store(d, NextReceive(m), Load(d, NextReceive(tail)));
      var d2 := Store(d1, NextSend(m), Load(d1, NextSend(tail)));
      var d3 := Store(d2, NextReceive(tail), Some(m));
      Store(d3, at, Some(m))
    case NewGroup(recv, send) =>
      LinkBehind(LinkBehind(d, recv, NextReceive(m), m), send, NextSend(m), m)
  }

  /** Lines 125-154: find the spot for a message of priority `prio` and
      link the allocated record `m` in there. Only link fields change;
      `None` when the scan gets stuck. */
  function Insert(d: Mqd, m: Id, prio: Prio): (r: Option<Mqd>)
    requires m in d.heap
    ensures r.Some? ==> r.value.heap.Keys == d.heap.Keys && r.value.attr == d.attr
    ensures r.Some? ==> r.value.locked == d.locked
    ensures r.Some? ==> forall x :: x in d.heap ==>
      && r.value.heap[x].priority == d.heap[x].priority
      && r.value.heap[x].length == d.heap[x].length
      && r.value.heap[x].contents == d.heap[x].contents
  {
    var spot := Scan(d, QueueReceive, QueueSend, prio, {});
    if spot.Stuck? then None else Some(Splice(d, m, spot))
  }

  /** What a post step leaves behind: the return value and the descriptor. */
  datatype Sent = Sent(status: int, q: Mqd)

  /** `mq_send_post` as written. `alloc` is the result of `malloc` (`None`
      when it fails; otherwise fresh memory). Lines 122-123 set only the
      length and the body, so the new record's `priority` is whatever the
      memory held: the parameter `stale`. The result is `None` when the
      loop would not come back (a corrupted skip list). */
  function SendPostAsWritten(d: Mqd, payload: seq<Byte>, prio: Prio, alloc: Option<Id>, stale: Prio): (r: Option<Sent>)
    requires d.locked && |payload| < 0x1_0000_0000_0000_0000
    requires alloc.Some? ==> alloc.value !in d.heap
    ensures alloc.None? ==> r == Some(Sent(-1, d.(locked := false)))
    ensures r.Some? && alloc.Some? ==>
      var q := r.value.q;
      && r.value.status == 0
      && !q.locked
      && q.attr == d.attr.(curmsgs := d.attr.curmsgs + 1)
      && q.heap.Keys == d.heap.Keys + {alloc.value}
      && q.heap[alloc.value].contents == payload
      && q.heap[alloc.value].length == |payload|
      && q.heap[alloc.value].priority == stale
      && forall x :: x in d.heap ==>
        && q.heap[x].priority == d.heap[x].priority
        && q.heap[x].length == d.heap[x].length
        && q.heap[x].contents == d.heap[x].contents
  {
    match alloc
    case None => Some(Sent(-1, d.(locked := false)))
    case Some(m) =>
      // The link fields are assigned on both paths before they are read.
      var d1 := d.(heap := d.heap[m := Message(None, None, |payload|, stale, payload)]);
      match Insert(d1, m, prio)
      case None => None
      case Some(d2) =>
        Some(Sent(0, d2.(attr := d2.attr.(curmsgs := d2.attr.curmsgs + 1), locked := false)))
  }

  /** `mq_send_post` with the priority stored into the new record. */
  function SendPost(d: Mqd, payload: seq<Byte>, prio: Prio, alloc: Option<Id>): (r: Option<Sent>)
    requires d.locked && |payload| < 0x1_0000_0000_0000_0000
    requires alloc.Some? ==> alloc.value !in d.heap
    ensures alloc.None? ==> r == Some(Sent(-1, d.(locked := false)))
    ensures r.Some? && alloc.Some? ==>
      var q := r.value.q;
      && r.value.status == 0
      && !q.locked
      && q.attr == d.attr.(curmsgs := d.attr.curmsgs + 1)
      && q.heap.Keys == d.heap.Keys + {alloc.value}
      && q.heap[alloc.value].contents == payload
      && q.heap[alloc.value].length == |payload|
      && q.heap[alloc.value].priority == prio
      && forall x :: x in d.heap ==>
        && q.heap[x].priority == d.heap[x].priority
        && q.heap[x].length == d.heap[x].length
        && q.heap[x].contents == d.heap[x].contents
  {
    SendPostAsWritten(d, payload, prio, alloc, prio)
  }

  /** What `mq_receive_post` hands back: the descriptor, the returned
      length, the priority written through `msg_prio` (`None` when it is
      NULL) and the bytes copied to `msg_ptr`. */
  datatype Received = Received(q: Mqd, length: Size, prio: Option<Prio>, data: seq<Byte>)

  /** `mq_receive_post` as written: line 75 advances the head along the
      skip-list pointer `next_send`. */
  function ReceivePostAsWritten(d: Mqd, wantPrio: bool): (r: Received)
    requires d.locked && d.queueReceive.Some? && d.queueReceive.value in d.heap
    ensures r.q.queueReceive == d.heap[d.queueReceive.value].nextSend
    ensures var c := ReceivePost(d, wantPrio);
      r == c.(q := c.q.(queueReceive := d.heap[d.queueReceive.value].nextSend))
  {
    var m := d.queueReceive.value;
    var msg := d.heap[m];
    var q1 := d.(queueReceive := msg.nextSend, attr := d.attr.(curmsgs := d.attr.curmsgs - 1));
    var q2 := if q1.queueSend == Some(m) then q1.(queueSend := msg.nextSend) else q1;
    Received(q2.(locked := false, heap := q2.heap - {m}), msg.length,
             if wantPrio then Some(msg.priority) else None, msg.contents)
  }

  /** `mq_receive_post` advancing the head along `next_receive`, as the
      comments at lines 27-28 and 73 describe. */
  function ReceivePost(d: Mqd, wantPrio: bool): (r: Received)
    requires d.locked && d.queueReceive.Some? && d.queueReceive.value in d.heap
    ensures var m := d.queueReceive.value;
      && !r.q.locked
      && r.q.queueReceive == d.heap[m].nextReceive
      && r.q.heap == d.heap - {m}
      && r.q.attr == d.attr.(curmsgs := d.attr.curmsgs - 1)
      && r.length == d.heap[m].length
      && r.data == d.heap[m].contents
      && (r.prio.Some? <==> wantPrio)
      && (wantPrio ==> r.prio.value == d.heap[m].priority)
      && r.q.queueSend == (if d.queueSend == Some(m) then d.heap[m].nextSend else d.queueSend)
  {
    var m := d.queueReceive.value;
    var msg := d.heap[m];
    var q1 := d.(queueReceive := msg.nextReceive, attr := d.attr.(curmsgs := d.attr.curmsgs - 1));
    var q2 := if q1.queueSend == Some(m) then q1.(queueSend := msg.nextSend) else q1;
    Received(q2.(locked := false, heap := q2.heap - {m}), msg.length,
             if wantPrio then Some(msg.priority) else None, msg.contents)
  }
}
