/** The shape the engine keeps its messages in, described by an abstract
    list of priority groups: the receive list threads every message in
    extraction order, the send list threads the last message of each
    group, groups in strictly descending priority. */
module MessageQueueLayout {
  import opened Prelude
  import opened MessageQueue
  import opened PriorityQueueSpec

  /** The messages of one priority, oldest first. */
  datatype Group = Group(prio: Prio, ids: seq<Id>)

  /** The receive order: all groups one after the other. */
  function Flatten(gs: seq<Group>): seq<Id>
    decreases |gs|
  {
    if gs == [] then [] else gs[0].ids + Flatten(gs[1..])
  }

  function LastId(g: Group): Id
  {
    if g.ids == [] then 0 else g.ids[|g.ids| - 1]
  }

  /** The send order: the last message of each group. */
  function Tails(gs: seq<Group>): (t: seq<Id>)
    ensures |t| == |gs|
    ensures forall k :: 0 <= k < |gs| ==> t[k] == LastId(gs[k])
    decreases |gs|
  {
    if gs == [] then [] else [LastId(gs[0])] + Tails(gs[1..])
  }

  /** Element `i` as a pointer: NULL past the end. */
  function At(s: seq<Id>, i: int): Option<Id>
  {
    if 0 <= i < |s| then Some(s[i]) else None
  }

  predicate Distinct(s: seq<Id>)
  {
    forall i, j :: 0 <= i < j < |s| ==> s[i] != s[j]
  }

  /** The head field and the link fields of one of the two lists. */
  function Head(send: bool): Loc
  {
    if send then QueueSend else QueueReceive
  }

  function Link(x: Id, send: bool): Loc
  {
    if send then NextSend(x) else NextReceive(x)
  }

  /** Following the head and then the links visits exactly `ids`, then
      reaches NULL. */
  predicate Chain(d: Mqd, send: bool, ids: seq<Id>)
  {
    && Load(d, Head(send)) == At(ids, 0)
    && (forall i :: 0 <= i < |ids| ==> ids[i] in d.heap)
    && (forall i {:trigger Link(ids[i], send)} :: 0 <= i < |ids| ==>
          Load(d, Link(ids[i], send)) == At(ids, i + 1))
  }

  /** Groups are non-empty and in strictly descending priority. */
  predicate GroupsOk(gs: seq<Group>)
  {
    && (forall k :: 0 <= k < |gs| ==> gs[k].ids != [])
    && (forall k, l :: 0 <= k < l < |gs| ==> gs[k].prio > gs[l].prio)
  }

  /** Every message of a group is allocated and carries the group's
      priority. */
  predicate Priorities(d: Mqd, gs: seq<Group>)
  {
    forall k, x :: 0 <= k < |gs| && x in gs[k].ids ==>
      x in d.heap && d.heap[x].priority == gs[k].prio
  }

  /** The pointer structure matches `gs`; the heap may hold other
      records. */
  predicate Layout(d: Mqd, gs: seq<Group>)
  {
    && GroupsOk(gs)
    && Distinct(Flatten(gs))
    && Distinct(Tails(gs))
    && Priorities(d, gs)
    && Chain(d, false, Flatten(gs))
    && Chain(d, true, Tails(gs))
  }

  /** The invariant the operations keep: the layout, no other records,
      each length matches its body, and `mq_curmsgs` counts the
      messages. */
  predicate Valid(d: Mqd, gs: seq<Group>)
  {
    && Layout(d, gs)
    && (forall x :: x in d.heap ==> x in Flatten(gs))
    && (forall x :: x in d.heap ==> d.heap[x].length == |d.heap[x].contents|)
    && d.attr.curmsgs == |Flatten(gs)|
  }

  function EntryOf(h: map<Id, Message>, x: Id): Entry
  {
    if x in h then Entry(h[x].priority, h[x].contents) else Entry(0, [])
  }

  /** The queue as a receiver sees it. */
  function View(h: map<Id, Message>, ids: seq<Id>): (v: seq<Entry>)
    ensures |v| == |ids|
    ensures forall i :: 0 <= i < |ids| ==> v[i] == EntryOf(h, ids[i])
  {
    seq(|ids|, i requires 0 <= i < |ids| => EntryOf(h, ids[i]))
  }

  /** How many leading groups have a priority above `prio`: where the
      insertion loop stops. */
  function FirstAtMost(gs: seq<Group>, prio: Prio): (k: nat)
    ensures k <= |gs|
    ensures forall l :: 0 <= l < k ==> gs[l].prio > prio
    ensures k < |gs| ==> gs[k].prio <= prio
    decreases |gs|
  {
    if gs == [] || gs[0].prio <= prio then 0 else 1 + FirstAtMost(gs[1..], prio)
  }

  /** The groups after sending message `m` at `prio`. */
  function InsertGroups(gs: seq<Group>, prio: Prio, m: Id): seq<Group>
  {
    var k := FirstAtMost(gs, prio);
    if k < |gs| && gs[k].prio == prio then gs[k := Group(prio, gs[k].ids + [m])]
    else gs[..k] + [Group(prio, [m])] + gs[k..]
  }

  /** The groups after receiving the head message. */
  function PopGroups(gs: seq<Group>): seq<Group>
    requires gs != [] && gs[0].ids != []
  {
    if |gs[0].ids| == 1 then gs[1..] else [Group(gs[0].prio, gs[0].ids[1..])] + gs[1..]
  }

  /** The receive cursor after passing `k` groups whose tails are `T`. */
  function RecvCursor(T: seq<Id>, k: nat): Loc
    requires k <= |T|
  {
    if k == 0 then QueueReceive else NextReceive(T[k - 1])
  }

  /** The send cursor after passing `k` groups whose tails are `T`. */
  function SendCursor(T: seq<Id>, k: nat): Loc
    requires k <= |T|
  {
    if k == 0 then QueueSend else NextSend(T[k - 1])
  }

  /** Where the insertion loop should stop for `prio`, given the groups
      and their tails `T`. */
  function ExpectedSpot(gs: seq<Group>, T: seq<Id>, prio: Prio): Spot
    requires |T| == |gs|
  {
    var k := FirstAtMost(gs, prio);
    if k < |gs| && gs[k].prio == prio then SameGroup(SendCursor(T, k), T[k])
    else NewGroup(RecvCursor(T, k), SendCursor(T, k))
  }
}
