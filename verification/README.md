# CloudLibc message queues, `tsearch` and `strcat` in Dafny

This project models three sequential pieces of CloudLibc and proves what
their comments and callers rely on.

- **The POSIX message-queue engine** (`src/libc/mqueue/mqueue_impl.h`).
  It has four lock-bracketed steps: `mq_receive_pre`, `mq_receive_post`,
  `mq_send_pre` and `mq_send_post`.
  - Messages are `struct message` records kept in an arena
    (`map<Id, Message>`); NULL is `None`.
  - The receive list runs through `next_receive` from `queue_receive`.
  - The skip list links, through `next_send` from `queue_send`, the last
    message of each priority, highest priority first.
  - The `struct message **` cursors of the insertion loop are values of
    `MessageQueue.Loc`: a head field of the descriptor or a link field of
    a message.
  - Each step is a pure function from descriptor to descriptor.
- **The abstract view of a queue.**
  - `MessageQueueLayout` describes a queue as a sequence of priority
    groups. `Valid` is the invariant tying the two lists to those groups.
  - `PriorityQueueSpec` is the queue the engine is meant to be: a sorted
    sequence of entries, where `Enqueue` inserts behind all entries of
    equal or higher priority.
  - The send and receive proofs show that the corrected post steps keep
    `Valid` and act on the view exactly as `Enqueue` and `Dequeue` do.
- **Non-recursive AVL insertion** (`src/libc/search/tsearch.c`).
  - The tree is a functional `Tree`; a child pointer is named by its path
    from the root (`true` = left).
  - `*base` is the depth of the last unbalanced node on the search path.
  - The returned key slot is the path of the new node in the final tree.
  - The search loop, the balance walk and the four rotations are separate
    functions that follow the C code branch for branch.
- **`__cloudlibc_strcat`** (`src/libc/string/strcat.c`).
  - A method over one flat byte memory, with `s1` and `s2` as offsets
    into it. This lets the `restrict` non-overlap and the returned pointer
    be stated.
  - Each of the two C loops is a method with its own loop invariants.

Two lines of `mqueue_impl.h` do not do what the header's comments describe.
Each is modelled as written (`SendPostAsWritten`, `ReceivePostAsWritten`),
with a concrete trace, proved as a lemma, showing the effect. The corrected versions
(`SendPost`, `ReceivePost`) are the ones the correctness proofs are about
(see Findings).

## Model

| member | source | states |
|---|---|---|
| StrCat.StrLen | src/libc/string/strcat.c:12-13 | the length of a terminated string is the distance to its first NUL: the byte there is 0 and every byte before it is not |
| StrCat.StrLenIs | src/libc/string/strcat.c:12-13 | any position holding the first NUL after `p` gives the string length, so `StrLen` is the one count the terminator search can produce |
| StrCat.FindEnd | src/libc/string/strcat.c:11-13 | the first loop stops exactly at `s1 + strlen(s1)` |
| StrCat.CopyString | src/libc/string/strcat.c:14-18 | the second loop writes `s2[0..len2]`, terminator included, to `s` onwards, and leaves every other byte of memory unchanged, provided the source lies outside the written range |
| StrCat.ConcatLen | src/libc/string/strcat.c:14-17 | once the copy sits behind the first string, the result is terminated and its length is `len1 + len2` |
| StrCat.Strcat | src/libc/string/strcat.c:10-19 | returns `s1`; bytes `len1..len1+len2` of `s1` are `s2[0..len2]` (terminator included); every other byte of memory, `s2` included, is unchanged; the result has length `len1 + len2`; requires both strings terminated, non-overlapping and room for `len1 + len2 + 1` bytes |
| AvlTree.BstIffIncreasing | src/libc/search/tsearch.c:40-46 | the order the comparisons rely on (smaller keys to the left) holds exactly when the in-order key sequence is strictly increasing |
| AvlTree.ReplaceAvl | src/libc/search/tsearch.c:74-76 | replacing the base subtree by an AVL subtree of the same height keeps the whole tree AVL at the same height, so nothing above the base needs adjusting |
| TSearch.Descend | src/libc/search/tsearch.c:28-50 | the loop only extends the path walked so far; the steps it adds form a search path (every node passed holds a different key and the step goes left exactly when `key` is smaller) ending at a node holding `key` on a hit and at an empty slot on a miss |
| TSearch.Find | src/libc/search/tsearch.c:25-50 | from the root, a hit path leads to a node holding `key`; a miss path ends in an empty slot, and the base it reports is the deepest unbalanced node on the path (or the root), with only balanced nodes below it |
| TSearch.SearchFindsKey | src/libc/search/tsearch.c:25-50 | on a search tree the loop hits exactly when the key is present, at a node holding the key; on a miss it ends in an empty slot, the base is unbalanced (or is the root), and every node strictly between the base and the slot has balance 0 |
| TSearch.MissAbsent | src/libc/search/tsearch.c:40-50 | the comparisons reach an empty slot only for a key absent from the tree |
| TSearch.GraftKeys | src/libc/search/tsearch.c:53-59 | linking the new node into the slot adds exactly `key` to the key set and keeps search-tree order |
| TSearch.Grow | src/libc/search/tsearch.c:61-72 | below the base every node on the path had balance 0, so after the balance walk the child subtree is AVL, one level higher, and leans towards the new node |
| TSearch.Adjust | src/libc/search/tsearch.c:61-72 | the balance walk keeps every key in its place (same shape) and so the in-order key sequence; only balance fields change, the first node on the path gaining 1 for a step left and losing 1 for a step right |
| TSearch.LinkAndAdjust | src/libc/search/tsearch.c:53-72 | after linking and the balance walk, the path below the base leads to the new leaf with balance 0, and the base subtree has the in-order sequence of a plain leaf insertion |
| TSearch.BasePath | src/libc/search/tsearch.c:53-72 | after linking and the balance walk, the path still leads to the new leaf node with balance 0 |
| TSearch.RotateLeftHeavy | src/libc/search/tsearch.c:77-113 | when the base has balance +2 and its left child leans, the LL or LR rotation, with its balance assignments, gives an AVL tree one level lower, with correct balance fields |
| TSearch.RotateRightHeavy | src/libc/search/tsearch.c:114-150 | the mirror RR and RL cases give an AVL tree one level lower, with correct balance fields |
| TSearch.Rotate | src/libc/search/tsearch.c:76-151 | every rotation case, and no rotation, keeps the in-order key sequence |
| TSearch.RotatedSlot | src/libc/search/tsearch.c:76-155 | the node at the given path of the base subtree, moved by the rotation, is found at the computed path with the same key, so the returned key slot is the new node's |
| TSearch.BaseInsert | src/libc/search/tsearch.c:61-151 | at the base, linking, adjusting and rotating give an AVL subtree that keeps its height when the base was unbalanced and grows by one only when it was balanced |
| TSearch.InsertFacts | src/libc/search/tsearch.c:53-155 | the full insertion gives an AVL tree whose in-order sequence is the old one with `key` in its slot: keys plus `key`, search order kept, height up by at most one, nothing above the base changed, the new node at the returned slot |
| TSearch.InsertAt | src/libc/search/tsearch.c:53-155 | the insertion result is AVL, at most one level higher, holds the old keys plus `key` in order, equals the old tree above the base, and has `key` at the returned slot |
| TSearch.TSearch | src/libc/search/tsearch.c:18-156 | NULL `rootp` gives NULL and no change; NULL is only ever returned with the tree unchanged, and on a search tree a failed `malloc` for an absent key does return NULL; with `malloc` succeeding the returned slot holds `key`, the keys are the old keys plus `key`, the tree stays AVL and a search tree, height up by at most one, and on a search tree an existing key is returned without allocating (whatever `malloc` would do) and leaves the tree unchanged |
| MessageQueue.ToSize | src/libc/mqueue/mqueue_impl.h:55 | the `(size_t)` conversion keeps a non-negative `long` and maps a negative one to itself plus 2^64 |
| MessageQueue.ReceivePre | src/libc/mqueue/mqueue_impl.h:50-68 | fails with EMSGSIZE exactly when the buffer is shorter than `mq_msgsize`, whatever the queued lengths; fails with EAGAIN exactly when the size check passes, the queue is empty and non-blocking mode is on; otherwise proceeds with the lock held; nothing but the lock changes |
| MessageQueue.SendPre | src/libc/mqueue/mqueue_impl.h:93-112 | fails with EMSGSIZE exactly when the message is longer than `mq_msgsize`, checked first; fails with EAGAIN exactly when the size check passes, the queue is full and non-blocking mode is on; otherwise proceeds with the lock held; nothing but the lock changes |
| MessageQueue.Load | src/libc/mqueue/mqueue_impl.h:127-147 | `*m_send` and the other dereferences read a head or a link field; a link of an unallocated record reads NULL, so a non-NULL link is read only from an allocated record |
| MessageQueue.Store | src/libc/mqueue/mqueue_impl.h:136-139 | a store through a `struct message **` changes that one location and no record's length, priority or body |
| MessageQueue.LinkBehind | src/libc/mqueue/mqueue_impl.h:151-154 | `*field = *cursor; *cursor = m` makes the cursor point to `m` and `m`'s field to the old target, touching no other location |
| MessageQueue.Scan | src/libc/mqueue/mqueue_impl.h:127-147 | the loop stops at a spot whose cursors can be dereferenced |
| MessageQueue.Splice | src/libc/mqueue/mqueue_impl.h:136-154 | the pointer surgery keeps the set of records and every record's length, priority and body |
| MessageQueue.Insert | src/libc/mqueue/mqueue_impl.h:125-154 | the scan plus splice changes link fields only |
| MessageQueue.SendPostAsWritten | src/libc/mqueue/mqueue_impl.h:114-161 | a failed `malloc` returns -1 with the queue unchanged and unlocked; on success it returns 0 and unlocks, `mq_curmsgs` goes up by one, exactly one record is added carrying the length and body, and its priority is the stale memory value, not `msg_prio`; every old record is kept |
| MessageQueue.SendPost | src/libc/mqueue/mqueue_impl.h:114-161 | a failed `malloc` returns -1 with the queue unchanged and unlocked; on success it returns 0 and unlocks, `mq_curmsgs` goes up by one, exactly one record is added carrying the length, body and `msg_prio`; every old record is kept |
| MessageQueue.ReceivePostAsWritten | src/libc/mqueue/mqueue_impl.h:70-91 | the new receive head is the old head's `next_send`; in every other respect (returned length, body and priority, freed record, count, `queue_send`, lock) the step is the same as `ReceivePost` |
| MessageQueue.ReceivePost | src/libc/mqueue/mqueue_impl.h:70-91 | the head record is freed; the new head is its `next_receive`; `mq_curmsgs` goes down by one; the length and body of the head are returned; the priority is written exactly when `msg_prio` is non-NULL; `queue_send` moves to the head's `next_send` when it pointed at the head and is kept otherwise; the lock is released |
| PriorityQueueSpec.Place | src/libc/mqueue/mqueue_impl.h:20-25 | the insertion point of a priority is behind every entry of at least that priority and in front of the first lower one |
| PriorityQueueSpec.EnqueueSorted | src/libc/mqueue/mqueue_impl.h:20-25 | on a sorted queue, enqueueing inserts at `Place` and keeps the queue sorted by non-increasing priority |
| PriorityQueueSpec.FilterEnqueue | src/libc/mqueue/mqueue_impl.h:20-25 | sending appends the entry to the entries of its own priority and leaves the other priorities' entries as they were (FIFO within a priority) |
| PriorityQueueSpec.SendAllOrdered | src/libc/mqueue/mqueue_impl.h:20-25 | after any sequence of sends the queue is sorted, and each priority's entries are exactly those sent at that priority, in sending order |
| PriorityQueueSpec.ExampleOrder | src/libc/mqueue/mqueue_impl.h:20-25 | A and B at priority 5, then C at priority 10, are received as C, A, B |
| MessageQueueLemmas.ScanFinds | src/libc/mqueue/mqueue_impl.h:127-147 | on a well-formed skip list the loop walks past exactly the groups of higher priority and stops behind the tail of the equal group, or in front of the first lower group; it never gets stuck |
| MessageQueueLemmas.SpliceSameGroup | src/libc/mqueue/mqueue_impl.h:136-139 | the four stores of the equal-priority case put `m` behind the old tail in the receive list and in its place in the skip list, changing no other location |
| MessageQueueLemmas.SpliceNewGroup | src/libc/mqueue/mqueue_impl.h:151-154 | the four stores of the new-priority case put `m` where both cursors pointed, changing no other location |
| MessageQueueProofs.EmptyValid | src/libc/mqueue/mqueue_impl.h:42-48 | a descriptor with both heads NULL, no records and `mq_curmsgs` 0 satisfies the invariant with no groups |
| MessageQueueProofs.HeadsAgree | src/libc/mqueue/mqueue_impl.h:27-32 | in a valid queue the two heads and `mq_curmsgs` agree on emptiness; `queue_send` is the last message of the highest priority and `queue_receive` the first |
| MessageQueueProofs.AheadNotLower | src/libc/mqueue/mqueue_impl.h:20-25 | a message ahead of another on the receive list has at least its priority |
| MessageQueueProofs.ValidSorted | src/libc/mqueue/mqueue_impl.h:20-25 | the receive list of a valid queue is sorted by non-increasing priority |
| MessageQueueProofs.ValidLocked | src/libc/mqueue/mqueue_impl.h:54 | taking or releasing the lock keeps the invariant |
| MessageQueueProofs.ReceiveReady | src/libc/mqueue/mqueue_impl.h:50-68 | in non-blocking mode on a valid queue, the pre step lets the caller through exactly when the buffer is large enough and a message is queued; then the lock is held and a head exists |
| MessageQueueProofs.SendReady | src/libc/mqueue/mqueue_impl.h:93-112 | in non-blocking mode on a valid queue, the pre step lets the caller through exactly when the message fits and fewer than `mq_maxmsg` are queued, so the send keeps the count within the limit |
| MessageQueueSendProof.SameLinks | src/libc/mqueue/mqueue_impl.h:129-141 | appending to an existing priority lays out both lists for the groups with `m` at the end of its group |
| MessageQueueSendProof.NewLinks | src/libc/mqueue/mqueue_impl.h:149-154 | a new priority lays out both lists for the groups with a new group `[m]` in front of the first lower priority |
| MessageQueueSendProof.InsertLinks | src/libc/mqueue/mqueue_impl.h:125-154 | on well-formed lists the scan never gets stuck, and the splice lays out both lists for the groups with `m` inserted |
| MessageQueueSendProof.ViewEnqueue | src/libc/mqueue/mqueue_impl.h:125-154 | the receive list after the insertion, read as entries, is the reference `Enqueue` of the new entry |
| MessageQueueSendProof.ValidInsert | src/libc/mqueue/mqueue_impl.h:156-160 | with both lists relinked and the count incremented, the invariant holds for the groups with `m` inserted |
| MessageQueueSendProof.SendPostCorrect | src/libc/mqueue/mqueue_impl.h:114-161 | on a valid locked queue a successful send returns 0, unlocks, keeps the invariant, and the receiver then sees the old queue with the new entry enqueued (priority order, FIFO within a priority) |
| MessageQueueReceiveProof.PopRecvChain | src/libc/mqueue/mqueue_impl.h:73-76 | advancing the head along `next_receive` and freeing the head leaves the receive list of the remaining messages |
| MessageQueueReceiveProof.PopSendChain | src/libc/mqueue/mqueue_impl.h:78-81 | moving `queue_send` only when the head was the last of its priority leaves the skip list of the remaining groups |
| MessageQueueReceiveProof.ValidPop | src/libc/mqueue/mqueue_impl.h:73-89 | taking the head and decrementing the count keeps the invariant for the groups minus their first message |
| MessageQueueReceiveProof.ViewPop | src/libc/mqueue/mqueue_impl.h:84-89 | freeing the head record drops exactly the first entry of the view |
| MessageQueueReceiveProof.ReceivePostCorrect | src/libc/mqueue/mqueue_impl.h:70-91 | on a valid locked queue with a message, the receive returns the head entry's body, length and priority (when asked) and leaves the reference `Dequeue` of the old view, still valid and unlocked |
| MessageQueueFindings.FirstSend | src/libc/mqueue/mqueue_impl.h:117-123 | the first send into an empty queue files the message under whatever priority the fresh memory held |
| MessageQueueFindings.StalePriorityAsWritten | src/libc/mqueue/mqueue_impl.h:117-123 | with message 1 filed at the stale priority 0 instead of 5, message 2 sent at priority 3 becomes the receive head |
| MessageQueueFindings.StoredPriorityKeepsOrder | src/libc/mqueue/mqueue_impl.h:129-154 | with the priority stored, message 1 at priority 5 stays ahead of message 2 sent at priority 3 |
| MessageQueueFindings.SecondSend | src/libc/mqueue/mqueue_impl.h:129-141 | a second message at the same priority goes behind the first; the first keeps `next_send` NULL and the skip list points at the second |
| MessageQueueFindings.ReceiveSkipsAsWritten | src/libc/mqueue/mqueue_impl.h:73-76 | receiving from that queue as written sets the head to NULL while `mq_curmsgs` is 1 and message 2 is still allocated: message 2 is lost |
| MessageQueueFindings.ReceiveAdvances | src/libc/mqueue/mqueue_impl.h:73-76 | advancing along `next_receive` makes message 2 the next head |

## Left out

- The mutex is a `locked` flag on the descriptor. The condition variable, the blocking wait and the `__trylocks_exclusive` / `__unlocks` annotations are concurrency and are not modelled.
- `malloc` is an `Option` parameter (`None` for failure, otherwise a fresh address). `memcpy` is a sequence copy and `free` is removal from the arena.
- `Load`: reading a link of an unallocated record yields NULL, which only keeps the function total. The proofs show every load the engine performs on a valid queue is of an allocated record.
- `MessageQueue.Scan`: a dangling or cyclic skip list (a crash or an endless loop in C) yields `Stuck`, and `Insert` then returns `None`. `ScanFinds` shows this cannot happen on a valid queue.
- `MessageQueue.Scan`: the bound of at most p iterations is not stated. The walk is shown to pass exactly the groups of higher priority, one group per step.
- `MessageQueueProofs.ReceiveReady` and `MessageQueueProofs.SendReady` cover non-blocking mode only. In blocking mode the size check still fails with EMSGSIZE; once it passes, blocking mode lets the caller through, as the functions' own contracts state.
- `mq_attr` fields are unbounded integers and the `long` of `mq_curmsgs` is not wrapped. The increment and decrement stay in range whenever the count stays within `mq_maxmsg`.
- `tsearch`'s `compar` callback is the integer order on `int` keys. The `search_impl.h` path helpers (`path_init`, `path_taking_left`, `path_took_left`) become a `seq<bool>` path. `search_impl.h` is not part of this model.
- `tsearch` returns the key slot of a node; the model returns that node's path in the final tree.
- `strcat` works on one flat memory with non-negative offsets. Memory outside the sequence and pointer arithmetic beyond it are not modelled.
- `__weak_reference(__cloudlibc_strcat, strcat)` is a linker alias with no behaviour.

## Findings

| source | as written | input that shows it | evidently intended | confidence | as-written member | corrected member |
|---|---|---|---|---|---|---|
| src/libc/mqueue/mqueue_impl.h:117-123 | the new record's `priority` is never assigned, so the scan and later sends see whatever the allocated memory held | message 1 sent at priority 5 into memory whose priority field holds 0, then message 2 sent at priority 3 into memory holding 3: message 2 is received first | `m->priority = msg_prio;` before the scan, so the queue stays ordered by priority | high (not executed) | MessageQueueFindings.StalePriorityAsWritten | MessageQueueSendProof.SendPostCorrect |
| src/libc/mqueue/mqueue_impl.h:75 | the head advances along `m->next_send`, the skip-list link | two messages sent at priority 5, then one receive: the head becomes NULL while `mq_curmsgs` is 1 and the second message is lost | `mqdes->queue_receive = m->next_receive;`, as the comments at lines 27-28 and 73 describe | high (not executed) | MessageQueueFindings.ReceiveSkipsAsWritten | MessageQueueReceiveProof.ReceivePostCorrect |
