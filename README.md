# A Dafny model of messageQx, static_linked_listx and simple_hashx

This project models three independent C components. Each model states
what its operations compute and proves it.

- **The shared-memory message queue (messageQx.c).** A queue `name` consists of four named kernel objects:
  - a receive semaphore `has_msg`
  - a send semaphore `has_slot`
  - a mutex semaphore
  - a shared-memory segment holding a header `{msg_size, qlen, first, msg_cnt}` and `qlen` message slots used as a ring buffer

  The model covers:
  - object naming (`MsgqNaming`)
  - the two timespec helpers (`MsgqTime`)
  - the ring buffer in the segment (`MsgqRing`, class `MsgQueue`)
  - send and receive over semaphores modelled as counters in one sequential trace (`MsgqProtocol`, classes `Semaphore` and `Handle`)
  - create, open, close and destroy over a namespace of named objects (`MsgqLifecycle`, class `Namespace`)

  Send and receive are proved to keep the counter invariant:
  - `has_slot + has_msg == qlen`
  - `has_msg == msg_cnt`
  - the mutex is free

  The six public wrappers `msgqx_send`, `msgqx_trysend`, `msgqx_timedsend`, `msgqx_receive`, `msgqx_tryreceive` and `msgqx_timedreceive` are `Send` and `Receive` with the wait mode fixed to blocking, try or timed.
- **The array-backed doubly linked list (static_linked_listx.c, `StaticLinkedList`).** One array of items and one array of link records are threaded into two lists:
  - a data list (`head`..`tail`)
  - a free list (`empty_head`..`empty_tail`)

  The arrays grow by chunks of 128 slots. The invariant `Valid` states that:
  - the two lists are disjoint, acyclic and without repetition
  - together they cover every slot
  - they are linked as the bookkeeping fields say
  - a slot is flagged as holding data exactly when it is in the data list

  `Data` and `FreeSlots` are the lists reached by following `next` from `head` and from `empty_head`.
- **The chained hash table (simple_hashx.c, `SimpleHash`, class `Table`).** The table has `len` bucket chains plus an all-items list, all newest first. The invariant `Valid` says that every bucket holds exactly the entries of the all-items list that fall into it, in the same order. Lookups and removals act on the newest entry with a key, so a save hides an older entry with the same key and a remove reveals it again.

`CLang` collects the C behaviour the models share: bytes, zero-filled memory, and division and remainder that truncate toward zero. `Wrappers` holds `Option`.

## Model

| member | source | states |
|---|---|---|
| CLang.CDiv | messageQx.c:329 | C's `/` truncates: for a non-negative dividend it is the floor quotient, for a negative one it is at most 0 |
| CLang.CMod | messageQx.c:330 | C's `%`: quotient times divisor plus remainder gives back the dividend; the remainder has the dividend's sign and is smaller than the divisor in magnitude |
| MsgqNaming.ObjName | messageQx.c:62-89 | the object name is `[/]MSGQXPPRE_<postfix>_<name>`: its length, that it ends in the queue name, that the postfix character `r`/`s`/`m`/`q` of the kind precedes it, and that it starts with `/` exactly for the shared-memory kind |
| MsgqNaming.ObjNamesDistinct | messageQx.c:62-89 | the four objects of one queue have pairwise distinct names |
| MsgqNaming.ObjNameInjective | messageQx.c:62-89 | two (queue name, kind) pairs never yield the same object name |
| MsgqNaming.FitsNameBufferIff | messageQx.c:60-89 | every object name of a queue, with its NUL, fits the 64-byte name buffer exactly when the queue name has at most 50 characters |
| MsgqTime.Timespec.Add | messageQx.c:337-350 | a total of at most 0 ns leaves the timespec unchanged; otherwise the timespec holds the total with `0 <= tv_nsec < 1e9` |
| MsgqTime.TimeDiff | messageQx.c:320-333 | returns 1 exactly when end is before start; `sec * 1e9 + nsec` equals the difference, with truncating division giving the signs and bounds of both parts |
| MsgqTime.NextBudgetAsWritten | messageQx.c:371-377 | as written, the budget the mutex wait of a timed send or receive gets is the time the first wait took, whatever the caller's budget |
| MsgqTime.NextBudgetAsWrittenOverruns | messageQx.c:441-445 | as written, a one-second budget whose first wait takes 0.9 s lets the two waits take 1.8 s in all |
| MsgqTime.NextBudget | messageQx.c:441-445 | the corrected budget of the mutex wait: with the first wait's time it adds up to the caller's budget, and lies within it when the first wait did |
| MsgqRing.RingViewPut | messageQx.c:412-429 | writing slot `(first + cnt) % qlen` of a ring that is not full appends the message to the queued sequence |
| MsgqRing.RingViewGet | messageQx.c:482-500 | the oldest queued message is slot `first`, and advancing `first` modulo `qlen` drops exactly that message |
| MsgqRing.MsgQueue.Map | messageQx.c:174-181 | a freshly mapped segment reads as zeros: header fields 0 and every slot zero bytes |
| MsgqRing.MsgQueue.Init | messageQx.c:100-107 | the header records size and length with `first = msg_cnt = 0`; the queue is valid and empty |
| MsgqRing.MsgQueue.PutMsg | messageQx.c:412-429 | a full queue returns 2 and changes nothing; otherwise slot `(first + msg_cnt) % qlen` gets the message, no other slot or `first` changes, `msg_cnt` grows by 1, and the contents gain the message at the end |
| MsgqRing.MsgQueue.GetMsg | messageQx.c:482-500 | an empty queue returns 2 and changes nothing; otherwise it returns slot `first`, the oldest message; `first` advances modulo `qlen`, `msg_cnt` drops by 1, and the contents lose their first message |
| MsgqProtocol.WaitCode | messageQx.c:358-394 | 0 exactly when the wait finds a token and no fault; 4 exactly for a try-wait on 0; 5 exactly for a timed wait on 0; 3 otherwise |
| MsgqProtocol.Semaphore.constructor | messageQx.c:114-130 | a new semaphore holds the initial value |
| MsgqProtocol.Semaphore.Wait | messageQx.c:358-394 | returns `WaitCode`; on success the count drops by 1, otherwise it is unchanged |
| MsgqProtocol.Semaphore.Post | messageQx.c:400-409 | returns 1 on a fault and changes nothing, otherwise 0 and the count grows by 1 |
| MsgqProtocol.Handle.constructor | messageQx.c:91-98 | a new handle has no semaphores, no mapping and descriptor -1 |
| MsgqProtocol.ArgsValid | messageQx.c:299-310 | `_msgqx_param_check` passes only for a handle and a buffer, with the mapping and all three semaphores among the handle's objects |
| MsgqProtocol.Send | messageQx.c:432-464 | code 1, changing nothing, when `_msgqx_param_check` fails; a failed slot wait returns its code with nothing changed; a failed mutex wait returns its code and keeps the slot token; then 2 on a full ring, else the message is appended and the codes 7/6/0 report the two posts. From a consistent state, 2 never happens, a fault-free send keeps the counter invariant, and a try-send on a full queue returns 4 |
| MsgqProtocol.Receive | messageQx.c:504-536 | the mirror image of `Send`: on success the oldest message is returned and removed, the output is untouched on codes other than 0/6/7, the counter invariant is kept, and a try-receive on an empty queue returns 4 |
| MsgqLifecycle.Namespace.UnlinkSem | messageQx.c:612-622 | the name is removed unless the system refuses; -1 exactly when it did not exist or was refused, and a refused name stays |
| MsgqLifecycle.Namespace.UnlinkShm | messageQx.c:625-635 | the name is removed unless the system refuses; -1 exactly when it did not exist or was refused, and a refused name stays |
| MsgqLifecycle.OrStatus | messageQx.c:589-596 | OR-ing two system results of 0 or -1 yields 0 exactly when both are 0 |
| MsgqLifecycle.CreateCode | messageQx.c:184-242 | create succeeds exactly when none of the four names exists and no step fails; 1 exactly when the receive semaphore's name exists or its creation fails; an existing segment name always makes it fail |
| MsgqLifecycle.OpenCode | messageQx.c:244-295 | open succeeds exactly when all four names exist and no step fails; 1 exactly when the receive semaphore's name is missing or its opening fails |
| MsgqLifecycle.OpenAfterDestroyFails | messageQx.c:638-658 | after a destroy that unlinked the receive semaphore, opening the queue fails with 1, whatever other unlinks were refused |
| MsgqLifecycle.CreateAfterDestroySucceeds | messageQx.c:638-658 | after a destroy the system refused nothing, a fault-free create of the same name succeeds |
| MsgqLifecycle.UnlinkedSems | messageQx.c:644-655 | the semaphore names a destroy takes away are among the queue's three, all three when nothing is refused, and the receive semaphore's exactly when its unlink is not refused |
| MsgqLifecycle.CloseShmAsWritten | messageQx.c:562-581 | as written, the result is 0 or -1, and with the descriptor open it is decided by `close` alone |
| MsgqLifecycle.CloseShm | messageQx.c:562-581 | corrected `_msgqx_close_shm`: -1 exactly when the unmap or the close fails |
| MsgqLifecycle.Close | messageQx.c:583-609 | 1 for a NULL handle; otherwise -1 exactly when some release of an object the handle holds fails, the segment's unmap and close counted separately as in `CloseShm` |
| MsgqLifecycle.Destroy | messageQx.c:638-658 | all four names are unlinked at once, whoever still holds the queue, except those whose unlink the system refuses; the result is 0 exactly when all four existed and nothing was refused |
| MsgqLifecycle.CreateSem | messageQx.c:114-130 | exclusive creation fails exactly when the name exists or the system refuses; otherwise a fresh semaphore with the value is registered |
| MsgqLifecycle.CreateShm | messageQx.c:134-182 | exclusive creation fails exactly when the name exists or a step fails; a refused `shm_open` or an existing name leaves the namespace as it was, while a failing `ftruncate` or `mmap` leaves a fresh segment registered under the name; on success a fresh, valid, empty ring with the size and length is registered |
| MsgqLifecycle.CreateSems | messageQx.c:193-220 | the three semaphores with counts 0, `len`, 0, distinct and fresh, or the code 1/2/4 of the first failing step with the namespace unchanged outside the queue's names |
| MsgqLifecycle.CreateSegment | messageQx.c:222-233 | the segment step fails with 3 exactly when its name exists or the system refuses, and then the handle has no mapping and the namespace changes only by the segment a failing `ftruncate` or `mmap` left behind; otherwise the handle is valid and consistent, and the counter invariant holds with the mutex released |
| MsgqLifecycle.UnlinkSems | messageQx.c:644-652 | the three semaphore unlinks remove every name not refused; the OR-ed result is 0 exactly when all three existed and none was refused |
| MsgqLifecycle.Abandon | messageQx.c:237-240 | the failure path unlinks every name of the queue whose unlink the system does not refuse; compared with the namespace before the create, no other name changed, and with no refusal all four names are gone |
| MsgqLifecycle.Create | messageQx.c:184-242 | the code is `CreateCode`; on success a fresh handle over fresh objects registered under the four names, valid, consistent and empty; on failure a NULL handle, no other name changed, every name of the queue whose unlink was not refused gone, and with no refusal all four gone, including those of a queue that already existed |
| MsgqLifecycle.Open | messageQx.c:244-295 | the code is `OpenCode`; on success the handle shares the registered objects and `size` is the header's message size; on failure a NULL handle and size 0 |
| StaticLinkedList.WalkSuffix | static_linked_listx.h:21-31 | following `next` from any slot of a forward-linked list yields the rest of the list |
| StaticLinkedList.WalkFromFirst | static_linked_listx.h:21-31 | following `next` from the first slot yields exactly the list: it is acyclic and stops at its last slot |
| StaticLinkedList.WellformedWalks | static_linked_listx.h:21-31 | when the fields describe a data and a free list, walking from `head` and `empty_head` yields those lists |
| StaticLinkedList.FlagMeansData | static_linked_listx.c:225-228 | in a valid list, `has_data` is set exactly for the slots of the data list |
| StaticLinkedList.GrowKeepsPartition | static_linked_listx.c:127-148 | appending the fresh slots to the free list keeps the two lists a partition of all slots |
| StaticLinkedList.GrowKeepsShape | static_linked_listx.c:127-148 | appending a chunk of fresh, linked, empty slots to the free list keeps the link structure |
| StaticLinkedList.InsertKeepsData | static_linked_listx.c:180-206 | the data list with the first free slot appended is linked both ways and flagged |
| StaticLinkedList.InsertKeepsFree | static_linked_listx.c:189-194 | the free list without its first slot is linked and cleared |
| StaticLinkedList.InsertKeepsShape | static_linked_listx.c:180-206 | moving the first free slot to the end of the data list keeps the link structure |
| StaticLinkedList.MoveKeepsPartition | static_linked_listx.c:233-272 | moving a data slot to the end of the free list keeps the partition |
| StaticLinkedList.UnlinkFrame | static_linked_listx.c:236-254 | unlinking touches only the neighbours' `next`/`prev` and the unlinked slot |
| StaticLinkedList.UnlinkKeepsNext | static_linked_listx.c:236-254 | joining the neighbours links the remaining data slots forward in order |
| StaticLinkedList.UnlinkKeepsPrev | static_linked_listx.c:236-254 | joining the neighbours links the remaining data slots backward in order |
| StaticLinkedList.UnlinkKeepsData | static_linked_listx.c:236-254 | the remaining data slots, in their order, are linked both ways and flagged |
| StaticLinkedList.UnlinkKeepsFree | static_linked_listx.c:260-272 | the free list with the removed slot appended is linked forward |
| StaticLinkedList.UnlinkKeepsLinks | static_linked_listx.c:233-272 | remove keeps the link structure whatever the removed slot's flag, and the full shape once that flag is cleared |
| StaticLinkedList.GatherAt | static_linked_listx.c:301-303 | position `i` of the contents is the item stored at slot `data[i]` |
| StaticLinkedList.GatherWithout | static_linked_listx.c:233-254 | the contents without the removed slot are the old contents without that position |
| StaticLinkedList.Init | static_linked_listx.c:31-83 | 1 for a missing handle or item size 0, 2 for an allocation failure; otherwise a valid list of 128 zeroed slots with an empty data list and the free list 0..127 |
| StaticLinkedList.ChunkLinks | static_linked_listx.c:71-78 | every slot of a new chunk is empty and linked to its index neighbours, with Null at both ends |
| StaticLinkedList.EmptyListValid | static_linked_listx.c:49-80 | one chunk of empty slots linked in index order, with no data and the free list from 0 to the last slot, is a valid list with empty contents |
| StaticLinkedList.IncreaseCodeAsWritten | static_linked_listx.c:94-113 | as written, the code is 0 exactly when a list is given, and 2 never occurs |
| StaticLinkedList.IncreaseAsWrittenHidesFailure | static_linked_listx.c:109-113 | as written, a failed reallocation returns the same 0 as a successful one |
| StaticLinkedList.IncreaseCode | static_linked_listx.c:85-93 | the documented codes: 0 exactly for a list and a successful allocation, 2 exactly for a failed one |
| StaticLinkedList.Grow | static_linked_listx.c:105-132 | both arrays 128 slots longer, old slots kept, new items zero, new slots linked to their neighbours |
| StaticLinkedList.JoinChunk | static_linked_listx.c:133-148 | the new chunk becomes the whole free list when that was empty, otherwise it follows the old free tail |
| StaticLinkedList.GrowKeepsValid | static_linked_listx.c:94-151 | growing a valid list keeps it valid with the same data list and contents, the new slots at the end of the free list |
| StaticLinkedList.Increase | static_linked_listx.c:94-151 | the documented codes; on success the list is valid, 128 slots larger, with the same data and contents, the old items kept, the new items zero and the new slots appended to the free list, whose head is the first new slot when it was empty |
| StaticLinkedList.InsertKeepsValid | static_linked_listx.c:177-206 | storing an item in the first free slot and moving that slot to the end of the data list keeps the list valid and appends the item to the contents |
| StaticLinkedList.GatherStore | static_linked_listx.c:180-206 | storing an item in a slot outside the data list and appending that slot appends the item to the contents |
| StaticLinkedList.FreeHeadLinks | static_linked_listx.c:180-194 | the free head, its successor and the data tail are slots or Null, and the free head is neither of them |
| StaticLinkedList.MoveToData | static_linked_listx.c:184-205 | the link updates of insert: the slot is flagged and linked after the tail, its successor loses its `prev`, and nothing else changes |
| StaticLinkedList.Store | static_linked_listx.c:177-206 | the list stays valid; the slot that was the free head becomes the tail; the contents gain the item |
| StaticLinkedList.Insert | static_linked_listx.c:156-209 | 1 for a missing list or item; 2 when growing a full list fails, leaving it unchanged; otherwise the list stays valid, the contents gain the item at the end, the data slots keep their indices and the slot used is appended after them, `len` grows by 1 and `size` by 128 exactly when no slot was free |
| StaticLinkedList.DataSlotLinks | static_linked_listx.c:233-254 | a data slot's `prev`/`next` are its neighbours in the data list (or Null), it is `head` exactly when first and `tail` exactly when last |
| StaticLinkedList.Unlink | static_linked_listx.c:236-254 | the head, tail and middle cases of remove, with the new head and tail |
| StaticLinkedList.AppendFree | static_linked_listx.c:260-272 | the slot is appended to the free list, or becomes the whole free list when that is empty |
| StaticLinkedList.RemoveKeepsLinks | static_linked_listx.c:233-272 | after both remove steps the link structure holds over the shortened data list and the extended free list, with the moved slot still flagged |
| StaticLinkedList.RemoveKeepsFields | static_linked_listx.c:233-272 | after both remove steps the fields describe the shortened data list and the extended free list |
| StaticLinkedList.ClearFlagKeepsValid | static_linked_listx.c:225 | clearing the moved slot's flag restores the invariant |
| StaticLinkedList.Take | static_linked_listx.c:233-272 | the data slot leaves the data list, the rest keeping their order, and is appended to the free list with its flag still set |
| StaticLinkedList.RemoveAsWritten | static_linked_listx.c:214-276 | as written: the argument checks give 1; the slot leaves the data list and the contents lose its item, but the flag stays set, so the result is not valid |
| StaticLinkedList.Remove | static_linked_listx.c:214-276 | 1 with no change for a missing list, an index out of range or a slot without data; in range, 0 exactly when the slot is in the data list; then the list stays valid, the slot leaves the data list, the rest keep their order, it joins the end of the free list and the contents lose its item |
| StaticLinkedList.GetNext | static_linked_listx.c:281-306 | 1 with the outputs untouched for bad arguments; 2 with Null and no item for a slot without data; otherwise the successor in the data list and its item, or Null and no item at the tail |
| StaticLinkedList.GetFirst | static_linked_listx.c:312-329 | 1 with the outputs untouched for bad arguments; otherwise the head and its item, or Null and no item for an empty list |
| StaticLinkedList.Free | static_linked_listx.c:334-354 | 1 for a missing list; otherwise no data, no free slots and no items remain |
| SimpleHash.BucketAsWritten | simple_hashx.c:74 | as written, the index lies strictly between `-len` and `len`: it is the in-table `key mod len` for a non-negative key and at most 0 for a negative one |
| SimpleHash.NegativeKeyOutsideTable | simple_hashx.c:74 | as written, the key -1 gives bucket index -1 in every table of more than one bucket |
| SimpleHash.Bucket | simple_hashx.c:74 | the corrected bucket index is always within the table |
| SimpleHash.BucketAgrees | simple_hashx.c:74 | for non-negative keys the corrected index is the one the code computes |
| SimpleHash.Chain | simple_hashx.c:86-99 | a bucket chain is no longer than the all-items list |
| SimpleHash.ChainMembers | simple_hashx.c:74-99 | an entry is in bucket `b` exactly when it is saved and its key falls into `b` |
| SimpleHash.LookupNone | simple_hashx.c:127-135 | a lookup finds nothing exactly when no entry has the key |
| SimpleHash.LookupAt | simple_hashx.c:127-140 | a lookup yields the value at the first position holding the key |
| SimpleHash.ChainLookup | simple_hashx.c:123-135 | searching the key's bucket finds the same newest entry as searching all entries |
| SimpleHash.ChainRemove | simple_hashx.c:174-192 | removing the newest entry with a key from the all-items list removes it from that key's bucket and leaves the other buckets unchanged |
| SimpleHash.ChainRemoveSame | simple_hashx.c:174-183 | the removal from the all-items list is the removal from the key's bucket |
| SimpleHash.ChainRemoveOther | simple_hashx.c:174-192 | the other buckets are unchanged by the removal |
| SimpleHash.RemoveFirstAt | simple_hashx.c:164-183 | removing the newest entry with a key deletes exactly the first position holding it |
| SimpleHash.RemoveKeepsOtherKeys | simple_hashx.c:148-197 | a remove does not change the lookup of any other key |
| SimpleHash.RemoveRevealsOlder | simple_hashx.c:148-197 | after a remove, a lookup of the key finds the next older entry with it |
| SimpleHash.ChainSizesFirst | simple_hashx.c:211-218 | the newest entry counts in the first `n` buckets exactly when its bucket is below `n` |
| SimpleHash.ChainsCoverAll | simple_hashx.c:211-218 | the bucket chains together hold as many entries as the all-items list |
| SimpleHash.EnumerationVisitsAll | simple_hashx.c:242-255 | from a NULL handle, calls 1..n visit the n entries in order, newest first, and call n+1 ends the enumeration |
| SimpleHash.Table.constructor | simple_hashx.c:43-51 | a valid table of `n` empty buckets with an empty all-items list |
| SimpleHash.Initialize | simple_hashx.c:35-54 | 1 and no table for `len == 0`; otherwise a fresh valid table of `len` empty buckets |
| SimpleHash.Save | simple_hashx.c:59-102 | 1 for a NULL table; otherwise the entry is prepended to the all-items list and its bucket, the table stays valid, a lookup of the key yields the new value and every other key looks up as before |
| SimpleHash.Find | simple_hashx.c:127-132 | the first position in the chain holding the key, or the chain's length when none does |
| SimpleHash.Get | simple_hashx.c:107-143 | codes 1, 3 and 2 in the source's order with the outputs untouched; otherwise 0 with the newest value saved under the key in the selected output |
| SimpleHash.Remove | simple_hashx.c:148-197 | 1 for a NULL table, 2 when no entry has the key; otherwise the newest entry with the key leaves both lists and the table stays valid |
| SimpleHash.GetNext | simple_hashx.c:229-263 | 1 with nothing changed for a NULL table or handle or no output; otherwise the handle moves to the first or next entry, newest first, and the selected output gets its value; past the end the handle becomes NULL and the outputs are untouched |
| SimpleHash.Cleanup | simple_hashx.c:202-224 | 1 for a NULL table; otherwise walking every chain releases exactly as many entries as were saved and not removed |

## Left out

- Semaphores, shared memory and their system calls are modelled as counters and as maps from names to objects. Each system failure is a boolean parameter, and `errno` is folded into it. This includes an unlink the system refuses although the name exists (`DestroyFaults`), such as a name owned by another user.
- Cross-process concurrency and real blocking are not modelled. One sequential trace is modelled, and a blocking wait is only called where it can return (a token is there or the system reports a fault).
- The timed-wait deadline is not modelled. `_msgqx_wait_sem` adds the budget to an uninitialised timespec. A timed wait on a zero count is taken to expire. `Timespec.Add` and `TimeDiff` model the two helpers on their own.
- After a timed wait, `_msgqx_wait_sem` writes the time the wait took back into `*sec`/`*nsec`. The send and receive paths pass those same variables to the mutex wait, so the mutex wait's budget is the first wait's elapsed time, not what is left of the budget. `NextBudgetAsWritten` and `NextBudget` state the two budgets on their own (see Findings).
- MsgqProtocol.Send: the wrappers' `sec`/`nsec` budget arguments have no counterpart, for the reasons above. The same holds for `MsgqProtocol.Receive`.
- MsgqProtocol.Receive: the caller's buffer is modelled as exactly one message, and `out` is replaced by it. The source copies `msg_size` bytes into a buffer that may be longer and leaves the rest of it as it was.
- MsgqProtocol.ArgsValid: `_msgqx_param_check` tests the mapping against NULL only. A mapping that failed with `MAP_FAILED` is also a null `mem` in the model. Such a handle cannot come out of `msgqx_create` or `msgqx_open`, which return NULL on that failure.
- MsgqLifecycle.Create: the result of the final mutex post is ignored, as in the source. The model's post cannot fail.
- MsgqLifecycle.Create: the model follows the failure path as written. `msgqx_destroy(name)` also unlinks the names of a queue that already existed, so a create that meets a live queue's name removes that queue's names. A later create of the same name then succeeds (`CreateAfterDestroySucceeds`) while the first queue is still in use, so creation is not exclusive across such a failure. A failure path that unlinks only the names this call created is not modelled.
- MsgqLifecycle.Create: requires `0 <= size` and `0 < len`. The source checks neither. With `len == 0` it creates a queue that can hold no message and returns 0. A negative `len` makes the send semaphore's initial value out of range, so create fails with 2. The source does not reject a negative `size` either. It computes `sizeof(msgqx_q) + size * len` in `size_t` and passes it on as an `int`. When the product is below `-sizeof(msgqx_q)`, the size comes out negative, `ftruncate` refuses it, and create fails with 3. When the product equals `-sizeof(msgqx_q)`, the zero-length `mmap` fails, again giving 3. Between those two, the segment is smaller than the header, and create returns 0 with a negative message size.
- MsgqLifecycle.Create, MsgqLifecycle.Open and MsgqLifecycle.Destroy require a queue name of at most 50 characters (`FitsNameBuffer`). The source writes the object names into a 64-byte buffer with `sprintf` and does not check the length, so a longer name overflows it. Keeping names short is the caller's duty.
- MsgqLifecycle.Open: the contract does not promise a valid handle. The namespace carries no invariant that every registered segment is a valid ring and the three semaphores are distinct objects.
- MsgqLifecycle.CreateSegment: the descriptor `shm_open` returns is kept in the handle only on success. After a failing `ftruncate` or `mmap`, `msgqx_close` skips `_msgqx_close_shm` because the mapping is NULL or `MAP_FAILED`, so the source leaks that descriptor. The model does not show the leak.
- MsgqLifecycle.Close: releases the segment with the corrected `CloseShm`. It therefore returns -1 when `munmap` fails and `close` succeeds, where `msgqx_close` as written returns 0.
- The file descriptor of the segment is a parameter, and the size computation `sizeof(msgqx_q) + size * len` is not modelled. A failing `ftruncate`, `fstat` or `mmap` counts as a failure of the segment step (`ShmSetupFails`). In a create, the segment name `shm_open` made stays registered until the failure path unlinks it.
- Freeing memory is not modelled. This covers the handle in `msgqx_close`, the arrays in `static_linked_listx_free`, and the entries and buckets in `cleanup_simple_hashx`. Cleanup is modelled as the count of entries it walks.
- Allocation failures are a parameter in `static_linked_listx_init`, `_increase` and `_insert`. `malloc` in `msgqx_create`/`msgqx_open` and in the hash table is taken to succeed, so the `table == NULL` checks in `cleanup_simple_hashx` and `get_next_simple_hashx` never trigger.
- StaticLinkedList.Init: on an allocation failure the source leaves a half-built list in `*l`. The model returns no list.
- The linked list is modelled on values. `List` is a datatype, and each operation returns the new value of the structure. Aliasing of the list through the caller's `void *` is not captured. Neither is the order of the individual field writes inside one call.
- The free list's `prev` links are written but never read, and the invariant does not constrain them. When `static_linked_listx_increase` appends to a non-empty free list, the first new slot's `prev` is the preceding slot index, not the old `empty_tail`.
- StaticLinkedList.Increase: on a failed allocation the model leaves the list unchanged. The source has already added 128 to `size` (line 105) and stored `realloc`'s NULL over `items` or `pointers` (lines 106-108), losing the old block. The corrected code 2 does not undo that state.
- StaticLinkedList.Insert: when growing fails it returns 2 and leaves the list unchanged, through the corrected `Increase`. As written, `static_linked_listx_increase` returns 0, and insert goes on with `empty_head == -1` (see Findings).
- `get_next`/`get_first` of the list and `get_next_simple_hashx` return pointers into the structure. The model returns the item or value itself.
- The hash value union is the 64-bit word last written, whichever member wrote it. The values are unbounded integers, so `long long` wrap-around in keys and values is not modelled.
- SimpleHash.Get: writing the integer output through a NULL `int_val` pointer is undefined behaviour in the source and is not modelled. Only the pointer output has a "given" flag.
- SimpleHash.GetNext: the selected output must be given whenever any output is given. The source writes through it unchecked. The enumeration handle is a position in the all-items list, so saving or removing entries during an enumeration is not modelled.
- SimpleHash.Save: a negative key goes into the corrected `Bucket`. As written, `key % len` is negative there and the entry is written outside the bucket array (see Findings).
- SimpleHash.Get: a negative key is looked up in the corrected `Bucket`. As written, the source reads outside the bucket array.
- SimpleHash.Remove: a negative key is removed from the corrected `Bucket`. As written, the source indexes outside the bucket array.
- SimpleHash.Remove: the unlinking of the entry from the all-items list is modelled as removing its first occurrence by key. Since both lists are ordered newest first, this is the same entry.
- SimpleHash.Initialize: a negative `len` makes the source allocate a huge or negative size. The model requires `len >= 0`.
- `messageQx.h` describes destruction as deferred until every process has closed the queue. The code unlinks the names at once, and the model follows the code.
- Logging (`CTX_DPRINTF`, `CTX_LOGERR`) and the command-line test clients are not modelled.

## Findings

| source | as written | input that shows it | evidently intended | confidence | as-written member | corrected member |
|---|---|---|---|---|---|---|
| messageQx.c:562-581 | `_msgqx_close_shm` assigns the result of `close` over that of `munmap` | a mapped segment whose `munmap` fails while `close` succeeds: the result is 0 | report -1 when either release fails, as `msgqx_close` does with `\|=` | not executed | MsgqLifecycle.CloseShmAsWrittenLosesUnmapFailure | MsgqLifecycle.CloseShm |
| static_linked_listx.c:109-113 | a failed reallocation in `static_linked_listx_increase` returns 0 | `realloc` returning NULL: `size` has already grown by 128 and an array pointer is NULL, yet the code is 0, so `static_linked_listx_insert` goes on to write through the NULL array with `empty_head == -1` | return 2, as the function's comment at lines 85-93 documents | not executed | StaticLinkedList.IncreaseAsWrittenHidesFailure | StaticLinkedList.IncreaseCode |
| static_linked_listx.c:233-272 | `static_linked_listx_remove` never clears `has_data` of the removed slot | removing an index twice: the second call passes the check at line 225 and unlinks a free slot | clear `has_data` when the slot joins the free list | not executed | StaticLinkedList.RemoveAsWritten | StaticLinkedList.Remove |
| messageQx.c:371-377 | the first wait of a timed send or receive overwrites `sec`/`nsec` with the time it took, and the mutex wait at lines 445 and 517 uses them as its budget | a one-second budget whose first wait takes 0.9 s: the mutex wait may take another 0.9 s | the mutex wait gets what is left of the budget | not executed | MsgqTime.NextBudgetAsWrittenOverruns | MsgqTime.NextBudget |
| simple_hashx.c:74 | the bucket index is `key % len` with C's remainder | key -1 in a table of 8 buckets: index -1, outside the bucket array (also at lines 123 and 160) | an index in `0..len-1` for every key | not executed | SimpleHash.NegativeKeyOutsideTable | SimpleHash.Bucket |
