# Time-delay queue

A model of the time-delay queue at the core of a small publish/subscribe
service. The queue holds each added message invisible for a fixed delay.
Once the delay has elapsed it hands messages out in the order of their own
timestamps. It drops transient messages whose lifetime has run out before
they could be handed out, refuses a message whose identifier it already
holds, and logs the time of every successful add and of every getNext so
that it can report a peak load: the most operations inside one time window.

Modules:

- `Messages` (messages.dfy) — `PubSubMessage` and `TransientPubSubMessage`
  as one datatype (a value: no field changes after construction) whose optional `lifetime` marks the transient
  kind. It also holds the UUID and `BasicMessageType` values, the
  constructors, getters, `equals` and `hashCode`, and `NO_MSG`.
- `Identities` (identities.dfy) — whether an identifier occurs in a
  sequence of messages, and whether all identifiers in it are distinct.
- `Promotion` (promotion.dfy) — the two areas of the queue and the pure
  specification `Promote` of the promotion pass `updateQueues`:
  - the pending area is a FIFO of (message, arrival time) pairs;
  - the ready area is a sequence in timestamp order, standing for the
    priority queue.
- `PeakLoads` (peak_load.dfy) — the specification `PeakLoad` of
  `getPeakLoad`. For a non-empty log in time order and a window length
  `w >= 0`, it is also proved equal to the largest number of logged
  operations in a window `[t, t + w]` anchored at a logged time `t`. For
  `w < 0` no window holds an operation, yet the code still answers 1.
- `QueueStates` (queue_state.dfy) — the queue's fields as a value, the
  invariant `Consistent`, and one lemma per state change proving that the
  change keeps the invariant.
- `TimeDelayQueues` (time_delay_queue.dfy) — the class `TimeDelayQueue`.
  Its fields are updated in place by its methods. The two loops of the
  source (`updateQueues` and `getPeakLoad`) are `while` loops proved
  against `Promote` and `PeakLoad`.
- `Scenarios` (scenarios.dfy) — client code calling the queue. Some
  scenarios follow a unit test's usage (their rows cite the test); the
  others, and the getMsg clauses of `VisibleAfterTheDelay`, state properties
  of the code itself, not outcomes a test checks.

Where the code and its documentation disagree, the model follows the code:

- The constructor stores the delay without checking that it is
  non-negative.
- `getMsg` does not run the promotion pass.
- `NO_MSG` equals any message whose identifier is the zero UUID.
- The class comment (TimeDelayQueue.java:9-10) says the heap is ordered
  from the most recent to the oldest message. The comparator (:185-189)
  puts the earliest timestamp first, and so does the model.
- The class comment (:11-12) says a message is processable once it has
  stayed for at least the delay. The loop test (:134) requires strictly
  more (`arrival + delay < now`), and so does the model.
- The comment on getPeakLoad (:101) says calls to add and getNext are
  counted as operations. A refused add (:62-64) returns before logging, so
  only successful adds are counted, and so does the model.

The wall clock (`new Date()`, `System.currentTimeMillis()`) becomes a
parameter `now` of each call that reads it, in milliseconds. Each call
requires that `now` is no earlier than any earlier reading. This is
recorded in the ghost field `clock`. `UUID.randomUUID()` becomes a
parameter `freshId` of the implicit-argument constructors.

The queue also keeps ghost bookkeeping that no Java field holds:

- `accepted` — every message added successfully;
- `delivered` — every message getNext returned;
- `discarded` — every expired transient message that was dropped;
- `arrivalOf` — the arrival time of each identifier.

The invariant uses these to state what the count, the ready area and the
log mean.

## Model

| member | source | states |
|---|---|---|
| Messages.NewMessage | src/main/java/timedelayqueue/PubSubMessage.java:28-38 | the getters return the given id, timestamp, sender, content and type; the receiver list is exactly the one given receiver; the message is not transient |
| Messages.NewMulticastMessage | src/main/java/timedelayqueue/PubSubMessage.java:42-51 | the getters return the given fields, the receiver list is the given list, and the message is not transient |
| Messages.NewSimpleMessage | src/main/java/timedelayqueue/PubSubMessage.java:54-62 | the fresh id and the current time become id and timestamp, the type is SIMPLEMSG, the receiver list has exactly one element, and the message is not transient |
| Messages.NewSimpleMulticastMessage | src/main/java/timedelayqueue/PubSubMessage.java:65-73 | the fresh id and the current time become id and timestamp, the type is SIMPLEMSG, the receiver list is the given one, and the message is not transient |
| Messages.NewTransientMessage | src/main/java/timedelayqueue/TransientPubSubMessage.java:16-28 | the implicit-argument base message (fresh id, SIMPLEMSG, one receiver); it is transient, and getLifetime returns exactly the lifetime given, unchecked |
| Messages.UuidHash | src/main/java/timedelayqueue/PubSubMessage.java:110-113 | no contract of its own: java.util.UUID.hashCode, the two halves xor-ed and folded to 32 bits; HashCodeAgreesWithEquals is stated with it |
| Messages.MessageType.Description | src/main/java/timedelayqueue/BasicMessageType.java:3-24 | no contract of its own: the description text of each of the two message types |
| Messages.Message.GetId | src/main/java/timedelayqueue/PubSubMessage.java:75-78 | no contract of its own: the stored identifier; the constructors' contracts state what it returns |
| Messages.Message.GetTimestamp | src/main/java/timedelayqueue/PubSubMessage.java:80-83 | no contract of its own: the stored timestamp (Java returns an equal copy); the constructors' contracts state what it returns |
| Messages.Message.GetContent | src/main/java/timedelayqueue/PubSubMessage.java:85-89 | no contract of its own: the stored content; the constructors' contracts state what it returns |
| Messages.Message.GetType | src/main/java/timedelayqueue/PubSubMessage.java:91-94 | no contract of its own: the stored type; the constructors' contracts state what it returns |
| Messages.Message.GetSender | src/main/java/timedelayqueue/PubSubMessage.java:96-98 | no contract of its own: the stored sender; the constructors' contracts state what it returns |
| Messages.Message.GetReceiver | src/main/java/timedelayqueue/PubSubMessage.java:100-102 | no contract of its own: the stored receiver list (Java returns an equal copy); the constructors' contracts state what it returns |
| Messages.Message.IsTransient | src/main/java/timedelayqueue/PubSubMessage.java:104-108 | no contract of its own: whether a lifetime is present; the constructors' contracts state it is false for the four base constructors and true for the transient one (TransientPubSubMessage.java:25-28) |
| Messages.Message.GetLifetime | src/main/java/timedelayqueue/TransientPubSubMessage.java:21-23 | no contract of its own: defined only on transient messages, the stored lifetime; NewTransientMessage's contract states it is the lifetime given |
| Messages.Message.HashCode | src/main/java/timedelayqueue/PubSubMessage.java:110-113 | no contract of its own: the hash of the identifier alone; HashCodeAgreesWithEquals and TransientEqualsBaseWithSameId state what follows |
| Messages.Message.Equals | src/main/java/timedelayqueue/PubSubMessage.java:115-123 | no contract of its own: identifier equality against a message, false against any other object; the lemmas below state its properties |
| Messages.EqualsIsIdEquality | src/main/java/timedelayqueue/PubSubMessage.java:115-123 | two messages are equal exactly when their identifiers are, and equality is symmetric |
| Messages.EqualsIsEquivalence | src/main/java/timedelayqueue/PubSubMessage.java:115-123 | equals is reflexive, symmetric and transitive on messages |
| Messages.NeverEqualsNonMessage | src/main/java/timedelayqueue/PubSubMessage.java:117-122 | no message equals an object that is not a message |
| Messages.EqualsIgnoresPayload | src/main/java/timedelayqueue/PubSubMessage.java:115-123 | a message equals every message with its identifier, whatever the timestamp, sender, receivers, content, type or lifetime |
| Messages.HashCodeAgreesWithEquals | src/main/java/timedelayqueue/PubSubMessage.java:110-113 | equal messages have equal hash codes |
| Messages.NoMsgShape | src/main/java/timedelayqueue/PubSubMessage.java:9-16 | NO_MSG has the zero UUID as id, sender and only receiver, timestamp 0, empty content and type SIMPLEMSG; it is not transient, and it equals exactly the messages whose id is the zero UUID |
| Messages.TransientEqualsBaseWithSameId | src/main/java/timedelayqueue/TransientPubSubMessage.java:10 | a transient message and a base message with the same id are equal both ways and hash alike |
| Identities.HasIdIff | src/main/java/timedelayqueue/TimeDelayQueue.java:156-159 | an identifier occurs in a sequence exactly when some position holds a message with it |
| Promotion.CompareByTimestamp | src/main/java/timedelayqueue/TimeDelayQueue.java:185-189 | the comparison is -1, 0 or 1; it is negative exactly when the first timestamp is earlier and positive exactly when it is later |
| Promotion.CompareIsTotalPreorder | src/main/java/timedelayqueue/TimeDelayQueue.java:185-189 | the comparator is antisymmetric in sign, total and transitive |
| Promotion.Insert | src/main/java/timedelayqueue/TimeDelayQueue.java:145 | adding to the ready area makes it one longer; where the message goes, and what the area then holds, are InsertPosition, InsertAtPosition and InsertIsPermutation |
| Promotion.InsertPosition | src/main/java/timedelayqueue/TimeDelayQueue.java:145 | the position of a new ready message: every message before it has a timestamp no later than its own, and the message at it (if any) a later one |
| Promotion.InsertAtPosition | src/main/java/timedelayqueue/TimeDelayQueue.java:145 | adding to the ready area puts the message at that position and leaves the others in their order around it |
| Promotion.InsertIsPermutation | src/main/java/timedelayqueue/TimeDelayQueue.java:145 | after adding, the ready area holds its old messages plus exactly the new one, as a multiset |
| Promotion.InsertKeepsSorted | src/main/java/timedelayqueue/TimeDelayQueue.java:19 | adding a message to a ready area in timestamp order keeps it in timestamp order |
| Promotion.HasIdInsert | src/main/java/timedelayqueue/TimeDelayQueue.java:145 | after adding, an identifier is in the ready area exactly when it was there before or is the new message's |
| Promotion.HeadIsMinimal | src/main/java/timedelayqueue/TimeDelayQueue.java:92-95 | the head of a non-empty ready area in timestamp order has a timestamp no later than any other ready message |
| Promotion.EligiblePrefix | src/main/java/timedelayqueue/TimeDelayQueue.java:133-134 | the length of the longest pending prefix whose entries all satisfy arrival + delay < now (strict); the entry after it, if any, does not |
| Promotion.Promote | src/main/java/timedelayqueue/TimeDelayQueue.java:130-149 | no contract of its own: the promotion pass as a function of the two areas, the delay and now; the lemmas below state what it does, and UpdateQueues is proved to compute it |
| Promotion.PromoteRemovesEligiblePrefix | src/main/java/timedelayqueue/TimeDelayQueue.java:130-149 | the pass removes exactly the eligible prefix of the pending area and leaves the rest unchanged, starting at the first entry whose delay has not elapsed |
| Promotion.PromoteSplitsPrefix | src/main/java/timedelayqueue/TimeDelayQueue.java:136-147 | of the eligible prefix, the expired transient messages are discarded in order, and all other messages are added to the ready area |
| Promotion.PromoteKeepsReadySorted | src/main/java/timedelayqueue/TimeDelayQueue.java:130-149 | a pass keeps the ready area in timestamp order |
| Promotion.PromoteConservesMessages | src/main/java/timedelayqueue/TimeDelayQueue.java:130-149 | no message is lost or created by a pass: pending, ready and discarded together hold the messages pending and ready held before |
| Promotion.ExpiredNeverReady | src/main/java/timedelayqueue/TimeDelayQueue.java:136-142 | when identifiers are distinct, an eligible transient entry with now > arrival + lifetime is discarded, and no message with its identifier is in the ready area afterwards |
| Promotion.ShortLifetimeExpiresWhenEligible | src/main/java/timedelayqueue/TimeDelayQueue.java:133-138 | a transient message whose lifetime is at most the delay has expired by the time it becomes eligible (that it is never delivered is the transient clause of GetNext and Peek) |
| Promotion.PromoteIdempotent | src/main/java/timedelayqueue/TimeDelayQueue.java:166-172 | a second pass at the same instant changes nothing |
| Promotion.ResumeAfterDiscarding | src/main/java/timedelayqueue/TimeDelayQueue.java:136-142 | dropping an eligible expired head, and recording it as discarded, is one step of the pass |
| Promotion.ResumeAfterPromoting | src/main/java/timedelayqueue/TimeDelayQueue.java:145-147 | moving an eligible head that has not expired into the ready area is one step of the pass |
| Promotion.ResumeAtEnd | src/main/java/timedelayqueue/TimeDelayQueue.java:133-134 | at an empty pending area or an ineligible head, the pass is over |
| PeakLoads.AppendKeepsNonDecreasing | src/main/java/timedelayqueue/TimeDelayQueue.java:67 | logging a time no earlier than the last keeps the log in time order |
| PeakLoads.RunFrom | src/main/java/timedelayqueue/TimeDelayQueue.java:112-119 | the inner loop's count of consecutive entries within the window of the anchor is at most the number of entries left; RunFromIsMaximal states which entries it covers |
| PeakLoads.RunFromIsMaximal | src/main/java/timedelayqueue/TimeDelayQueue.java:114-119 | the inner scan counts consecutive entries within the window of the anchor and stops at the first one outside it |
| PeakLoads.MaxLoad | src/main/java/timedelayqueue/TimeDelayQueue.java:107-122 | the running maximum is at least 1 and at most the length of a non-empty log |
| PeakLoads.PeakLoad | src/main/java/timedelayqueue/TimeDelayQueue.java:106-124 | the peak load is at least 1, exactly 1 for a log of fewer than two entries, and at most the number of entries |
| PeakLoads.MaxLoadIsMaximum | src/main/java/timedelayqueue/TimeDelayQueue.java:108-122 | the running maximum bounds 1 + run for every anchor so far, and some anchor attains it |
| PeakLoads.PeakLoadIsLongestRun | src/main/java/timedelayqueue/TimeDelayQueue.java:106-124 | the peak load is the largest 1 + run over all anchors in the log, and some anchor attains it |
| PeakLoads.PeakLoadIsLargestWindowCount | src/main/java/timedelayqueue/TimeDelayQueue.java:98-124 | for a log in time order and a window w >= 0, the peak load is the largest number of logged times in a window [t, t + w] anchored at a logged time t, and some window attains it |
| PeakLoads.PeakLoadOfOneBurst | src/main/java/timedelayqueue/TimeDelayQueue.java:106-124 | when the whole log in time order fits in one window, the peak load is the number of entries |
| PeakLoads.PeakLoadExample | src/main/java/timedelayqueue/TimeDelayQueue.java:106-124 | operations at 0, 5, 5 and 20 ms: peak load 3 for a 5 ms window and 2 for a 1 ms window |
| QueueStates.EmptyIsConsistent | src/main/java/timedelayqueue/TimeDelayQueue.java:46-52 | a new queue satisfies the invariant |
| QueueStates.AddKeepsConsistent | src/main/java/timedelayqueue/TimeDelayQueue.java:61-71 | an add of a message whose identifier is not held keeps the invariant; the identifier is held afterwards |
| QueueStates.AddKeepsAccounted | src/main/java/timedelayqueue/TimeDelayQueue.java:65-70 | after an add, every added message is held, delivered or discarded as often as it was added |
| QueueStates.TickKeepsConsistent | src/main/java/timedelayqueue/TimeDelayQueue.java:88-89 | reading the clock, and logging the time or not, keeps the invariant |
| QueueStates.DiscardKeepsConsistent | src/main/java/timedelayqueue/TimeDelayQueue.java:136-142 | dropping the pending head keeps the invariant |
| QueueStates.DiscardKeepsAccounted | src/main/java/timedelayqueue/TimeDelayQueue.java:136-142 | a dropped head is counted as discarded, so every added message is still accounted for |
| QueueStates.PromoteKeepsConsistent | src/main/java/timedelayqueue/TimeDelayQueue.java:145-147 | moving an eligible pending head that has not expired into the ready area keeps the invariant: the ready area stays in timestamp order, every ready message waited out the delay, and every transient ready message has a lifetime longer than the delay |
| QueueStates.PromoteKeepsOutliving | src/main/java/timedelayqueue/TimeDelayQueue.java:133-147 | an entry promoted after its delay and before its lifetime ran out has a lifetime longer than the delay, so every transient ready message still outlives the delay |
| QueueStates.PromoteKeepsAccounted | src/main/java/timedelayqueue/TimeDelayQueue.java:145-147 | moving the pending head into the ready area keeps every added message accounted for |
| QueueStates.TakeKeepsConsistent | src/main/java/timedelayqueue/TimeDelayQueue.java:95 | removing the ready head keeps the invariant |
| QueueStates.TakenIsNotHeld | src/main/java/timedelayqueue/TimeDelayQueue.java:95 | with distinct identifiers, once the ready head is removed no held message carries its identifier |
| QueueStates.TakeKeepsAccounted | src/main/java/timedelayqueue/TimeDelayQueue.java:95 | a removed ready head is counted as delivered, so every added message is still accounted for |
| TimeDelayQueues.TimeDelayQueue.constructor | src/main/java/timedelayqueue/TimeDelayQueue.java:46-52 | a new queue has the given delay, a count of 0, empty areas and an empty log, no clock reading, no recorded arrivals and no accepted, delivered or discarded messages, and satisfies the invariant |
| TimeDelayQueues.TimeDelayQueue.GetMsg | src/main/java/timedelayqueue/TimeDelayQueue.java:156-159 | true exactly when a message with the identifier is pending or ready; no promotion pass is run, and nothing changes |
| TimeDelayQueues.TimeDelayQueue.InQueue | src/main/java/timedelayqueue/TimeDelayQueue.java:179-182 | true exactly when a message equal to the argument (same identifier) is pending or ready; agrees with getMsg on that identifier |
| TimeDelayQueues.TimeDelayQueue.Add | src/main/java/timedelayqueue/TimeDelayQueue.java:61-71 | returns false, changing nothing, exactly when the identifier is held; otherwise it appends (msg, now) to pending and now to the log, records now as the identifier's arrival time, counts one more add, and returns true; the ready area is untouched, and the identifier is held afterwards |
| TimeDelayQueues.TimeDelayQueue.GetTotalMsgCount | src/main/java/timedelayqueue/TimeDelayQueue.java:78-80 | the count equals the number of successful adds since construction |
| TimeDelayQueues.TimeDelayQueue.UpdateQueues | src/main/java/timedelayqueue/TimeDelayQueue.java:130-149 | the loop leaves the areas as the pass Promote does, with the dropped messages recorded as discarded; no pending entry is eligible afterwards; the log and count do not change |
| TimeDelayQueues.TimeDelayQueue.AdvanceHead | src/main/java/timedelayqueue/TimeDelayQueue.java:136-147 | one loop round: the eligible head leaves pending; it is discarded if it is an expired transient message, and added to the ready area otherwise |
| TimeDelayQueues.TimeDelayQueue.GetNext | src/main/java/timedelayqueue/TimeDelayQueue.java:87-96 | always logs now; after the pass, it returns NO_MSG if nothing is ready, otherwise it removes and returns the head of the ready area, whose timestamp is minimal and whose delay elapsed strictly before now, and which is no longer held afterwards (getMsg of its identifier is false); a transient message returned has a lifetime longer than the delay, so one whose lifetime is at most the delay is never returned; the count does not change |
| TimeDelayQueues.TimeDelayQueue.Peek | src/main/java/timedelayqueue/TimeDelayQueue.java:166-172 | runs the pass and returns what getNext would return, without removing it (a transient one outlives the delay); the log and count do not change |
| TimeDelayQueues.TimeDelayQueue.GetPeakLoad | src/main/java/timedelayqueue/TimeDelayQueue.java:106-124 | the nested loops compute PeakLoad of the log; nothing changes |
| Scenarios.NothingBeforeTheDelay | src/test/java/timedelayqueue/Task1.java:24-34 | a message added and asked for within the delay is not handed out: getNext returns NO_MSG |
| Scenarios.VisibleAfterTheDelay | src/test/java/timedelayqueue/Task1.java:36-53 | after twice the delay getNext returns the message added, which was held until then and is not held afterwards |
| Scenarios.TransientInTime | src/test/java/timedelayqueue/Task1.java:74-93 | just after the delay, a transient message and a plain one both come out, in timestamp order, the first one added first on a tie |
| Scenarios.TransientLate | src/test/java/timedelayqueue/Task1.java:95-113 | after the transient message's lifetime, only the plain message comes out, and the transient one has been discarded |
| Scenarios.OnePromoted | src/test/java/timedelayqueue/Task1.java:43-51 | twice the delay after its arrival, a plain message is promoted |
| Scenarios.BothPromoted | src/test/java/timedelayqueue/Task1.java:83-92 | just after the delay, neither message has expired, and both are promoted in timestamp order, the first one added first on a tie |
| Scenarios.FirstDropped | src/test/java/timedelayqueue/Task1.java:104-112 | after the lifetime, the transient message is dropped and the plain one promoted |
| Scenarios.RefusedDuplicate | src/main/java/timedelayqueue/TimeDelayQueue.java:61-80 | a second add with the identifier of a held message is refused and not counted |
| Scenarios.PeekThenGetNext | src/main/java/timedelayqueue/TimeDelayQueue.java:87-96 | peek and then getNext at the same instant return the same message |
| Scenarios.DeliveredIsGone | src/main/java/timedelayqueue/TimeDelayQueue.java:87-96 | on any valid queue, a message getNext hands out (other than NO_MSG) is no longer found by getMsg |
| Scenarios.PeakOfBurst | src/test/java/timedelayqueue/Task2.java:123-155 | when every logged operation falls in one window, getPeakLoad counts them all |

## Left out

- Concurrency: `synchronized` on add, getNext and peek, and the multi-threaded tests (testTwoAdders, testPeakLoad). Calls are modelled one at a time. `Scenarios.PeakOfBurst` states the property testPeakLoad relies on, for a log already in time order.
- getNext reads the clock twice: once itself and once in updateQueues. The model uses one reading `now` for both. This only matters if the clock moves between the two readings.
- Every call requires that the wall clock does not run backwards (`NotBefore(now)`). With a clock that ran backwards, the log could fall out of time order, and a peak load computed from it would not be a window count.
- Integer width: timestamps, delay, lifetime, window and count are unbounded integers. Java's `int` and `long` overflow is not modelled (the count `msgProcessed` is an `int` widened to `long` by getTotalMsgCount).
- Order among equal timestamps: the priority queue is modelled as a sequence kept in timestamp order, where a new message goes after those with an equal timestamp. The contracts of GetNext and Peek return the head of that sequence, so they fix first-in-first-out order among equal timestamps. `java.util.PriorityQueue` is a binary heap and does not keep that order. After adding a, b and c with equal timestamps, it hands out a, then c, then b: moving c to the root when a leaves, the heap keeps it there because c does not compare greater than b. The model agrees with Java on every timestamp order, and on which timestamp comes out next; it does not capture the heap's order among ties. With two messages the heap keeps them in the order added, as the model does, so `Scenarios.TransientInTime` and `Scenarios.BothPromoted` allow equal timestamps.
- The class invariant `Consistent` keeps the count form of message conservation (`Counted`). The multiset form (`Accounted`) is proved for each state change separately (the `...KeepsAccounted` lemmas) and for a whole pass (`PromoteConservesMessages`). It is not part of `Valid()`.
- Defensive copies: `getTimestamp` and `getReceiver` return copies in Java. Values cannot be aliased in the model, so the getters return the stored values.
- Sub-millisecond order: timestamps are whole milliseconds, while `java.sql.Timestamp.compareTo` also compares the nanoseconds field; two messages in the same millisecond with different nanoseconds compare equal in the model but not in Java.
- Timestamp aliasing: the explicit-argument constructors (PubSubMessage.java:31 and :45) store the caller's `java.sql.Timestamp` object itself, not a copy; only the receiver list is copied (:35-36, :47). A caller that keeps that object can change a message's timestamp with `setTime` after construction, even while the message is in the priority queue, which then no longer holds its heap order. The model fixes the timestamp at construction, so it does not capture this aliasing, and `Sorted(ready)` holds in the model where the Java heap can be broken this way.
- `toString` is string formatting, not behaviour.
- `TimestampedObject` and the `MessageType` interface are represented only by the fields and getters they require.
- `Scenarios.TransientInTime` and `Scenarios.TransientLate` start from the queue state that the two adds of the test leave, rather than performing the adds themselves. testMsgCount (ten adds in a loop) and multipleAddRetrieves (the same as testBasicAddRetrieve_Delay) have no scenario of their own. The count property they check is the contract of `TimeDelayQueues.TimeDelayQueue.Add` and `GetTotalMsgCount`.
- The Twitter client, the Pheme service and the AES helper are network, orchestration and cryptographic-library code outside the queue. They are not part of this model.
