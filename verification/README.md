# PelicanQ, verified model

PelicanQ is a persistent message queue. Its engine keeps every queue in five ordered trees of an embedded
database (ready, in-flight, scheduled and dead-letter messages, and an index of deduplication keys) and moves
messages between them on publish, consume, ack, nack, promotion, retention and crash recovery. A snapshot of
the engine can be exported and restored, a Raft storage adaptor applies a replicated log to it, and an MQTT
bridge delivers from it.

None of the guarantees is stored anywhere as such. Delivery order follows from the byte encoding of keys and
the freshness of ids, exclusive delivery from the way tags are derived from keys, replica equality from the
determinism of the interpreter. This project models that code and proves those guarantees for all inputs and
over all runs.

## How the model is built

- `bytes.dfy`, `ordered_tree.dfy`, `message.dfy`, `encoding.dfy`: big-endian keys and their order, ordered trees,
  messages and their stored form.
- `engine.dfy`: every operation of the queue manager as a function on values. `runs.dfy`: runs of operations
  and restarts, with ids and clock readings recorded in the events.
- `queue_manager.dfy`, over `storage.dfy` and `draws.dfy`: the queue manager as the object it is, updating
  named trees in place with the loops of the original. Each method is proved to do to the whole database what
  the function of `engine.dfy` does to one queue.
- `well_formed.dfy`, `tags.dfy`, `lane_tags.dfy`, `delivery_order.dfy`, `lanes.dfy`, `memory_queue.dfy`,
  `everywhere.dfy`: invariants, tags, delivery order and the refinement of ten FIFO lanes.
- `conservation.dfy`, `recovery.dfy`, `accounting.dfy`, `answers.dfy`, `dedup.dfy`, `dead_letter.dfy`,
  `nack_history.dfy`, `scheduling.dfy`, `retention.dfy`: what holds over whole runs.
- `snapshot.dfy`, `return_order.dfy`, `renaming.dfy`, `bisimulation.dfy`, `restored_manager.dfy`, `pairing.dfy`,
  `restarts.dfy`: export, restore, and equality of behaviour up to renamed tags, restarts included.
  `restore_target.dfy`, `restored_tags.dfy`, `settled_tags.dfy`: what a restore asks of its target and of the
  id generator, and what becomes of tags settled before the snapshot.
- `state_machine.dfy`, `replica.dfy`, `log_runs.dfy`, `follower.dfy`, `catch_up.dfy`, `raft_log.dfy`,
  `raft_store.dfy`: the interpreter of replicated operations, logs as runs of the engine, agreement of replicas
  with and without a snapshot between them, the stored log and the storage adaptor.
- `mqtt.dfy`: packet identifiers of the MQTT bridge.

`dafny verify dfyconfig.toml` checks everything.

## What is taken as given

- A database tree is an ordered map from byte strings to values, iterated in byte order; a transaction is
  atomic. The order in which `list_queues` names the queues is arbitrary.
- The id generator never repeats and never goes back, also across restarts; it may leave gaps. What an
  exhausted 64-bit generator does is not modelled: where a result about the running object needs fresh ids it
  says that the mark of issued ids stays below 2^64.
- Clock readings are non-negative. One publish reads the clock up to three times and the readings are
  separate arguments. Results about time ask for a non-decreasing clock (`Runs.Timed`), and say so.
- Messages are stored in the layout of bincode 1 with its default options, which `encoding.dfy` writes out;
  its length does not depend on the number of attempts. `headers` are a list in the order the hash map yields
  them.
- Integers wrap where the original's do in a release build: attempts in 32 bits, times and ages in 64. Byte
  counts and `current_bytes * 100` are unbounded here.

Five hypotheses are not established by the code. Each is stated where it is needed:

- **Names.** Queue names must not shadow the trees of other queues or the two metadata trees
  (`Storage.CleanNames`). `Storage.TreesApartIff` shows this is exact for the queue trees.
- **Restored tags.** After a restore the new ids must be clear of the preserved in-flight tags
  (`Snapshots.TagsClear`), and so must what waits in the target. `RestoredTags.CollidesIff` shows this is exact:
  without it, and only without it, some later consume replaces an outstanding delivery. For equal behaviour
  through restarts the id of each ready message must also be above the preserved tags of its lane
  (`RestoredManager.DrawnAbove`). A generator above all preserved tags gives both
  (`RestoredManager.GeneratorAboveSuffices`).
- **Settled tags.** For clients that repeat a tag settled before the snapshot, the restoring node must start at
  or above the original's mark of issued ids. Then such a tag stands for itself in every later run
  (`SettledTags.RetiredTagsStandForThemselves`), and what is asked of restored tags holds as well
  (`SettledTags.GeneratorPastSuffices`).
- **Restore target.** It should be empty. `RestoreTarget.RestoreReplacesIff` shows exactly what must hold of
  the target for the result to be the snapshot. `install_snapshot` of the storage adaptor restores into the
  live manager without emptying it, so what was there survives.
- **Arithmetic.** Windows and ages in milliseconds fit in an i64.

## What turned out not to hold

- Replicas agree while none of them installs a snapshot (`Replica.ReplicasAgree`). One that does draws new
  ids, so it hands out other tags: batches of consumes agree exactly as far as it drew the same ids
  (`Follower.FollowerAgreesIff`), and an ack that the log carries by the original's tag fails on it at the
  first difference (`Follower.FollowerRefusesAck`). It gives the same answers on every later log without clock
  features exactly when it drew the same ids for all ready messages and draws the same id next
  (`CatchUp.FollowerFollowsIff`).
- A restored manager answers like the original as far as clients use tags they still hold
  (`RestoredManager.SnapshotPreservesBehaviour`, `Pairing.RestoredManagerFollows`). A client that repeats the ack
  of a tag settled before the snapshot is refused by the original for ever, but the restored manager may hand the
  number out again, exactly when it drew it for a ready message or has yet to draw it
  (`SettledTags.RetiredTagReturnsIff`). `SettledTags.RepeatedAckDeletes` is a case in which the repeated ack
  deletes another message; `SettledTags.SettledIsReached` reaches its original from an empty database.
- Through restarts the two behave alike exactly when each new id is above the preserved tags of its lane
  (`Restarts.RestartsAlikeIff`). `Restarts.RestartCanReorder` is a case in which the generator of the restoring
  node is behind a preserved tag; `Restarts.CollisionIsReached` reaches its original from an empty database.
- A range read misses an entry with index 2^64 - 1 (`RaftLog.RangeReadIsExactIff`).
- Byte order of schedule keys is time order only among times of one sign
  (`Bytes.ScheduledOrderIsTimeOrderIff`). All times a queue schedules are in the future of a non-negative
  clock, so the promotion results do not need it as a hypothesis.
- A message so old that its age does not fit in an i64 counts as young (`Retention.AgeTestIsExactIff`).
- The running byte counter lags behind a recount by eight bytes for every new deduplication key
  (`Accounting.CounterLagsByNewKeys`).
- MQTT identifiers wrap onto a delivery that is still unacknowledged after 65536 more
  (`Mqtt.OverwritesIff`). The counter also wraps to 0; nothing is claimed about the rule against 0 in
  section 2.3.1 of MQTT 3.1.1.

Where the documentation and the code differ, the code is modelled:

- `docs/architecture/storage.md` names the trees `queue:<name>:msgs` and so on; the code uses the bare name
  and the prefixes `inflight:`, `dlq:`, `scheduled:` and `dedup:`.
- The same file gives the ready tree an eight-byte key; the code uses nine bytes for every message.
- `docs/architecture/delivery-semantics.md` sends a message to the dead letters when its attempts exceed the
  limit; the code does so when they reach it.
- `docs/architecture/retention.md` says retention purges all trees; the code purges the ready tree only.

## Model

| member | source | states |
|---|---|---|
| `Bytes.KeyIdRoundTrip` | pelicanq-core/src/queue.rs:221-226 | a queue key gives back its priority class and its id |
| `Bytes.EncodeKeyOrder` | pelicanq-core/src/queue.rs:221-226 | of two queue keys the one of the higher priority number is smaller, all numbers from 9 on counting as one; at equal priority the order is that of the ids, and keys are equal only for equal priority and id |
| `Bytes.ScheduledKeyRoundTrip` | pelicanq-core/src/queue.rs:214-219 | a schedule key gives back its signed time and its id |
| `Bytes.EncodeScheduledKeyOrder` | pelicanq-core/src/queue.rs:214-219 | byte order of schedule keys is the order of the unsigned times, then of the ids |
| `Bytes.ScheduledOrderIsTimeOrderIff` | pelicanq-core/src/queue.rs:214-219 | for two different times, byte order of schedule keys is time order if and only if both times are negative or neither is |
| `Bytes.Be64Order` | pelicanq-core/src/queue.rs:508-512 | byte order of eight-byte tags is numeric order, and equal bytes mean equal tags |
| `OrderedTree.GetInsert` | pelicanq-core/src/queue.rs:376-382 | writing a key of a tree changes what is read under that key and under no other |
| `OrderedTree.GetRemove` | pelicanq-core/src/queue.rs:508-513 | removing a key makes it absent and leaves every other key as it was |
| `Broker.QueueManager.constructor` | pelicanq-core/src/queue.rs:75-97 | a fresh directory holds no queues, no bytes and no issued id |
| `Broker.QueueManager.GenerateId` | pelicanq-core/src/queue.rs:355-358 | the id drawn is the next one of the generator and is recorded as issued |
| `Broker.QueueManager.Declare` | pelicanq-core/src/queue.rs:234-274 | an existing name is refused without any change; a new one adds exactly one empty queue with its policy |
| `Broker.QueueManager.RecordDedupKey` | pelicanq-core/src/queue.rs:391-409 | the index of that queue maps the key to the reading when deduplication is configured and a key is given; nothing else changes |
| `Broker.QueueManager.Publish` | pelicanq-core/src/queue.rs:283-387 | state and answer of the engine publish: unknown queue, duplicate, over the limit, scheduled or ready; every other queue untouched |
| `Broker.QueueManager.Consume` | pelicanq-core/src/queue.rs:414-490 | state and answer of the engine consume: the first entry in key order moves to the in-flight tree under its id, or nothing changes |
| `Broker.QueueManager.Ack` | pelicanq-core/src/queue.rs:493-520 | state and answer of the engine ack: exactly the tagged entry goes, the counter falls by its size, an unknown tag changes nothing |
| `Broker.QueueManager.Nack` | pelicanq-core/src/queue.rs:526-608 | state and answer of the engine nack: attempts grow by one, the message goes to the dead letters or back to the ready tree under a fresh id |
| `Broker.QueueManager.RecalculateBytes` | pelicanq-core/src/queue.rs:100-150 | the loops over all queues and their five trees sum to the recount |
| `Broker.QueueManager.CollectDue` | pelicanq-core/src/queue.rs:651-674 | the scan with its early break collects the leading entries whose time has come |
| `Broker.QueueManager.PromoteScheduled` | pelicanq-core/src/queue.rs:632-707 | state and answer of the engine promotion with the ids drawn one after the other |
| `Broker.QueueManager.CollectExpired` | pelicanq-core/src/queue.rs:785-804 | the keys collected are those of the expired entries, in order |
| `Broker.QueueManager.CollectFirst` | pelicanq-core/src/queue.rs:813-828 | the keys collected are those of the first excess entries |
| `Broker.QueueManager.RemoveKeys` | pelicanq-core/src/queue.rs:806-809 | the collected keys are removed one by one and nothing else changes |
| `Broker.QueueManager.ApplyRetention` | pelicanq-core/src/queue.rs:757-843 | state and answer of the engine retention pass, recount included |
| `Broker.QueueManager.RecoverQueue` | pelicanq-core/src/queue.rs:157-194 | one queue: all in-flight messages are inserted under fresh ids in tag order, then all in-flight entries are removed |
| `Broker.QueueManager.RecoverInflight` | pelicanq-core/src/queue.rs:154-196 | every queue is recovered, whatever the order in which they are listed; the queues draw their ids one after the other |
| `Broker.QueueManager.Reopen` | pelicanq-core/src/queue.rs:75-97 | reopening sets the limit, recounts, then recovers every queue |
| `Broker.QueueManager.ExportSnapshot` | pelicanq-core/src/snapshot.rs:40-124 | the snapshot is the exported value of every queue: policy, message lists in tree order, tagged in-flight list |
| `Broker.QueueManager.RestoreOne` | pelicanq-core/src/snapshot.rs:136-233 | one queue of a snapshot is written into whatever is there, in the order main, scheduled, in-flight, dead letters, under ids drawn in that order |
| `Broker.QueueManager.RestoreFromSnapshot` | pelicanq-core/src/snapshot.rs:130-238 | all queues of a snapshot are written and the byte counter is recounted; queues not in the snapshot are untouched |
| `Broker.ReopenIsAdmissible` | pelicanq-core/src/queue.rs:175-187 | the ids a restart draws are fresh, ascending in each queue and shared by no two, which makes it an admissible step of a run, until 64-bit ids run out |
| `Broker.RestoreDrawsFresh` | pelicanq-core/src/snapshot.rs:172-176 | the ids a restore draws are ascending, fresh and below the new mark, until 64-bit ids run out |
| `Broker.ExpiredAreRemoved` | pelicanq-core/src/queue.rs:785-810 | removing the collected expired keys one by one leaves exactly the entries that are not expired |
| `Storage.TreesApartIff` | pelicanq-core/src/queue.rs:198-212 | distinct queue and kind always mean distinct tree names if and only if no declared name is another declared name behind one of the four prefixes |
| `Storage.UnreservedNamesAreSafe` | pelicanq-core/src/queue.rs:198-212 | names without a reserved prefix never share a tree |
| `Storage.ShadowedQueueSharesATree` | pelicanq-core/src/queue.rs:198-200 | a queue named after the in-flight tree of another has that tree as its main tree |
| `Storage.PutChangesOneTree` | pelicanq-core/src/queue.rs:376-382 | writing one message tree of one queue changes that tree and nothing else in any queue |
| `Storage.PutTimesChangesOneTree` | pelicanq-core/src/queue.rs:399-406 | writing the deduplication index of one queue changes nothing else in any queue |
| `Storage.NewQueue` | pelicanq-core/src/queue.rs:249-272 | creating the trees of a new name adds one empty queue and changes no other |
| `Runs.OthersUntouched` | pelicanq-core/src/queue.rs:283-843 | an operation on one queue leaves every other queue as it was: all trees and the policy |
| `Runs.UntouchedOverRuns` | pelicanq-core/src/queue.rs:283-843 | a queue no operation of a run names is unchanged over the whole run |
| `Runs.EventSplits` | pelicanq-core/src/queue.rs:75-843 | every operation or restart acts on each queue by one change of that queue, and only a declaration adds a queue |
| `WellFormed.StepKeepsOk` | pelicanq-core/src/queue.rs:75-843 | every operation and restart keeps: trees in key order, keys that fit their messages, ids of ready and in-flight messages issued and pairwise distinct |
| `WellFormed.RunKeepsOk` | pelicanq-core/src/queue.rs:75-843 | the same over every run, including restarts |
| `Tags.DeliverySpends` | pelicanq-core/src/queue.rs:449-468 | a consume never overwrites an in-flight entry: the tag is absent before, holds the delivered message after, and is spent |
| `Tags.SpentForever` | pelicanq-core/src/queue.rs:449-468 | a delivered tag never waits again, through any run with restarts |
| `LaneTags.ChangeKeepsLaneTags` | pelicanq-core/src/queue.rs:154-843 | every change of a queue keeps the outstanding tags of a lane older than the ids waiting in it |
| `LaneTags.RunKeepsLaneTags` | pelicanq-core/src/queue.rs:75-843 | so every run from an empty database has that throughout, restarts included |
| `Tags.TagDeliveredOnce` | pelicanq-core/src/queue.rs:414-490 | no tag is delivered twice in one queue, over any run with restarts |
| `Tags.SettledTagStaysInvalid` | pelicanq-core/src/queue.rs:493-608 | a tag once acked, nacked or recovered is invalid for ack and nack for ever, including after restarts |
| `DeliveryOrder.InsertIsEnqueue` | pelicanq-core/src/queue.rs:376-382 | inserting under a fresh id places the message behind its own and higher lanes and before lower ones |
| `DeliveryOrder.InsertIsSchedule` | pelicanq-core/src/queue.rs:360-374 | a scheduled message goes behind everything due no later and before the rest |
| `DeliveryOrder.DueScanIsExact` | pelicanq-core/src/queue.rs:651-674 | the scan with early break splits the schedule into exactly the due and the not yet due messages |
| `DeliveryOrder.DeliveredIsMostUrgent` | pelicanq-core/src/queue.rs:411-447 | in every run a consume delivers a waiting message such that none has a higher priority number, counted up to 9, and every other of equal priority has a later id |
| `Lanes.TreeIsInTagOrder` | pelicanq-core/src/queue.rs:166-169 | iterating the in-flight tree yields the outstanding messages by increasing tag |
| `Lanes.FrontIsHighest` | pelicanq-core/src/queue.rs:437-447 | the first entry of the ready tree is the head of the highest non-empty lane |
| `Lanes.StepImplements` | pelicanq-core/src/queue.rs:154-608 | one operation on the trees is one step of ten FIFO lanes, a tag map, a schedule and a dead-letter list, with a permitted answer: a publish that is no duplicate is stored if it fits under the byte limit and refused if not |
| `Lanes.RunImplements` | pelicanq-core/src/queue.rs:154-843 | the trees refine the lane machine over every run, restarts included: answers permitted, states equal |
| `MemoryQueue.Queue.constructor` | pelicanq-core/src/queue.rs:30-35 | a new in-memory queue is empty |
| `MemoryQueue.Queue.Publish` | pelicanq-core/src/queue.rs:42-44 | the message is appended at the back |
| `MemoryQueue.Queue.Consume` | pelicanq-core/src/queue.rs:47-49 | the front message is removed and returned, or nothing when empty |
| `MemoryQueue.DepthBalances` | pelicanq-core/src/queue.rs:52-54 | over every run, the depth of the in-memory queue is what it held plus what was published minus what was consumed |
| `MemoryQueue.AgreesWithMemoryQueue` | pelicanq-core/src/queue.rs:24-55 | while a queue gets only immediate publishes of one priority without deduplication keys, consumes and acks, and there is no byte limit, the engine delivers exactly what the in-memory queue delivers, over every run and whatever happens to other queues |
| `Conservation.ChangeConserves` | pelicanq-core/src/queue.rs:154-843 | each change of a queue conserves every weight that ignores delivery attempts: stored messages come in, acked and dropped ones go out |
| `Conservation.RunConserves` | pelicanq-core/src/queue.rs:154-843 | over every run, what a queue holds plus what was acked plus what retention dropped equals what it held plus what was stored, for every such weight |
| `Conservation.EveryMessageIsAccountedFor` | pelicanq-core/src/queue.rs:154-843 | the same as a count of copies of any one message, attempts ignored: nothing is lost or duplicated |
| `Recovery.NothingLost` | pelicanq-core/src/queue.rs:154-196 | stopped after any prefix of its writes and reopened, any number of times, recovery never holds less of any message than was ready or in flight |
| `Recovery.CompletedRecoveryDeliversAll` | pelicanq-core/src/queue.rs:154-196 | a completed recovery leaves nothing in flight and at least every copy in the ready tree, exactly every copy when no crash occurred |
| `Recovery.OtherTreesKept` | pelicanq-core/src/queue.rs:154-196 | schedule, dead letters, index and policy are untouched at every point of recovery |
| `Recovery.UninterruptedIsRecover` | pelicanq-core/src/queue.rs:171-194 | the write-by-write recovery without a crash ends in the recovered queue of the engine |
| `Accounting.RecountSplits` | pelicanq-core/src/queue.rs:100-150 | the recount is the bytes of all messages plus eight for every deduplication key |
| `Accounting.AckNeverSaturates` | pelicanq-core/src/queue.rs:514-517 | the saturating subtraction of an ack never saturates |
| `Accounting.CounterLagsByNewKeys` | pelicanq-core/src/queue.rs:93-150 | over every run, the recount exceeds the running counter by exactly eight bytes for every key first recorded since the last recount |
| `Accounting.LimitHolds` | pelicanq-core/src/queue.rs:335-351 | with a byte limit, the bytes of stored messages never exceed it once they start at or below it |
| `Answers.PublishAnswerIs` | pelicanq-core/src/queue.rs:283-387 | a publish to a declared queue is a duplicate if a window above zero is set and its key was recorded less than that ago; else it is refused if the counter and its length exceed the limit, naming the percentage used, and stored otherwise |
| `Answers.UsedPctIsPercent` | pelicanq-core/src/queue.rs:340-347 | the percentage is rounded down and cut to eight bits, exact while the counter is within the limit, and 100 for a limit of zero |
| `Answers.RefusedIff` | pelicanq-core/src/queue.rs:335-351 | over every run from an exact counter, a publish that is no duplicate is refused if and only if a limit is in force and all stored messages, the keys known at the last recount and this message exceed it |
| `Answers.LimitIsTheLastGiven` | pelicanq-core/src/queue.rs:75-97 | the limit in force is the one given at the last restart |
| `Answers.DeclareIsExact` | pelicanq-core/src/queue.rs:234-274 | a declaration of a new name succeeds and adds one queue with its policy and nothing in it; of a known name it is refused and changes nothing |
| `Answers.ExistsIffDeclared` | pelicanq-core/src/queue.rs:234-274 | in every run from an empty manager a queue exists if and only if its name was declared, and keeps the policy of the first declaration |
| `Answers.UnknownQueueIsRefused` | pelicanq-core/src/queue.rs:283-608 | every other operation on an unknown name is refused under that name and changes nothing |
| `Answers.UnknownTagIsRefused` | pelicanq-core/src/queue.rs:493-608 | an ack or nack of a tag that is not outstanding is refused under that tag and touches no queue and no counter; the nack has drawn an id all the same |
| `Answers.RestoreRecounts` | pelicanq-core/src/snapshot.rs:233-238 | after a restore the counter is exact, whatever it was before |
| `Encoding.EncodedLenIsLength` | pelicanq-core/src/message.rs:32-50 | the bytes counted for a message are the length of its stored form |
| `Encoding.DecodeEncode` | pelicanq-core/src/message.rs:32-50 | reading the stored form of a message gives the message back |
| `Dedup.IndexIsLastRecord` | pelicanq-core/src/queue.rs:391-409 | over every run the index holds the last recorded time of each key |
| `Dedup.NoWindowNoRecord` | pelicanq-core/src/queue.rs:391-409 | over every run a queue without a window records no key |
| `Dedup.DeduplicatedIff` | pelicanq-core/src/queue.rs:298-332 | a publish is answered Deduplicated if and only if an earlier stored publish of that key to that queue was recorded less than the window ago |
| `Dedup.StoredKeysAreSpaced` | pelicanq-core/src/queue.rs:298-332 | two stored publishes of one key are recorded at least the window apart |
| `Dedup.RejectedPublishChangesNothing` | pelicanq-core/src/queue.rs:306-351 | a duplicate or over-limit publish changes nothing at all |
| `DeadLetter.NackIsExact` | pelicanq-core/src/queue.rs:526-608 | for every policy, a nack of an outstanding delivery ends it and appends the message, one attempt higher, to the dead letters if a limit other than zero is set and reached, and to its lane otherwise; nothing else changes |
| `DeadLetter.NoLimitNoDeadLetters` | pelicanq-core/src/queue.rs:585-592 | over every run a queue without a limit, or with the limit zero, never adds a dead letter |
| `DeadLetter.ChangeDrains` | pelicanq-core/src/queue.rs:414-608 | with a limit of attempts, a consume uses up exactly one remaining delivery, a nack none, and no ack, nack or retention adds one |
| `DeadLetter.DrainTerminates` | pelicanq-core/src/queue.rs:414-608 | without publish, promotion or restart, deliveries are bounded by the attempts left, over every run |
| `DeadLetter.RunKeepsAttempts` | pelicanq-core/src/queue.rs:566-594 | over every run, ready and in-flight messages are below the limit and dead letters are at it |
| `NackHistory.AttemptsCountNacks` | pelicanq-core/src/queue.rs:566-594 | over every run, the attempts of a message are the successful nacks of it |
| `NackHistory.DeadLettersWereNackedToTheLimit` | pelicanq-core/src/queue.rs:578-590 | a dead letter was nacked exactly as often as the limit says |
| `NackHistory.DeadLetterRemains` | pelicanq-core/src/queue.rs:414-843 | a dead letter stays in the dead-letter tree through every operation and restart |
| `NackHistory.DeadLetterIsNeverDelivered` | pelicanq-core/src/queue.rs:414-490 | no later consume delivers a message that is a dead letter |
| `Scheduling.PromotionIsExact` | pelicanq-core/src/queue.rs:632-707 | promotion moves all and only the due messages, returns their number, and appends them to each lane in the order of time, then id |
| `Scheduling.NeverEarly` | pelicanq-core/src/queue.rs:360-387 | with a non-decreasing clock, no ready, in-flight or dead message is ahead of its delivery time, over every run |
| `Scheduling.DeliveriesAreDue` | pelicanq-core/src/queue.rs:414-490 | every consumed message has no delivery time or one that has passed |
| `Retention.RetentionIsExact` | pelicanq-core/src/queue.rs:757-843 | retention keeps precisely the young messages, then the last of them in delivery order, in their order; other trees and queues untouched; the answer is the size difference |
| `Retention.AgeTestIsExactIff` | pelicanq-core/src/queue.rs:785-804 | the age test is the intended one if and only if the age fits in an i64 |
| `Messages.MillisOfWraps` | pelicanq-core/src/queue.rs:326-327 | seconds turned into milliseconds keep the low 64 bits of the product, for every number of seconds |
| `Retention.YoungerIff` | pelicanq-core/src/queue.rs:785-810 | every copy of a message survives the age pass unless it is expired, and none is added |
| `Retention.ExcessIsFront` | pelicanq-core/src/queue.rs:813-836 | of the messages the age pass leaves, those dropped for number stand before all that are kept: higher lane, or same lane and older id |
| `Snapshots.QueueRoundTrip` | pelicanq-core/src/snapshot.rs:40-238 | export and restore into an empty queue give back the policy, the order of every list and the in-flight tree with its tags; the index starts empty |
| `Snapshots.RestoredOkIff` | pelicanq-core/src/snapshot.rs:200-214 | a restored queue satisfies the engine invariant if and only if the preserved tags are below the generator and differ from the new ids |
| `RestoreTarget.LiveRestoreOkIff` | pelicanq-core/src/snapshot.rs:127-232 | restored into any queue, the result satisfies the engine invariant if and only if the new ids are clear of the preserved tags and no message waiting in the target has the number of one |
| `RestoredTags.CollidesIff` | pelicanq-core/src/snapshot.rs:200-214 | restored into any manager, some later run consumes onto an outstanding tag if and only if that condition fails, be the tag waiting in the target, drawn during the restore or drawn by a later publish |
| `RestoreTarget.TargetMustBeEmpty` | pelicanq-core/src/snapshot.rs:127-232 | restored into any queue, each list is the exported one if and only if that tree of the target was empty, and the in-flight tree if and only if every tag there is among the preserved ones |
| `RestoreTarget.RestoreReplacesIff` | pelicanq-core/src/snapshot.rs:130-238 | restoring into any manager and exporting again gives the snapshot if and only if the manager holds no other queue and each of its queues meets that condition |
| `RestoreTarget.OthersSurviveRestore` | pelicanq-core/src/snapshot.rs:136-233 | a queue the snapshot does not name survives a restore as it was |
| `RestoreTarget.RestoredSlotIs` | pelicanq-core/src/snapshot.rs:182-198 | into any target, each scheduled message is restored under its delivery time, or under the clock reading if it has none, and its new id |
| `Snapshots.ConsumeKeepsDeliveriesIff` | pelicanq-core/src/queue.rs:449-468 | a consume adds a delivery if and only if its tag is not already outstanding; otherwise it replaces one |
| `Snapshots.RestoreCanLoseADelivery` | pelicanq-core/src/snapshot.rs:200-214 | when a preserved tag is drawn again for a ready message, the first consume after restore replaces the outstanding delivery |
| `Bisimulation.SameEventSameReply` | pelicanq-core/src/queue.rs:283-843 | two managers alike up to a renaming of tags give the same answer to the same operation, up to the renaming |
| `Bisimulation.StepStaysAlike` | pelicanq-core/src/queue.rs:75-843 | and they stay alike under every operation, and under a restart if they are aligned: tags of each lane in the same order and older than what waits there |
| `Bisimulation.StepStaysAligned` | pelicanq-core/src/queue.rs:75-843 | aligned managers stay aligned under every operation and every restart |
| `Renamings.AlignedReturnsAlike` | pelicanq-core/src/queue.rs:154-196 | aligned queues return their outstanding messages in the same order within each lane |
| `Pairing.EveryOperationHasAMatch` | pelicanq-core/src/queue.rs:283-843 | until 64-bit ids run out, every operation on one manager has a matching one on the other; a tag the first never handed out is matched by the same number unless the second has handed that out |
| `Pairing.EveryRestartHasAMatch` | pelicanq-core/src/queue.rs:75-97 | and so has every restart, with an id of its own for every outstanding message of every queue |
| `Pairing.EveryRunHasAPair` | pelicanq-core/src/queue.rs:75-843 | every run, restarts included, can be followed step by step by a manager that is alike, to its end or as far as the ids last, drawing no more ids than the run needs |
| `Bisimulation.RunsStayAlike` | pelicanq-core/src/queue.rs:75-843 | over every pair of runs of the same operations the managers stay alike and the renaming only grows; with restarts if they start aligned |
| `Bisimulation.RunsReplyAlike` | pelicanq-core/src/queue.rs:75-843 | and every pair of answers is the same, up to the renaming |
| `RestoredManager.RestoredManagerIsAlike` | pelicanq-core/src/snapshot.rs:40-238 | an exported and restored manager is alike to the original, preserved tags keeping their names |
| `RestoredManager.RestoredLaneTagsIff` | pelicanq-core/src/snapshot.rs:165-214 | in a restored queue outstanding tags are older than what waits in their lane if and only if every id drawn for a ready message is above the preserved tags of its lane |
| `RestoredManager.GeneratorAboveSuffices` | pelicanq-core/src/snapshot.rs:165-214 | a generator above all preserved tags gives that, and ids clear of the tags |
| `RestoredManager.RestoredManagerIsAligned` | pelicanq-core/src/snapshot.rs:40-238 | under that condition the restored manager is aligned with the original |
| `RestoredManager.SnapshotPreservesBehaviour` | pelicanq-core/src/snapshot.rs:40-238 | over every pair of runs of the same operations, the restored manager delivers the same messages in the same order with the same outcomes, tags outstanding at the snapshot keeping their names; restarts included under that condition, checked at the restore |
| `Pairing.RestoredManagerFollows` | pelicanq-core/src/snapshot.rs:40-238 | every run of the original after the snapshot can be followed by the restored manager as far as its ids last, every step answered alike |
| `SettledTags.RetiredTagReturnsIff` | pelicanq-core/src/snapshot.rs:200-214 | a tag settled before the snapshot is outstanding in some run of the restored manager if and only if it was drawn for a ready message or is at or above the new mark |
| `SettledTags.RepeatedAckDeletes` | pelicanq-core/src/snapshot.rs:165-214 | a case: the repeated ack of a settled tag, refused by the original, deletes another message of the restored manager |
| `SettledTags.SettledIsReached` | pelicanq-core/src/queue.rs:234-532 | the original of that case is reached from an empty database |
| `SettledTags.GeneratorPastSuffices` | pelicanq-core/src/snapshot.rs:165-214 | a restoring node at or above the mark of the original gives ids clear of the preserved tags and above those of their lanes |
| `SettledTags.RetiredTagsStandForThemselves` | pelicanq-core/src/snapshot.rs:40-238 | and then every tag settled before the snapshot stands for itself throughout all paired runs |
| `Snapshots.RestoredLayout` | pelicanq-core/src/snapshot.rs:165-179 | the restored ready tree holds the exported messages in order, each under the id drawn for it |
| `Follower.FollowerAgreesIff` | pelicanq-raft/src/storage.rs:408-418 | for every batch size, a replica that installed a snapshot answers a batch of consumes as the original does if and only if the ids it drew for the messages delivered are their ids at the original |
| `Follower.FollowerRefusesAck` | pelicanq-raft/src/storage.rs:408-418 | the replicated ack of the first delivery on which they differ succeeds at the original and fails at that replica |
| `CatchUp.OperationStaysClose` | pelicanq-raft/src/state_machine.rs:11-70 | managers equal but for deduplication indices, dead letters and the byte counter, with generators that draw the same id next, answer a clock-free operation alike and stay so |
| `CatchUp.FollowerFollows` | pelicanq-raft/src/storage.rs:360-443 | a replica that drew the ids of the ready messages at the original and draws the same id next gives the same answer to every entry of every clock-free log that follows, under any clocks and any cutting; with the ids of the dead letters it also ends with the same dead letters |
| `CatchUp.FollowerFollowsIff` | pelicanq-raft/src/storage.rs:360-443 | a replica that installed a snapshot gives the same answers on every clock-free log if and only if it drew the ids of all ready messages at the original and draws the same id next |
| `Restarts.RestartsAlikeIff` | pelicanq-core/src/queue.rs:154-196 | for unlike messages, a restart after any number of deliveries returns each lane in the same order at original and restored queue if and only if every id drawn for a ready message is above the preserved tags of its lane |
| `Restarts.RestartCanReorder` | pelicanq-core/src/queue.rs:154-196 | when a restoring node draws an id below a preserved tag of the lane, though clear of it, a restart returns the two messages in another order |
| `Restarts.CollisionIsReached` | pelicanq-core/src/queue.rs:283-490 | the original of that case is reached from an empty database by two publishes with a consume between them |
| `StateMachine.ConsumeBatchTakesTheFront` | pelicanq-raft/src/state_machine.rs:42-52 | a batch delivers the first messages in delivery order, as many as asked for or as there are, and leaves the rest |
| `StateMachine.FailedBatchKeepsPrefix` | pelicanq-raft/src/state_machine.rs:28-37 | a failed batch publish leaves exactly the state of publishing the messages before the failing one |
| `RaftStorage.PublishBatch` | pelicanq-raft/src/state_machine.rs:28-37 | the publishing loop does what the specified batch does, early error return included |
| `RaftStorage.ConsumeBatch` | pelicanq-raft/src/state_machine.rs:42-52 | the consuming loop does what the specified batch does, early stop included |
| `RaftStorage.ApplyOperation` | pelicanq-raft/src/state_machine.rs:11-70 | every replicated operation does to the manager what the interpreter specifies, with its answer |
| `LogRuns.OperationIsARun` | pelicanq-raft/src/state_machine.rs:11-70 | until 64-bit ids run out, every replicated operation is a run of the engine of exactly the events it stands for, one for each message of a batch up to the first error or empty answer, and its answer is made of their replies |
| `LogRuns.LogIsARun` | pelicanq-raft/src/storage.rs:360-396 | applying a log is a run of the engine: cut by entries, its events carry out the operations, its replies make the answers, and it ends where the replica ends |
| `LogRuns.LogDeliversTagOnce` | pelicanq-raft/src/storage.rs:360-396 | over a whole log, single and batch consumes together hand out each tag of a queue at most once |
| `LogRuns.LogKeepsOk` | pelicanq-raft/src/storage.rs:360-396 | every log keeps the engine invariant |
| `Replica.OperationWithoutClock` | pelicanq-raft/src/state_machine.rs:11-70 | an operation without clock features has one outcome, whatever the clock reads |
| `Replica.ChunksAreTheLog` | pelicanq-raft/src/storage.rs:360-396 | applying batches one after the other is applying the whole log |
| `Replica.ReplicasAgree` | pelicanq-raft/src/storage.rs:360-396 | replicas with equal state and generator, any clocks and any cutting of the same log end in equal state with equal answers to every entry |
| `LogRuns.OperationKeepsOk` | pelicanq-raft/src/state_machine.rs:11-70 | every replicated operation keeps the engine invariant, until 64-bit ids run out |
| `Replica.AppliedIsRecorded` | pelicanq-raft/src/storage.rs:367-393 | after a log the id of its last entry is recorded as applied and its last membership entry, with its id, as the membership, or what was recorded before if there is none; every entry is answered |
| `RaftStorage.RaftStore.constructor` | pelicanq-raft/src/storage.rs:101-130 | a new store has an empty log and nothing applied |
| `RaftStorage.RaftStore.Reopen` | pelicanq-raft/src/storage.rs:101-130 | opening an existing store keeps the log and what was applied, forgets the stored snapshot and recovers the queue manager |
| `RaftStorage.RaftStore.TryGetLogEntries` | pelicanq-raft/src/storage.rs:134-167 | the range scan returns the entries with index from the start bound up to the end bound as the code computes them |
| `RaftStorage.RaftStore.GetLogState` | pelicanq-raft/src/storage.rs:227-253 | the last purged id, and the last id of the tree or else the last purged one |
| `RaftStorage.RaftStore.AppendToLog` | pelicanq-raft/src/storage.rs:269-288 | the entries are written under their indices in turn |
| `RaftStorage.RaftStore.CollectKeys` | pelicanq-raft/src/storage.rs:295-302 | the keys collected are those of the entries in the inclusive index range |
| `RaftStorage.RaftStore.DeleteConflictLogsSince` | pelicanq-raft/src/storage.rs:290-314 | exactly the entries before the index remain |
| `RaftStorage.RaftStore.PurgeLogsUpto` | pelicanq-raft/src/storage.rs:316-341 | exactly the entries after the index remain, and the id is recorded as purged |
| `RaftStorage.RaftStore.ApplyToStateMachine` | pelicanq-raft/src/storage.rs:360-396 | the loop applies every entry in order with one answer each; the last id is recorded as applied and the last membership entry as the membership |
| `RaftStorage.RaftStore.BuildSnapshot` | pelicanq-raft/src/storage.rs:171-220 | the stored snapshot is the export with the applied id and membership |
| `RaftStorage.RaftStore.InstallSnapshot` | pelicanq-raft/src/storage.rs:408-443 | the snapshot is written over the live manager and its applied id and membership are taken over |
| `RaftLog.RangeReadIsExactIff` | pelicanq-raft/src/storage.rs:140-166 | a range read returns exactly the entries asked for if and only if none of them has the largest 64-bit index |
| `RaftLog.ReadsTheLog` | pelicanq-raft/src/storage.rs:134-167 | with indices below that, every combination of bounds reads exactly the wanted entries of the log, in order |
| `RaftLog.LogStateIsTrue` | pelicanq-raft/src/storage.rs:227-253 | the reported last id is the true end of the log, also when every entry is purged |
| `RaftLog.KeysAreOneInterval` | pelicanq-raft/src/storage.rs:269-341 | the stored keys are one interval right after the last purged index |
| `RaftLog.AppendHolds` | pelicanq-raft/src/storage.rs:269-288 | a contiguous append keeps tree and log in correspondence |
| `RaftLog.TruncateHolds` | pelicanq-raft/src/storage.rs:290-314 | so does a truncation |
| `RaftLog.PurgeHolds` | pelicanq-raft/src/storage.rs:316-341 | so does a purge, up to an entry of the log or past its end |
| `RaftLog.RunHolds` | pelicanq-raft/src/storage.rs:269-341 | after every run of disciplined calls the keyed tree holds exactly the contiguous log |
| `Mqtt.Connection.constructor` | pelicanqd/src/mqtt/handler.rs:222-223 | a connection starts at identifier 1 with nothing waiting |
| `Mqtt.Connection.Outgoing` | pelicanqd/src/mqtt/handler.rs:250-263 | a delivery goes out under the next identifier, which wraps, and waits under it |
| `Mqtt.Connection.PubAck` | pelicanqd/src/mqtt/handler.rs:374-378 | the delivery waiting under the identifier is taken out and acknowledged; an unknown identifier does nothing |
| `Mqtt.NextPkid` | pelicanqd/src/mqtt/handler.rs:253-254 | over every run, delivery number n goes out under n + 1 modulo 65536 |
| `Mqtt.OverwritesIff` | pelicanqd/src/mqtt/handler.rs:263-263 | a delivery overwrites a waiting one if and only if the delivery 65536 before it is unacknowledged |
| `Mqtt.NothingOverwrittenIff` | pelicanqd/src/mqtt/handler.rs:250-263 | no delivery ever overwrites a waiting one if and only if at every delivery each unacknowledged one is at most 65535 deliveries old |
| `Mqtt.RoutingIsExact` | pelicanqd/src/mqtt/handler.rs:374-378 | under that condition a PUBACK leads to an ack of exactly the unacknowledged delivery sent under its identifier, and to none when there is no such delivery |
| `Mqtt.OneDeliveryPerIdentifier` | pelicanqd/src/mqtt/handler.rs:250-263 | under that condition at most one delivery is unacknowledged under an identifier |
| `Mqtt.AcknowledgedAtMostOnce` | pelicanqd/src/mqtt/handler.rs:374-378 | in any run, an ack attempt is for one earlier delivery sent under that identifier, and no delivery is attempted twice |

## Left out

- Raft elections, replication and commit live in the openraft library; `RaftLog.Disciplined` states how it is expected to call the store.
- HTTP, gRPC, admin, SDK and cluster configuration: type conversion and request handling around the engine, out of scope here.
- Database internals, flushing, and the bytes of policies, log entries and JSON snapshots; errors of the database and of decoding are therefore not among the outcomes.
- A crash between storing a message and recording its deduplication key, and between applying an entry and recording it as applied: each pair is one step here.
- A crash inside promotion, restore or a retention pass: these are one step here; recovery is modelled write by write.
- The snapshot counter and the snapshot id made from it, and `begin_receiving_snapshot` and `get_current_snapshot`.
- Votes, and `last_applied_state`, which read back what was written.
- Equality of replicas across a restart: reopening one replica recovers its in-flight messages on that node only.
- Deduplication across a restore: the index is deliberately not exported.
- `StorageWatermarks`: nothing in the engine uses it.
- The retry loop of `consume`: the manager is borrowed exclusively, so the transaction on the first key cannot abort.
- The getters `depth`, `scheduled_depth`, `dead_letter_count` and `list_queues`, and setters of message fields.
- MQTT subscriptions, pollers, topics and incoming publishes; a failing write ends the connection and is not modelled.
- RaftStorage.RaftStore.InstallSnapshot: asks for names that do not shadow trees, as `Declare` does; a snapshot without a last log id is stored like any other; the code writes it so that reading it back fails.
- RestoredManager.SnapshotPreservesBehaviour: publishes carry no deduplication key and there is no byte limit, as deduplication keys are not part of a snapshot and the counter is recounted by a restore; a tag settled before the snapshot is among those compared only if the restored manager has not handed it out again, for which `SettledTags.RetiredTagsStandForThemselves` gives a condition.
- Pairing.RestoredManagerFollows: the same, and only as far as 64-bit ids last.
- Broker.QueueManager.Consume: update of two trees in one transaction is two writes of the object's fields with nothing in between.
- Broker.QueueManager.Declare: asks for names that do not shadow trees; the code accepts any name, and two queues that share a tree are not modelled beyond `Storage.ShadowedQueueSharesATree`.
- Broker.QueueManager.RestoreOne: asks for names that do not shadow trees, as `Declare` does.
- Broker.QueueManager.RestoreFromSnapshot: asks for names that do not shadow trees, as `Declare` does.
- RaftStorage.ApplyOperation: asks for names that do not shadow trees, as `Declare` does.
- RaftStorage.RaftStore.ApplyToStateMachine: asks for names that do not shadow trees, as `Declare` does.
- RaftStorage.RaftStore.BuildSnapshot: does not model the snapshot id, because the counter it is made from does not survive being written and read back.
- Restarts.RestartsAlikeIff: asks for ready messages unlike each other and those in flight, which message identifiers ensure; equal messages may trade places unseen.
- Encoding.DecodeEncode: asks for an identifier of sixteen bytes and for lengths below 2^64, which every message in memory has.
