# Verified models of the personal WeChat bot

A Dafny model of five parts of the bot that keep state which must not go wrong, and proofs of what each of
them keeps over whole runs.

1. **Delivery of multi-part replies** (`SendParts`, `QueueProjection`, `LedgerProjection`, `TaskProjection`,
   `SendSync`, `LockStep`, `LockStepRuns`, `DeliveryAgreement`, `DeliverySafety`, `DeliveryConvergence`,
   `SummaryTexts`, `RetryFencing`, `ItemOutcomes`, `RecordOutcomes`, `TaskOutcomes`, `LateAcks`,
   `LockStepRetries`, `RetryOutcomes`, `FencedRuns`, `TaskRetries`).
   One reply becomes text and file parts; bridge acks for them arrive in any order and any number of times and
   are folded into three separately coded projections: the confirm-queue item, the ledger record and the send
   tasks. A retry replaces bridge ids throughout. `SendSync.SendStores` is the imperative form; `SyncAck` and
   `SyncRetry` are the functions it is proved against, and the theorems are about runs of those. The three
   `Outcomes` modules say field by field what one ack or retry leaves behind.
2. **Conversation ledger** (`LedgerEntries`, `LedgerMerge`, `Redelivery`, `LedgerRuns`, `LedgerClaims`,
   `LedgerDatabase`, `LedgerStore`, `LedgerIdentity`, `LedgerOutcomes`). Pulled messages are found again by id,
   echo or dedupe key and merged; replies are appended; the SQLite table is the authority and two files are
   projections of it.
3. **Channel store** (`ChannelRows`, `ChannelStore`, `ChannelStoreApi`). Registry, channel files and index,
   written one after the other under a lock by many actors that may crash anywhere, next to readers whose first
   read is stale; and the rotation of API key references.
4. **Worker queue and orchestrator** (`WorkerQueue`, `PlanLog`). A bounded-parallel scheduler over workers that
   do what they like, and the retry loop that writes the numbered plan log with it.
5. **Verified shutdown** (`ProcessTree`, `KillOrder`, `BrowserTree`, `ProcessShutdown`, `StopProcesses`). Process
   trees over tables with stale or cyclic parents, children-first stop order, and the rule "sample, sample
   again, terminate by handle" while the environment ends processes and reuses their pids between any two calls.

Outside calls are arbitrary: clocks only move forward, markers, queries, exit codes and worker behaviour are
nondeterministic, hashes are injective, and a store's atomic update or a held lock is one step.

## What the proofs found

- A reply whose part failed and is then acked `sent`, while another part is still queued, leaves queue and
  ledger disagreeing: the queue has no transition from failed to queued and refuses the update, ledger and
  tasks take it. Lock-step therefore holds throughout a feed if and only if no ack of the feed is refused
  (`DeliveryAgreement.InStepThroughoutIffNoRefusal`), the first refused ack makes them differ
  (`FirstRefusalSeparates`), and `RefusedCorrection` shows it for every reply of two bridged parts.
- A `blocked` ack is a failure for the queue but stays `blocked` in the ledger, whose fold then falls back to
  the last status; the two agree exactly when another ledger part is failed (`BlockedAgreesExactly`). A blocked
  first part and a sent second one read as sent in the ledger (`BlockedReadsAsSent`).
- A retry recomputes the queue's status without the local parts. A failed local part is hidden in the queue and
  shown in the ledger, exactly when no surviving ack is failed (`LockStepRetries.RetryInStepExactly`,
  `RetryOutcomes.HiddenFailure`).
- A preserved ack writes the item's note into the ledger part of a sent item, and the note names all ids. When
  another id of that item is retried, the ledger queues this part again and the queue keeps it sent
  (`RetryOutcomes.SentRetrySplits`).
- After a retry, ledger and tasks know nothing of a superseded id, but the queue item keeps the retry parent in
  `retry_of` and is still found under it: a late ack for that one id enters the item again
  (`RetryFencing.LateAck`, `RetryOutcomes.LateAckAfterRetry`; when the two statuses differ afterwards is
  `LateAcks.LateAckSplits`). A late failure of the parent is always taken, and the item
  stays failed when the new id is sent, while the ledger shows sent (`RetryOutcomes.LateParentFailure`).
- Summaries quote recorded reasons. A preserved ack makes the task record the item's note as its reason, and that
  note names all ids; if one of them is then superseded, the next summary names it again and the task is found
  under it (`FencedRuns.SupersededReturns`). Exactly a surviving reason does this (`FencedExactly`).
- The queue preserves a sent item against a late failure that the task records. When another part is retried and
  sent, the item is sent and its task failed (`TaskRetries.SentWithFailedTask`); exactly a retry that keeps such an
  id leads there (`CompletedExactly`).
- An entry keeps its last twenty message ids. A merge can push out the very id that found the entry, and the next
  delivery of the same message is stored as a second entry (`Redelivery.RedeliveryIff`, `ForgottenIsStoredTwice`,
  `LedgerClaims.ForgottenReachable`).
- After a conversation is purged, sequences start again from 1, so the compare-and-append path can accept a
  reply written for the purged history, exactly when as many rows were stored since
  (`LedgerClaims.AcceptedBehindPurge`).
- An entry is never claimed by two echoes, but one echo id can claim two entries, when an identical reply is
  appended between its deliveries (`Redelivery.EchoClaimsTwice`, `LedgerClaims.EchoAgainInAnyRun`).

## Model

| member | source | states |
|---|---|---|
| SendParts.AggregateQueueIsMeet | app/personal_wechat_bot/control/send_commands.py:1443-1465 | on delivery statuses the queue's fold is the least status in the order failed, queued, accepted, sent |
| SendParts.AggregateLedgerIsMeet | app/personal_wechat_bot/conversation/ledger.py:1603-1615 | the ledger's separately coded fold is the same least status |
| SendParts.AckParts | app/personal_wechat_bot/control/send_commands.py:1402-1424 | an ack changes exactly the parts that reference its id, in place and order |
| SendParts.Details.Retry | app/personal_wechat_bot/reply_gate/confirm_queue.py:656-753 | a retry rewrites every part of a send result that references a superseded id, and no other |
| QueueProjection.LocalStatusesExact | app/personal_wechat_bot/control/send_commands.py:1468-1487 | the local statuses are those of exactly the parts that reference no expected id |
| SendSync.SendStores.UpdateReferencingBridge | app/personal_wechat_bot/control/send_commands.py:515-580 | the queue half of an ack: the new item, whether it was found, stored, preserved or refused, and the status and reasons handed to the ledger |
| SendSync.SendStores.UpdateTasks | app/personal_wechat_bot/control/send_commands.py:1096-1147 | the task store's mutator changes every matching task and counts them |
| SendSync.SendStores.SyncBridgeAck | app/personal_wechat_bot/control/send_commands.py:481-690 | one ack through queue, ledger top status, ledger parts and tasks equals the state function of the runs, whose outcome the three `Outcomes` modules tell field by field |
| SendSync.SendStores.SyncBridgeRetry | app/personal_wechat_bot/control/send_commands.py:723-844 | one retry through queue, ledger and tasks equals the state function of the runs |
| SendSync.MatchingExactly | app/personal_wechat_bot/control/send_commands.py:1096-1147 | the reported number of matched tasks is the number of tasks found under the id |
| ItemOutcomes.FoundExactly | app/personal_wechat_bot/reply_gate/confirm_queue.py:564-604 | an item is found exactly under the ids of its own fields, lists, acks and texts, and under the key of a part: its message id or else its bridge id |
| ItemOutcomes.FoldExactly | app/personal_wechat_bot/control/send_commands.py:515-537 | whatever the local parts show, an ack leads to failed if any expected id is recorded failed or a local part failed, else to queued or accepted by what is recorded, else to sent |
| ItemOutcomes.OutcomeExactly | app/personal_wechat_bot/reply_gate/confirm_queue.py:27-36 | exactly a sent item that would get worse is preserved; exactly a pending, rejected or blocked item, or an accepted or failed one that would wait again, refuses |
| ItemOutcomes.StoredExactly | app/personal_wechat_bot/control/send_commands.py:560-580 | a stored ack is recorded under its id and nowhere else, in the item and in the parts it finds; note and result are the reason the ledger is told |
| ItemOutcomes.NotStoredExactly | app/personal_wechat_bot/control/send_commands.py:554-566 | an ack that is not found, refused or preserved leaves the item as it is, and a preserved one answers with the item's note |
| ItemOutcomes.NoteSays | app/personal_wechat_bot/control/send_commands.py:533-546 | the note is the reason of a sole part; otherwise it says id, status and reason of every expected id, and ends with the last recorded result if a part is local |
| ItemOutcomes.RetriedExactly | app/personal_wechat_bot/reply_gate/confirm_queue.py:607-653 | a retry keeps all acks but those of the candidates and the new id; the item waits again unless a kept ack failed; parts found by a candidate get the new id and wait |
| ItemOutcomes.NotRetried | app/personal_wechat_bot/reply_gate/confirm_queue.py:234-271 | a rejected item, and one that no candidate finds, is left as it is |
| RecordOutcomes.FoundExactly | app/personal_wechat_bot/conversation/ledger.py:1312-1334 | a ledger record is found exactly under the ids of its list and under any id that a field or reason of the record, a part or an attachment holds |
| RecordOutcomes.AckedPartsExactly | app/personal_wechat_bot/conversation/ledger.py:1250-1279 | the parts and attachments that an ack finds show what the ledger is told, sent for a preserved item; no other changes |
| RecordOutcomes.AckedExactly | app/personal_wechat_bot/conversation/ledger.py:1337-1397 | the record keeps its bridge id, external id and list; message id and reason are those of the last ack that reached it |
| RecordOutcomes.AckedStatusExactly | app/personal_wechat_bot/conversation/ledger.py:1337-1397 | the status is what the ledger is told for a plain reply; for one with parts the least of failed, queued and accepted that they show, or else what the last shows; and the queue's if there is no part |
| RecordOutcomes.NotAcked | app/personal_wechat_bot/conversation/ledger.py:529-575 | a record that an ack neither finds nor reaches is left as it is |
| RecordOutcomes.RetriedExactly | app/personal_wechat_bot/conversation/ledger.py:1400-1485 | a retry replaces the candidates in the record, its list, and every part and attachment a candidate finds, which wait again |
| RecordOutcomes.RetriedStatusExactly | app/personal_wechat_bot/conversation/ledger.py:1459-1470 | a retried record waits, unless its parts then come to something else than sent or accepted |
| TaskOutcomes.FoundExactly | app/personal_wechat_bot/control/send_commands.py:1517-1541 | a task is found exactly under the ids of its fields, list and acks, and under those that one of its three texts holds |
| TaskOutcomes.TaskStatusExactly | app/personal_wechat_bot/control/send_commands.py:1150-1223 | completed absorbs; otherwise failed if any id or local part is known to have failed, else waiting, or as before if terminal, if any is queued, else completed |
| TaskOutcomes.LocalFailureFails | app/personal_wechat_bot/control/send_commands.py:1489-1495 | an ack makes a task that is not completed failed when a local part is listed as failed, or none is listed and sending failed as a whole |
| TaskOutcomes.AllSentCompletes | app/personal_wechat_bot/control/send_commands.py:1160-1170 | with every id acked sent and all local parts sent the task is completed |
| TaskOutcomes.AckRecorded | app/personal_wechat_bot/control/send_commands.py:1427-1441 | an ack is recorded under its id and nowhere else; a new id goes to the end of the list |
| TaskOutcomes.AckedExactly | app/personal_wechat_bot/control/send_commands.py:1173-1239 | the first expected id fills an empty external or bridge id, and exactly a terminal task is marked finished |
| TaskOutcomes.TextsExactly | app/personal_wechat_bot/control/send_commands.py:1171-1223 | an absorbed ack leaves a detail in place; any other is told there for every id, with how the local parts ended, and by the error of a failed task |
| TaskOutcomes.RetriedExactly | app/personal_wechat_bot/control/send_commands.py:1855-1905 | a retry queues every task it finds, for the given reason, with the new id for empty or superseded ones and all other acks kept |
| TaskOutcomes.RetriedListExactly | app/personal_wechat_bot/control/send_commands.py:1855-1860 | the new id enters the task's list exactly in place of a candidate, when it was there, or when the list was empty |
| LockStep.AggregatesAgree | app/personal_wechat_bot/conversation/ledger.py:1337-1397 | when every ledger part shows the queue's recorded ack the two separately coded aggregates are equal |
| LockStep.QueueVerdict | app/personal_wechat_bot/reply_gate/confirm_queue.py:27-36 | an ack for an expected id is refused exactly when the item is failed and the new aggregate is queued; it is stored or preserved otherwise |
| LockStepRuns.Step | app/personal_wechat_bot/control/send_commands.py:515-580 | one ack, whether stored, refused or preserved, keeps ledger and queue in step up to the ids whose latest ack was refused |
| LockStepRuns.SentMeansAllRecorded | app/personal_wechat_bot/control/send_commands.py:554-566 | a sent item has recorded sent for every expected id, so the preserved branch feeds the ledger what it already shows |
| LockStepRuns.FeedInStep | app/personal_wechat_bot/conversation/ledger.py:1337-1397 | over every feed of sent, accepted and failed acks, any number of parts: ledger and queue stay in step up to refused acks |
| DeliveryAgreement.LedgerFollowsQueue | app/personal_wechat_bot/conversation/ledger.py:1250-1279 | after any feed a ledger part or attachment shows the queue's recorded ack if and only if the queue did not refuse the latest ack for its id |
| DeliveryAgreement.InStepThroughoutIffNoRefusal | app/personal_wechat_bot/reply_gate/confirm_queue.py:798-800 | after every ack of a feed the reply's status and the status of every part and attachment are the same in ledger and queue, if and only if the queue refuses no ack of it |
| DeliveryAgreement.FirstRefusalSeparates | app/personal_wechat_bot/reply_gate/confirm_queue.py:27-36 | at the first refused ack of a feed the queue is failed and the ledger queued |
| DeliveryAgreement.RefusedCorrection | app/personal_wechat_bot/reply_gate/confirm_queue.py:27-36 | for every reply of two bridged parts: failed then sent for the first leaves the queue failed and the ledger queued |
| DeliveryAgreement.TwoPartsExist | app/personal_wechat_bot/control/send_commands.py:1340-1399 | such replies exist |
| DeliveryAgreement.BlockedAgreesExactly | app/personal_wechat_bot/control/send_commands.py:505-510 | after a blocked ack the aggregates agree if and only if another ledger part is failed |
| DeliveryAgreement.BlockedReadsAsSent | app/personal_wechat_bot/conversation/ledger.py:1603-1615 | for every reply of two bridged parts: the first blocked, then the second sent leaves the ledger sent and the queue failed |
| DeliverySafety.QueueSoundStep | app/personal_wechat_bot/control/send_commands.py:554-580 | any ack whatever keeps: sent means sent acks for all expected ids and sent local parts; sent is absorbing |
| DeliverySafety.TaskSoundStep | app/personal_wechat_bot/control/send_commands.py:1150-1239 | any ack keeps: completed means all expected ids acked; completed absorbs, terminal is never reopened, finished_at marks exactly the terminal tasks |
| DeliverySafety.QueueSoundRetry | app/personal_wechat_bot/reply_gate/confirm_queue.py:607-653 | a retried item is queued or failed, never sent, and sound again |
| DeliverySafety.AlwaysSound | app/personal_wechat_bot/control/send_commands.py:1889-1900 | all of these hold over every run of arbitrary acks and retries |
| DeliverySafety.AcksNeverReopen | app/personal_wechat_bot/control/send_commands.py:1226-1239 | over every feed of acks: sent stays sent, completed stays completed, terminal tasks stay terminal with finished_at set |
| DeliverySafety.SentImpliesCompleted | app/personal_wechat_bot/control/send_commands.py:1150-1223 | over every feed for a fresh reply, downgrades and refusals included, a sent item has a completed task |
| DeliveryConvergence.ConvergesToMeet | app/personal_wechat_bot/control/send_commands.py:515-580 | an upgrade-only feed ends with queue, ledger and task at the least of the last acks and local statuses |
| DeliveryConvergence.UpgradeFeedStored | app/personal_wechat_bot/control/send_commands.py:554-566 | in an upgrade-only feed every ack is stored: none is refused and the preserved branch is never taken |
| DeliveryConvergence.OrderDoesNotMatter | app/personal_wechat_bot/control/send_commands.py:1046-1093 | two interleavings with the same last acks, repetitions allowed, end with the same three statuses |
| SummaryTexts.NoteNamesAll | app/personal_wechat_bot/control/send_commands.py:1496-1506 | the note of a multi-part reply after a stored ack names every expected id |
| SummaryTexts.SummaryTellsAll | app/personal_wechat_bot/control/send_commands.py:1496-1506 | a summary quotes the recorded reason of every expected id |
| SummaryTexts.NextReasonFree | app/personal_wechat_bot/control/send_commands.py:538-552 | no other text gets in: a note contains no id's random part that no id, reason or earlier note contains |
| RetryFencing.RetryIdsExact | app/personal_wechat_bot/reply_gate/confirm_queue.py:763-780 | after a retry with any candidate set, new id included, an id list has no repetition, holds the new id and no other candidate, and keeps all others in order |
| RetryFencing.TaskIdsExact | app/personal_wechat_bot/control/send_commands.py:1916-1919 | the same for a task's id list, which gets the new id only in place of a candidate or when it would be empty |
| RetryFencing.ReplacedInPlace | app/personal_wechat_bot/reply_gate/confirm_queue.py:763-780 | a list without repetition keeps its order, with the new id where the first candidate was |
| RetryFencing.RetryIdsInPlace | app/personal_wechat_bot/reply_gate/confirm_queue.py:763-780 | the list of a reply gets the new id at its end when no candidate was in it |
| RetryFencing.LedgerFenced | app/personal_wechat_bot/conversation/ledger.py:1400-1519 | a retried ledger record, its parts and attachments reference no superseded id |
| RetryFencing.RetriedLedgerNotDone | app/personal_wechat_bot/conversation/ledger.py:1463-1470 | a retried ledger record is neither sent nor accepted |
| RetryFencing.TaskFenced | app/personal_wechat_bot/control/send_commands.py:1824-1913 | a retried task references no superseded id, in its id fields, ack map or joined texts |
| RetryFencing.ChainFenced | app/personal_wechat_bot/conversation/ledger.py:1282-1334 | after any chain of retries no superseded id is referenced anywhere, except by the queue item as its latest retry parent |
| RetryFencing.LateAck | app/personal_wechat_bot/reply_gate/confirm_queue.py:564-581 | a late ack for a fenced id changes nothing if and only if the id is not the queue's retry parent, or the item is not sent and its status may not go over to the new fold |
| RetryFencing.LateAckIgnored | app/personal_wechat_bot/control/send_commands.py:1517-1541 | after a chain a late ack for a superseded id that is not the latest parent is ignored by queue, ledger and tasks |
| LateAcks.LateAckSplits | app/personal_wechat_bot/control/send_commands.py:515-580 | after a late ack for a fenced id, queue and ledger that agreed still do if and only if the ack is not taken, or the item is sent, or the parts of a multi-part reply are not better than the ack, or the ack of a plain reply is not blocked and not better than the reply |
| LateAcks.LateInStep | app/personal_wechat_bot/control/send_commands.py:554-580 | a late ack keeps the lock-step relation if and only if it is not taken, or the item is sent, has parts and stays as it is |
| LateAcks.RetryMakesLate | app/personal_wechat_bot/reply_gate/confirm_queue.py:607-653 | right after a retry every superseded id is fenced and unknown to the parts |
| LockStepRetries.RequeuedIsFold | app/personal_wechat_bot/reply_gate/confirm_queue.py:782-795 | the retry's own aggregate, which leaves local parts out, equals the full fold if and only if no local part is failed or some recorded ack is; it is queued or failed |
| LockStepRetries.RetryInStepExactly | app/personal_wechat_bot/reply_gate/confirm_queue.py:607-653 | a retry with a fresh or reused new id, of an item in any status, keeps lock-step if and only if it finds every ledger part under its owner only and hides no failed local part; the first always holds unless the item is sent, the second always if it is; without refused acks the two statuses are equal exactly then |
| LockStepRetries.EventsInStep | app/personal_wechat_bot/control/send_commands.py:723-844 | over every run of acks, late acks and retries lock-step holds throughout if and only if every retry of the run meets that condition and no late ack breaks the relation |
| RetryOutcomes.HiddenFailure | app/personal_wechat_bot/reply_gate/confirm_queue.py:782-795 | from every fresh reply with a failed local part and one bridged id: after that id failed and was retried the queue is queued and the ledger failed |
| RetryOutcomes.HiddenFailureExists | app/personal_wechat_bot/control/send_commands.py:1340-1399 | such replies exist |
| RetryOutcomes.LateAckAfterRetry | app/personal_wechat_bot/control/send_commands.py:515-580 | right after any retry a late ack for a fenced id is ignored if and only if the id is not the retry parent, or the item is failed and the new fold queued; otherwise the id is expected again with the ack on record |
| RetryOutcomes.LateFailureTaken | app/personal_wechat_bot/reply_gate/confirm_queue.py:564-581 | right after any retry a late failure of the retry parent fails the item although the new id is still under way, makes the parent an expected id again, and gives the ledger record that id back; parts and tasks stay as they are |
| RetryOutcomes.LateParentFailure | app/personal_wechat_bot/control/send_commands.py:554-580 | from every plain fresh reply: failed, retried, a late failure of the parent, then the new id sent leaves the ledger sent and the queue failed |
| RetryOutcomes.PreservedThenRetried | app/personal_wechat_bot/conversation/ledger.py:1400-1470 | after a preserved ack, a retry of another id that the item's note names queues the ledger part again although the queue keeps its sent ack |
| RetryOutcomes.SentRetrySplits | app/personal_wechat_bot/wechat_driver/bridge_send.py:1871-1890 | from every fresh reply of two bridged parts: both sent, a late failure of the first preserved, the second retried leaves the first part sent in the queue and queued in the ledger |
| FencedRuns.FencedForGood | app/personal_wechat_bot/control/send_commands.py:1824-1913 | over any run of acks and retries a superseded id stays fenced for good if no reason that survives its retry has its random part and no later ack or retry brings it along |
| FencedRuns.FencedExactly | app/personal_wechat_bot/control/send_commands.py:1150-1223 | right after a retry that finds item and tasks by an expected id: the superseded id is fenced against every next ack for the new id if and only if no surviving reason names it |
| FencedRuns.SupersededReturns | app/personal_wechat_bot/control/send_commands.py:554-566 | for every reply of two bridged parts with a task: both sent, a late failure of the first preserved, the second retried, an ack for its new id: the task is found under the superseded id again |
| TaskRetries.BackedRetry | app/personal_wechat_bot/control/send_commands.py:1824-1913 | a retry keeps item and task backed if and only if it keeps no id that the queue records as sent and the task as worse than accepted; for an item that is not sent it always does |
| TaskRetries.WorseRecordShows | app/personal_wechat_bot/control/send_commands.py:1150-1223 | otherwise, when the new id is sent, the item is sent and its task failed |
| TaskRetries.CompletedExactly | app/personal_wechat_bot/control/send_commands.py:1150-1239 | over every run of acks, late acks and retries from a fresh reply: a sent item has a completed task throughout, whatever ack comes next, if and only if every retry of the run meets that condition |
| TaskRetries.SentWithFailedTask | app/personal_wechat_bot/control/send_commands.py:554-566 | the run that fails, for every reply of two bridged parts: both sent, a late failure of the first, the second retried and sent: item sent, task failed |
| LedgerMerge.MergePreservedTextBlocks | app/personal_wechat_bot/conversation/ledger.py:2249-2265 | the loop computes the candidate's blocks followed by the first of each unseen annotation identity |
| LedgerMerge.AnnotationsKept | app/personal_wechat_bot/conversation/ledger.py:2249-2276 | no annotation identity is dropped, and every block of the message is there |
| LedgerMerge.MergeBlocksTwice | app/personal_wechat_bot/conversation/ledger.py:2249-2265 | merging the same blocks again changes nothing |
| LedgerMerge.MergePreservedLinks | app/personal_wechat_bot/conversation/ledger.py:2279-2299 | the two loops compute the refreshed links followed by the kept ones |
| LedgerMerge.LinksKept | app/personal_wechat_bot/conversation/ledger.py:2279-2303 | no link beyond pending is dropped; it keeps all but possibly its address text |
| LedgerMerge.MergeLinksTwice | app/personal_wechat_bot/conversation/ledger.py:2279-2299 | merging the same links again changes nothing |
| LedgerMerge.MergeSettles | app/personal_wechat_bot/conversation/ledger.py:168-183 | after a merge the same message has nothing left to change |
| LedgerIdentity.AliasesExactly | app/personal_wechat_bot/conversation/ledger.py:2306-2336 | a message is known by exactly the ids it carries and, for those that name their origin, what follows the last colon |
| LedgerIdentity.HumanExactly | app/personal_wechat_bot/conversation/ledger.py:2456-2468 | a title is a placeholder exactly if it spells one of four words in any case or has the form of an account |
| LedgerIdentity.PrimaryIsJoined | app/personal_wechat_bot/conversation/ledger.py:2538-2554 | an echo is compared with all authored texts in order, annotations and attachments left out |
| LedgerIdentity.AnnotationsOnce | app/personal_wechat_bot/conversation/ledger.py:2249-2276 | a merge loses no annotation and adds none that has the kind and name of one that is there |
| LedgerIdentity.LinksOnce | app/personal_wechat_bot/conversation/ledger.py:2279-2303 | of the old links a merge keeps exactly those beyond pending whose address the message has not, one for each address |
| Redelivery.RedeliveryIff | app/personal_wechat_bot/conversation/ledger.py:90-137 | off the echo path a second delivery is a duplicate that leaves the list unchanged, if and only if the first did not push the message's id out or the dedupe key finds the entry |
| Redelivery.RetainedExact | app/personal_wechat_bot/conversation/ledger.py:2239-2246 | a merged entry still answers to the message's id exactly when it is primary or among the last twenty |
| Redelivery.ForgottenIsStoredTwice | app/personal_wechat_bot/conversation/ledger.py:2176-2180 | otherwise a second entry is created |
| Redelivery.ForgottenExists | app/personal_wechat_bot/conversation/ledger.py:2239-2246 | such an entry and message exist |
| Redelivery.EchoConfirmedAgain | app/personal_wechat_bot/conversation/ledger.py:185-217 | a redelivered echo is confirmed at the same entry and changes nothing |
| Redelivery.EchoClaimsTwice | app/personal_wechat_bot/conversation/ledger.py:2557-2586 | one echo id claims a second entry when an identical reply was appended in between |
| Redelivery.DeliveryKeepsEvidence | app/personal_wechat_bot/conversation/ledger.py:118-137 | no delivery loses an entry, its place, an annotation identity or a link beyond pending |
| LedgerOutcomes.GoesToExactly | app/personal_wechat_bot/conversation/ledger.py:90-137 | a message goes to the first entry that knows its id, else one's own text to the last of the latest forty it echoes, else to the first pulled entry with its dedupe key, else it is new |
| LedgerOutcomes.DeliveredExactly | app/personal_wechat_bot/conversation/ledger.py:168-217 | a delivery renews, claims or adds one entry and changes no other: place, send record and a status such as recalled stay, role, facts, key and content are the message's, annotations are kept; a duplicate is one that would change nothing |
| LedgerOutcomes.IdsMergedExactly | app/personal_wechat_bot/conversation/ledger.py:2239-2246 | of all ids of entry and message the last twenty are kept |
| LedgerOutcomes.RecallHides | app/personal_wechat_bot/conversation/ledger.py:628-645 | a recall takes exactly the active entries that know the id out of sight |
| LedgerOutcomes.SendResultIsRead | app/personal_wechat_bot/conversation/ledger.py:454-504 | a send result is what is read afterwards, unless it would take back one that came in |
| LedgerOutcomes.BridgeResultIsRead | app/personal_wechat_bot/conversation/ledger.py:529-575 | a bridge result is written to exactly the replies it is for, and echo claims stay |
| LedgerOutcomes.AnnotationIsThere | app/personal_wechat_bot/conversation/ledger.py:288-351 | an annotation is there afterwards, in place of those of its kind and source, and no other block is lost |
| LedgerOutcomes.LinkAnnotationIsThere | app/personal_wechat_bot/conversation/ledger.py:219-286 | every link with the id shows the new status and note, an unknown id is added, and evidence of a completed one is there as a block |
| LedgerOutcomes.ReplyIsStored | app/personal_wechat_bot/conversation/ledger.py:353-374 | a reply is stored behind all others as an active candidate under its own key, with no other entry touched |
| LedgerOutcomes.HitsExactly | app/personal_wechat_bot/conversation/ledger.py:454-645 | which entries an in-place operation is for, and so when it reports a change |
| LedgerRuns.ApplyKeeps | app/personal_wechat_bot/conversation/ledger.py:353-452 | every operation keeps sequences ascending, keys distinct and replies after the message they share a primary id with |
| LedgerRuns.RunKeeps | app/personal_wechat_bot/conversation/ledger.py:850-853 | so does every run of deliveries, replies, send results, recalls, annotations and purges |
| LedgerRuns.PulledPrimariesDiffer | app/personal_wechat_bot/conversation/ledger.py:90-116 | over every run no two pulled messages in the ledger share a primary id |
| LedgerClaims.ClaimStep | app/personal_wechat_bot/conversation/ledger.py:185-217 | one operation: a claim is never changed, only a matching echo makes one with its own id, and a matched echo adds no entry |
| LedgerClaims.ClaimsAreWriteOnce | app/personal_wechat_bot/conversation/ledger.py:98-106 | over every run with new reply keys an echo id is write-once, so two echoes never claim one entry |
| LedgerOutcomes.RecalledIsNeverShown | app/personal_wechat_bot/conversation/ledger.py:635-636 | until a purge a recalled entry keeps its place and is never shown again, whatever is delivered, answered, annotated or reported |
| LedgerClaims.EchoAgainInAnyRun | app/personal_wechat_bot/conversation/ledger.py:2557-2586 | after any further operations a claimed entry still carries the echo's id; the echo is confirmed there again if and only if the entry is in the lookback window with its text and no later entry matches, and claims a second entry if and only if a later one in the window matches |
| LedgerClaims.RedeliveryInAnyRun | app/personal_wechat_bot/conversation/ledger.py:90-137 | the redelivery equivalence in every reachable ledger |
| LedgerClaims.ForgottenReachable | app/personal_wechat_bot/conversation/ledger.py:90-137 | a ledger that one delivery reaches from the empty one forgets the id of the next message |
| LedgerOutcomes.LatestExactly | app/personal_wechat_bot/conversation/ledger.py:391-393 | the expected tail is an empty ledger if no sequence is expected, and else the last entry's sequence |
| LedgerClaims.AcceptedBehindSnapshot | app/personal_wechat_bot/conversation/ledger.py:376-409 | without a purge in between, a reply is accepted if and only if nothing was stored since its snapshot and its message is unanswered; it then gets the sequence right above the snapshot and is the only reply to its message |
| LedgerClaims.AcceptedBehindPurge | app/personal_wechat_bot/conversation/ledger.py:391-393 | behind a purge it is accepted if and only if as many rows were stored since the last purge as the snapshot had sequences and its message is unanswered |
| LedgerClaims.PurgeHidesChange | app/personal_wechat_bot/conversation/ledger.py:391-393 | the smallest such case: one message, a purge, another message |
| LedgerDatabase.ListedExact | app/personal_wechat_bot/conversation/ledger_database.py:24-44 | listing returns exactly the conversation's rows in strictly ascending sequence |
| LedgerDatabase.OrderedUnique | app/personal_wechat_bot/conversation/ledger_database.py:24-44 | an ordered list is determined by its rows |
| LedgerDatabase.ConversationLedgerDatabase.UpsertEntry | app/personal_wechat_bot/conversation/ledger_database.py:57-64 | upsert replaces the row of the key or adds one; exactly a blank name or a sequence that another key has is refused, and writes nothing; other conversations are untouched |
| LedgerDatabase.ConversationLedgerDatabase.ReplaceEntries | app/personal_wechat_bot/conversation/ledger_database.py:66-74 | delete and reinsert of a list with distinct keys succeeds exactly if its sequences differ, the conversation then holds exactly the list, and an ordered one is read back unchanged; a failure rolls back |
| LedgerDatabase.ConversationLedgerDatabase.DeleteConversation | app/personal_wechat_bot/conversation/ledger_database.py:98-111 | deletes the rows and the segment of one conversation and no others, and says whether there was either |
| LedgerDatabase.UpsertConstrained | app/personal_wechat_bot/conversation/ledger_database.py:113-143 | an upsert that is not refused keeps primary key and unique sequence |
| LedgerStore.AppendIsListed | app/personal_wechat_bot/conversation/ledger.py:816-824 | the constraints never fire for an append, and it is listed last |
| LedgerStore.ConversationLedgerStore.AppendMessageResult | app/personal_wechat_bot/conversation/ledger.py:90-137 | delivers to the entry, and with the content, that `GoesToExactly` and `DeliveredExactly` say; after a crash between writes the authority is the old or the new list; every conversation whose last operation did not die is shown by both projections |
| LedgerStore.ConversationLedgerStore.AppendReply | app/personal_wechat_bot/conversation/ledger.py:353-374 | appends with the next sequence; the same about crashes and projections |
| LedgerStore.ConversationLedgerStore.AppendReplyIfLatest | app/personal_wechat_bot/conversation/ledger.py:376-409 | appends if and only if the tail is the expected one and the message is unanswered, and writes nothing otherwise |
| LedgerStore.ConversationLedgerStore.Update | app/personal_wechat_bot/conversation/ledger.py:454-645 | send results, bridge results, recalls and annotations rewrite exactly the entries they hit, as the lemmas of `LedgerOutcomes` say, and write nothing if they hit none |
| LedgerStore.ConversationLedgerStore.ReadEntries | app/personal_wechat_bot/conversation/ledger.py:647-659 | a stale reader restores only what the authority holds now, so a purged conversation is never recreated; recalled entries are left out unless asked for |
| LedgerStore.ConversationLedgerStore.PurgeConversation | app/personal_wechat_bot/conversation/channel_store.py:245-251 | projections go before the rows, and no other conversation is affected |
| ChannelRows.RefsAreSticky | app/personal_wechat_bot/conversation/channel_store.py:478-483 | ensuring again keeps the refs as a prefix exactly when they still fit the slots, never repeats one and never exceeds the slots |
| ChannelRows.OfferedRefsArrive | app/personal_wechat_bot/conversation/channel_store.py:103-107 | the stored refs are old or offered ones, never blank; all of them if there is room; the old ones first, the new ones in the order offered |
| ChannelRows.AvailableInOrder | app/personal_wechat_bot/conversation/channel_store.py:194-197 | the rotation goes through the usable refs in the order of the row |
| ChannelRows.HitsExact | app/personal_wechat_bot/conversation/channel_store.py:186-205 | a closed form for how often a position comes up in n requests |
| ChannelRows.RotationIsFair | app/personal_wechat_bot/conversation/channel_store.py:186-205 | over any n requests each of k usable refs is issued floor(n/k) or ceil(n/k) times, wherever the index stood |
| ChannelRows.IndexBackInRange | app/personal_wechat_bot/conversation/channel_store.py:197-203 | the stored index is below the number of usable refs after every request |
| ChannelStore.StepKeepsInv | app/personal_wechat_bot/conversation/channel_store.py:93-166 | every atomic write, crash or stale read keeps: channel file or index row implies registry row, and no committed row repeats a ref or holds a blank one |
| ChannelStore.AlwaysInv | app/personal_wechat_bot/conversation/channel_store.py:219-264 | so it holds at every step of every interleaving |
| ChannelStore.FairInEveryRun | app/personal_wechat_bot/conversation/channel_store.py:186-205 | the rotation is fair for every row of every store that any interleaving reaches |
| ChannelStore.QuietStoreIsMirrored | app/personal_wechat_bot/conversation/channel_store.py:371-421 | with the lock free and no crash, files and index equal the registry |
| ChannelStore.NoResurrection | app/personal_wechat_bot/conversation/channel_store.py:168-178 | a deleted channel stays deleted in all three places until it is ensured again |
| ChannelStore.CompletedReadRestores | app/personal_wechat_bot/conversation/channel_store.py:310-330 | the last step of a read leaves both projections in place; a stale read of a deleted row writes nothing |
| ChannelStoreApi.UndisturbedReadRestores | app/personal_wechat_bot/conversation/channel_store.py:300-330 | in every reachable store, after any crashes, a later completed read restores both projections of a surviving row and changes nothing else |
| ChannelStoreApi.FinishIsRun | app/personal_wechat_bot/conversation/channel_store.py:332-342 | an undisturbed operation is exactly the machine's run until the lock is released |
| ChannelStoreApi.CrashLeavesWhatIsWritten | app/personal_wechat_bot/conversation/channel_store.py:332-342 | an actor that dies frees its lock, writes nothing more and takes nothing back |
| ChannelStoreApi.HalfWrittenIsReachable | app/personal_wechat_bot/conversation/channel_store.py:163-165 | a crash right after the registry write leaves a channel without its projections, which the next read restores |
| ChannelStoreApi.ConversationChannelStore.EnsureChannel | app/personal_wechat_bot/conversation/channel_store.py:93-166 | the method's writes are those of the machine; every offered ref arrives, behind the old ones, unless the slots are full; slots and text are the new ones and the rotation index stays |
| ChannelStoreApi.ConversationChannelStore.RefForRequest | app/personal_wechat_bot/conversation/channel_store.py:186-205 | issues the ref of the specification, or none when the row is missing or nothing is usable |
| ChannelStoreApi.ConversationChannelStore.DeleteChannel | app/personal_wechat_bot/conversation/channel_store.py:216-264 | the method's writes are those of the machine, and the channel is gone |
| WorkerQueue.LocalWorkerQueue.Fill | app/personal_wechat_bot/agent/worker_queue.py:95-195 | starts tasks first come first served until none is left or the maximum is reached; counts every process created and every failed start; raises exactly when interrupted or a worker cannot be reaped |
| WorkerQueue.LocalWorkerQueue.StartOne | app/personal_wechat_bot/agent/worker_queue.py:95-181 | a process is created for an assigned task only and waited for; the worker runs if and only if it came up, and any other process that was created is terminated, its task failed unless the queue was interrupted |
| WorkerQueue.LocalWorkerQueue.ReapOne | app/personal_wechat_bot/agent/worker_queue.py:197-212 | a worker counts as completed if and only if it exited with zero and left the status completed; a status that is not final becomes failed, any other stays |
| WorkerQueue.LocalWorkerQueue.FailRunningTasks | app/personal_wechat_bot/agent/worker_queue.py:228-241 | every pending task is failed; every running one is terminated in order and keeps a final status it had then, else is failed; or the first worker that cannot be reaped stops it |
| WorkerQueue.LocalWorkerQueue.RunUntilIdle | app/personal_wechat_bot/agent/worker_queue.py:76-226 | terminates; on a normal return completed + failed = N, completed <= started <= N, never more than the maximum at once, first in first out, all statuses final, no round begun behind the deadline and nothing skipped before it; what was never attempted is failed; every created worker was seen to exit or terminated, and the completed ones are the successful exits; it raises exactly when interrupted or a worker cannot be reaped |
| PlanLog.FinishedIffChain | app/personal_wechat_bot/agent/tool_orchestrator.py:31-109 | the finished logs of the grammar are exactly those that an automaton of allowed successions accepts |
| PlanLog.PlanBook.AppendRevision | app/personal_wechat_bot/agent/workspace.py:73-97 | revisions are numbered from 1 without gaps |
| PlanLog.ToolTaskOrchestrator.RunTask | app/personal_wechat_bot/agent/tool_orchestrator.py:67-74 | one fresh queue per attempt, run once, with the configured time and parallelism: a completed count means that its one task is completed |
| PlanLog.ToolTaskOrchestrator.Turn | app/personal_wechat_bot/agent/tool_orchestrator.py:40-99 | one attempt: its revision and a task that points at it; the loop stops if and only if the queue raised or the attempt was counted completed and left a report, and else prepares the next |
| PlanLog.ToolTaskOrchestrator.Execute | app/personal_wechat_bot/agent/tool_orchestrator.py:31-109 | every run writes a log of the grammar: completed with the first attempt that succeeded and none before it, failed only when all max_retries + 1 attempts missed, each task at its own revision; an exception of the queue breaks it off |
| PlanLog.WrittenLogFinished | app/personal_wechat_bot/agent/workspace.py:48-97 | such a log has 2k+3 revisions and is accepted by the automaton |
| ProcessTree.Descendants | scripts/sidebar_history_reset_shutdown.py:1271-1293 | on any table, cycles included, the worklists return exactly the pids reached from the root but not the helper or what it reaches, one row each |
| ProcessTree.Collect | scripts/sidebar_history_reset_shutdown.py:1276-1288 | one worklist terminates with the exact closure |
| KillOrder.Depth | scripts/sidebar_history_reset_shutdown.py:816-826 | the depth walk terminates on every table and computes the walk's length |
| KillOrder.DeeperThanAncestor | scripts/sidebar_history_reset_shutdown.py:816-826 | on an acyclic table a process k parents below another is exactly k deeper |
| KillOrder.ChildrenBeforeAncestors | scripts/sidebar_history_reset_shutdown.py:831-832 | on an acyclic table the sorted order visits every process before all its listed ancestors |
| KillOrder.OrderExactly | scripts/sidebar_history_reset_shutdown.py:831-832 | the order is the only one by falling depth, and by falling pid among equally deep processes |
| KillOrder.DepthIsDistance | scripts/sidebar_history_reset_shutdown.py:816-826 | on an acyclic table the depth is the distance from the topmost listed ancestor |
| BrowserTree.BrowserProcessTree | app/personal_wechat_bot/control/sidebar_browser_runtime.py:498-532 | for any answers of the samples, one for each row, the worklist expands no node twice and terminates with a tree in which every non-root has its parent in the tree one level above |
| BrowserTree.TreeIsExact | app/personal_wechat_bot/control/sidebar_browser_runtime.py:498-532 | it holds exactly the roots and what is reached from them over rows whose sample found a process |
| BrowserTree.BrowserChildrenFirst | scripts/sidebar_history_reset_shutdown.py:396-408 | stopping deepest first stops every non-root before its parent |
| ProcessShutdown.Os.StableSample | scripts/sidebar_history_reset_shutdown.py:754-768 | the answer follows from marker, query, marker; equal markers mean that one process answered all three calls; an absent answer means that nobody known under the pid is left |
| ProcessShutdown.Os.TerminateHandle | scripts/sidebar_history_reset_shutdown.py:1568-1685 | whatever happens between the calls, only the inspected process object can be terminated, the result follows from what the calls answered, and a confirmed exit is its exit |
| ProcessShutdown.Os.TerminatePid | scripts/sidebar_history_reset_shutdown.py:1532-1565 | the helper itself, a pid that is not positive and a process without start marker are never opened; any other answer follows from the calls |
| ProcessShutdown.Os.TerminationExited | scripts/sidebar_history_reset_shutdown.py:1523-1529 | a confirmed exit is positive, a denied one negative, and otherwise the pid is polled; a positive answer means that the inspected process is dead |
| StopProcesses.StopOne | scripts/sidebar_history_reset_shutdown.py:833-876 | the outcome follows from the sample: missing iff absent, ignored iff checked, running, named and not ours, told to stop iff it runs, is ours and shows the creation date of its row, and blocked for one of four reasons otherwise; at most the sampled process was terminated |
| StopProcesses.ReportPartitions | scripts/sidebar_history_reset_shutdown.py:827-888 | the children are the disjoint union of the blocked, the ignored, the stopped and those that were gone; an unconfirmed termination is listed as blocked too, and `terminated_pids` are stopped ones |
| StopProcesses.VerifiedMeansSettled | scripts/sidebar_history_reset_shutdown.py:883-884 | with nothing blocked every child is dead, was stopped by its sampled identity, or is not one of ours |
| StopProcesses.PinnedInventory | scripts/sidebar_history_reset_shutdown.py:786-812 | pinned if and only if both looks at the root show the expected start and the inventory was queried; then one and the same root process lived through it, and the rows are its exact descendants |
| StopProcesses.StopVerifiedChildTree | scripts/sidebar_history_reset_shutdown.py:781-889 | only exact descendants of a root that lived through the inventory, whose sample matched it, are terminated, deepest first; the lists account for every child, deepest first, each blocked one with its reason; verified means an empty blocked list and settled children |
| StopProcesses.DescendantsStoppedFirst | scripts/sidebar_history_reset_shutdown.py:814-832 | on an acyclic inventory no process was terminated before one of its listed descendants |
| StopProcesses.AwaitExits | scripts/sidebar_history_reset_shutdown.py:1370-1377 | a child counts as exited if and only if it was seen to be gone, and is dead then; all others are listed once and were polled in every round |
| StopProcesses.StopVerifiedSidebarChildren | scripts/sidebar_history_reset_shutdown.py:1369-1464 | the same lists account for every child that outlives the grace period, in pid order, each polled in every round of it; verified means an empty blocked list and settled children |

## Left out

- Bridge ids from the free-text fallbacks: when an item has no id list the source extracts ids from reasons by a regular expression; every bridged reply is modelled with its id list.
- Timestamps, `external_message_id`, human-readable phases and the audit log: copied along, never decided on.
- Send claims, lock staleness, lease takeover and the scheduler's own store: a held lock or an atomic update is one step. A queue update under an active send claim raises in the source and is not modelled.
- Several queue items for one bridge id: the source updates the newest that matches; one item per reply is modelled.
- Self-echoes in the delivery part: they write the ledger's top status only; they are modelled in the conversation ledger.
- `queued_for_confirm` and the approval flow of the confirm queue before the first bridge result.
- The ledger's directory segments, `state.json`, session files, annotation files and the quote lookup; `refresh_file_refs` and the upsert of file analysis blocks.
- Normalisation of message text for echo matching: texts are taken in normal form; case folding of placeholder titles covers ASCII.
- LedgerStore.ConversationLedgerStore.Update: bridge acks and retries set an arbitrary status on the entries they hit; how that status is computed is the subject of `LedgerProjection`.
- LedgerClaims.ClaimsAreWriteOnce: needs reply keys that are not in use, since storing a reply under a key in use replaces the row.
- LedgerRuns.RunKeeps: pulled messages are taken to have an id that is not empty and does not begin with `reply:`; an empty id is never found again, and one of the other kind could be hashed to a reply's key. The same holds for `LedgerRuns.ApplyKeeps`, the claims in `LedgerClaims` and `Redelivery.RedeliveryIff`.
- LedgerStore.ConversationLedgerStore.AppendMessageResult: the same two kinds of message ids are left out.
- Channel admission, title choice and cleanup policies of the channel store; `_assign_key_refs` is the offered list of an ensure.
- WorkerQueue.LocalWorkerQueue.RunUntilIdle: every round that leaves work is taken to advance the clock; the startup handoff and its polling loop are one nondeterministic outcome.
- The deadlines of the shutdown helper are a bounded number of polling rounds; the POSIX terminate path checks and signals by pid and is not modelled.
- Sampling of browser descendants against recorded launch state, image checks and the three repeated inspection rounds; the answer of each sample is a parameter.
- HTTP, sidebar user interface, prompts, OCR, ASR and report generation.
