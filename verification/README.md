# Floating Temple in Dafny

Floating Temple is an optimistic engine for distributed objects. Peers commit
transactions under time-stamped ids, tell each other about them object by object,
replay each object's history in id order, reject transactions whose replay
conflicts, and rewind the local program when one of its own transactions is
rejected. This project models the parts of it that carry hard guarantees and
proves those guarantees for every input, every run and every interleaving.
`dafny verify dfyconfig.toml` checks everything.

| file | what it models |
|---|---|
| `Wrappers.dfy` | the optional values the other files share |
| `TransactionIds.dfy` | the order of transaction ids, and the id generator |
| `VersionMaps.dfy` | version maps: coverage, union, comparison |
| `IntervalSets.dfy` | half-open intervals of ids |
| `SequencePoints.dfy` | which transactions a sequence point shows |
| `Histories.dfy` | an object's history as a function of what was inserted and stored |
| `Replay.dfy` | replay with retries, the greedy selection, the cached object |
| `ObjectContents.dfy` | the object-history class itself |
| `Sequencer.dfy` | the sequencer of outgoing messages |
| `EndToEnd.dfy` | from a sender's sequencer to a receiver's history |
| `PlaybackHandshake.dfy` | the controller and the replay thread |
| `Rewind.dfy` | rewinding nested method calls |
| `LiveObjects.dfy` | copy-on-write objects |
| `QuotaQueues.dfy` | the queue with a quota per service |
| `PeerProtocol.dfy` | HELLO and GOODBYE at both ends of a connection |
| `Connections.dfy` | the connection manager, and two peers that connect to each other at once |
| `Framing.dfy` | varints, and framed messages over a chunked byte stream |
| `ToySyntax.dfy`, `SymbolTables.dfy` | tokens, trees and the symbol table of the toy language |
| `ToyParser.dfy`, `ToyParserMethods.dfy` | its parser, as functions and as the methods of the source |
| `ToyScoping.dfy`, `ToyNames.dfy` | scoping of its trees, and which names can be used where |
| `ToyUnparsing.dfy`, `ToyEvaluation.dfy` | back from its trees to the text, and evaluation of its trees |

## How things are modelled

- A transaction id is its rank, a natural number. `TransactionIds` proves that
  comparing the three words of an id is comparing ranks. A peer is a number where
  the engine compares interned peers by address, and a string where it compares
  peer ids in dictionary order.
- Objects that one thread updates are classes. Their methods are proved against
  functions on values, and the properties of whole runs are proved of those functions.
- Code that several threads run is a step machine on values. Each locked section
  is one step, each wait is a step that is enabled when the wait is over, and a
  thread between two locked sections remembers where it is. Runs are arbitrary
  interleavings.
- Playback of transactions and the methods of local objects are arbitrary
  functions. Where a property needs playback to be a deterministic fold, or to
  ignore transactions that only read, it says so.
- A check that stops the program is a failure result, a predicate that is proved
  to hold before every step, or an assertion.
- Clock readings, the bytes that arrive, and the answers to method calls are
  parameters.

## Where the code does less than one might expect

For each of these there is a concrete run or input that shows it, and the exact
condition under which the expected property does hold.

- The id generator increments a 64-bit word. An id is larger than the one before
  exactly if the last stamp was not the largest word (`NextTimeAdvances`,
  `ReserveCanGoBack`).
- `AddInterval` does not grow an existing interval to the new end. The whole range
  is added exactly if its start opens a fresh interval, or an interval already
  covers or touches its end (`AddIsCompleteExactlyWhen`). A consequence is that
  invalidating a range can make a hidden transaction inside the range visible
  (`InvalidationCanReveal`); `RevealsExactlyWhen` says when.
- The messages of a transaction at the head of the sequencer are sent again by
  every flush until it is released (`HeadIsSentAgain`). Nothing is sent twice
  exactly if the head held no message whenever a message was queued or a
  transaction released (`SentOnceExactlyWhen`). Receivers absorb the repeats
  (`DeliveryIsAsIfOnce`).
- A late insert does not drop the cached object. The cached object stays right,
  under every playback, exactly if the new transaction is outside the cached
  version or only reads (`CacheSurvivesExactlyWhen`). Otherwise the next request
  for the cached point is served a stale object (`StaleObjectIsServed`).
- A rejection does its work, that is, all calls at or above it are rewound and the
  innermost call below it resumes, in every run exactly if the rejected id is not
  above the base of the pending transaction; otherwise some run forgets it at a
  phase check, with no call rewound or resumed (`SwallowedExactlyWhen`). Until a
  call resumes no rejection is above (`FirstRejectionsRewind`); after a resume it
  can be (`RejectionCanBeSwallowed`).
- A second local rejection overwrites the pending one. The work of the first is
  still done, in every run, exactly if the second is not above the base of the
  pending transaction and no call has a base from the first up to below the second
  (`OverwritingIsSafeExactlyWhen`). Each half can fail (`BothCanBeForgotten`,
  `OverwritingCanSkip`).
- The input of a connection is measured with an int. A stream of frames breaks
  exactly if at some arrival more bytes are at hand than an int can say
  (`BreaksExactlyWhen`), which can happen although every frame fits
  (`OversizedInputBreaks`); frames that leave room for one more chunk never get
  there (`RoomIsEnough`).
- A push that does not wait ignores the quota (`QuotaExceededExactlyWhen`). The
  peer connection always pushes this way, so its quota of one message for blocking
  mode is not enforced.
- A message that was accepted can be left behind when a connection drains, because
  the output queue is found empty in one locked section and GOODBYE is produced in
  a later one. Nothing is ever lost exactly if the queue is empty and refuses
  messages when GOODBYE is produced (`LostExactlyWhen`).
- Two connections initiated by the same peer can end with each side draining the
  one that the other side has named (`TwoFromOnePeerCanDisagree`). Two peers are
  sure to agree exactly if neither may initiate more than one connection
  (`AgreementExactlyWhen`).

## Model

| member | source | states |
|---|---|---|
| `TransactionIds.RankPreservesOrder` | engine/transaction_id_util.cc:32-62 | comparing ids word by word is comparing ranks, and the order is total and antisymmetric |
| `TransactionIds.RankRange` | engine/transaction_id_util.cc:32-66 | the minimum and maximum ids are the ends of the order, and validity is exactly the range strictly between them |
| `TransactionIds.NextTimeAdvances` | engine/transaction_id_generator.cc:35-57 | for every clock reading, even a backward one, the next stamp is larger than the last, if and only if the last is not the largest word |
| `TransactionIds.NextTimeIsEarliest` | engine/transaction_id_generator.cc:41-51 | below the largest word the stamp is the earliest one that is above the last and not before the clock reading, so it is the reading itself whenever the clock has moved on |
| `TransactionIds.StampsAreEarliest` | engine/transaction_id_generator.cc:35-57 | over every sequence of clock readings the stamps ascend and keep up with the clock, and each is the earliest that any such sequence of stamps has at that place |
| `TransactionIds.LaterByTheClock` | engine/transaction_id_generator.cc:35-57 | across peers, an id generated where the clock has passed another id's stamp comes after that id |
| `TransactionIds.StampOrder` | engine/transaction_id_generator.cc:35-57 | ids of one generator are ordered exactly as their stamps |
| `TransactionIds.TransactionIdGenerator.Generate` | engine/transaction_id_generator.cc:35-57 | the id is stamped with the earliest word above the last stamp and not before the clock; that it is above all earlier ones, and that it is valid, each with its exact condition |
| `VersionMaps.LeqIsCoverage` | engine/version_map.h:223-241 | one map is below another exactly if the other has every transaction it has |
| `VersionMaps.LeqAntisymmetric` | engine/version_map.h:223-241 | maps below each other are equal |
| `VersionMaps.LeqTransitive` | engine/version_map.h:223-241 | the order is transitive |
| `VersionMaps.UnionIsLeastUpperBound` | engine/version_map.h:243-253 | the union is above both maps and below every map above both |
| `VersionMaps.AddedIsUnion` | engine/version_map.h:122-140 | adding a transaction joins the one-entry map, changes nothing exactly if it is covered, and covers exactly the old transactions and the peer's up to the new one |
| `VersionMaps.MaxVersionMap.HasPeerTransactionId` | engine/version_map.h:106-120 | answers whether the one-entry map is below the map |
| `VersionMaps.MaxVersionMap.AddPeerTransactionId` | engine/version_map.h:122-140 | the map becomes its union with the one-entry map |
| `VersionMaps.VersionMapIsLessThanOrEqual` | engine/version_map.h:223-241 | the loop decides coverage |
| `VersionMaps.GetVersionMapUnion` | engine/version_map.h:243-253 | the loop computes the pointwise maximum |
| `IntervalSets.OpensFreshMeaning` | engine/interval_set.h:65-73 | the test for inserting a new interval holds exactly if the start neither lies in an interval nor touches the end of one |
| `IntervalSets.AddedIntervalMeaning` | engine/interval_set.h:59-85 | after an addition exactly the old ids and the requested ones below the reach are held |
| `IntervalSets.AddIsCompleteExactlyWhen` | engine/interval_set.h:59-85 | everything requested is added if and only if the start opens fresh or an interval covers or touches the end |
| `IntervalSets.AddCanLoseTheTail` | engine/interval_set.h:71-81 | adding [4, 9) to {[2, 5)} leaves {[2, 5)} |
| `IntervalSets.HoldsAtUpperBound` | engine/interval_set.h:87-96 | an id is in the set exactly if the last interval that starts at or below it holds it |
| `IntervalSets.EqualListsEqualSets` | engine/interval_set.h:116-119 | comparing the maps is comparing the sets |
| `IntervalSets.IntervalSet.FindUpperBound` | engine/interval_set.h:65-77 | finds the first interval that starts above the id |
| `IntervalSets.IntervalSet.AddInterval` | engine/interval_set.h:59-85 | insert, grow and erase in place give the merged list, and the intervals stay non-empty, ordered and apart |
| `IntervalSets.IntervalSet.Contains` | engine/interval_set.h:87-96 | decides membership in the set |
| `SequencePoints.AdditionShows` | engine/sequence_point_impl.cc:63-66 | adding a transaction shows exactly it and the peer's earlier ones, as far as they are neither excluded nor rejected |
| `SequencePoints.RejectionHides` | engine/sequence_point_impl.cc:89-93 | rejecting a peer at r hides exactly the peer's transactions from r on, and shows nothing |
| `SequencePoints.InvalidationMeaning` | engine/sequence_point_impl.cc:68-87 | exactly what is visible after an invalidation, for every peer and id |
| `SequencePoints.InvalidationIsSound` | engine/sequence_point_impl.cc:68-87 | if the start neither lies in nor touches an excluded interval, the whole range is hidden, other peers are unchanged, and what becomes visible is at or above the end |
| `SequencePoints.RangeExcludedExactlyWhen` | engine/peer_exclusion_map.cc:48-69 | the whole range is excluded if and only if the start opens fresh or an excluded interval covers or touches the end |
| `SequencePoints.RevealsExactlyWhen` | engine/sequence_point_impl.cc:68-87 | the exact condition under which an invalidation shows a hidden transaction inside its own range |
| `SequencePoints.InvalidationCanReveal` | engine/sequence_point_impl.cc:68-87 | for all valid ids in that position, a run and a range whose invalidation shows a transaction inside the range that was hidden |
| `SequencePoints.AfterRun` | engine/sequence_point_impl.cc:41-93 | every run keeps intervals well formed and no rejected set empty, so that no check fails |
| `SequencePoints.RejectionIsLasting` | engine/sequence_point_impl.cc:41-93 | a rejected transaction stays hidden in every run until an invalidation covers the rejection |
| `SequencePoints.Smallest` | engine/sequence_point_impl.cc:57-60 | the first element of the ordered set is its least |
| `SequencePoints.SequencePointImpl.HasPeerTransactionId` | engine/sequence_point_impl.cc:41-61 | known, not excluded, and below every rejected id of the peer |
| `SequencePoints.SequencePointImpl.AddPeerTransactionId` | engine/sequence_point_impl.cc:63-66 | the new point, still valid |
| `SequencePoints.SequencePointImpl.AddInvalidatedRange` | engine/sequence_point_impl.cc:68-87 | the new point, still valid: the rejected ids in the range go, and the range is excluded |
| `SequencePoints.SequencePointImpl.AddRejectedPeer` | engine/sequence_point_impl.cc:89-93 | the new point, still valid |
| `Histories.CommittedMeaning` | engine/object_content.cc:136-224 | after any run the committed ids are exactly those some operation offered |
| `Histories.CommittedTransaction` | engine/object_content.cc:136-224 | when ids are consistent, the committed transaction is the offered one |
| `Histories.VersionMapMeaning` | engine/object_content.cc:136-224 | after any run the version map covers exactly what some operation witnessed |
| `Histories.PeersMeaning` | engine/object_content.cc:136-224 | the up-to-date peers are exactly those that were stored from or inserted for |
| `Histories.MaxRequestedMeaning` | engine/object_content.cc:188-224 | the largest requested id is the largest id inserted locally |
| `Histories.Convergence` | engine/object_content.cc:136-224 | replicas that applied the same set of operations have the same history, whatever the order and the repetitions |
| `Histories.SameOffersSameCommitted` | engine/object_content.cc:136-224 | the committed transactions depend only on which ids were offered, by whatever operations |
| `Histories.RunKeepsCoverage` | engine/object_content.cc:148-224 | every run keeps all committed transactions covered, and only grows the history |
| `Histories.AvailabilityIsLasting` | engine/object_content.cc:84-105 | a sequence point that passes the gate passes it in every later state of object and store |
| `Histories.EffectiveMeaning` | engine/object_content.cc:329-354 | the effective version has what the version map has and, of up-to-date peers only, what the store has |
| `Histories.AvailableExactlyWhen` | engine/object_content.cc:84-102 | in every run a sequence point passes the gate if and only if each of its entries was witnessed by an operation, or is known to the store and its peer has spoken to the object |
| `Histories.FetchedIsAvailable` | engine/transaction_store.cc:466-552 | after an object is fetched the receiver covers what it covered and the sender's effective version, and nothing else, so whatever was available at the sender is available at the receiver |
| `Histories.CoversIsAddOrigins` | engine/object_content.cc:148-167 | coverage determines the version map that the copying loop arrives at |
| `Replay.ListingShrinks` | engine/object_content.cc:274-293 | each new rejection leaves one fewer committed id unlisted, which is why the loop ends |
| `Replay.PassPlays` | engine/object_content.cc:295-327 | for any playback, a pass that completes has played the accepted transactions in order, and one that does not has stopped at the first that takes part and conflicts |
| `Replay.AcceptedMeaning` | engine/object_content.cc:301-312 | a transaction is accepted exactly if it has events, is covered and is not listed |
| `Replay.RetryAddsProperEntries` | engine/object_content.cc:274-327 | for any playback, each failing pass adds one covered, non-empty, unlisted committed transaction with its origin |
| `Replay.RetryEndsWithACleanPass` | engine/object_content.cc:274-327 | for any playback, the last pass plays everything not listed without a conflict, and its object is returned |
| `Replay.PassFollowsGreedy` | engine/object_content.cc:295-327 | under a fold, a pass reproduces the greedy states and conflicts at the next greedy rejection |
| `Replay.RetryIsGreedy` | engine/object_content.cc:274-327 | under a fold, the loop ends with the greedy object and exactly the greedy rejections |
| `Replay.GreedyIsRight` | engine/object_content.cc:274-327 | a covered, non-empty transaction is rejected exactly if it conflicts after the accepted ones below it, and rejections come in increasing order |
| `Replay.RightRejectionsAgree` | engine/object_content.cc:274-327 | that condition determines the rejections, so the result of the loop is forced |
| `Replay.ReplicasReplayAlike` | engine/object_content.cc:136-327 | replicas that were offered the same transactions, locally or remotely, in any order, replay to the same object and rejections |
| `Replay.CacheAgrees` | engine/object_content.cc:356-431 | when the cache test accepts, a replay at the requested version gives what a replay at the cached version gives |
| `Replay.CacheServesExactlyWhen` | engine/object_content.cc:356-431 | for a later version the cache is accepted if and only if no playback that ignores reads can tell the two versions apart, so it is not given up for transactions that only read |
| `Replay.LateInsertIsHarmless` | engine/object_content.cc:188-224 | inserting a transaction that is not covered, or only reads, changes no replay |
| `Replay.LateInsertIsSeen` | engine/object_content.cc:188-224 | inserting any other changes the replay of some playback |
| `Replay.CacheSurvivesExactlyWhen` | engine/object_content.cc:188-234 | a cached object survives a late insert under every playback if and only if the transaction is outside the cached version or only reads |
| `ObjectContents.ObjectContent.SetCachedLiveObject` | engine/object_content.cc:226-234 | from then on the object is served for the same sequence point, and the cache is right exactly if the object is what a replay at that point gives |
| `ObjectContents.ObjectContent.ApplyTransactionsToWorkingVersion` | engine/object_content.cc:295-327 | the loop plays the covered, unlisted transactions with events in id order up to the first conflict |
| `ObjectContents.ObjectContent.GetWorkingVersionLocked` | engine/object_content.cc:274-293 | the retry loop, with object and rejections as the recursive definition has them |
| `ObjectContents.ObjectContent.ComputeEffectiveVersion` | engine/object_content.cc:329-354 | covers a transaction exactly if the version map does, or its peer is up to date and the store's map does |
| `ObjectContents.ObjectContent.CanUseCachedLiveObject` | engine/object_content.cc:356-431 | the nested scans decide whether the cached object may stand in: the points must agree in all but the version map, and then it may exactly if no playback can tell the versions apart |
| `ObjectContents.ObjectContent.PeerOnlyReads` | engine/object_content.cc:377-418 | the scan of one peer's transactions between the cached and the requested version |
| `ObjectContents.ObjectContent.OnlyReads` | engine/object_content.cc:405-415 | the scan finds an event other than a method call or a return from a sub-method exactly if there is one |
| `ObjectContents.ObjectContent.GetWorkingVersion` | engine/object_content.cc:84-112 | nothing is returned exactly if some entry of the point is neither in the version map nor known to the store of an up-to-date peer; otherwise the object is the replayed one, by cache or by replay |
| `ObjectContents.ObjectContent.GetTransactions` | engine/object_content.cc:114-134 | hands out a copy of every transaction, and the effective version |
| `ObjectContents.ObjectContent.InsertTransaction` | engine/object_content.cc:188-224 | the new history, and a replay for rejections exactly if the id was already requested |
| `ObjectContents.ObjectContent.AbsorbTransaction` | engine/object_content.cc:198-208 | the new history before any replay, with every committed transaction still covered |
| `ObjectContents.LateWriteArrives` | engine/object_content.cc:188-234 | after the arrival of a covered transaction that writes, a request for the cached point is served the old object, one write behind the replay |
| `ObjectContents.StaleObjectIsServed` | engine/object_content.cc:84-112 | an object that received two transactions, the later one first, serves such a stale object |
| `ObjectContents.ObjectContent.StoreTransactions` | engine/object_content.cc:136-186 | the new history, and a replay for rejections exactly if something new was already requested |
| `ObjectContents.ObjectContent.MergeTransaction` | engine/object_content.cc:148-167 | one transaction is copied if absent and covered in any case |
| `ObjectContents.ObjectContent.MergeTransactions` | engine/object_content.cc:148-167 | the copying loop keeps what is there, adds the others and covers all |
| `Sequencer.FlushRestores` | engine/transaction_sequencer.cc:138-158 | a flush brings the wire up to date and loses no transaction |
| `Sequencer.ReserveKeeps` | engine/transaction_sequencer.cc:60-77 | reserving keeps the order for any clock, unless the stamp wraps, and its check holds |
| `Sequencer.TouchKeeps` | engine/transaction_sequencer.cc:79-136 | queueing and releasing keep the invariant and change only the one transaction |
| `Sequencer.RunIsConsistent` | engine/transaction_sequencer.cc:60-158 | in every run ids never decrease on the wire; without repeats the wire is the retired transactions' messages in id and queue order, then the head's; every transaction holds exactly what was queued for it |
| `Sequencer.NothingBehindTheHead` | engine/transaction_sequencer.cc:138-158 | no message of a transaction behind the head has been sent |
| `Sequencer.RetiredIsSent` | engine/transaction_sequencer.cc:138-158 | every message of a retired transaction has been sent |
| `Sequencer.FlushAdds` | engine/transaction_sequencer.cc:138-158 | a flush adds distinct entries, of which exactly those of the head that were sent before are repeats |
| `Sequencer.OperationAdds` | engine/transaction_sequencer.cc:79-136 | queueing or releasing repeats an entry of the wire if and only if the head holds a message |
| `Sequencer.SentOnceExactlyWhen` | engine/transaction_sequencer.cc:60-158 | in every run nothing is sent twice if and only if the head held no message at any queueing or release |
| `Sequencer.HeadIsSentAgain` | engine/transaction_sequencer.cc:148-154 | a run that reserves a transaction and queues two messages for it sends the first one twice |
| `Sequencer.ReserveCanGoBack` | engine/transaction_id_generator.cc:35-57 | at the largest stamp the next id is below the ids given out, and no check notices if nothing is pending |
| `Sequencer.TransactionSequencer.ReserveTransaction` | engine/transaction_sequencer.cc:60-77 | the check fails exactly if the id is not above the last pending one; below the largest stamp it holds, the id has the earliest stamp above the last and not before the clock, and the invariant is kept |
| `Sequencer.TransactionSequencer.ReleaseTransaction` | engine/transaction_sequencer.cc:79-92 | the new state after release and flush |
| `Sequencer.TransactionSequencer.QueueOutgoingMessage` | engine/transaction_sequencer.cc:107-136 | the new state after queueing and flush |
| `Sequencer.TransactionSequencer.FlushMessages` | engine/transaction_sequencer.cc:138-158 | the loop sends the heads' messages and removes the released ones |
| `EndToEnd.RepeatIsAbsorbed` | engine/object_content.cc:188-224 | inserting a remote transaction again changes nothing |
| `EndToEnd.RepeatsAreHarmless` | engine/object_content.cc:188-224 | the receiver of a wire ends with the history of a receiver of the wire without repeats |
| `EndToEnd.InsertedExactlyWhen` | engine/transaction_store.cc:393-434 | a receiver inserts an id into an object exactly if the wire carries a transaction of that id with events for the object, to that receiver or to all |
| `EndToEnd.DeliveredIsCommitted` | engine/object_content.cc:188-224 | what was delivered is committed and covered under the sender, and the sender counts as up to date |
| `EndToEnd.BroadcastsAgree` | engine/transaction_sequencer.cc:107-158 | receivers of broadcasts have the same history of every object |
| `EndToEnd.DeliveryIsAsIfOnce` | engine/transaction_sequencer.cc:107-158 | after every run of the sender, a receiver of the wire has the history it would have had each queued message arrived once, in order |
| `PlaybackHandshake.RunKeepsInv` | engine/playback_thread.cc:95-158 | the invariant of both threads holds under every interleaving |
| `PlaybackHandshake.ChecksNeverFail` | engine/event_queue.cc:46-63 | no step that can be taken fails a check of the transition table, of moving to the next sequence, or that there is an event to look at or to take |
| `PlaybackHandshake.TableIsExact` | engine/playback_thread.cc:79-84 | the transition table has exactly the changes of state that happen in some run |
| `PlaybackHandshake.PausedMeansDrained` | engine/playback_thread.cc:337-369 | the paused state means an empty queue, nothing fetched, the end of the sequence, and everything queued consumed in order |
| `PlaybackHandshake.FlushIsComplete` | engine/playback_thread.cc:120-158 | flushing and stopping get past their wait only after everything was consumed and delivered |
| `PlaybackHandshake.DeliveryIsInOrder` | engine/playback_thread.cc:142-158 | at every moment of every run the program has seen a prefix of what it is to see of the events queued so far |
| `PlaybackHandshake.NeverStuck` | engine/playback_thread.cc:605-651 | until the end, one of the two threads can always take a step |
| `PlaybackHandshake.FlushGetsNearer` | engine/playback_thread.cc:337-369 | while the controller waits, every step of a program that takes the events it is shown shrinks a measure |
| `PlaybackHandshake.FlushEnds` | engine/playback_thread.cc:120-140 | so the replay thread makes a bounded number of steps, and can stop only paused, when the flush or the stop can go on |
| `Rewind.RunKeepsInv` | engine/recording_thread.cc:304-354 | in every run base ids do not decrease towards the top of the stack and do not exceed the pending base, which is the last commit until a call resumes |
| `Rewind.BelowMeaning` | engine/transaction_store.cc:365-380 | the calls that stay are exactly those whose base is below the rejected id |
| `Rewind.UnwindingStep` | engine/recording_thread.cc:304-354 | each step goes on unwinding, or resumes the innermost call, which is below the rejected id, or is a phase check that forgets a rejection above the pending base |
| `Rewind.OnlyCallsAboveRewind` | engine/recording_thread.cc:304-354 | as long as a rejection is pending, exactly the calls above what is left of the stack have ended, each by returning false, innermost first, and none is below it |
| `Rewind.RejectionUnwindsExactly` | engine/recording_thread.cc:304-354 | for every rejection and every run after it: it is cleared either by a return, when every call at or above it has its own false return, innermost first, and the innermost call below it resumes; or by a phase check with nothing rewound or resumed, which needs a rejection above the pending base |
| `Rewind.FirstRejectionsRewind` | engine/recording_thread.cc:398-410 | until a call resumes, no own transaction is above the pending base |
| `Rewind.SwallowedExactlyWhen` | engine/recording_thread.cc:304-354 | every run that clears a rejection does so by resuming the innermost call below it, if and only if it is not above the pending base; some run forgets it at a phase check if and only if it is above |
| `Rewind.RejectionCanBeSwallowed` | engine/recording_thread.cc:336-343 | a run from the start in which that happens, after a resume |
| `Rewind.UnwindingProgresses` | engine/recording_thread.cc:304-354 | the thread can always return, and each return brings it nearer to resuming |
| `Rewind.OverwritingIsSafeExactlyWhen` | engine/transaction_store.cc:870-875 | every run that clears a second rejection over a pending first resumes a call and leaves only bases below the first, if and only if the second is not above the pending base and no call has a base from the first up to below the second |
| `Rewind.OverwritingCanSkip` | engine/transaction_store.cc:870-875 | a run from the start in which the second rejection leaves a call above the first in place |
| `Rewind.BothCanBeForgotten` | engine/transaction_store.cc:870-875 | a run from the start in which a second rejection above the pending base is forgotten, and the first with it, though no base lies between |
| `Rewind.TransactionStore.GetExecutionPhase` | engine/transaction_store.cc:365-380 | the phase, and that the rejected id is cleared exactly on resuming |
| `Rewind.TransactionStore.RejectTransactions` | engine/transaction_store.cc:849-875 | the pending rewind becomes the smallest local id among the rejections, or stays |
| `LiveObjects.LiveObjectNode.IncrementRefCount` | engine/live_object_node.cc:86-90 | the count grows by one, and the check holds |
| `LiveObjects.LiveObjectNode.DecrementRefCount` | engine/live_object_node.cc:92-97 | the count shrinks by one, and the answer tells whether it is zero |
| `LiveObjects.LiveObjectNode.Release` | engine/live_object.cc:39-44 | a node is deleted exactly with its last reference |
| `LiveObjects.LiveObjectNode.InvokeMethod` | engine/live_object_node.cc:52-80 | in place when unshared; otherwise on a new node, with the old one unchanged |
| `LiveObjects.PointingCounts` | engine/live_object_node.cc:58-59 | a live object's node has a positive count, and a count of one means nobody else points to it |
| `LiveObjects.LiveObject.Sharing` | engine/live_object.cc:88-91 | the new object shares the node and is counted |
| `LiveObjects.LiveObject.Clone` | engine/live_object.cc:50-52 | the copy has the value, counts stay exact, nothing else changes |
| `LiveObjects.LiveObject.InvokeMethod` | engine/live_object.cc:59-82 | this object alone takes the method's new value, and counts stay exact |
| `LiveObjects.LiveObject.Destroy` | engine/live_object.cc:39-44 | counts stay exact, and the node goes exactly if the object was its last |
| `LiveObjects.Perform` | engine/live_object.cc:39-91 | one operation on shared nodes does to the live objects what it does to private copies |
| `LiveObjects.Execute` | engine/live_object.cc:35-91 | after every run of operations counts are exact and each live object has the value of a private copy |
| `QuotaQueues.StepKeepsConserved` | util/quota_queue.h:105-170 | each locked section keeps the account of a service: queued, being pushed, being popped, refused |
| `QuotaQueues.RunKeepsInv` | util/quota_queue.h:105-170 | so does every interleaving of every number of threads |
| `QuotaQueues.CheckNeverFails` | util/quota_queue.h:141-150 | the count never becomes negative |
| `QuotaQueues.ItemsAreConserved` | util/producer_consumer_queue.h:103-152 | what was put in is what was taken out, in order, followed by what is queued |
| `QuotaQueues.QuotaExceededExactlyWhen` | util/quota_queue.h:110-122 | a step leaves the quota exactly if it is a push that does not wait, at the quota, before a drain |
| `QuotaQueues.WaitingKeepsQuota` | util/quota_queue.h:110-122 | a service that everyone waits for stays within its quota in every run |
| `QuotaQueues.QuotaCanBeExceeded` | engine/peer_connection.cc:117-131 | two pushes that do not wait exceed a quota of one |
| `QuotaQueues.FullServiceHasWork` | util/quota_queue.h:111-115 | a push that has to wait is waiting for a queued item or for a call under way |
| `QuotaQueues.SizeExceededExactlyWhen` | util/producer_consumer_queue.h:103-122 | a step leaves the size of the inner queue exactly if it is a push that does not wait, at that size, before a drain |
| `QuotaQueues.PopWaitsForAnItem` | util/producer_consumer_queue.h:124-144 | a waiting pop comes back with the oldest item, and with nothing only once the queue is drained and empty |
| `QuotaQueues.DrainIsFinal` | util/producer_consumer_queue.h:146-152 | in every run, from the end of a drain on nothing gets in, every push fails, what was queued is still handed out in order, and no thread is kept waiting |
| `QuotaQueues.QuietCounts` | util/quota_queue.h:105-170 | with no call under way and nothing queued, only pushes cut off by a drain are still counted |
| `PeerProtocol.RunKeepsInv` | engine/peer_connection.cc:221-351 | the invariant of both ends holds in every run |
| `PeerProtocol.ProtocolIsFollowed` | engine/peer_connection.cc:221-274 | each end produces a prefix of HELLO, regular messages in the order of acceptance, GOODBYE |
| `PeerProtocol.ChecksNeverFail` | engine/peer_connection.cc:294-347 | no check of the receive state fails at either end |
| `PeerProtocol.ChecksCatchExactly` | engine/peer_connection.cc:294-347 | after what has been handled, a message passes its check if and only if it continues a transcript of the protocol |
| `PeerProtocol.DeliveryIsInOrder` | engine/peer_connection.cc:340-351 | in both directions, what one end passes on is a prefix of what the other accepted, and all that was produced once it is handled |
| `PeerProtocol.ClosedExactlyOnce` | engine/peer_connection.cc:253-274 | an end closes at most once, and, once its worker is idle, exactly if GOODBYE was both produced and received |
| `PeerProtocol.NothingSentAfterGoodbye` | engine/peer_connection.cc:224-239 | after GOODBYE nothing more is taken from the output queue |
| `PeerProtocol.DrainIsFinal` | engine/peer_connection.cc:133-147 | in every run, once the output queue is drained, by Drain or after GOODBYE came in, SendMessage accepts nothing more |
| `PeerProtocol.DrainLeadsToGoodbye` | engine/peer_connection.cc:221-274 | with two steps for each message that waits and three more, the worker of a draining end has sent all that was accepted and then GOODBYE |
| `PeerProtocol.LostExactlyWhen` | engine/peer_connection.cc:241-267 | with GOODBYE produced, no accepted message is ever lost if and only if the queue is empty and refuses messages |
| `PeerProtocol.AcceptedCanBeLost` | engine/peer_connection.cc:241-267 | a run in which an accepted message is left behind |
| `Connections.BeforeIsTotal` | engine/connection_manager.cc:429-430 | of two different ids exactly one comes first |
| `Connections.RunKeepsInv` | engine/connection_manager.cc:258-451 | in every run, with any number of peers, each open connection is in exactly one map, and a named one under its remote peer |
| `Connections.ChecksNeverFail` | engine/connection_manager.cc:312-451 | none of the manager's checks of its maps fails |
| `Connections.LoserIsDrained` | engine/connection_manager.cc:399-451 | of two connections to one peer the one whose initiator comes first is named, and the other, new or existing, is drained; nothing else is |
| `Connections.ConnectionManager.ConnectToRemotePeer` | engine/connection_manager.cc:67-84 | the new connection is unnamed and locally initiated |
| `Connections.ConnectionManager.GetOrCreateNamedConnection` | engine/connection_manager.cc:258-279 | the connection already named after the peer, or a new one, and which of the two |
| `Connections.ConnectionManager.GetConnectionInitiator` | engine/connection_manager.cc:281-290 | the local or the remote peer |
| `Connections.ConnectionManager.NotifyConnectionReceived` | engine/connection_manager.cc:292-310 | the new connection is unnamed |
| `Connections.ConnectionManager.NotifyRemotePeerKnown` | engine/connection_manager.cc:377-455 | the new maps; a connection is drained exactly if another was named after the peer, and it is the one whose initiator comes later |
| `Connections.ConnectionManager.NotifyConnectionClosed` | engine/connection_manager.cc:312-365 | the connection leaves the one map it is in |
| `SimultaneousConnections.PeersAgree` | engine/connection_manager.cc:377-451 | with at most one connection from each, for every order of creation, acceptance, greeting and closing, a peer that has handled HELLO on the connection initiated by the smaller id names it from then on, and neither drains it |
| `SimultaneousConnections.OthersAreDrained` | engine/connection_manager.cc:377-451 | with any number of connections, in every run: a connection on which a peer has handled HELLO is the one it names, or is drained or closed there |
| `SimultaneousConnections.LoserGoes` | engine/connection_manager.cc:377-451 | with at most one connection from each: a peer that has handled HELLO on both names the one of the smaller id, and the other is draining or closed there |
| `SimultaneousConnections.AgreementExactlyWhen` | engine/connection_manager.cc:258-451 | two peers that have handled HELLO on all their connections name the same one in every run if and only if neither may initiate more than one |
| `SimultaneousConnections.EachInOneMap` | engine/connection_manager.cc:258-451 | at all times each open connection is in exactly one map, and at most one is named |
| `SimultaneousConnections.TwoFromOnePeerCanDisagree` | engine/connection_manager.cc:258-451 | one run of both peers in which one initiates two connections, both handle HELLO on both, and each drains the one that the other named |
| `Framing.VarintRoundTrip` | protocol_server/varint.cc:24-100 | parsing a formatted number, whatever follows, gives the number and its length if and only if it fits in 64 bits, and fails the check otherwise |
| `Framing.VarintPrefix` | protocol_server/varint.cc:24-66 | a strict prefix of a formatted number is recognised as incomplete |
| `Framing.FormatLength` | protocol_server/varint.cc:68-100 | a number takes at most k bytes if and only if it is below 128 to the power k |
| `Framing.TenBytesAreEnough` | protocol_server/varint.cc:68-100 | a 64-bit number takes at most ten bytes |
| `Framing.MessageRoundTrip` | protocol_server/parse_protocol_message.h:32-56 | parsing a frame, whatever follows, gives the message and the frame's length |
| `Framing.MessagePrefix` | protocol_server/parse_protocol_message.h:32-56 | a strict prefix of a frame is recognised as incomplete |
| `Framing.ToInt32InRange` | protocol_server/parse_protocol_message.cc:35-38 | the conversion of a length keeps it modulo 2 to the 32, and is right exactly for what an int can say |
| `Framing.AnnouncedLength` | protocol_server/parse_protocol_message.h:32-56 | what becomes of every announced length, whatever follows: the message, more to wait for, or a failed check |
| `Framing.ParsedAllSplits` | protocol_server/protocol_connection_impl.h:186-206 | the parsing loop delivers exactly the complete frames and keeps a strict prefix of the next |
| `Framing.ChunkingDoesNotMatter` | protocol_server/protocol_connection_impl.h:111-127 | after any number of chunks, however cut, exactly the messages that have arrived in full are delivered, in order |
| `Framing.AllDelivered` | protocol_server/protocol_connection_impl.h:111-127 | once all bytes have arrived, all messages are delivered and nothing is left |
| `Framing.OversizedInputBreaks` | protocol_server/protocol_connection_impl.h:111-206 | messages that can all be framed, and chunks of the size the connection reads, for which the stream fails |
| `Framing.BreaksExactlyWhen` | protocol_server/protocol_connection_impl.h:111-206 | a stream of frames fails if and only if some arrival does not fit in an int |
| `Framing.RoomIsEnough` | protocol_server/protocol_connection_impl.h:111-206 | frames that leave room for one more chunk always fit |
| `Framing.GetVarintLength` | protocol_server/varint.cc:93-100 | the shifting loop computes the formatted length |
| `Framing.FormatVarint` | protocol_server/varint.cc:68-91 | the loop writes the format into the buffer |
| `Framing.FindVarintLastChar` | protocol_server/varint.cc:24-35 | finds the first byte without a continuation bit |
| `Framing.ParseVarint` | protocol_server/varint.cc:39-66 | the accumulating loop computes the value, with the overflow check |
| `Framing.ProtocolConnection.ReceiveData` | protocol_server/protocol_connection_impl.h:111-127 | the new input and deliveries after a chunk |
| `Framing.ProtocolConnection.ParseMessages` | protocol_server/protocol_connection_impl.h:186-206 | the loop delivers and erases as the recursive definition has it |
| `Framing.ProtocolConnection.ParseProtocolMessage` | protocol_server/parse_protocol_message.h:32-56 | one message, incomplete input, or a failed check |
| `SymbolTables.ExternalIsNew` | toy_lang/symbol_table.cc:82-94 | an external symbol gets a new id, is found under its visibility only, and keeps the table valid |
| `SymbolTables.InnermostDecides` | toy_lang/symbol_table.cc:113-123 | a name means what the innermost scope that has it says |
| `SymbolTables.NothingExactlyWhen` | toy_lang/symbol_table.cc:113-123 | no scope gives it a meaning exactly if none has it |
| `SymbolTables.CreatedMeaning` | toy_lang/symbol_table.cc:138-150 | a new symbol has the next id, its name leads to it, and no other name has changed |
| `SymbolTables.EnteredExactlyWhen` | toy_lang/symbol_table.cc:40-51 | a scope can be entered exactly if its parameters have different, non-empty names; they get the next ids in order, and leaving undoes it but for the ids used up |
| `SymbolTables.LocalVariableMeaning` | toy_lang/symbol_table.cc:72-80 | setting a variable works exactly if it is visible or can be a local, its name then leads to it, and no other name has changed |
| `SymbolTables.FoundIsBound` | toy_lang/symbol_table.cc:109-136 | whatever a name is found to mean is external or bound by an enclosing scope |
| `SymbolTables.LocalVariableIsBound` | toy_lang/symbol_table.cc:72-80 | a variable that is set is bound, by a new local of the innermost scope exactly if the name was not visible |
| `SymbolTables.SymbolTable.CreateSymbol` | toy_lang/symbol_table.cc:138-150 | a new symbol of the innermost scope; the check fails exactly if there is no scope, the name is empty, or the scope has it |
| `SymbolTables.SymbolTable.EnterScope` | toy_lang/symbol_table.cc:40-51 | a new scope whose parameters have the next ids in order; a check fails exactly if a name is empty or repeated |
| `SymbolTables.SymbolTable.LeaveScope` | toy_lang/symbol_table.cc:53-63 | the innermost scope goes, and its ids are handed out |
| `SymbolTables.SymbolTable.PrivateGetSymbolId` | toy_lang/symbol_table.cc:109-136 | the innermost scope that has the name decides; where none has it, or none is asked, an external of that visibility; otherwise nothing |
| `SymbolTables.SymbolTable.GetLocalVariable` | toy_lang/symbol_table.cc:72-80 | the visible symbol, or a new local; the name then leads to it and no other name has changed |
| `SymbolTables.SymbolTable.AddExternalSymbol` | toy_lang/symbol_table.cc:82-94 | a new external symbol; the check fails exactly if the name is empty or taken |
| `ToyParser.ParsesWritten` | toy_lang/parser.cc:57-240 | given a program as written and anything after it, the parser does what the reference resolution does, success and failure alike |
| `ToyParser.AcceptsOnlyWritten` | toy_lang/parser.cc:57-240 | what the parser consumes is the text of some program |
| `ToyParser.AcceptedExactlyWhen` | toy_lang/parser.cc:40-55 | a file gives a tree if and only if it is the text of a program that resolves to that tree |
| `ToyParser.ParseExpression` | toy_lang/parser.cc:57-81 | success consumes tokens and keeps the depth of scopes, which is why parsing ends |
| `ToyParserMethods.Parser.ParseFile` | toy_lang/parser.cc:40-55 | takes all tokens and gives the tree and table of the reference, or fails, exactly as `AcceptedExactlyWhen` describes |
| `ToyParserMethods.Parser.ParseExpression` | toy_lang/parser.cc:57-108 | takes exactly the tokens of one expression from the lexer and leaves the symbol table as the reference resolution does, or fails where that fails |
| `ToyParserMethods.Parser.ParseStatement` | toy_lang/parser.cc:110-134 | the same of a parenthesised statement with its closing token |
| `ToyParserMethods.Parser.ParseForStatement` | toy_lang/parser.cc:136-155 | the same of a for statement, whose block binds the loop variable |
| `ToyParserMethods.Parser.ParseSetStatement` | toy_lang/parser.cc:157-178 | the same of a set statement, whose variable is resolved after its right-hand side |
| `ToyParserMethods.Parser.ParseWhileStatement` | toy_lang/parser.cc:180-198 | the same of a while statement, whose condition gets a scope of its own |
| `ToyParserMethods.Parser.ParseFunctionCall` | toy_lang/parser.cc:200-207 | the same of a call with its arguments |
| `ToyParserMethods.Parser.ParseBlock` | toy_lang/parser.cc:209-222 | the same of a block, whose scope is left before the closing token is taken |
| `ToyParserMethods.Parser.ParseList` | toy_lang/parser.cc:224-231 | the same of a list |
| `ToyParserMethods.Parser.ParseExpressionList` | toy_lang/parser.cc:233-240 | takes the expressions up to the end token, which stays, and collects them in order |
| `ToyParserMethods.Parser.LeaveScope` | toy_lang/parser.cc:246-253 | the block binds exactly the ids of the scope that is left |
| `ToyScoping.MadeBlock` | toy_lang/parser.cc:209-222 | leaving a scope makes a block that binds new ids, each once, and is well scoped outside |
| `ToyScoping.ResolvedIsMade` | toy_lang/parser.cc:57-240 | every expression is well scoped in what is bound by then, and has used only new ids, each once |
| `ToyScoping.ParsedIsWellScoped` | toy_lang/parser.cc:40-253 | every accepted file becomes a block that is well scoped in the external symbols, with pairwise distinct binders |
| `ToyNames.ResolvesExactlyWhen` | toy_lang/parser.cc:57-240 | an expression is accepted if and only if each of its names can be used where it stands, and the same names can be used after it, as a reference without ids or scopes has it |
| `ToyNames.AcceptedExactlyWhenSeen` | toy_lang/parser.cc:40-55 | a file is accepted if and only if it is the text of a program each of whose names can be used where it stands |
| `ToyNames.SetFromItself` | toy_lang/parser.cc:157-178 | a variable can be set from itself exactly if it could be used before, because its right-hand side comes first |
| `ToyUnparsing.TreeTells` | toy_lang/parser.cc:57-240 | given what its ids were called, an expression is read off its tree: statement, names, arguments and their order |
| `ToyUnparsing.TreeTellsTheFile` | toy_lang/parser.cc:40-55 | of every accepted file, the program read off the tree, written down again, is the file, token by token |
| `ToyUnparsing.AddedApart` | toy_lang/symbol_table.cc:82-94 | external symbols added one by one have different ids |
| `ToyEvaluation.BindSymbols` | toy_lang/code_block.cc:57-79 | the two loops bind each parameter to its argument and each local to a new variable, and nothing else; the checks fail exactly if the count is wrong or an id would be bound twice |
| `ToyEvaluation.BlockBindsExactlyWhen` | toy_lang/code_block.cc:57-79 | bindings exist if and only if the count is right and no id is bound twice, and give each external, parameter and local its own object |
| `ToyEvaluation.SymbolsMean` | toy_lang/expression.cc:169-176 | a code block that is just a symbol evaluates to the external object, the argument or the new variable that the symbol stands for |
| `ToyEvaluation.ArgumentsArePassedOn` | toy_lang/expression.cc:270-302 | a code block that calls one parameter with others creates the list of those arguments in order, calls that argument with it, and gives the answer |
| `ToyEvaluation.WellScopedIsFine` | toy_lang/expression.cc:169-213 | a well-scoped expression never meets an unbound symbol and creates only good code blocks |
| `ToyEvaluation.GoodFailsExactlyWhen` | toy_lang/code_block.cc:57-82 | a good code block fails if and only if the number of arguments is wrong |
| `ToyEvaluation.CompletesExactlyWhen` | toy_lang/expression.cc:270-302 | an evaluation ends with a value if and only if all its calls are answered; the value, the objects created with their contents, and the calls made with callee and list, are then those read off the tree, in that order |
| `ToyEvaluation.AllCompleteExactlyWhen` | toy_lang/expression.cc:47-68 | the same of a list of expressions, with the value of each at its own position |
| `ToyEvaluation.ProgramsNeverFail` | toy_lang/code_block.cc:57-82 | of every accepted file, no evaluation of any code block, in any run, fails the checks for unbound symbols or double binding |

## Left out

- Sockets, the select loop, eventfd and TCP: a channel is a FIFO queue, and bytes arrive in arbitrary chunks.
- Mutexes and condition variables: a locked section is one step, and a wait is a guarded step.
- Threads as objects: the playback thread, event queue, state variable, recording thread, quota queue and peer connection are step machines on values, so updates in place within one locked section are not modelled as such.
- Protocol buffers and UUIDs: message bodies and events are opaque, and the two halves of a generator's UUID are given.
- Bodies of local objects' methods and the built-in functions of the toy language: arbitrary functions and arbitrary answers.
- Matching of objects in playback, and objects newly created in one retry pass and seen by the next: playback is a function of the transactions played and of the number of the pass.
- Sequence-point exclusions in replay: replay uses only the version map of a sequence point, as the code does.
- Messages about objects that the receiver does not know: the end-to-end property is about an object the receiver has.
- The transaction store beyond the execution phase and the choice of the rewind id: updating the current sequence point, version numbers, and applying remote messages.
- Lingering after a rewind, and resuming at a non-zero transaction level.
- Intersection of version maps, the minimum variant, and removal of a peer's transaction: nothing in the engine calls them.
- 32-bit overflow of reference counts, item counts and symbol ids.
- Failure to open a connection, and a connection that is cut before GOODBYE is on the wire: GOODBYE counts as sent when it is produced.
- A remote peer that breaks the protocol or gives a different peer id than expected: the source stops with a failed check there.
- Connection objects: a connection is a number, and its initiator and remote peer are kept by the manager.
- The lexer: the parser is given tokens.
- Dumping, logging, debug timeouts, mocks, command-line programs and garbage collection of object references.
- SequencePoints.SequencePointImpl.AddInvalidatedRange: requires the start not to be above the end, because erasing a reversed range of a set is undefined in the source.
- Messages without a transaction id: they are sent at once and do not pass through the sequencer.
- Sequencer.RunIsConsistent: is about runs that do not reserve at the largest stamp; what happens there is stated by Sequencer.ReserveCanGoBack.
- Rewind.RejectionUnwindsExactly: is about rejections that come while a call is under way; after the program has ended only lingering remains.
- Framing.ChunkingDoesNotMatter: is about arrivals that fit in an int; Framing.BreaksExactlyWhen shows that this is exactly what is needed.
- LiveObjects.LiveObject.InvokeMethod: is about operations that do not overlap.
