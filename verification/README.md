# A verified model of the TraderTwo exchange

TraderTwo is a price-time-priority exchange. This project models its hard core in Dafny and
proves properties of that model for every input, every run and every reachable state.

`dafny verify dfyconfig.toml` checks everything.

The design has two layers. The lower layer follows the program: linked lists, ladders, an id
index, an engine, a ring buffer, byte buffers, all updated in place by classes and loops. The
upper layer is small and functional: a book is two sorted lists of orders, an engine is a map
of books and a counter, a run is a list of commands. Methods of the lower layer are proved to
act on their abstract view exactly as the upper layer does. What the exchange promises is then
proved about the upper layer, over whole runs.

| part | files |
|---|---|
| values and reference book | `Types`, `BookSpec` |
| match loop, its closed form, engine on values | `MatchSpec`, `EngineSpec`, `Outcomes` |
| properties of runs | `Safety`, `Conservation`, `Priority`, `Ids`, `Modifying`, `Lifecycle`, `Totals` |
| linked book and engine | `Ladder`, `Level`, `LevelStore`, `OrderBook`, `Engine`, `Runner` |
| event log and replay | `Bytes`, `EventLog`, `Blurring`, `Replay`, `Replayer`, `Transcript`, `TornLog` |
| queue and workers | `Bits`, `Spsc`, `Sharding`, `Workers` |
| WebSocket framing | `WsFraming`, `WsPeer` |
| market data | `EventRing`, `Quotes`, `Publisher` |
| rate limit | `RateLimit` |

How the main results are stated:

- A **book** is `Valid` when each side is sorted by price with distinct, positive, correctly
  priced orders and no id is on both sides. `OrderBook.Valid` adds the heap: every live order is
  indexed and on exactly one correctly linked list of its side and price, counts and totals are
  those of the list, no level is empty, and the two ladders partition the level store.
- **Matching** is first a recursion (`Sweep`), then a closed form (`Greedy`): the k-th fill goes
  to the k-th order of the opposite side and takes all of it or what the taker has left.
- **Never crossed** holds over all runs without a *colliding* modify, one that replaces an order
  at a price reaching the other side's best. Since a modify never matches, this condition is
  exact. A colliding price beyond the other side crosses the book (`Modifying.CollisionCrosses`).
  A colliding price that rests on the other side is worse: the level store keeps one level per
  price, so the new ladder entry leads to a level that nothing owns
  (`LevelStore.SharedPriceBreaks`). `LevelStore.ModifySoundIff` covers both: ladders and store
  agree and the book is uncrossed afterwards if and only if the modify does not collide.
- **Runs** are therefore runs of *allowed* commands, those the level store can carry out
  (`Safety.Allowed`). From a sound engine every harmless command is allowed
  (`Safety.HarmlessAllowed`), and the engine with its linked books carries out every allowed run
  as the engine on values does (`Runners.RunCommands`).
- **Replay** is compared up to trader id and time in force, which the log does not keep
  (`Blur.Origin`). A zero-fill IOC order is logged as cancelled, a kind that the replayer does
  not support, so the claim reaches up to the first such record, whose index is returned.
  A log cut short gives the engine after the submissions whose result record is complete, or
  complete up to its quantity (`TornLogs.TornRecovery`).
- **Sharding** is compared up to sequence numbers and trade ids (`Blur.Number`).
- **The ring queue** keeps, for each cursor, every value stored so far; a thread that loads the
  other side's cursor may obtain any value not older than its last one.

Where the documentation and the code differ, the model follows the code: FOK has no branch of
its own and rests like GTC, and replay supports only records of new orders.

## Model

| member | source | states |
|---|---|---|
| Levels.Level.Link | include/tt/orderbook/order_book.hpp:58-65 | the list stays doubly linked with exactly that node behind the old tail |
| Levels.Level.Append | include/tt/orderbook/order_book.hpp:55-68 | the linked list, count and total stay correct; the node is the new last of the queue and no order changes |
| Levels.Level.Unlink | src/orderbook/order_book.cpp:207-220 | the list stays doubly linked without exactly that node, at head, middle or tail |
| Levels.Level.Remove | include/tt/orderbook/order_book.hpp:70-86 | the queue loses exactly that position; count and total are again those of the list |
| Levels.Level.Amend | src/orderbook/order_book.cpp:285-298 | one order changes in place and the total follows |
| LevelStore.GetOrCreateAgreesIff | src/orderbook/order_book.cpp:45-62 | with insertions that keep an existing key, ladders and store agree after creating a level if and only if its price is not on the other ladder; otherwise nothing owns the new level |
| LevelStore.DestroyAgrees | src/orderbook/order_book.cpp:64-71 | destroying a level keeps ladders and store in agreement |
| LevelStore.InsertShelvesIff | src/orderbook/order_book.cpp:73-94 | an insert keeps ladders and store in agreement, and standing for the new book, if and only if its price is not resting on the other side |
| LevelStore.ModifyShelvesIff | src/orderbook/order_book.cpp:337-361 | the same for a modify, which first takes the order off its old level |
| LevelStore.ModifySoundIff | src/orderbook/order_book.cpp:301-362 | from a sound book, a modify leaves ladders and store in agreement and the book uncrossed if and only if it does not collide |
| LevelStore.SharedPriceBreaks | src/orderbook/order_book.cpp:45-62 | a concrete modify to a price of the other side, after which the ladder leads to a level the store does not own |
| LevelStore.FillIndexIff | src/orderbook/order_book.cpp:257-268 | a fill keeps index and levels in agreement if and only if the front of the level is the id's own order or is not consumed |
| LevelStore.WrongFrontBreaks | src/orderbook/order_book.cpp:257-268 | a concrete fill under the id of the second order at a price, after which the index has lost an order that rests |
| OrderBooks.OrderBook.EnterLevel | src/orderbook/order_book.cpp:49-53 | ladder and store are updated by insertions that keep an existing key; they agree if and only if the other ladder has no such price |
| OrderBooks.OrderBook.GetOrCreateLevel | src/orderbook/order_book.cpp:45-62 | for every price: the ladder's level, old or new, and agreement of ladders and store exactly when it was there or the other ladder has no such price |
| OrderBooks.OrderBook.ShelvesStand | include/tt/orderbook/order_book.hpp:232-243 | in a valid book the ladders have a level for exactly the prices with orders, on one side each, and the store owns exactly those |
| OrderBooks.OrderBook.InsertExact | src/orderbook/order_book.cpp:87-91 | what the linked book demands of an insertable order is exactly what keeps ladders and store in agreement |
| OrderBooks.OrderBook.ModifyExact | src/orderbook/order_book.cpp:337-361 | what the linked book demands of a modify is exactly what keeps ladders and store in agreement |
| OrderBooks.OrderBook.FillExact | src/orderbook/order_book.cpp:240-270 | what the linked book demands of a fill is exactly what keeps the index and the levels in agreement |
| OrderBooks.OrderBook.DropIfEmpty | src/orderbook/order_book.cpp:64-71 | no empty level survives in a ladder or in the store |
| OrderBooks.OrderBook.ViewValid | include/tt/orderbook/order_book.hpp:232-247 | the heap invariant makes the abstract book sorted, with distinct ids and valid quantities |
| OrderBooks.OrderBook.IndexAgrees | include/tt/orderbook/order_book.hpp:245-246 | an id is indexed exactly when it rests in the abstract book, and the index finds that very order |
| OrderBooks.OrderBook.Insert | src/orderbook/order_book.cpp:73-94 | refines insertion behind all orders of the same or a better price; true exactly when the order is insertable |
| OrderBooks.OrderBook.Cancel | src/orderbook/order_book.cpp:96-126 | refines removal of exactly that order; true exactly when it is live and open |
| OrderBooks.OrderBook.Fill | src/orderbook/order_book.cpp:240-270 | the front order of the id's level loses the quantity or leaves the book, everything else is unchanged; true exactly when it survives |
| OrderBooks.OrderBook.Reduce | src/orderbook/order_book.cpp:276-299 | refines shrinking in place; true exactly when the quantity is positive and smaller than what remains |
| OrderBooks.OrderBook.Modify | src/orderbook/order_book.cpp:301-362 | refines the reference modify with the reference result, on every branch |
| OrderBooks.OrderBook.Replace | src/orderbook/order_book.cpp:337-361 | same abstract book as a cancel followed by an insert of the requoted order |
| OrderBooks.OrderBook.BestPrice | src/orderbook/order_book.cpp:129-137 | no order of the side has a better price; the invalid price exactly on an empty side |
| OrderBooks.OrderBook.BestOrder | src/orderbook/order_book.cpp:154-162 | the first order of the side in priority, at the head of its level and found by the index |
| OrderBooks.OrderBook.Top | src/orderbook/order_book.cpp:372-382 | best price with the quantity and count that a scan of all orders gives |
| OrderBooks.OrderBook.Depth | src/orderbook/order_book.cpp:164-182 | the best n prices in order, each with scanned total and count; every other price is worse |
| BookSpec.InsertValid | src/orderbook/order_book.cpp:73-94 | insertion keeps a valid book |
| BookSpec.CancelValid | src/orderbook/order_book.cpp:96-126 | cancelling keeps a valid book and the id is gone |
| BookSpec.ModifyValid | src/orderbook/order_book.cpp:301-362 | every modify that the level store can carry out keeps a valid book |
| BookSpec.ReplacementInsertable | src/orderbook/order_book.cpp:337-361 | a replacement always finds its id free and its fields valid |
| MatchSpec.SweepTurn | src/matching/matching_engine.cpp:249-298 | one turn of the loop, filling the head, followed by the rest of the sweep is the whole sweep |
| MatchSpec.ReachIsAll | include/tt/matching/matching_engine.hpp:173-177 | on a sorted side the reach is exactly the orders at the limit or better; for a market order, all of them |
| MatchSpec.SweepIsGreedy | src/matching/matching_engine.cpp:245-301 | the fills are the greedy ones: k-th fill on the k-th order with its share, total the lesser of demand and reachable quantity, all else untouched |
| Outcomes.SweepTakes | src/matching/matching_engine.cpp:267-276 | total filled is the lesser of the taker's quantity and all crossing liquidity, found by a scan |
| Outcomes.SettleReports | src/matching/matching_engine.cpp:184-243 | the five statuses as five exclusive conditions on what is left, kind, time in force and a free id; filled and resting quantity follow from the liquidity; at most one fill per opposite order |
| Outcomes.AdmittedIff | src/matching/matching_engine.cpp:127-175 | a submission takes a sequence number if and only if it passes five tests, with their bounds as numbers; otherwise the first it fails gives the reason and the engine is as before |
| Outcomes.TradesAreGreedy | src/matching/matching_engine.cpp:258-297 | the k-th trade is with the k-th opposite order, at its price, never beyond the limit of the order, for its share, with the right parties and consecutive ids |
| Outcomes.VolumeIsLiquidity | src/matching/matching_engine.cpp:245-301 | the trades add up to the lesser of what the order wants and all that rests at its limit or better on the other side; for a market order, all that rests there |
| Outcomes.ResultFields | src/matching/matching_engine.cpp:184-243 | every result repeats id, instrument, side, type and price of its order, and has a reason exactly when it is a rejection |
| Outcomes.RestsAsSubmitted | src/matching/matching_engine.cpp:225-242 | an accepted remainder rests last at its price as the submitted order with what is left of it; otherwise the own side is untouched |
| Outcomes.OtherBooks | src/matching/matching_engine.cpp:117-243 | a submission leaves the books of other instruments alone |
| Engines.MatchingEngine.FillBest | src/matching/matching_engine.cpp:258-297 | one fill against the head of the best level: book, taker, counter, trade and what the sink sees |
| Engines.MatchingEngine.MatchAgainst | src/matching/matching_engine.cpp:245-301 | the loop leaves book and taker as the sweep does, emits its trades in order and shows each intermediate book |
| Engines.MatchingEngine.SettleOn | src/matching/matching_engine.cpp:184-243 | after matching, the remainder is dropped, rested or refused as the specification says, with exactly one result |
| Engines.MatchingEngine.Submit | src/matching/matching_engine.cpp:117-243 | refines submission on values, including null orders, id assignment and refusals; other books untouched |
| Engines.MatchingEngine.Cancel | src/matching/matching_engine.cpp:310-314 | refines the withdraw command; true exactly when the order was cancellable |
| Engines.MatchingEngine.Modify | src/matching/matching_engine.cpp:316-323 | refines the change command with the reference result |
| Engines.MatchingEngine.Reduce | src/matching/matching_engine.cpp:325-330 | refines the trim command; true exactly when reducible |
| Engines.MatchingEngine.RegisterInstrument | src/matching/matching_engine.cpp:24-27 | adds an empty book, or nothing when there is one |
| Engines.MatchingEngine.UnregisterInstrument | src/matching/matching_engine.cpp:44-50 | drops exactly that book; true when there was one |
| Safety.SettleUncrossed | src/matching/matching_engine.cpp:184-243 | a submission of any type leaves an uncrossed book uncrossed |
| Safety.InsertUncrossedIff | src/orderbook/order_book.cpp:73-94 | a new resting order at a price not resting on the other side keeps the book uncrossed if and only if it does not reach that side |
| Safety.ModifyUncrossedIff | src/orderbook/order_book.cpp:301-362 | a modify that the level store can carry out keeps the book uncrossed if and only if it does not collide |
| Safety.HarmlessAllowed | src/orderbook/order_book.cpp:337-361 | in a sound engine a command that does not collide is one the level store can carry out |
| Safety.StepValid | src/matching/matching_engine.cpp:117-330 | no command that the level store can carry out breaks a book |
| Safety.StepSound | src/matching/matching_engine.cpp:117-330 | every command but a colliding modify keeps all books valid and uncrossed |
| Safety.RunSound | src/matching/matching_engine.cpp:245-256 | over every run without a colliding modify, best bid is strictly below best ask in every book, and the level store can carry out every command |
| Safety.NoSharedPrice | src/orderbook/order_book.cpp:45-71 | in an uncrossed book every bid is below every ask, so no price is on both ladders |
| Conservation.SweepTotal | src/matching/matching_engine.cpp:267-276 | what a sweep takes from the side and from the taker is the sum of its fills |
| Conservation.StepConserves | src/orderbook/order_book.cpp:96-126 | each allowed command changes the resting quantity of a side by the flow read off its outcome |
| Conservation.RunConserves | src/matching/matching_engine.cpp:187-242 | over every allowed run, resting quantity is the initial one plus accepted, minus traded, minus cancelled, minus reduced, plus replaced |
| Conservation.FilledIsVolumeIff | src/matching/matching_engine.cpp:187-229 | the reported fill is the sum of the trades if and only if the order was refused or arrived with its whole quantity remaining |
| Priority.StepNoOvertaking | src/orderbook/order_book.cpp:192-232 | while an order with priority rests, an allowed command neither fills nor promotes the one behind it |
| Priority.NoOvertaking | include/tt/orderbook/order_book.hpp:55-86 | the same over every allowed run, until the order behind is cancelled |
| Priority.RunInOrder | include/tt/orderbook/order_book.hpp:55-68 | without replacing modifies every queue is strictly increasing in sequence number, in every run |
| Modifying.ReplacedGoesLast | src/orderbook/order_book.cpp:337-361 | a replaced order is last at its new price with the new quantity, and the rest of the book is the cancelled book |
| Modifying.ModifiedKeepsPlace | src/orderbook/order_book.cpp:313-335 | a modified order keeps place, standing and quantity minus remaining; nothing else changes |
| Modifying.ModifyResultIff | src/orderbook/order_book.cpp:301-335 | each result of a modify if and only if, on fields: Modified at the same price for no more than what remains, Replaced for any other valid change, Refused for an invalid one, NotFound for a filled or cancelled order |
| Modifying.NothingFound | src/orderbook/order_book.cpp:301-306 | for an id that does not rest, modify, reduce and cancel fail and change nothing |
| Modifying.DecreaseKeepsQueue | src/orderbook/order_book.cpp:313-335 | a decrease at the same price leaves every order at its position and changes remaining, quantity and status of one |
| Modifying.SameKeepsBook | src/orderbook/order_book.cpp:313-335 | a modify to the own price and remaining quantity changes nothing |
| Modifying.ReplacementFields | src/orderbook/order_book.cpp:337-361 | a replaced order keeps its identity and sequence number, with price, quantity and status anew |
| Modifying.ReduceIff | src/orderbook/order_book.cpp:276-299 | a reduce succeeds if and only if the order is open and the quantity positive and below what remains; then remaining is that quantity and nothing else but the status changes |
| Modifying.CancelIff | src/orderbook/order_book.cpp:96-126 | a cancel succeeds if and only if the order is neither filled nor cancelled, and cuts it out of its side |
| Modifying.CollisionCrosses | src/orderbook/order_book.cpp:337-361 | a concrete modify beyond the other side's best price, which crosses the book |
| Lifecycle.PartlyFilled | src/orderbook/order_book.cpp:192-232 | what a sweep leaves of a side is its last orders as they were, the first perhaps with less remaining and then marked as partly filled |
| Lifecycle.RunWorking | src/orderbook/order_book.cpp:192-361 | over every run of new orders, each resting order is new or partly filled |
| Lifecycle.WithdrawRemoves | src/orderbook/order_book.cpp:96-126 | withdrawing any such order succeeds, takes it out and leaves all else as it was |
| Lifecycle.RunThenWithdraw | src/matching/matching_engine.cpp:310-314 | after every run of new orders and allowed commands, every resting order can be withdrawn in that way |
| Ids.NeverDuplicate | src/matching/matching_engine.cpp:235-241 | with engine-assigned ids the duplicate outcome does not occur |
| Ids.StepIds | src/matching/matching_engine.cpp:127-131 | a command hands out exactly the numbers between the counter before and after |
| Ids.RunIds | src/matching/matching_engine.cpp:174-280 | over every allowed run the ids of orders and trades are the consecutive numbers up to the counter, across instruments |
| Totals.RunLevelTotals | include/tt/orderbook/order_book.hpp:55-113 | after every allowed run a level's total is between its count and its count times 10^12, and fits 64 bits up to 9,223,372 orders |
| Totals.TotalFitsIff | include/tt/common/types.hpp:80-91 | all levels of n orders fit 64 bits if and only if n is at most 9,223,372 |
| EventLogs.ReadEncoded | src/persistence/event_log.cpp:50-129 | reading a written record returns its persisted fields and leaves what follows |
| EventLogs.LogRoundTrip | src/persistence/event_log.cpp:181-212 | reading a fresh log returns exactly the appended records, on all persisted fields |
| EventLogs.CutLog | src/persistence/event_log.cpp:199-209 | a log cut at any byte reads as its complete records, and one more exactly when the cut is inside a record: fields before the cut as written, fields behind it zero |
| EventLogs.HeaderBytes | src/persistence/event_log.cpp:138-141 | the sixteen bytes of the header |
| EventLogs.TradeLayout | src/persistence/event_log.cpp:50-72 | the fields of a trade record in file order, each eight little-endian bytes behind the kind |
| EventLogs.OrderLayout | src/persistence/event_log.cpp:50-88 | the fields of every other record in file order, with the reason behind its length |
| EventLogs.ForeignFile | src/persistence/event_log.cpp:181-200 | a file that does not begin with the header gives no records |
| EventLogs.EventLog.Append | src/persistence/event_log.cpp:171-179 | the file grows by the encoded record, or not at all once closed |
| EventLogs.EventLog.ReadBack | src/persistence/event_log.cpp:181-212 | the read loop returns what the reading function returns and keeps the file |
| Replayers.PersistingSink.OnTrade | src/persistence/event_log.cpp:217-224 | the file grows by one record, which reads back as the trade with its sequence number and timestamp |
| Replayers.PersistingSink.OnSubmitResult | src/persistence/event_log.cpp:226-252 | the file grows by one record, which reads back as the result with filled plus resting as quantity |
| Transcripts.TradeKept | src/persistence/event_log.cpp:217-224 | read back, a trade record has kind 7, the sequence number and timestamp, and the trade field by field |
| Transcripts.ResultKept | src/persistence/event_log.cpp:226-252 | read back, a result record has the number of its status, id, instrument, side, type, price, filled plus resting, and the reason |
| Transcripts.LogTells | src/persistence/event_log.cpp:171-252 | reading back the log of a run gives for each submission its trades in order, then its result, of every status |
| Replay.SweepExact | src/persistence/event_log.cpp:235-237 | a taker that wants exactly what was filled sweeps exactly the same orders |
| Replay.ReplayOne | src/persistence/event_log.cpp:277-297 | replaying the record of one submission has the effect of that submission, up to origin |
| Replay.ReplayRebuilds | src/persistence/event_log.cpp:226-303 | replaying the log of any run rebuilds the engine up to the first zero-fill IOC, whose record index is returned |
| Replay.ReplayPersisted | src/persistence/event_log.cpp:257-303 | replay reads only what the log keeps |
| Replay.Recovery | src/persistence/event_log.cpp:171-303 | the whole way: run, log file, reading back, replay into a fresh engine with the same instruments |
| Blurring.OriginsOnly | src/persistence/event_log.cpp:277-294 | what replay is compared with is the book order by order, without trader and time in force |
| Replayers.ReplayInto | src/persistence/event_log.cpp:257-303 | the replay loop on a live engine refines the replay function, count included |
| Replay.ReplayStopsAt | src/persistence/event_log.cpp:267-302 | replay stops, without effect, at a record of any other kind than 1, 2, 4, 5 and 7 |
| Runners.RunCommands | src/matching/matching_engine.cpp:117-330 | the engine with its linked books carries out every allowed list of commands as the engine on values does |
| Runners.RunSafely | src/matching/matching_engine.cpp:245-256 | a list of harmless commands leaves the linked books of a sound engine valid and uncrossed |
| Runners.WithdrawResting | src/matching/matching_engine.cpp:310-314 | on the linked books, cancelling any resting new or partly filled order returns true and removes just that order |
| Runners.RecordRun | src/persistence/event_log.cpp:217-252 | a run of submissions with a persisting sink appends exactly its log to the file |
| Runners.Recover | src/persistence/event_log.cpp:181-303 | reading a log and replaying it into a new engine computes the replay function of the file |
| Runners.RunAndRecover | src/persistence/event_log.cpp:171-303 | the whole way on live objects: run with a log, read back, replay; the rebuilt engine and the count are as promised |
| TornLogs.ReplayConcat | src/persistence/event_log.cpp:267-302 | replay goes on to a second part of a log exactly when it did not stop in the first |
| TornLogs.ReplayCut | src/persistence/event_log.cpp:257-303 | replaying the first k records of a run's log gives the engine after the submissions that are finished in them, up to the first zero-fill IOC, and the count |
| TornLogs.TornOrderKept | src/persistence/event_log.cpp:277-294 | a record cut behind its quantity resubmits the order of the whole record |
| TornLogs.TornOrderRefused | src/persistence/event_log.cpp:277-295 | a record cut before its quantity resubmits an order of no quantity, which leaves every engine as it is |
| TornLogs.TornRecovery | src/persistence/event_log.cpp:181-303 | reading back and replaying a log cut at any byte outside a quantity gives the engine after the submissions that are finished in it, and the count |
| Bits.PowerOfTwoIff | include/tt/concurrency/spsc_queue.hpp:26-27 | the compile-time test accepts exactly the powers of two |
| Bits.MaskIsMod | include/tt/concurrency/spsc_queue.hpp:68-68 | masking with N - 1 is the remainder modulo N |
| Spsc.SlotOfWrapped | include/tt/concurrency/spsc_queue.hpp:42-51 | a wrapped cursor selects the slot of the unbounded one |
| Spsc.WrapHarmlessIff | include/tt/concurrency/spsc_queue.hpp:26-27 | wrapping is harmless if and only if the number of slots divides 2^64 |
| Spsc.StepInv | include/tt/concurrency/spsc_queue.hpp:38-54 | every atomic step of either thread keeps the invariant |
| Spsc.QueueSafe | include/tt/concurrency/spsc_queue.hpp:38-54 | under every interleaving with stale loads: pushed is popped plus contents, occupancy is at most N, no unread slot is overwritten |
| Spsc.RefusalIff | include/tt/concurrency/spsc_queue.hpp:38-49 | with up-to-date loads a push is refused exactly on a full queue and a pop exactly on an empty one |
| Spsc.SpscQueue.Push | include/tt/concurrency/spsc_queue.hpp:38-45 | appends when there is room, and is the three producer steps of the state machine |
| Spsc.SpscQueue.Pop | include/tt/concurrency/spsc_queue.hpp:47-54 | takes the oldest value when there is one, and is the three consumer steps of the state machine |
| Sharding.DoInv | src/concurrency/worker_pool.cpp:96-108 | every step of a worker, its inbox or its producer keeps the engine equal to the fold of what was handled |
| Sharding.WorkerPrefix | src/concurrency/worker_pool.cpp:90-108 | a worker has processed, in order, a prefix of what its inbox accepted, and nothing behind a request to stop |
| Sharding.PoolKeepsInv | src/concurrency/worker_pool.cpp:113-129 | the same for all workers of a pool, over every run |
| Sharding.SameSubmit | src/matching/matching_engine.cpp:117-243 | an order with its own id does the same in two engines that agree on its book |
| Sharding.AnswersAlike | src/concurrency/worker_pool.cpp:66-73 | equal answers have the same trades and results in all fields but the numbers an engine assigns |
| Blurring.NumbersOnly | src/matching/matching_engine.cpp:127-131 | books that agree up to numbering agree, order by order, in all fields but the sequence number |
| Sharding.ShardAgrees | src/concurrency/worker_pool.cpp:66-73 | an engine running many instruments treats each as an engine running only that one: same book, same answers |
| Sharding.ShardingSound | src/concurrency/worker_pool.cpp:66-129 | for every reachable pool and every interleaving of the processed orders, each worker has processed a prefix of what it accepted, and its book and answers are those of one shared engine |
| Sharding.UnnumberedDiffer | src/matching/matching_engine.cpp:127-131 | two concrete orders without ids, which a shared engine and the second one's worker number differently |
| Workers.Worker.Submit | src/concurrency/worker_pool.cpp:90-94 | accepted exactly when the inbox has room, and then last in it |
| Workers.Worker.Stop | src/concurrency/worker_pool.cpp:75-80 | stops once, and leaves the request in the inbox if there is room |
| Workers.Worker.Drain | src/concurrency/worker_pool.cpp:96-108 | the run loop folds the waiting orders into the engine up to the first stop request |
| Workers.BacklogSplits | src/concurrency/worker_pool.cpp:96-108 | the backlog is all entries before the first stop request, in order; what comes behind that request stays in the inbox |
| WsFraming.UnmaskUndoesMask | src/networking/ws_server.cpp:450-455 | unmasking undoes masking, for every payload and key |
| WsFraming.MaskBytes | src/networking/ws_server.cpp:450-455 | byte i of a payload is combined with byte i modulo 4 of the key |
| WsFraming.UnmaskedHello | src/networking/ws_server.cpp:426-456 | the unmasked example of section 5.7 of RFC 6455, extracted from its literal bytes |
| WsFraming.MaskedHello | src/networking/ws_server.cpp:426-456 | the masked example of section 5.7 of RFC 6455, extracted from its literal bytes |
| WsFraming.MediumExample | src/networking/ws_server.cpp:433-438 | the 256-byte example of that section, for every payload |
| WsFraming.LongExample | src/networking/ws_server.cpp:439-445 | the 65536-byte example of that section, for every payload |
| WsFraming.SmallestIsMinimal | src/networking/ws_server.cpp:212-223 | the chosen length form gives the only shortest frame |
| WsFraming.ExtractEncoded | src/networking/ws_server.cpp:426-456 | an encoded frame, masked or not and in any length form, is extracted with its opcode, payload and size |
| WsFraming.NoEarlyFrame | src/networking/ws_server.cpp:434-447 | no strict prefix of a frame yields a frame |
| WsFraming.ExtractStable | src/networking/ws_server.cpp:426-456 | once a frame is complete, later bytes do not change it |
| WsFraming.OversizedIff | src/networking/ws_server.cpp:446-447 | exactly which buffers pass the size test through a sum that wraps around 64 bits |
| WsFraming.SizeTestIff | src/networking/ws_server.cpp:446-447 | the size test tells whether the whole frame is there if and only if the buffer is not one of those |
| WsFraming.LongestLength | src/networking/ws_server.cpp:439-447 | ten concrete bytes that pass the size test while all of their payload is missing |
| WsFraming.TopBitClear | src/networking/ws_server.cpp:446-447 | with the top bit of the length clear the size test is right |
| WsFraming.ChunkingIrrelevant | src/networking/ws_server.cpp:420-480 | feeding any pieces one by one ends as feeding their concatenation |
| WsFraming.FramesSurviveChunking | src/networking/ws_server.cpp:420-480 | exactly the original opcodes and payloads come out, up to the first close, for every chunking |
| WsPeers.EncodeServerFrame | src/networking/ws_server.cpp:206-226 | appends the final, unmasked frame in the smallest form and returns its size |
| WsPeers.ServerFrameBytes | src/networking/ws_server.cpp:206-254 | the bytes of a server frame for short, medium and long payloads, with the thresholds 125 and 65535 |
| WsPeers.Unmask | src/networking/ws_server.cpp:450-455 | the in-place loop computes the masked bytes |
| WsPeers.ReadLength | src/networking/ws_server.cpp:432-445 | the length and header size, or none while the header is incomplete |
| WsPeers.ExtractFrame | src/networking/ws_server.cpp:426-456 | one turn of the decode loop refines the extraction function |
| WsPeers.Peer.SendControl | src/networking/ws_server.cpp:244-254 | a binary frame with its first byte replaced is the control frame of that opcode |
| WsPeers.Peer.Dispatch | src/networking/ws_server.cpp:458-478 | a close is answered by the bytes 88 02 03 E8 and ends the connection, a ping by a pong frame with its payload, text and binary are delivered, nothing else is sent or delivered |
| WsPeers.Peer.Receive | src/networking/ws_server.cpp:421-480 | appending a piece and looping refines the feeding function, with the replies and deliveries of all messages |
| EventRings.EventRing.Record | src/market_data/publisher.cpp:112-118 | the ring stays a window on the full history |
| EventRings.EventRing.RecentEvents | src/market_data/publisher.cpp:140-152 | the last min(n, total, 4096) events, newest first, position by position |
| Quotes.SettleSeen | src/market_data/publisher.cpp:46-50 | when a result does not refresh the cache, the last trade has shown the final book, or nothing changed |
| Quotes.QuotesAreLive | src/market_data/publisher.cpp:13-77 | after every run of submissions the shown top of every instrument is the live one |
| Quotes.TrailIsPartialSweep | src/market_data/publisher.cpp:13-19 | the book shown with a trade is the one a taker wanting exactly the fills so far would leave |
| Quotes.SeenIsPartial | src/market_data/publisher.cpp:13-19 | so every book shown with a trade is well-formed and has the own side of the taker untouched |
| Quotes.SnapshotShows | src/market_data/publisher.cpp:54-71 | a snapshot has a bid if and only if a bid rests, at a price no bid exceeds, with all that rests at it; likewise for the ask |
| Publishers.MarketDataPublisher.NotifyTob | src/market_data/publisher.cpp:127-138 | cache and listeners get the top of the live book, nothing happens for an unknown instrument |
| Publishers.MarketDataPublisher.OnTrade | src/market_data/publisher.cpp:13-19 | the event is recorded, and cache and listeners get the top of the book as the trade left it |
| Publishers.MarketDataPublisher.OnSubmitResult | src/market_data/publisher.cpp:21-52 | the event is recorded, and for the statuses other than rejected and cancelled cache and listeners get the live top |
| Publishers.MarketDataPublisher.TopOfBook | src/market_data/publisher.cpp:73-77 | the cached snapshot or, without one, the live one |
| Publishers.SubmitPublished | src/market_data/publisher.cpp:13-52 | a submission on the live engine with the publisher as its sink: events, cache and listeners follow from it |
| Publishers.EventsTell | src/market_data/publisher.cpp:13-45 | the events of a submission, field by field: its trades in order, then its result |
| Publishers.SentTells | src/market_data/publisher.cpp:13-52 | the listeners receive the top after each trade and, unless the result is a rejection or cancellation, the final top, field by field |
| Publishers.PublishRun | src/market_data/publisher.cpp:13-152 | a run of submissions: the engine runs as on its own, the history has every event in order, each trade sends the book just after its fill, and the cache is that of the run |
| Publishers.PublishAll | src/market_data/publisher.cpp:73-152 | after such a run any top of book shown is the live one, field by field, and the recent events are the newest of the run |
| RateLimit.TokensBounded | src/risk/risk.cpp:65-86 | over every run all tokens stay between zero and the burst size |
| RateLimit.RateBound | src/risk/risk.cpp:65-86 | in every window a trader passes at most burst plus window length over the refill interval |
| RateLimit.IdleIsServed | src/risk/risk.cpp:72-78 | a trader who waits a refill interval is served |
| RateLimit.IdleEarns | src/risk/risk.cpp:72-78 | a bucket idle for m refill intervals passes m orders at once, or the burst size, or all there are |
| RateLimit.VolleyIsExact | src/risk/risk.cpp:65-86 | of n simultaneous orders exactly as many pass as there are whole tokens: what was left and what was earned since, up to the burst size; the rest of a token is kept |
| RateLimit.BurstIsExact | src/risk/risk.cpp:69-85 | of n simultaneous first orders exactly min(n, burst) pass, so the bound is met |
| RateLimit.RateLimitCheck.Evaluate | src/risk/risk.cpp:65-86 | the in-place check refines the bucket functions and touches one trader only |

## Left out

- OrderBooks.OrderBook.Fill: excludes consuming the front of a level under the id of another order, after which the index has lost an order that still rests (`LevelStore.FillIndexIff`); the match loop always names the front. The order's price, read after its index entry is erased, is modelled as the value before.
- OrderBooks.OrderBook.Insert: excludes a price resting on the other side, after which ladders and store no longer agree (`OrderBooks.OrderBook.InsertExact`) and the program writes to a freed level; the engine is proved to meet this for every residual it inserts.
- OrderBooks.OrderBook.Modify: excludes a replacement at a price resting on the other side, for the same reason (`OrderBooks.OrderBook.ModifyExact`); what the program does after that is not modelled.
- OrderBooks.OrderBook.Replace: has the same exclusion.
- Engines.MatchingEngine.Modify: has the same exclusion; a replacement that crosses without sharing a price is included.
- Engines.MatchingEngine.Submit: the risk gate's decision is an input, timestamps are not modelled, and the 64-bit sequence counter is unbounded. The trader id of a resting order, read after the fill, is modelled as the value before.
- Engines.MatchingEngine.RegisterInstrument: instrument descriptors and the tick and lot checks built on them are not modelled.
- Engines.MatchingEngine.UnregisterInstrument: nor is the removal of the descriptor.
- Replay.ReplayRebuilds: covers limit orders with engine-assigned ids; market orders, cancels and modifies are declared unsupported by the replayer.
- Replay.Recovery: assumes that the logged numbers fit their 64-bit fields, which the unbounded counters of the model do not imply.
- EventLogs.CutLog: says nothing of a field that the cut splits, because such a read leaves it unspecified in C, nor of a reason that is not complete; integers are little-endian as on the usual hosts.
- TornLogs.TornRecovery: excludes a cut inside a quantity, for the same reason.
- Sharding.ShardingSound: needs explicit order ids (`Sharding.UnnumberedDiffer`), and counts only orders routed to their own instrument.
- Workers.Worker.Stop: joining the thread and deleting the engine are not modelled.
- Workers.Worker.Drain: ends where the loop would sleep and poll again; the thread itself is the interleaved state machine of `Sharding`.
- WsPeers.Peer.Receive: the buffer stays below 2^63 bytes. A length that passes the size test by wrapping (`WsFraming.OversizedIff`) ends the model's connection as broken: the program then asks for a payload longer than any string can be, and what follows from that is not modelled.
- Publishers.MarketDataPublisher.OnTrade: the engine's sink reads the top of the book within each trade callback, and the publisher gets trade and reading after the submission; since callbacks do not act on the engine, this is the order of the program. Event kinds are kept as statuses.
- RateLimit.RateLimitCheck.Evaluate: tokens are real numbers; rounding is not modelled.
- RateLimit.RateBound: needs a positive refill interval; for rates above one order per nanosecond the program's interval is zero and any wait fills the bucket.
- Append-mode reopening of the log, file errors and flushing.
- Sockets, threads, the HTTP handshake and SHA-1, and the line and JSON protocols.
- C++ weak memory beyond coherent stale cursor reads: release and acquire ordering is taken as given.
- The mutex-guarded outbound queue, listener registration, metrics, logging, dashboard, simulator and benchmarks: they add only easy members.
- The quantity, notional and collar checks and the loop of the risk gate over its checks, for the same reason.
- FOK all-or-nothing and self-trade prevention: named in the program but not implemented there.
