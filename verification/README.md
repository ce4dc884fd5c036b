# A verified model of the market-data order book and its surroundings

The project models, in Dafny, the order book of `mxmd` and the parts of `mxmd`, `mxbase` and `mxt` whose correctness
rests on more than one function, and proves what holds of them over all inputs, callbacks and runs.

**The order book.** An order book keeps the same facts many times over: orders queued by rank on price levels, level
quantities and counts, side totals and notional values, a venue-wide index, a broadcast that replicas replay, and
changes that feed a consolidated book. `Types`, `Level`, `Book` and `Matching` say what each call does to the value of
a book and what it emits; `Invariant`, `MatchInvariant` and `Operations` say exactly when the views stay in agreement;
`Outcomes` says what every order is, and where it queues, after each call; `Priority` proves matching against a flat
queue of orders. `PxLevels`, `OBSides`, `OrderBooks` and `Feeds` are the objects as the source has them: orders shared
between queues and index, ranks shifted in place, back references cleared. Every method of theirs is proved to do to
the objects what the value functions say.

**What is made of a book.** `Replica`, `Simulation`, `Collisions` and `Divergence` are about a second book that only
applies the broadcast; `Snapshot` about one that is rebuilt; `Consolidation`, `Counting`, `Mapping` and `MappedMatching`
about a book that other books are mapped to; `FixedPoint`, `RunningValue` and `Notional` about the truncated notional
value.

**Connectivity.** `Connectivity` has the ten link states and six engine states, `Transitions` a link together with its
implementation, `Census`, `Lifecycle` and `Progress` every interleaving of link transitions with their later reports,
and `EngineObjects` the objects that take these steps.

**Smaller parts.** `Stream` (putting messages together again), `TxChain` (the stored transmit chain), `Retention` (the
purge of closed orders), `ValWindow` (the trailing window) and `Decimal` (scanning and printing).

`Sums`, `Sequences` and `Ladder` hold shared mathematics. An operation that changes state comes twice: as a function on
values, about which the theorems are, and as a method on objects whose contract equates old and new state with that
function. Time stamps, handlers and level-1 data are not part of the model; the `fill` callback is an arbitrary
function of the offered trade.

## Model

| member | source | states |
|---|---|---|
| Levels.InsertUniform | mxmd/src/MxMD.cpp:117-134 | under uniform ranks a new order is exactly at its rank, ahead of all that were at or behind it; ranks stay strictly increasing and nobody else changes order |
| Levels.InsertDistinct | mxmd/src/MxMD.cpp:117-134 | without them, an order at a rank nobody holds lands between the lower and the higher ranks, and nothing else moves |
| Levels.InsertDuplicate | z/zm/src/ZmRBTree.hpp:409-418 | at a rank somebody holds, the ranks of the level no longer increase strictly |
| Levels.DeleteAt | mxmd/src/MxMD.cpp:136-146 | deletion by rank removes exactly the order at that rank; with uniform ranks only the consecutive run behind it moves up, order kept |
| Levels.ReinsertKeepsPosition | mxmd/src/MxMD.cpp:819-834 | taking an order out and putting it back at its rank with another quantity keeps its queue position and everybody else's rank |
| PxLevels.PxLevel.AddOrder | mxmd/src/MxMD.cpp:117-134 | on shared order objects with ranks incremented in place: the level's queue is the old one with the order inserted, the objects are the old ones and the new one, and only ranks changed in them |
| PxLevels.PxLevel.DelOrder | mxmd/src/MxMD.cpp:136-146 | in place: the queue is the old one after deletion by rank, and which object has left, if any |
| PxLevels.PxLevel.Match | mxmd/src/MxMD.hpp:2230-2281 | the loop over a level: remaining queue, quantity, count, leaves, executed quantity, index and broadcast are those of the match of the level's queue, for every callback; who is used up loses its back reference |
| PxLevels.PxLevel.Reset | mxmd/src/MxMD.cpp:36-49 | a reset level is empty, its orders are off the index and point nowhere |
| OBSides.BookSide.AddOrder | mxmd/src/MxMD.cpp:564-603 | one level changes, by the order and its quantity; side totals follow; every other order keeps its data and place |
| OBSides.BookSide.DelOrder | mxmd/src/MxMD.cpp:617-660 | the order leaves its level, which goes when nothing is left; the order points nowhere; totals follow |
| OBSides.BookSide.PxLevel_ | mxmd/src/MxMD.cpp:472-536 | sets, changes or removes the level at a price, market level included; the changes it returns are the changes of the totals; orders of a removed level leave the index |
| OBSides.BookSide.MatchQty | mxmd/src/MxMD.hpp:848-867 | the loop computes the quantity of all levels at the limit or better, a null limit compared as the smallest number |
| OBSides.BookSide.MatchPx | mxmd/src/MxMD.hpp:825-845 | the loop computes the price of the level at which the wanted quantity is reached, or the last one |
| OrderBooks.OrderBook.AddOrder | mxmd/src/MxMD.cpp:674-708 | book, index, broadcast, passed-on changes and notional values afterwards are exactly those of the call on the book's value, and all views of the objects agree again; an ID in use becomes a modification |
| OrderBooks.OrderBook.ModifyOrder | mxmd/src/MxMD.cpp:710-784 | the same for a modification, unknown IDs and zero quantities included |
| OrderBooks.OrderBook.ReduceOrder | mxmd/src/MxMD.cpp:786-855 | the same for a reduction, also one by more than there is |
| OrderBooks.OrderBook.CancelOrder | mxmd/src/MxMD.cpp:857-898 | the same for a cancellation, also of an unknown order |
| OrderBooks.OrderBook.SetLevel | mxmd/src/MxMD.cpp:450-562 | the same for an aggregate level |
| OrderBooks.OrderBook.MatchOrder | mxmd/src/MxMD.hpp:869-882 | the same for a match over a whole side, whatever limit and callback; the leaves and executed quantities returned are those of its fills |
| OrderBooks.OrderBook.Reset | mxmd/src/MxMD.cpp:900-952 | the same for a reset: empty book, empty index, one change passed on for every limit level |
| Operations.StepValid | mxmd/src/MxMD.cpp:674-922 | from a book whose views agree (level quantity and count those of its orders, no empty level, ranks strictly increasing, side total the sum of its levels, index exactly the orders that rest), an operation leads to such a book if and only if the call was allowed: quantities positive, ranks not taken, no mixing of aggregate updates with orders; matches, reductions, cancellations and resets always are |
| Operations.RunFromEmpty | mxmd/src/MxMD.cpp:674-922 | so after every run of allowed calls the views agree |
| Outcomes.AddedIs | mxmd/src/MxMD.cpp:674-708 | after an allowed addition at an unused ID the book holds the order as given, at the rank given; it queues behind all lower ranks and ahead of all others, which stay as they are but for a run of uniform ranks that gives way; without a rank it is behind the old queue, unchanged, one rank above the last, or at 0; every other order and level is as before |
| Outcomes.AddedInPriority | mxmd/src/MxMD.cpp:119-124 | in the queue takers trade with, an order added without a rank is behind every order at its price or a better one, and ahead of all others |
| Outcomes.AddedAgain | mxmd/src/MxMD.cpp:684-686 | adding at an ID in use is modifying |
| Outcomes.ModifiedIs | mxmd/src/MxMD.cpp:750-784 | after an allowed modification the book holds that ID and side at the price given or else the old one, with the quantity and flags given, at the rank given or else in the last place; it has left its old queue and joined the new one, and every other order and level is as before, ranks in those queues aside |
| Outcomes.ModifiedInPriority | mxmd/src/MxMD.cpp:119-124 | an order modified without a rank goes behind every order at its price or a better one, and ahead of all others |
| Outcomes.ReducedIs | mxmd/src/MxMD.cpp:819-834 | an order reduced by less than it has keeps price, flags, rank and place in the queue and loses just that quantity; nothing else changes |
| Outcomes.GoneIs | mxmd/src/MxMD.cpp:857-898 | an order cancelled, modified to nothing or reduced by all it has is found no more; its queue closes up, and every other order and level is as before |
| Outcomes.UnknownIs | mxmd/src/MxMD.cpp:722-725 | calls on unknown orders change nothing and emit nothing |
| Outcomes.AddedNothing | mxmd/src/MxMD.cpp:605-615 | an order of no quantity is indexed with all it was given, and rests nowhere |
| Outcomes.LevelSetIs | mxmd/src/MxMD.cpp:64-115 | an aggregate update gives the level the quantity, count and flags named or, if relative, changes them by what is named; a level of no quantity goes; its orders and all other levels stay |
| Outcomes.LevelSetMoves | mxmd/src/MxMD.cpp:472-536 | the side total moves with the level, the index loses just the orders of a level that goes, and what is passed on is the change of quantity and, for a level that stays, of count |
| Outcomes.Broadcasts | mxmd/src/MxMD.cpp:836-838 | every call but a match is broadcast once, as it was made; a reduction as a modification to what is left, without rank, price or flags |
| Outcomes.MatchBroadcasts | mxmd/src/MxMD.hpp:2254-2267 | a match is broadcast as one message for each fill, in order: a cancellation of an order filled in full, a modification of the last one, if it was filled in part, to what is left at its rank and flags |
| Outcomes.PassedFlags | mxmd/src/MxMD.cpp:698-701 | what is passed on carries the flags of a new order, of an aggregate update or of the level matched, and none otherwise |
| Outcomes.KeysApart | mxmd/src/MxMD.hpp:1664-1699 | two orders share a key exactly if they share the ID and, where IDs are unique within a side, the side |
| Priority.MatchIsQueue | mxmd/src/MxMD.hpp:869-882 | matching level by level is matching one flat queue of orders, best price and lowest rank first: same fills, same leaves, same abort, and the queue that remains rests in the book |
| Priority.QueueInPriority | mxmd/src/MxMD.hpp:2241-2272 | for every callback: fills take the orders in turn, each in full but the last, each is told leaves and executed quantity before the fill, and what remains is the queue behind them |
| Priority.MatchVolume | mxmd/src/MxMD.hpp:869-882 | nothing is lost, aborted or not; without an abort the lesser of the quantity and what rests within the limit trades; and that is what `matchQty` announced exactly when the announcement is what rests, or both suffice |
| Priority.MatchTrades | mxmd/src/MxMD.hpp:847-867 | where levels hold orders, what trades is the lesser of the quantity and `matchQty` of the limit if and only if the taker has a limit or sells, or the side is empty |
| Priority.AbortCutsOff | mxmd/src/MxMD.hpp:2246-2258 | an aborted match has made exactly the fills of an unaborted one up to the first that the callback rejects |
| Priority.LimitMatters | mxmd/src/MxMD.hpp:1094-1118 | limited and unlimited match are the same if and only if the callback ends the match within the limit, nothing rests beyond it, or enough rests within it |
| Priority.MatchPxChangesNothing | mxmd/src/MxMD.hpp:824-845 | on a side whose levels hold orders, a limit of `matchPx` of the quantity gives the fills, book and emissions of an unlimited match |
| Priority.MatchPxMatters | mxmd/src/MxMD.hpp:824-845 | with aggregate levels it does so if and only if the orders within that price are enough, or all there are, or the callback ends the match there |
| Priority.MatchPxLeast | mxmd/src/MxMD.hpp:824-845 | where levels have quantities, `matchPx` is null exactly if there are none; it is the price of a level, at no better level's price is the quantity announced, and at this one it is, unless this is the worst |
| Replica.ReplicaRun | mxmd/src/MxMDCore.cpp:1108-1185 | without uniform ranks, a replica that applies the broadcast of any run without reductions is the very same book: orders, ranks, levels, totals and index |
| Replica.MatchLevelReplay | mxmd/src/MxMD.hpp:2254-2267 | the cancellations and the one modification that a match of a level broadcasts, applied in turn, make the replica match that level |
| Simulation.UnrankedRunInStep | mxmd/src/MxMD.cpp:819-840 | with reductions, whose broadcast has no rank: as long as feeds name no ranks and nothing is matched, a replica holds the same orders (ID, side, price, quantity) and the same level totals throughout |
| Collisions.StepInStepIff | mxmd/src/MxMDCore.cpp:1134-1185 | with ranks and matches too: after an allowed operation a replica in step is a valid book and in step if and only if the rank it is sent is free on it beforehand, the order concerned and those a match cancels apart |
| Collisions.RunInStepIff | mxmd/src/MxMDCore.cpp:1134-1185 | over any allowed run the replica is a valid book in step throughout if and only if every rank it is sent is free there when it arrives |
| Collisions.RunInStep | mxmd/src/MxMDCore.cpp:1134-1185 | in particular such a run ends in step |
| Divergence.ReplicaFallsOutOfStep | mxmd/src/MxMD.cpp:836-838 | seven allowed calls from empty books, none naming a rank, after which the book holds order C and its replica order B |
| Divergence.CollidingRankTaken | mxmd/src/MxMD.hpp:2266-2267 | that run does send a rank that is taken, as it must |
| Feeds.Apply | mxmd/src/MxMDCore.cpp:1108-1185 | applying a message to the objects of a replica leads to the book that the value functions give |
| Feeds.SnapshotBook | mxmd/src/MxMDCore.hpp:298-326 | the walk over the objects, market level first and then best price first, writes exactly the snapshot of the book's value |
| Snapshot.SnapshotRebuilds | mxmd/src/MxMDCore.hpp:298-326 | applying a snapshot to any valid book without it being empty first, by way of the reset it begins with, rebuilds exactly the book it was taken of, with or without uniform ranks |
| Consolidation.StepAccounts | mxmd/src/MxMD.cpp:769-777 | what an operation passes on to the book above is, at every limit price of either side, exactly the change of the quantity there |
| Consolidation.ConsolidationFromEmpty | mxmd/src/MxMD.cpp:450-461 | after any run of allowed calls on any of the books mapped while empty, the consolidated book's quantity at every limit price is the sum of theirs |
| Consolidation.LevelsAgree | mxmd/src/MxMD.cpp:505-530 | the consolidated book has a level exactly where one of its inputs has |
| Counting.StepCounts | mxmd/src/MxMD.cpp:769-777 | what an allowed operation passes on is exactly the change in the number of orders at every limit price, and on the way there no quantity is negative, nor zero with orders left, unless an aggregate update names such a level |
| Counting.TalliedFromEmpty | mxmd/src/MxMD.cpp:450-461 | so after any run of such calls on books mapped while empty, the consolidated book's number of orders at every limit price is the sum of theirs |
| Consolidation.ConsolidatedIsQueue | mxmd/src/MxMD.hpp:1062-1081 | a consolidated match is a match of one flat queue, each input's orders ahead of the next input's: same fills, leaves and abort, and what remains of the queue rests on the inputs |
| Consolidation.ConsolidatedMatchVolume | mxmd/src/MxMD.hpp:1062-1081 | a consolidated match loses nothing and trades the lesser of its quantity and what rests on the inputs; the consolidated book announces the sum of what they announce; and the two agree exactly when the announcement is what rests, or both suffice |
| Consolidation.ConsolidatedMatchTrades | mxmd/src/MxMD.hpp:1062-1081 | where the inputs' levels hold orders they agree if and only if the taker has a limit or sells, or there are no levels |
| Consolidation.MatchConsolidated | mxmd/src/MxMD.hpp:2273-2279 | a consolidated match keeps the consolidated book the sum of its inputs, whatever the callback |
| Mapping.MapTo | mxmd/src/MxMD.cpp:1028-1057 | on the linked lists in place: the book leaves the list it was in, is in the new one at its rank behind its equals, every other list is as it was, and all lists stay well formed and sorted |
| Mapping.Mappings.HoldsLastCalls | mxmd/src/MxMD.cpp:1028-1057 | after any calls, a list holds exactly the books whose last call names its owner |
| Mapping.Mappings.OrderedByCalls | mxmd/src/MxMD.cpp:1048-1055 | in a list, lower ranks are ahead, and earlier calls among equal ranks |
| Mapping.LeavesAre | mxmd/src/MxMD.hpp:1067-1077 | on an acyclic mapping the books visited are exactly those without inputs that feed the top, each once |
| Mapping.LeavesInOrder | mxmd/src/MxMD.hpp:1072-1075 | books that feed an earlier input are visited before those that feed a later one |
| Mapping.Walk | mxmd/src/MxMD.hpp:1067-1077 | the recursive walk terminates and does to quantity and state what matching the leaves one after the other does, up to an abort or the end of the quantity |
| MappedMatching.MappedMatchTrades | mxmd/src/MxMD.hpp:1062-1081 | that walk over the linked lists, with the order-book match at the leaves: nothing is lost, the consolidated book stays the sum, and the volume is what rests on the leaves, which is what the consolidated book announces but for the unlimited buyer |
| FixedPoint.QuotientError | mxbase/src/MxBase.hpp:146-153 | truncating towards zero is off by less than one unit of the divisor, on either side of zero |
| FixedPoint.TowardZero | mxbase/src/MxBase.hpp:146-153 | a number is the quotient if and only if it has the dividend's sign and its multiple is the last one not beyond the dividend |
| FixedPoint.ProductIs | mxbase/src/MxBase.hpp:146-153 | a product is null exactly if it exceeds the range upward, and otherwise the exact product cut toward zero |
| Notional.OrderRunDrift | mxmd/src/MxMD.cpp:463-470 | in a book fed by orders, the notional value is off the true sum of price times quantity by less than one unit of its last place for every update since it was last zeroed, over every run, products within range |
| Notional.RunDrift | mxmd/src/MxMD.cpp:463-470 | the same with aggregate levels too, provided no match meets a level of zero or negative quantity |
| Notional.AddThenCancel | mxmd/src/MxMD.cpp:599-660 | adding and cancelling an order whose price and quantity nobody changed takes exactly out of the notional value what it put in, whatever happened in between |
| Notional.BackToZero | mxmd/src/MxMD.cpp:463-470 | a match that takes all there is on a side leaves no notional value behind, whatever was truncated before; nor does a reset |
| Connectivity.StaysDown | mxbase/src/MxEngine.cpp:354-580 | a link brought down on purpose is Disconnecting, DisconnectPending, Disabled or Failed whatever happens, until it is brought up |
| Connectivity.StaysUp | mxbase/src/MxEngine.cpp:302-580 | a link brought up on purpose under a running engine is up, on its way up, or failed, whatever happens, until it is brought down |
| Connectivity.LostOnlyAtRest | mxbase/src/MxEngine.cpp:326-334 | it stops being so exactly when it is brought down (unless it has failed and this does not disable it), or has failed and is brought up by someone who sees the engine at rest |
| Transitions.ComesUp | mxbase/src/MxEngine.cpp:396-432 | a link comes up if and only if it is connecting, reconnecting or waiting to, and connected; its attempts are then forgotten |
| Transitions.SetsOut | mxbase/src/MxEngine.cpp:302-352 | exactly when a link enters Connecting, and ConnectPending |
| Transitions.TriesAgain | mxbase/src/MxEngine.cpp:505-580 | exactly when it enters ReconnectPending, with one attempt more, and Reconnecting |
| Transitions.TurnsBack | mxbase/src/MxEngine.cpp:354-394 | exactly when it enters Disconnecting, and DisconnectPending |
| Transitions.ComesToRest | mxbase/src/MxEngine.cpp:434-478 | exactly when it enters Down, Disabled and Failed; a disconnection moves every link that is not at rest |
| Transitions.Remembers | mxbase/src/MxEngine.cpp:321-365 | exactly when it is enabled, and what alone changes its number of attempts |
| Transitions.AsksFor | mxbase/src/MxEngine.cpp:349-351 | exactly when its implementation is asked to connect, to disconnect, and to be called again |
| Transitions.UpWhileOn | mxbase/src/MxEngine.cpp:302-580 | over every run with an implementation that reports only what it was about: up exactly while that is connected, at rest or waiting to reconnect exactly while that is off |
| Transitions.AskedInTurn | mxbase/src/MxEngine.cpp:302-580 | over every such run the implementation is asked to connect only while off, and to disconnect only while not doing so |
| Transitions.SettlesUp | mxbase/src/MxEngine.cpp:396-478 | a link meant to be up is up after two answers of its implementation, for good, if and only if it has not failed and is not being disconnected behind its back |
| Transitions.SettlesDown | mxbase/src/MxEngine.cpp:354-478 | a link brought down for good is disabled after two answers, for good, unless it had failed |
| Transitions.CountsAttempts | mxbase/src/MxEngine.cpp:534-537 | n failed attempts count n, and a connection makes it none |
| Transitions.BehindItsBack | mxbase/src/MxEngine.cpp:526-528 | the run that leads to the exception in SettlesUp |
| Census.ExactIffAnnouncedDown | mxbase/src/MxEngine.cpp:104-187 | with nothing under way, for every interleaving, the six counters (32-bit, wrapping) are the numbers of links in each class if and only if every link was still down when its creation was reported |
| Census.RunBalanced | mxbase/src/MxEngine.cpp:104-187 | at every moment of every run, each counter plus what the reports under way will change is what the links' states and announcements make of it, modulo 2^32 |
| Census.HastyLinkMiscounted | mxbase/src/MxEngine.hpp:456-460 | a link brought up by a starting engine between its creation and the report of it: counted as in transit twice and as down minus once, and the engine enters Running while it is still connecting |
| Census.CountersAre | mxbase/src/MxEngine.cpp:132-187 | with all reported and announced down, each of the six counters is the number of links in its states, state by state |
| Lifecycle.RunInTurn | mxbase/src/MxEngine.cpp:46-102 | over every run the engine brings its links up and down strictly in turn, up first, and is starting, running or waiting to stop exactly while the last was up |
| Lifecycle.MovesOnTruth | mxbase/src/MxEngine.cpp:189-245 | when the last report under way moves the engine on, no link is in transit, and none is down (to run or to stop) or up (to have stopped or start again) |
| Progress.AtOnce | mxbase/src/MxEngine.cpp:46-102 | what starting and stopping do in every engine state, calls to the links included |
| Progress.MovesIff | mxbase/src/MxEngine.cpp:189-250 | a waiting engine moves on with a report, to where it was to go and with the call that is due, if and only if the report is of a link leaving and the counters then show none left |
| Progress.WaitsOn | mxbase/src/MxEngine.cpp:189-250 | over any run, undisturbed, it waits on if and only if no such report arrives |
| Progress.Arrives | mxbase/src/MxEngine.cpp:104-253 | over any run and in whatever order reports arrive: an engine whose counters show links it waits for has moved on when all is reported and no such link is left; a stopping one is Stopped, a starting one Running |
| Progress.MovesWithLast | mxbase/src/MxEngine.cpp:189-245 | with the last report, if of a link leaving, a waiting engine moves on if and only if no link is left in transit or where it waits for them to leave |
| Progress.NeverStops | mxbase/src/MxEngine.cpp:218-229 | the run after which an engine whose only link has failed is Stopping for good |
| Progress.NeverRuns | mxbase/src/MxEngine.cpp:192-204 | an engine without links is Starting for good |
| EngineObjects.AnyEngine.LinkState_ | mxbase/src/MxEngine.cpp:104-253 | the counters, state and call afterwards are those of the engine's transition function |
| EngineObjects.Network.LinkReacts | mxbase/src/MxEngine.cpp:302-580 | an event on a link object is one step of the interleaving model: the objects are again in the state all steps so far lead to |
| EngineObjects.Network.ReportArrives | mxbase/src/MxEngine.cpp:104-253 | so is the arrival of any one of the reports under way |
| EngineObjects.Network.CountersExact | mxbase/src/MxEngine.cpp:132-187 | on the objects, with every report delivered: the engine's counters are the numbers of its links if and only if each was down when announced |
| EngineObjects.Network.CallsInTurn | mxbase/src/MxEngine.cpp:46-102 | on the objects, at any time: links are brought up and down strictly in turn |
| Stream.ParseConcat | mxmd/src/MxMDStream.hpp:651-670 | bytes read in two goes give the messages, the rest and the corruption that they give in one |
| Stream.Framed | mxmd/src/MxMDStream.hpp:152-158 | a message is well-formed exactly if the bytes at offset 12 and 13 are the low and high byte of the length of its body |
| Stream.ParseLosesNothing | mxmd/src/MxMDStream.hpp:651-670 | messages and rest are what was read, each message is well-formed, and a rest that is not corrupt fits the buffer and holds no complete message |
| Stream.Receiver.Callback | mxmd/src/MxMDStream.hpp:651-670 | on the buffer in place: what is delivered and what is still held make up all input; zero is returned only when nothing complete is left and there is room for more |
| Stream.SentIsDelivered | mxmd/src/MxMDStream.hpp:647-671 | well-formed messages are delivered as they were sent, however the bytes are split, with nothing left in the buffer |
| TxChain.Link.Store | mxbase/src/MxTxDB.hpp:100-118 | keeps the link's chain through its records descending in number; a message not beyond the last is ignored, and one for which there is no room starts the chain anew |
| TxChain.Link.Retrieve | mxbase/src/MxTxDB.hpp:121-142 | finds a message if and only if the chain holds it and it loads, and puts exactly the loadable ones in between back in front of the queue, ascending |
| TxChain.KeptIff | mxbase/src/MxTxDB.hpp:100-118 | after any run of stores, a message is on the chain if and only if it was accepted and no later one found no room |
| TxChain.KeptNext | mxbase/src/MxTxDB.hpp:100-118 | a message is ignored if and only if one of its number or a later one is kept; otherwise it is kept behind all others or, without room, nothing is |
| TxChain.FoundAfter | mxbase/src/MxTxDB.hpp:100-142 | store and retrieval over any run: a number is found if and only if it was accepted, loads, and no later message found no room |
| Retention.OrderDB.Purge | mxt/src/MxTOrderDB.hpp:120-140 | both tables hold exactly the records not yet due: an open record is due at the second purge after its order was closed, a closed record at the third, except as found below |
| Retention.DroppedInOrder | mxt/src/MxTOrderDB.hpp:120-140 | no closed record goes while the open record it names is there |
| Retention.NeverPurged | z/zdb/src/Zdb.cpp:1629-1636 | if the table of closed orders was empty at recovery, an order closed before the first purge keeps both records however often the tables are purged |
| ValWindow.Window.Add | mxbase/src/MxValWindow.hpp:44-76 | in bounds; the head never goes back and stays a multiple of the interval, the sample is within the window, and buckets and total remain those of the accepted samples from the head on, except exactly where a far jump skips the clearing |
| ValWindow.AddAll | mxbase/src/MxValWindow.hpp:44-76 | for samples that are never negative they remain so over every run |
| ValWindow.LeftBehind | mxbase/src/MxValWindow.hpp:56-63 | samples that cancel out, whose buckets a far jump leaves in place |
| Decimal.RoundTrip | mxbase/src/MxBase.hpp:166-246 | scanning what was printed, at the same precision, gives the number back, for all below 10^18 in size and up to 18 decimals |
| Decimal.ReadInRange | mxbase/src/MxBase.hpp:166-207 | whatever text is scanned with a given precision, the result is null or below 10^18 in size |
| Decimal.ReadsAnyNumber | mxbase/src/MxBase.hpp:166-207 | any sign, leading zeros, whole part and fraction are read as the number they denote, cut toward zero to the precision given; null exactly if the whole part leaves no room for it |
| Decimal.PrecisionFound | mxbase/src/MxBase.hpp:180-199 | without a precision, a number is read at the one its whole part leaves room for or, without a whole part, at its own |
| Decimal.PrintsNoMore | mxbase/src/MxBase.hpp:237-246 | printed numbers have no needless zero, in front or behind, and no more decimals than the precision |

## Findings

Where the code does not do what its design promises, the code is modelled as it is; the project has the input and the
exact condition.

- Replicas. A reduction is broadcast without a rank (mxmd/src/MxMD.cpp:836-838), so a replica may queue the order under
  another rank, and a later partial fill, which is broadcast with its rank (mxmd/src/MxMD.hpp:2266-2267), may arrive at
  a rank somebody else holds there; deletion is by rank (mxmd/src/MxMD.cpp:138) and then takes out the wrong order.
  `Divergence.ReplicaFallsOutOfStep` has the run, `Collisions.StepInStepIff` and `RunInStepIff` the condition.
- Announced quantity. `matchQty` compares raw numbers and null is the smallest (mxmd/src/MxMD.hpp:848-867), so an
  unlimited buyer is announced nothing though the match trades (mxmd/src/MxMD.hpp:1094-1100). The condition is in
  `Priority.MatchTrades`. On sides with aggregate levels announcements also count quantity no order stands for; see
  `Priority.MatchVolume`, and `Priority.MatchPxMatters` for `matchPx`.
- Counters. `updateLink` puts a link in the table before its creation is reported (mxbase/src/MxEngine.hpp:456-460); an
  engine that starts in between brings the link up first, and its counters are wrong for good.
  `Census.HastyLinkMiscounted` has the run, `Census.ExactIffAnnouncedDown` the condition.
- Engines that wait for good. An engine moves on only with a report of a link that leaves
  (mxbase/src/MxEngine.cpp:192-245). One that has no links never runs, and one whose links have all failed never stops:
  `Progress.NeverRuns` and `Progress.NeverStops`. `Progress.WaitsOn` has the condition, and `Progress.Arrives` what the
  counters must show.
- Links brought up again. `reconnect` on a link that waits to disconnect asks for a disconnection without changing its
  state (mxbase/src/MxEngine.cpp:526-528); brought up then, the link takes itself to be connecting and fails when the
  disconnection comes: `Transitions.BehindItsBack`. The condition is in `Transitions.SettlesUp`.
- Trailing window. A far jump clears the buckets only if the total is not zero (mxbase/src/MxValWindow.hpp:56-58), so
  samples that cancel out are left behind: `ValWindow.LeftBehind`. The condition is in `ValWindow.Window.Add`.
- Transmit chain. When a record cannot be allocated the link's reference to its last record is lost
  (mxbase/src/MxTxDB.hpp:108-110), and with it every message before: `TxChain.LostByFailure`, `TxChain.KeptIff`.
- Purge. The lowest record number of a table is found at recovery only (z/zdb/src/Zdb.cpp:1629-1636,
  z/zdb/src/Zdb.hpp:722), so a table of closed orders that starts empty is never purged, nor are the open records of
  orders closed before the first purge (mxt/src/MxTOrderDB.hpp:126-128): `Retention.NeverPurged`; the condition is in
  what `Retention.OrderDB.Purge` keeps.

## Left out

- Order IDs unique across a venue: the index key is the book's or the side's; the third scope, which files the orders
  of all books of a venue in one index (mxmd/src/MxMD.hpp:1667), is missing, as one book's calls could reach another.
- Replica.ReplicaRun: does not cover uniform ranks, under which a match leaves the ranks behind a used-up order as they
  are (mxmd/src/MxMD.hpp:2255) while the replica's cancellation moves them (mxmd/src/MxMD.cpp:139-145).
- Feeds.Apply: requires that the replica stays a valid book, since a message at a taken rank would break the level's
  rank order that the objects' contracts keep; what then happens is stated on values, in `Divergence`.
- OrderBooks.OrderBook.AddOrder: requires the call to be allowed for the same reason; on values, additions of no
  quantity and at taken ranks are modelled and shown to break the invariant (`Operations.StepValid`).
- OrderBooks.OrderBook.ModifyOrder: likewise requires that the order fits where it is put.
- OrderBooks.OrderBook.SetLevel: likewise requires that an aggregate update leaves levels of orders alone or removes
  them.
- Callbacks that change the book they are called from: `fill` is a function of the trade it is offered.
- Mapping.Walk: matches at the leaves by a given function on a state, not on heap objects of the order-book class.
- Quantities at several levels of mapping: the source does not forward changes beyond one (mxmd/src/MxMD.cpp:538-562).
- The market level of a consolidated book: a reset does not pass it on (mxmd/src/MxMD.cpp:902-906).
- A book that is unmapped or mapped while it holds orders: its quantity is not moved, and the model maps empty books.
- Counting.TalliedFromEmpty: leaves out aggregate updates that name orders but no quantity, or a negative one; the
  source then forgets the count of the level that goes (mxmd/src/MxMD.cpp:114).
- Averages (`vwap`, `mean`): a division each.
- Removing links: `delLink` leaves the counters as they are (mxbase/src/MxEngine.hpp:467-477).
- Changes of precision on a live book, level-1 data, last-trade updates, tick sizes, trades and multi-leg books.
- Overflow of level quantities and side totals: unbounded here; only the notional product has its limit modelled.
- Time stamps, handlers, the reconnect timer, threads and shards: calls on a book are sequential.
- The red-black trees, hash tables and record files underneath: sequences and maps, with the order of equal keys in the
  tree and the lowest record number of a table as the source has them.
- The ring buffer, UDP gap handling and the sockets: `Stream` begins where bytes have been read.
