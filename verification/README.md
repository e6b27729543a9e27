# The exchange benchmark, proved

The platform measures trading engines by sending them orders and replaying every answer through a
reference limit order book. What it reports is only as good as that book, the validator that replays
it, the text protocol in between and the code that feeds and drains both. This project models those
parts and proves that they do what the benchmark needs of them.

`PriceTime` states price-time priority on flat lists: one list a side, best price first and oldest
first within a price. Everything else is proved against it.

- **The pointer-based book** (`Level`, `Tiers`, `Depth`, `LinkedBook`): levels as doubly linked queues
  with cached totals, two price maps, an id index, cached best prices with 0 for empty and two bump
  allocators, all on the heap. Each operation keeps the invariant of the whole structure and acts on
  the flat view as `PriceTime` says. Map iteration is an arbitrary pick.
- **Whole runs** (`History`): well-formed, never crossed, quantity conserved, no fill of an order that
  is gone.
- **The two contestants' books** (`VectorMatch`, `TeamDelta`, `TeamAlpha`, `SideBySide`): a sorted
  vector rebuilt in one pass, and slices compacted in place while they are read. Both give the
  reference's fills; alpha's cancel answers are wrong on an exactly described family of requests.
- **Sequencer and engine** (`Sequencer`, `ExternalView`, `Concurrent`, `Linearizable`, `Engine`): first one
  caller at a time, then any number of goroutines and any schedule of their atomic steps; `Engine` puts
  the pointer-based book behind the queue of every such schedule.
- **Protocol, contestant and validator** (`Wire`, `Price`, `Protocol`, `Contestant`, `Validator`,
  `EndToEnd`, `TeamVerdicts`): printing and parsing with 64-bit arithmetic, what a verdict means
  exactly, and the composition: the reference contestant scores every tick its arena has room for.
- **The feeding side** (`Workload`, `Sharding`, `Bot`, `Fleet`, `Pipeline`, `Correlator`): the
  generator with its random draws as an oracle, shards, the bot's two loops, and the bounded channels.
  This side is shown to provide what the book assumes: positive limit prices, ids added once, enough
  room in every arena.

`dafny verify dfyconfig.toml` checks the whole project.

Where code and comments disagree the model follows the code. `internal/protocol/protocol.go:9-12` says
the validator notices a missing ACK or REJ; for an ADD it looks only at the FILLs
(`internal/validator/validator.go:133-245`), and that is what is modelled.

## Model

| member | source | states |
|---|---|---|
| PriceTime.FillsAreExactlyThePriorityFills | internal/orderbook/engine.go:160-236 | a list of fills is what an add makes if and only if it is the greedy price-time list: i-th maker at its own price inside the limit, every maker but the last consumed whole, stopping only when the taker is full or nothing left crosses |
| PriceTime.WalkIsPriority | internal/orderbook/engine.go:204-236 | the walk over the opposite side meets that description and leaves exactly the quantity it did not fill |
| PriceTime.PriorityIsWalk | internal/orderbook/engine.go:204-236 | no other list of fills meets it |
| PriceTime.WalkStops | internal/orderbook/engine.go:182-197 | matching stops only when the taker is full, the side is empty or the next price does not cross |
| PriceTime.WalkLeaves | internal/orderbook/engine.go:204-236 | what the fills leave: makers filled whole are gone, the last keeps its place with what is left of it, all others are untouched |
| PriceTime.InsertAt | internal/orderbook/engine.go:238-261 | a new entry stands behind everything at its price or better and ahead of everything worse |
| PriceTime.AddOutcome | internal/orderbook/engine.go:99-120 | after an add: it rests if and only if it is a limit order with something left, entered with exactly that; the other side is what the walk leaves; an unknown type does nothing |
| PriceTime.LimitRespected | internal/orderbook/engine.go:179-200 | a limit order trades only inside its limit and, unfilled, stops only at a price outside it |
| PriceTime.MarketTakesAll | internal/orderbook/engine.go:160-177 | a market order is filled or has emptied the other side |
| PriceTime.CancelOutcome | internal/orderbook/engine.go:122-137 | a cancel is accepted if and only if the order rests, and takes that one entry out of its side |
| PriceTime.AddKeepsOk | internal/orderbook/engine.go:99-120 | an add with a new id keeps both sides sorted, positive, duplicate-free and uncrossed |
| PriceTime.CancelKeepsOk | internal/orderbook/engine.go:122-137 | a cancel keeps the same and the id is gone afterwards |
| PriceLevel.Level.Push | internal/orderbook/level.go:26-37 | the node becomes the tail of the doubly linked queue; the cached total grows by its remainder |
| PriceLevel.Level.Remove | internal/orderbook/level.go:40-57 | unlinking any node in constant time leaves the queue without exactly that entry; the total follows |
| PriceLevel.Level.TakeHead | internal/orderbook/engine.go:206-232 | trading with the head either lowers its remainder or pops it; links and total stay true |
| Tiers.SweepIsWalkPrefix | internal/orderbook/engine.go:204-236 | sweeping the best level is the first part of the walk over the flat side |
| Tiers.RestIsInsert | internal/orderbook/engine.go:238-261 | appending to the level of a price is inserting behind everything at that price or better on the flat side |
| Tiers.CutIsRemove | internal/orderbook/engine.go:129-134 | removing a node from its level, and the level if it is empty, removes one entry of the flat side |
| Tiers.BestIsFirst | internal/orderbook/engine.go:309-323 | a price no other of the side beats is the price of the first level |
| LinkedBook.Book.NodesBehindOrders | internal/orderbook/engine.go:22-57 | used nodes never exceed used orders, so the node pool cannot run out before the order arena |
| LinkedBook.Book.constructor | internal/orderbook/engine.go:84-92 | an empty valid book with the arena wholly free |
| LinkedBook.Book.Sweep | internal/orderbook/engine.go:204-236 | on the heap: fills, drained queue, index entries deleted and total, all as the walk over the level says |
| LinkedBook.Book.FindBest | internal/orderbook/engine.go:309-323 | in whatever order the map is visited: 0 for an empty side, and a nonempty side's best price is found and told from 0 if and only if it is positive for bids, not 0 for asks; so always with positive prices |
| LinkedBook.Book.RemoveLevel | internal/orderbook/engine.go:283-295 | deleting an emptied level keeps the map, the levels and the cached best in step |
| LinkedBook.Book.BestOpposite | internal/orderbook/engine.go:263-274 | the level at the true best opposite price, none exactly when that side is empty |
| LinkedBook.Book.MatchMarket | internal/orderbook/engine.go:160-177 | the nested loops end (measure: resting orders and taker remainder) with the fills, side and remainder of the walk |
| LinkedBook.Book.MatchLimit | internal/orderbook/engine.go:179-200 | the same for a limit order |
| LinkedBook.Book.Rest | internal/orderbook/engine.go:238-261 | the order joins the tail of its level, new or known, is indexed, and the cached best is true again |
| LinkedBook.Book.Add | internal/orderbook/engine.go:99-120 | view, fills and resting flag of the pointer-based book after an add are those of the flat specification, and the whole heap invariant is kept |
| LinkedBook.Book.Cancel | internal/orderbook/engine.go:122-137 | view and answer of a cancel are those of the flat specification, and the whole heap invariant is kept |
| LinkedBook.Book.Reset | internal/orderbook/engine.go:148-156 | an empty valid book with both allocators rewound, on the same memory |
| LinkedBook.Book.IndexExact | internal/orderbook/engine.go:63-67 | the index holds an id if and only if an order of that id rests |
| LinkedBook.Book.BestPricesTrue | internal/orderbook/engine.go:139-140 | the cached prices are the true best bid and ask or 0 when empty, and the book is not crossed |
| Depth.SortPrices | internal/orderbook/engine.go:341-356 | the in-place exchange sort orders the prices best first and keeps them a permutation |
| Depth.SortedPricesAreTiers | internal/orderbook/engine.go:325-339 | sorting the keys of a side, in whatever order they were collected, gives exactly its levels in priority order |
| Depth.LevelsAreTiers | internal/orderbook/engine.go:325-339 | the levels paired with their cached totals are the flat side grouped by price with its quantities summed |
| Depth.TakeIsBest | internal/orderbook/engine.go:325-339 | the levels shown of a sorted side: as many as there are prices but at most n, strictly best first, each with the sum resting there, everything not shown worse |
| LinkedBook.Book.Depth | internal/orderbook/engine.go:142-146 | the best n price levels a side, bids downwards and asks upwards, each with the sum of the remainders resting there; every price not shown is worse |
| History.RunKeepsOk | internal/orderbook/engine.go:99-137 | of the flat specification: over any run with new ids both sides stay well formed and uncrossed and only submitted orders rest (`Engine.RunBook` carries this to the heap, for positive limit prices) |
| Engine.Dispatch | internal/orderbook/engine.go:422-431 | one command off the queue: the real book's new view and answer are those of the flat command |
| Engine.RunBook | internal/orderbook/engine.go:410-431 | any stream of new ids and positive limit prices that fits the arena: the real book gives the flat run's answers, ends in its view, is not crossed and caches the true best prices |
| LinkedBook.Book.FirstOrder | internal/orderbook/engine.go:238-274 | the first order of a book rests whatever its price, and the other side is then offered its level if and only if the price is above 0 for a buy, not 0 for a sell |
| Engine.ZeroPricesTrade | internal/orderbook/engine.go:99-120 | a buy and a sell at price 0 trade in the flat specification |
| Engine.BidAtZeroIsMissed | internal/orderbook/engine.go:263-274 | on the real book they do not: the buy at 0 rests in its level and the sell is told there is no bid |
| History.NoFillNamesAGoneOrder | internal/orderbook/engine.go:204-236 | of the flat specification: once an order no longer rests no later fill names it |
| History.NoFillAfterCancel | internal/orderbook/engine.go:122-137 | of the flat specification: a successful cancel is final |
| History.StepConserves | internal/orderbook/engine.go:99-137 | of the flat specification: every command conserves each order's quantity between fills, resting remainder and what is dropped |
| History.Conservation | internal/orderbook/engine.go:99-137 | of the flat specification: so does every run |
| History.OrderConserved | internal/orderbook/engine.go:99-137 | of the flat specification: each submitted order's quantity is exactly filled, resting or dropped |
| TeamDelta.MatchOrders | tests_submissions/team-delta.rs:130-148 | the drain-and-rebuild pass: fills, survivors and remainder of one pass over all makers |
| TeamDelta.InsertSorted | tests_submissions/team-delta.rs:160-166 | the position search by price and arrival number puts a new order behind its equals |
| TeamDelta.Book.Add | tests_submissions/team-delta.rs:107-128 | contents and fills after an add, as the pass and the insert give them |
| TeamDelta.Book.Cancel | tests_submissions/team-delta.rs:150-158 | the first order of that id, bids before asks, is removed; otherwise nothing changes |
| VectorMatch.PassIsWalk | tests_submissions/team-delta.rs:130-148 | the pass that skips what does not trade equals the walk that stops there |
| VectorMatch.PassAgreesIff | tests_submissions/team-delta.rs:138 | testing for a remainder of zero gives the reference's fills if and only if the quantity is not negative or nothing crosses |
| VectorMatch.NegativeQuantityTrades | tests_submissions/team-delta.rs:138-144 | quantity -1 against a maker it crosses: the pass trades -1, the reference nothing |
| VectorMatch.RunAgrees | tests_submissions/team-delta.rs:107-166 | over any stream of new ids, known types, quantities not negative and positive limit prices the vector book and the reference hold the same view |
| VectorMatch.AnswersAgree | tests_submissions/team-delta.rs:107-166 | and give the same fills and cancel answers |
| SideBySide.AlikeAlways | internal/orderbook/engine.go:99-137 | the simulation relation between the sequenced book and the vector book holds after every command |
| SideBySide.RunBoth | internal/orderbook/engine.go:99-137 | the pointer-based and the vector book run side by side over any such stream: both lists of answers, ours those of the flat run and theirs equal to them, fills and cancel answers alike |
| TeamAlpha.InsertSorted | tests_submissions/team-alpha.go:176-191 | shifting in place inserts the order at its place |
| TeamAlpha.RemoveOrder | tests_submissions/team-alpha.go:167-174 | shifting down in place removes exactly that object |
| TeamAlpha.Book.Match | tests_submissions/team-alpha.go:130-154 | writing survivors into the slice being read gives the fills, survivors and remainder of the pass, and forgets the filled makers |
| TeamAlpha.Book.Add | tests_submissions/team-alpha.go:96-128 | contents, fills and the ids the map keeps although nothing of theirs rests; every record it then holds it held before or has just made |
| TeamAlpha.Book.KeysAre | tests_submissions/team-alpha.go:85-90 | the id map knows exactly the resting orders and those ids |
| TeamAlpha.Book.Cancel | tests_submissions/team-alpha.go:156-165 | removes a resting order; answers yes, removing nothing, for an id kept by mistake |
| TeamAlpha.AlphaRun | tests_submissions/team-alpha.go:96-165 | over any such stream the functions that specify the book go through the reference's views; what they keep by mistake is exactly the market orders with a dropped remainder that nobody has cancelled |
| TeamAlpha.AlphaCancelAgreesIff | tests_submissions/team-alpha.go:156-165 | cancel answers are right if and only if they name no such order |
| TeamAlpha.AlphaCancelsNothing | tests_submissions/team-alpha.go:156-165 | a market order into an empty book and its cancel: alpha finds it, the reference does not |
| SideBySide.Turn | tests_submissions/team-alpha.go:96-165 | one command to the pointer-based book and to the array book: both new states and both answers |
| SideBySide.RunAlpha | tests_submissions/team-alpha.go:96-165 | the array book itself, compacting in place, run beside the pointer-based one over any such stream: both lists of answers, ours those of the flat run, theirs equal to them at a command if and only if it is not a cancel naming a market order whose remainder was dropped and that nobody has cancelled before |
| Sequencing.Sequencer.Add | internal/orderbook/sequencer.go:41-62 | a new internal id, both maps extended, and the book's answer |
| Sequencing.Sequencer.Cancel | internal/orderbook/sequencer.go:65-74 | not found for an unknown id, otherwise the book's answer |
| Sequencing.Sequencer.Reset | internal/orderbook/sequencer.go:86-94 | the initial state, with the arena free again |
| Sequencing.SeqAddKeeps | internal/orderbook/sequencer.go:41-62 | ids stay below the counter, every resting id is in the reverse map, and the maps stay inverse while external ids are new |
| ExternalView.AddThroughIds | internal/orderbook/sequencer.go:41-82 | an add seen through the id maps is the add of the book over external ids |
| ExternalView.CancelThroughIds | internal/orderbook/sequencer.go:65-82 | so is a cancel |
| ExternalView.SeqRunOk | internal/orderbook/sequencer.go:41-82 | over any stream that adds each id once, at positive limit prices, the sequenced book read through its maps is the book over external ids |
| ExternalView.SeqRepliesAreExternal | internal/orderbook/sequencer.go:41-82 | and gives its answers |
| Concurrent.ExecKeeps | internal/orderbook/sequencer.go:41-82 | the invariant of maps, goroutines, queue, log and returns holds in every schedule of any number of clients |
| Concurrent.EveryReplyIsSequential | internal/orderbook/engine.go:410-448 | in every schedule each finished call has the answer of one sequential run of the flat book, at a moment between its call and its return; every id in a fill is in the reverse map |
| Concurrent.RealTimeOrder | internal/orderbook/engine.go:435-448 | a call that returned before another began took effect before it |
| Concurrent.CallOrder | internal/orderbook/engine.go:435-448 | each client's calls take effect in the order made |
| Concurrent.OneEffectEach | internal/orderbook/engine.go:422-431 | no two finished calls share a moment of effect |
| Concurrent.QueuedIdsDistinct | internal/orderbook/sequencer.go:43 | internal ids in the queue are distinct and new to the book |
| Concurrent.QueueIsFifo | internal/orderbook/engine.go:410-431 | what the engine has served, then what still waits, is exactly what was put on the queue, in order |
| Concurrent.QueueBound | internal/orderbook/engine.go:397-450 | at most 4096 commands wait, and a ready call waits only while that many do |
| Concurrent.NeverStuck | internal/orderbook/engine.go:410-440 | while a call is unfinished and no add has found the arena full, some goroutine can move, the queue being bounded |
| Concurrent.CrashNeedsMoreAdds | internal/orderbook/engine.go:22-31 | an add finds the arena full only after more adds were called than it has room for |
| Concurrent.NextIsServable | internal/orderbook/engine.go:422-426 | whatever reaches the engine has a new id and, if it is a limit order, a positive price |
| Engine.RunSchedule | internal/orderbook/engine.go:410-448 | any schedule carried out with the real book behind the queue: its view and the use of its arena are the schedule's; it answers every log entry but the failed lookups, as the sequential run does, and every finished call returned that answer, or not found after a failed lookup |
| Linearizable.StepThroughIds | internal/orderbook/sequencer.go:65-74 | what the engine does to an internal id is what the book over external ids does |
| Linearizable.MissThroughIds | internal/orderbook/sequencer.go:70-72 | a failed lookup is the cancel of an order the book does not hold at that moment |
| Linearizable.Linearizable | internal/orderbook/sequencer.go:41-82 | callers give limit orders positive prices and each external id is added at most once: then all finished calls, failed lookups included, have the answers of one sequential run over external ids |
| Linearizable.NoZombieAcrossClients | internal/orderbook/sequencer.go:41-82 | after a cancel returned OK to anybody, no add made later by anybody is filled against that order |
| Wire.LineRoundTrip | internal/protocol/writer.go:24-41 | words joined by single spaces are read back by trimming and splitting, on blanks or on runs of white space |
| Wire.SplitExact | internal/protocol/reader.go:58 | cutting any string at every single space gives fields without spaces that join back to it |
| Wire.FieldsExact | cmd/contestant/main.go:84 | any amount of white space separates fields and is dropped; a run without any is one field |
| Wire.TrimExact | internal/protocol/reader.go:53 | trimming takes away the white space around and nothing else |
| Wire.IntRoundTrip | internal/protocol/reader.go:94 | reading a printed int64 gives it back |
| Wire.ParseIntExact | internal/protocol/reader.go:94-97 | any string, as an optional sign, digits and a rest: the number, or a syntax error read as 0, or a range error read as the bound |
| Price.NonNegativeRoundTrip | internal/protocol/reader.go:125-157 | reading a printed price gives it back, for every non-negative int64 |
| Price.PriceRoundTripIff | internal/protocol/writer.go:45-47 | for any int64 price p the round trip succeeds if and only if p >= 0 or (-p) % 10_000 < 1000 |
| Price.DecimalIsFloor | internal/protocol/reader.go:136-156 | digits, a point and any digits: an error if the whole part exceeds int64, otherwise the floor of ten thousand times the number written, wrapped to 64 bits |
| Price.DecimalExactIff | internal/protocol/reader.go:136-156 | the result is that floor itself if and only if the floor is an int64 |
| Price.WholeDigitsRead | internal/protocol/reader.go:126-134 | digits without a point: ten thousand times the number, wrapped to 64 bits, or an error; the number itself if and only if it fits |
| Price.PriceText | internal/protocol/writer.go:45-47 | a printed price is its whole part without leading zeros, a point and exactly four digits |
| Price.PadFraction | cmd/contestant/main.go:170-172 | the padding loop, zeros to four characters |
| Price.FracDigitsAre | cmd/contestant/main.go:166-172 | those four characters: the first four given, then zeros |
| Price.LenientAgrees | cmd/contestant/main.go:159-176 | the contestant's parser agrees with the platform's wherever that one accepts |
| Price.LenientParts | cmd/contestant/main.go:159-176 | the contestant's parser on any string with a point, errors included: each part counts as the number its failed parse leaves |
| Protocol.AddLineReads | internal/protocol/writer.go:24-41 | an ADD frame split by the contestant gives back its six words in order |
| Protocol.CancelLineReads | internal/protocol/writer.go:35-36 | so does a CAN frame |
| Protocol.FillReads | internal/protocol/reader.go:84-107 | a FILL is the six words FILL, id, maker, taker, price, quantity in this order, and is read back from them field by field |
| Protocol.AckReads | internal/protocol/reader.go:73-81 | an ACK is the two words ACK, id, and is read back from them |
| Protocol.RejReads | internal/protocol/reader.go:110-123 | a REJ with any number of reason words, none included, gives the words back joined |
| Protocol.WriteExact | internal/protocol/writer.go:24-41 | the literal words of an ADD and of a CAN frame, whatever their fields hold; an unknown tick type has no frame |
| Protocol.ResponseExact | internal/protocol/reader.go:43-123 | what every frame reads as: ACK with one more field, FILL with five of which the last two parse, REJ with one or more; every other frame is a parse error |
| Protocol.CollectUntilACK | internal/runner/runner.go:148-171 | response i is frame i read; only the last may be terminal; and the loop stops at the first terminal response, the first frame that does not parse or the last frame |
| Protocol.CollectExact | internal/runner/runner.go:148-171 | no other list of responses meets that description |
| Contestant.DecodeExact | cmd/contestant/main.go:80-140 | what any line of words asks for: the ADD fields in order, a refusal for a wrong length or quantity, silence for anything unknown |
| Contestant.BlankIsSilence | cmd/contestant/main.go:80-83 | a blank frame asks for nothing |
| Contestant.ServeExact | cmd/contestant/main.go:96-140 | the literal frames of every answer: FILLs with maker before taker and the ACK, or ACK or REJ not_found, or the refusal alone |
| Contestant.Connection.Dispatch | cmd/contestant/main.go:80-140 | state and frames after any inbound frame, malformed ones included |
| Contestant.Connection.HandleAdd | cmd/contestant/main.go:96-127 | one FILL frame a fill in order, then the ACK |
| Validation.Validator.Verify | internal/validator/validator.go:122-287 | verdict, reference and cancelled ids after one tick; which violation an ADD is charged with is spelt out |
| Validation.Validator.Consume | internal/validator/validator.go:66-104 | one verdict a result, in order, the reference driven by the ticks |
| Validation.CompareExact | internal/validator/validator.go:183-236 | the first-difference comparison finds nothing if and only if the fills agree field by field in order |
| Validation.AddPassesIff | internal/validator/validator.go:133-245 | without any hypothesis: an ADD passes if and only if its fills are the reference's and none names a maker recorded as cancelled |
| Validation.JudgedExactly | internal/validator/validator.go:133-236 | which violation an ADD is charged with, of any fills against any others: ZOMBIE_FILL if and only if some FILL names a cancelled maker, then the count, then the first fill that differs by maker or taker, price, quantity |
| Validation.FillsOfConcat | internal/validator/validator.go:133-139 | the FILL responses are picked out in order, and nothing else |
| Validation.FirstTerminal | internal/validator/validator.go:257-264 | the first terminal response is an ACK if and only if some ACK has only FILLs before it |
| Validation.AddVerdictExact | internal/validator/validator.go:122-246 | with each id added at most once and limit prices positive: correct if and only if the FILLs are the reference's fills |
| Validation.CancelVerdictExact | internal/validator/validator.go:248-287 | under the same conditions: correct if and only if the first terminal response is an ACK exactly when the reference cancelled |
| Validation.AddVerdictKind | internal/validator/validator.go:122-246 | the whole verdict on an ADD in a list of good ticks: its index, its order, and its violation in terms of the reference's fills, the FILLs and the ids whose cancel was accepted |
| Validation.CancelVerdictKind | internal/validator/validator.go:248-287 | the whole verdict on a cancel: CANCEL_MISMATCH if and only if the first terminal response disagrees with the reference |
| Validation.OtherVerdict | internal/validator/validator.go:89-97 | a tick of unknown type is incorrect, charged with nothing, and changes nothing |
| Validation.NoReferenceZombie | internal/validator/validator.go:144-156 | the cancelled ids never include a maker the reference fills |
| Validation.ReaddedIdIsCalledZombie | internal/validator/validator.go:144-156 | an id added again after its cancel: whatever the contestant answers, the tick that fills it is judged wrong |
| Validation.StateIsReference | internal/validator/validator.go:73-100 | the validator's reference and cancelled set are those of the ticks alone |
| Validation.VerdictsAreLocal | internal/validator/validator.go:66-104 | two runs over the same ticks, limit prices positive, have equal verdicts wherever their responses are equal |
| EndToEnd.TickIsRead | cmd/contestant/main.go:80-156 | the contestant decodes every frame the platform writes into the command it stands for: B buys and all else sells, L is a limit order and all else a market order |
| EndToEnd.RunPrints | cmd/contestant/main.go:116-125 | every id, price and quantity the book can ever fill can be printed and read back |
| EndToEnd.FramesAreRead | internal/runner/runner.go:148-171 | the frames of an add, collected, are its fills field by field and then the ACK |
| EndToEnd.ContestantAlwaysCorrect | CHANGELOG.md:139 | over every good tick list with at most 16_384 orders, the room of a connection's arena, what the contestant says through printer, parser and collector is judged correct on every tick |
| EndToEnd.Score | internal/runner/runner.go:74-143 | the same with the real objects: connection, collector and validator run over the list, every tick counted correct |
| EndToEnd.RunTicks | internal/runner/runner.go:74-143 | the closed loop against a connection: results, ticks sent and ticks acknowledged |
| EndToEnd.SmokeTest | internal/coordinator/coordinator.go:78-95 | at most ten thousand ticks against a fresh connection and validator: neither arena runs out and every tick sent is counted correct |
| TeamVerdicts.DeltaAlwaysCorrect | tests_submissions/team-delta.rs:107-158 | team delta is judged correct on every tick |
| TeamVerdicts.AlphaCorrectIff | tests_submissions/team-alpha.go:96-165 | team alpha is judged correct on a tick if and only if it is not a cancel naming a market order with a dropped remainder nobody has cancelled before |
| TeamVerdicts.AlphaJudgedWrong | tests_submissions/team-alpha.go:156-165 | two ticks on the second of which it is judged wrong |
| BotWorker.Bot.StoreNext | internal/botworker/bot.go:87-88 | keeps the grouping and the count; the next tick is in flight under its id, whatever was there |
| BotWorker.Bot.WriteNext | internal/botworker/bot.go:90-93 | a write that goes through is counted and the loop goes on; one that fails ends it |
| BotWorker.Bot.ReadNext | internal/botworker/bot.go:102-163 | keeps the grouping and the count; a terminal response to a tick in flight becomes one event with the FILLs of its id since the previous terminal, and nothing else makes an event |
| BotWorker.Drive | internal/botworker/bot.go:69-164 | a bot driven through any interleaving of its loops and the network is in the state of that run, every event grouped and every store counted |
| BotWorker.AlwaysGrouped | internal/botworker/bot.go:99-164 | in every interleaving each event carries exactly the FILLs of its id since that id's previous terminal, then the terminal |
| BotWorker.AlwaysCounted | internal/botworker/bot.go:69-164 | events, entries in flight and overwritten entries add up to the stores; stores exceed written ticks by at most one; the acked count is the number of events completed by an ACK |
| BotWorker.StoppedForGood | internal/botworker/bot.go:90-92 | after a failed write no schedule stores or writes another tick |
| BotWorker.NeverOverwritesIff | internal/botworker/bot.go:87 | no schedule and no network can put an id in flight twice if and only if no two ticks share an id |
| BotWorker.OneEventPerTick | internal/botworker/bot.go:99-164 | if no id is in flight twice and answers come in tick order, event k is tick k's |
| BotWorker.OwnIdsOneEventPerTick | internal/botworker/bot.go:99-164 | so with ids of their own, answers in order are enough |
| BotWorker.OneEventPerTickIff | internal/botworker/bot.go:87-164 | answers in order give every tick its own event, in every interleaving, if and only if no two ticks share an id |
| BotWorker.CollidingIdsLoseAnEvent | internal/botworker/bot.go:87 | an ADD and its CAN in flight together: two answers, one event, the cancel's with the add's response |
| Fleet.EventCarriesBlock | internal/botworker/bot.go:147-162 | in front of the reference contestant an event carries exactly what was said to its tick |
| Fleet.BotAlwaysCorrect | internal/botworker/firer.go:101-123 | a good shard that fits a connection's arena, answers in order, no id in flight twice: the bot's own validator calls every event correct |
| Fleet.JudgeEvents | internal/botworker/firer.go:93 | the arena of the shard's length and a hundred more suffices, whatever the schedule and the contestant |
| Pipeline.VerdictsInOrder | internal/validator/validator.go:66-104 | the k-th verdict counted is the k-th tick's, and a finished run has counted all |
| Pipeline.ChannelsHold | internal/runner/runner.go:57-64 | neither channel holds more than its capacity |
| Pipeline.DrainedNeverStuck | internal/coordinator/coordinator.go:348-361 | with the concurrent drain a run halts only when it is finished, for any number of ticks |
| Pipeline.UndrainedStuckIff | internal/coordinator/coordinator.go:348-361 | drained only afterwards, a halted run is stuck if and only if the ticks exceed both capacities and one |
| Pipeline.TenThousandTicksGetStuck | internal/coordinator/coordinator.go:348-361 | ten thousand ticks through two channels of 4096, drained afterwards, can get stuck |
| Pipeline.ReachesHalt | internal/runner/runner.go:56-62 | from any point a halt is at most the remaining work away |
| Correlator.VerdictMatchesEvent | internal/botworker/firer.go:106-119 | at most one result is outstanding, so the k-th verdict is the k-th event's |
| Correlator.LanesHold | internal/botworker/firer.go:57-134 | no channel between bot, validator and reader holds more than its capacity |
| Correlator.LockStepNeverStuck | internal/botworker/firer.go:101-123 | the correlator halts only when it has forwarded every event and drained its validator |
| Workload.Quantize | internal/workload/generator.go:185-191 | rounds down to the tick grid and never below one tick |
| Workload.Generate | internal/workload/generator.go:66-146 | the loop produces one tick a draw, each the one its draw makes after the ticks before it |
| Workload.GeneratedTick | internal/workload/generator.go:66-146 | tick i for any draws: a cancel of a live order if and only if the cancel draw says so and one is live; otherwise order o1, o2, ... in turn with the drawn side and type, quantity 1 + draw mod 100 and, for a limit order, the walk floored at 1_000_000, rounded down to 100 and moved by the drawn multiple of 100 up to 1_000 either way, or 100 if that leaves 64 bits |
| Workload.PicksCoverLive | internal/workload/generator.go:96-103 | with k live orders the picks 0 to k - 1 cancel each of them once |
| Workload.PoolOrder | internal/workload/generator.go:96-136 | the order of the pool, on which later picks depend: new ids at the end, the last id in place of the one cancelled |
| Workload.SwapRemoves | internal/workload/generator.go:97-101 | swap-remove takes out exactly the picked id |
| Workload.GeneratorIsFair | internal/workload/generator.go:66-146 | for every sequence of draws the pool has no duplicates and is exactly the ids added and not cancelled; every tick has a new id, a price on the grid and a quantity in range, or cancels a live order |
| Workload.CancelsFollowAdds | internal/workload/generator.go:96-103 | each order is cancelled at most once and only after it was added |
| Workload.FairIsGood | internal/workload/generator.go:105-142 | generated ticks meet every demand of the exchange: ids once, printable, prices positive |
| Workload.GenerateAndSmokeTest | internal/coordinator/coordinator.go:77-95 | from random draws to the gate: every tick of the warm-up is judged correct |
| Sharding.SplitTicks | internal/botworker/firer.go:168-176 | the shards the loop fills in |
| Sharding.ShardsConcat | internal/coordinator/coordinator.go:314-322 | put back together the shards are the ticks |
| Sharding.TwoLevelsConcat | internal/botworker/firer.go:64 | so are the shards of the shards |
| Sharding.LargestShard | internal/botworker/firer.go:168-176 | no shard exceeds an even share by more than the number of shards less one |
| Sharding.FleetOverGeneratedTicks | internal/botworker/firer.go:57-134 | from random draws to the verdict of any event of any bot of any worker, when its shard fits a connection's arena |
| Sharding.BotShardFits | internal/botworker/firer.go:17 | which it does with two hundred bots up to nearly three million ticks a worker |

## Left out

- LinkedBook.Book.Add: limit prices are positive, because 0 marks an empty side; the id is not in the book and the arena has room. `LinkedBook.Book.FindBest` says at which prices the marker fails; `Workload.FairIsGood`, `Concurrent.NextIsServable`, `Concurrent.CrashNeedsMoreAdds` and `Fleet.JudgeEvents` supply the rest. At limit prices of 0 or below only the first order of a book is modelled, by `LinkedBook.Book.FirstOrder`.
- Sequencing.Sequencer.Add: asks for the same of its caller, and so do Contestant.Connection.Dispatch and Validation.Validator.Consume.
- TeamAlpha.Book.Add: the id is not already in the map; `TeamAlpha.Book.KeysAre` and `TeamAlpha.FreshUnknown` show this for every stream that adds each id once.
- History.RunKeepsOk: speaks of the flat specification, as the other lemmas of that module do.
- EndToEnd.ContestantAlwaysCorrect: frames and field contents are strings of characters; UTF-8 encoding and the websocket are not modelled, and an id holds no white space.
- Price.PriceRoundTripIff: negative prices are never generated; the lemma says which of them would survive.
- BotWorker.AlwaysCounted: time stamps are positive and otherwise arbitrary; the 500 ms wait and the context cancellation that end a bot only cut a schedule short.
- Pipeline.DrainedNeverStuck: the runner's early return on a dead connection or an expired context is not modelled.
- Correlator.LockStepNeverStuck: the reader of the shared event channel is taken to keep reading.
- Concurrent.NeverStuck: `nextID` and the cached level totals are unbounded integers; wrapping at 64 bits is modelled only for prices and quantities on the wire and for generated prices. After an add finds the arena full the process is gone and nothing more is said.
- TeamVerdicts.AlphaCorrectIff: the teams' own frame parsing is not modelled; a team is represented by the responses its book gives.
- Matching arithmetic is over unbounded integers; with quantities that fit 64 bits no sum of an order's fills exceeds its quantity, so only a level's cached total could wrap.
- Wall-clock stamps, tickers, latency histograms and thread pinning: time priority in the code is list order.
- The price walk, the regime blend and the random generator: their results enter `Workload` as draws.
- Scores, window throughput and metric merging, which are floating-point.
- `Validator.Reset`, which only builds a new validator, and `cmd/agent`, which runs the same smoke test.
- The order of growth of Go slices: `TeamAlpha.Grow` may always reallocate.
- team-beta.py, team-gamma.go and team-eta.cpp: repetitions of the two books modelled, or no book at all.
- HTTP, gRPC, object storage, queues, containers and databases.
