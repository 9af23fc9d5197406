# clob-exchange in Dafny

This is a model of the central limit order book (CLOB) of clob-exchange. The
model covers the matching engine `Exchange` (src/main/kotlin/Exchange.kt) and
its command-line front end (src/main/kotlin/Main.kt).

- **The engine.** It keeps a buy book and a sell book plus a priority counter.
- **Books.** The buy book is sorted by price descending, the sell book by price
  ascending. Within one price, earlier arrivals (lower priorities) come first.
- **Placing an order.** An incoming order sweeps the opposite book best first
  for as long as the prices cross. Every step produces a trade at the resting
  order's price. If quantity is left over, it gets the next priority and is
  added to the order's own book, which is then sorted again.
- **The front end.** It reads `id,side,price,quantity` records line by line.
  It stops at the first blank or malformed line, and hands each parsed order to
  the engine.

Modules:

- `Orders` holds the value types: orders, resting orders and trades.
- `OrderBook` holds the two sort orders and the add-then-sort step. Kotlin's
  `sortWith` is stable. The model sorts by insertion, which is stable too, so
  entries that rank equal keep their order.
- `Matching` holds the sweep:
  - the loop as a method, `Sweep`;
  - the same loop as a recursive function, `Scan`;
  - the price-time rule it implements on a sorted book, `Match`.
- `Exchange` holds the engine:
  - one placement as a pure state transition, `Place`;
  - the invariants `Place` keeps;
  - the class `Exchange`, whose methods update the books and the counter in
    place. Each placement method is proved equal to `Place`.
- `Parser` models `placeOrder`'s field splitting, Kotlin's `toIntOrNull` and
  the record validation. `Cli` models the input loop `main`.
- `Scenarios` replays the trading sessions of src/test/kotlin/ExchangeTest.kt
  through the engine.
- `AsWritten` keeps the two steps of Exchange.kt that contradict those tests
  as written: the skip test and the buy-side partial fill. The rest of its scan
  is the model's corrected one: orders carry ids, and the same index is looked
  at again after a removal (see "## Findings").

The tests and Main.kt disagree with this revision of Exchange.kt in places. The
model follows the tests, and each point is marked in a comment where it is
modelled:

- **Match rule.** A buy trades with a sell when `buy.limitPrice >=
  sell.limitPrice`. The skip tests at Exchange.kt:24 and :79 are reversed.
- **Partial fill.** A partial fill lowers the resting quantity by the
  aggressor's *remaining* quantity, as :89 does. Line :37 subtracts the
  original quantity.
- **Removal during the sweep.** After a resting order is removed, the entry
  that moved into its index is examined next.
- **Order id.** Orders carry an id, as Main.kt and the tests construct them.
  The records at Exchange.kt:157-159 have none.
- **Trades.** Trades are returned instead of being passed to `onTrade`, which
  is a `TODO()` in this revision.

A trade records the aggressor with the quantity it still had at that step,
and the resting order as it stood before the step, as the tests' expected
trades do. In the sell-event session the ask at 101 never crosses, so it stays
in the sell book. Nothing in Exchange.kt removes an order that did not trade.

## Model

The rows below are the contracts. They are stated about these definitions, each of which models one source function:
- `Exchange.Place` is one call of `placeBuyOrder`/`placeSellOrder` (Exchange.kt:15-58, :70-111) as a state transition.
- `Matching.Scan` is the sweep loop (Exchange.kt:21-51, :76-103) as written with `continue`, and `Matching.Match` is the best-first rule it amounts to on a sorted book. `Matching.Crosses` is the negation of the corrected skip test at :24 and :79.
- `OrderBook.SortBook` is the stable `sortWith` at Exchange.kt:62 and :115. It works by repeated `OrderBook.Insert`, and `OrderBook.Before` is the comparators at Exchange.kt:137-149.
- `Cli.Run` is the loop of `main` (Main.kt:3-12), and `Cli.RunFrom` is that loop from a given line number on. `Cli.Replay` is the global `exchange` fed with the dispatched orders. `Cli.IsBlank` is the negation of `isNotBlank` at Main.kt:8, with Kotlin's whitespace set.


| member | source | states |
|---|---|---|
| `Orders.MakeOrder` | src/main/kotlin/Main.kt:41-51 | the order built for a side carries that side, the id, the price and the quantity |
| `OrderBook.SortBookSorts` | src/main/kotlin/Exchange.kt:60-63 | add-then-`sortWith` yields a book sorted by the side's comparator that is a permutation of its input |
| `OrderBook.SortBookOfSorted` | src/main/kotlin/Exchange.kt:113-116 | sorting a book that is already sorted leaves it unchanged |
| `OrderBook.AddThenSortIsInsert` | src/main/kotlin/Exchange.kt:61-62 | appending to a sorted book and sorting is the same as inserting at the sorted place, behind every entry that ranks equal |
| `OrderBook.InsertSorted` | src/main/kotlin/Exchange.kt:137-149 | inserting into a book sorted by (price descending or ascending, priority ascending) keeps it sorted |
| `OrderBook.InsertPermutes` | src/main/kotlin/Exchange.kt:114-115 | the insertion adds exactly the new entry: the multiset gains it and loses nothing |
| `OrderBook.InsertMembers` | src/main/kotlin/Exchange.kt:114 | an entry is in the result exactly when it is the new one or was in the book |
| `OrderBook.InsertAtEnd` | src/main/kotlin/Exchange.kt:147-149 | an entry that ranks behind every entry of the book is appended at the end |
| `OrderBook.InsertHead` | src/main/kotlin/Exchange.kt:137-139 | after an insertion the best entry is the new one or the old best |
| `OrderBook.InsertPrios` | src/main/kotlin/Exchange.kt:65-67 | the priorities of the book gain exactly the new entry's priority |
| `Matching.Sweep` | src/main/kotlin/Exchange.kt:21-51 | the index loop with `continue`, removal and in-place partial fill yields exactly the book, remainder and trades of the recursive scan |
| `Matching.PassStep` | src/main/kotlin/Exchange.kt:24 | passing over a non-crossing entry keeps it and leaves the scan's result unchanged |
| `Matching.TakeStep` | src/main/kotlin/Exchange.kt:45-50 | consuming an entry whole removes it, adds its trade and looks next at the entry that moved into its index |
| `Matching.FillStep` | src/main/kotlin/Exchange.kt:27-44 | a fill that uses up the aggressor removes the entry on an exact fill, otherwise lowers it by the remaining quantity, and ends the loop |
| `Matching.ScanIsBestFirst` | src/main/kotlin/Exchange.kt:76-103 | on a sorted book, scanning every entry with `continue` equals stopping at the first entry that does not cross |
| `Matching.NothingCrossesBeyond` | src/main/kotlin/Exchange.kt:77-79 | on a sorted book, once the best entry does not cross, no later entry does |
| `Matching.ScanPassesOver` | src/main/kotlin/Exchange.kt:23-24 | a scan over entries none of which cross changes nothing and trades nothing |
| `Matching.MatchConservesQuantity` | src/main/kotlin/Exchange.kt:27-50 | the aggressor's quantity equals the volume traded plus the remainder |
| `Matching.MatchTradesInBookOrder` | src/main/kotlin/Exchange.kt:77-102 | the i-th trade is with the i-th best resting order, which crosses; the aggressor leg carries the quantity left before the step, which each full take reduces by the resting quantity |
| `Matching.MatchRemainder` | src/main/kotlin/Exchange.kt:80-103 | with quantity left over, the consumed entries are gone and the new best does not cross; when fully filled, the last entry is removed on an exact fill or keeps its id, price and priority and loses the remaining quantity |
| `Matching.MatchLeavesSuffix` | src/main/kotlin/Exchange.kt:34-41 | the sweep leaves a suffix of the old book whose head may only have lost quantity and still has a positive quantity |
| `Matching.KeptSuffixOfTail` | src/main/kotlin/Exchange.kt:32 | what is left after removing the best entry is a kept suffix of the whole book |
| `Matching.KeptSuffixSorted` | src/main/kotlin/Exchange.kt:39-40 | a partial fill needs no re-sort: what the sweep leaves is still sorted |
| `Matching.KeptSuffixPrios` | src/main/kotlin/Exchange.kt:86-93 | a partial fill keeps the priority: the sweep introduces no priority |
| `Exchange.PlaceConservesQuantity` | src/main/kotlin/Exchange.kt:52-57 | the quantity traded plus the quantity rested is the order's quantity |
| `Exchange.PlaceSequencesPriority` | src/main/kotlin/Exchange.kt:54-57 | the counter advances exactly when something rests, and that is exactly when the trades fall short of the order's quantity; the rested remainder carries the new priority, which is above every priority in the books, and is in the order's own book |
| `Exchange.PlaceOnEmptyOppositeRests` | src/main/kotlin/Exchange.kt:16-20 | against an empty opposite book the order rests whole at its sorted place with the next priority, whatever its quantity, and trades nothing |
| `Exchange.PlaceWithoutCrossRests` | src/main/kotlin/Exchange.kt:104-110 | an order that does not cross the best opposite price trades nothing and rests whole at its sorted place |
| `Exchange.PlaceAltersPrefixAndOneInsertion` | src/main/kotlin/Exchange.kt:76-110 | a placement alters only a prefix of the opposite book and inserts at most the one rested order into its own book |
| `Exchange.PlaceTradesBestFirst` | src/main/kotlin/Exchange.kt:15-58 | price-time priority: trades are at the resting order's price, in book order, each price as good for the aggressor as every later one, earlier arrival first at equal price |
| `Exchange.SweptBookValid` | src/main/kotlin/Exchange.kt:45-50 | the opposite book after the sweep stays sorted and well formed and holds no new priority |
| `Exchange.PlacePreservesValidity` | src/main/kotlin/Exchange.kt:9-13 | every placement of an order within the bounds keeps both books sorted, within bounds and positive, priorities unique and the books uncrossed |
| `Exchange.PlaceKeepsBooksOrdered` | src/main/kotlin/Exchange.kt:62 | both books stay sorted and well formed and the counter never goes down |
| `Exchange.PlaceKeepsPrioritiesUnique` | src/main/kotlin/Exchange.kt:66-67 | no priority is ever shared between resting orders |
| `Exchange.NoCrossAfter` | src/main/kotlin/Exchange.kt:106-110 | after a placement the best bid is below the best ask, or one book is empty |
| `Exchange.Exchange.constructor` | src/main/kotlin/Exchange.kt:10-13 | a new engine has empty books and the counter at 0, and satisfies the invariant |
| `Exchange.Exchange.PlaceBuyOrder` | src/main/kotlin/Exchange.kt:15-58 | the new books and counter and the returned trades are those of the placement transition; an order within the bounds keeps the invariant |
| `Exchange.Exchange.PlaceSellOrder` | src/main/kotlin/Exchange.kt:70-111 | the mirror image for a sell order |
| `Exchange.Exchange.PlaceInBuyBook` | src/main/kotlin/Exchange.kt:60-63 | the buy book becomes the sorted book with the entry added; nothing else changes |
| `Exchange.Exchange.PlaceInSellBook` | src/main/kotlin/Exchange.kt:113-116 | the sell book becomes the sorted book with the entry added; nothing else changes |
| `Exchange.Exchange.AttachPriority` | src/main/kotlin/Exchange.kt:65-68 | the counter advances by one and the new resting order carries the advanced value, the order's id, price and quantity (also :118-121) |
| `Exchange.Exchange.BookContents` | src/main/kotlin/Exchange.kt:127-129 | both books as they are, best first and never crossed |
| `Parser.Split` | src/main/kotlin/Main.kt:27 | `split(',')` always yields at least one field |
| `Parser.SplitCountsCommas` | src/main/kotlin/Main.kt:27-30 | the number of fields is the number of commas plus one, so four fields means exactly three commas |
| `Parser.JoinSplit` | src/main/kotlin/Main.kt:24-25 | joining the fields with commas gives back the line |
| `Parser.SplitJoin` | src/main/kotlin/Main.kt:22-27 | comma-free fields joined with commas split back into the same fields |
| `Parser.SplitCommaFree` | src/main/kotlin/Main.kt:31 | a comma-free prefix stays in the first field |
| `Parser.ParseInt` | src/main/kotlin/Main.kt:33-36 | `toIntOrNull` yields only values in the 32-bit range, and only for text starting with a digit or a sign |
| `Parser.NatDigitsValue` | src/main/kotlin/Main.kt:37 | decimal digits read back to the number they were written from |
| `Parser.ParseFormatInt` | src/main/kotlin/Main.kt:37-40 | every 32-bit integer written in decimal parses back to itself |
| `Parser.CommaFreeInt` | src/main/kotlin/Main.kt:24-25 | a decimal number never contains the field separator |
| `Parser.ParseOrder` | src/main/kotlin/Main.kt:26-56 | accepts exactly the lines with four fields, two numbers that `toIntOrNull` reads and the side `B` or `S`, with no range check; rejects the others with the first failure, in the order field count, price, quantity, side; a success carries the id, the parsed price and quantity, and the side |
| `Parser.ParseFormatOrder` | src/main/kotlin/Main.kt:22-24 | a record written as `id,side,price,quantity` with a comma-free id and 32-bit numbers parses back to the same order |
| `Cli.ProcessLines` | src/main/kotlin/Main.kt:3-12 | the loop's output is the specification `Run` of the lines |
| `Cli.RunCharacterised` | src/main/kotlin/Main.kt:4-12 | the dispatched orders are the parsed accepted lines in input order; the run fails exactly when there is no line or some line is rejected, and then names the first rejected line by its 1-based number |
| `Cli.RunFromCharacterised` | src/main/kotlin/Main.kt:7-11 | the same, from a given line number on |
| `Cli.RunFromStopsAtFirstRejection` | src/main/kotlin/Main.kt:8 | lines after the first rejected one have no effect |
| `Cli.ReplayOne` | src/main/kotlin/Main.kt:9 | feeding one dispatched order to the engine is one placement |
| `Cli.ReplayCons` | src/main/kotlin/Main.kt:10-11 | a session is its first placement, then the rest from the state it leaves |
| `Cli.FoldAppend` | src/main/kotlin/Main.kt:7 | folding any step over two sessions in a row is folding over the first, then over the second from its final state |
| `Cli.ReplayAppend` | src/main/kotlin/Main.kt:7-12 | a session can be split anywhere: trades concatenate and the second part starts where the first ended |
| `Cli.ReplayChain` | src/main/kotlin/Main.kt:9-11 | if every order moves the books from one state to the next, the session ends in the last state with all step trades in order |
| `Cli.ReplayPreservesValidity` | src/main/kotlin/Main.kt:18-20 | orders within the bounds keep the engine's invariant over the whole run |
| `Cli.ReplayTradesWithinQuantity` | src/main/kotlin/Main.kt:44-49 | a session never trades more than the total quantity its orders brought |
| `Scenarios.NoMatchSession` | src/test/kotlin/ExchangeTest.kt:11-27 | bids at 98 and 99 and asks at 100 to 105 never trade, and both books end in price-time order |
| `Scenarios.NoMatchStep4` | src/test/kotlin/ExchangeTest.kt:21-22 | a second ask at 100 goes behind the earlier one at 100 and ahead of the one at 105 |
| `Scenarios.SellSweepsBidsBestFirst` | src/test/kotlin/ExchangeTest.kt:29-51 | the ask at 95 for 2000 trades with the bids at 99, 99 and 98 in that order with the expected aggressor quantities, leaving 700 at 98 |
| `Scenarios.BuyEventSweepsAsks` | src/test/kotlin/ExchangeTest.kt:67-79 | the bid at 105 for 16000 makes the four expected trades at 100, 100, 103 and 105 and leaves 14600 at 105 |
| `Scenarios.BuyEventSession` | src/test/kotlin/ExchangeTest.kt:53-80 | the whole buy-event session from an empty engine yields exactly the expected trades |
| `Scenarios.PartialFillStep3` | src/test/kotlin/ExchangeTest.kt:96-101 | a bid at 101 for 200 takes the asks at 98 and 99 whole and 100 of the ask at 100 |
| `Scenarios.BuyAfterPartialFill` | src/test/kotlin/ExchangeTest.kt:82-105 | after a partial fill the ask at 100 keeps 100 at its priority and the next bid trades against exactly that, then rests its other 100 |
| `Scenarios.MatchAllSession` | src/test/kotlin/ExchangeTest.kt:107-161 | the eleven orders of the match-all session from an empty engine yield exactly the eight expected trades, in order, and leave both books empty |
| `Scenarios.MatchAllStep7` | src/test/kotlin/ExchangeTest.kt:142 | the ask at 103 for 999969399 fills the bid at 999999 exactly, which leaves the buy book |
| `Scenarios.PartialFillKeepsPriority` | src/main/kotlin/Exchange.kt:34-41 | a bid of 50 against an ask of 200 trades 50 at the ask's price and leaves 150 at the ask's own priority |
| `AsWritten.ReversedSkipTradesWithoutCross` | src/main/kotlin/Exchange.kt:79 | with the skip test as written, the ask at 105 for 20000 of the no-match session trades with the bid at 99; the corrected scan passes over both bids |
| `AsWritten.BuyFillSubtractsWholeOrder` | src/main/kotlin/Exchange.kt:34-38 | with the buy-side partial fill as written, and the same index looked at again after a removal, a second ask is left with 0 instead of 50 |

## Left out

- Rendering is not modelled: the book output, its blank check and its print at Main.kt:13-15, and the trade print at Main.kt:18-20. Of these, `getOrderBookOutput`, `tradeOutput` and `invokeOnTrade` are called but not defined in this revision; all of it only formats output.
- The test helpers of ExchangeTest.kt are modelled in `Scenarios` as follows. `expectNoTrade` (:241-243) fails the test on any trade; it becomes a step whose trades are `[]`. `placeBuyOrders` and `placeSellOrders` (:256-262) place orders one after another; they become consecutive placements in `Replay`. Only the MD5 comparison of the rendered book (:205-206, :230-231, with `hashStringMD5` at :235-238) is left out, because the rendering it hashes is not modelled.
- `onTrade` (Exchange.kt:123-125) is a `TODO()`. The model returns the trades of each placement in order instead of calling it.
- `getBookContents` (Exchange.kt:127-129) is a `TODO()`. `BookContents` gives the read-only view it would give.
- Reading standard input becomes a sequence of lines passed as a parameter. The exceptions of `main` and `placeOrder` become the `InputError` and `ParseError` values. The global `exchange` becomes `Replay` over the dispatched orders.
- The JVM's iterator over a list changed during the `for` loop (Exchange.kt:23, :77) behaves in one of two ways after a `removeAt`. Usually it throws `ConcurrentModificationException` on its next step. When the removed entry was the last but one, it ends the loop without looking at the last entry: a bid at 100 for 200 against asks of 50 and 200 at 100 stops after the first `removeAt`. The model looks next at the entry that moved into the freed index, the behaviour the tests expect. Exceptions of the JVM runtime are out of scope.
- The priority counter is a Kotlin `Int`. It wraps around after 2^31 - 1 rested orders, and the model's unbounded counter does not.
- Quantities and prices stay within the bounds of Exchange.kt:152-156, so the engine's arithmetic never nears 32-bit overflow. The model does not track overflow for orders outside those bounds.
- Parser.ParseInt: accepts ASCII digits only; `toIntOrNull` also accepts non-ASCII Unicode decimal digits.
- Cli.RunCharacterised: every rejection carries the 1-based number of its line. Main.kt names the line only for a blank line (:8). Its messages for a bad field count, price, quantity or side (:28-40, :52-54) do not.
- The two `*WithPriority` records (Exchange.kt:131-145) have the same shape. One `Resting` record serves both books.
- src/main/kotlin/ExperimentSort.kt and build.gradle.kts are not part of this model.
- Exchange.Exchange.PlaceBuyOrder: promises the book invariant only for orders within the price and quantity bounds. The source validates nothing and makes no promise for other orders.
- Exchange.Exchange.PlaceSellOrder: the same as PlaceBuyOrder.
- Cli.ReplayPreservesValidity: requires every dispatched order to be within the bounds. `Parser.ParseOrder`, like Main.kt, does not check them.

## Findings

| source | as written | input that shows it | evidently intended | confidence | as-written member | corrected member |
|---|---|---|---|---|---|---|
| src/main/kotlin/Exchange.kt:24 | the buy sweep skips every ask priced below its limit (and :79 skips every bid above a sell's limit), so it trades with every ask at or above its limit and passes over every ask below it (the sell side mirrored); it agrees with the tests only at the limit price itself | the no-match session (ExchangeTest.kt:11-27): bids at 98 and 99 rest, then the ask at 105 for 20000 (:20, placed at :26) trades with the bid at 99, where the test expects no trade | skip an ask only when it is above the buy limit (a bid only when it is below the sell limit) | not executed | `AsWritten.ReversedSkipTradesWithoutCross` | `Scenarios.NoMatchSession` |
| src/main/kotlin/Exchange.kt:37 | a buy's partial fill lowers the ask by the order's original quantity instead of the quantity still unfilled | a bid at 100 for 200 against asks of 50 and 200 at 100: the second ask is left with 0 instead of 50. This holds only when the same index is looked at again after a removal, as the model does; on the JVM the loop ends after the first `removeAt` here, and :37 runs only before any removal, where both quantities agree | lower the ask by the remaining quantity, as the sell side does at :89 | not executed | `AsWritten.BuyFillSubtractsWholeOrder` | `Matching.MatchRemainder` |
