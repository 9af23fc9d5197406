/**
 * The sweep exactly as this revision of src/main/kotlin/Exchange.kt
 * writes its skip test and its buy-side partial fill, kept beside the
 * corrected Matching.Scan to exhibit where the two differ.
 */
module AsWritten {
  import opened Orders
  import opened Matching
  import opened Scenarios

  /** The skip test of :24 (buy) and :79 (sell) as written. */
  predicate SkipsAsWritten(side: Side, aggressorPrice: int, restingPrice: int) {
    match side
    case Buy => aggressorPrice > restingPrice
    case Sell => aggressorPrice < restingPrice
  }

  /**
   * The partial fill as written: the buy side (:34-38) subtracts the order's
   * original quantity, the sell side (:86-90) the remaining one.
   */
  function PartialFillAsWritten(order: Order, remaining: int, x: Resting): Resting {
    if order.BuyOrder? then x.(quantity := x.quantity - order.quantity)
    else x.(quantity := x.quantity - remaining)
  }

  /**
   * Matching.Scan with the two as-written steps above. Everything else is as
   * in Matching.Scan: orders carry ids, and a removal is followed by a look at
   * the same index. On the JVM the list iterator of that for-in loop would
   * instead throw on its next step, or, when the removed entry was the last
   * but one, end the loop without looking at the last entry.
   */
  function ScanAsWritten(order: Order, remaining: int, book: seq<Resting>): Outcome
    decreases |book|
  {
    if book == [] then Outcome([], remaining, [])
    else
      var x := book[0];
      if SkipsAsWritten(order.SideOf(), order.limitPrice, x.limitPrice) then
        var r := ScanAsWritten(order, remaining, book[1..]);
        r.(book := [x] + r.book)
      else if remaining <= x.quantity then
        if remaining == x.quantity then Outcome(book[1..], 0, [StepTrade(order, remaining, x)])
        else Outcome([PartialFillAsWritten(order, remaining, x)] + book[1..], 0, [StepTrade(order, remaining, x)])
      else
        var r := ScanAsWritten(order, remaining - x.quantity, book[1..]);
        r.(trades := [StepTrade(order, remaining, x)] + r.trades)
  }

  /**
   * testNoMatchScenario (src/test/kotlin/ExchangeTest.kt:11-27) expects no
   * trade. Its two bids meet an empty sell book and take the early return,
   * which neither as-written step touches, so they rest as NoMatchBids. With
   * the skip test of :79 as written, the third order, an ask at 105 for 20000,
   * then trades with the bid at 99; the corrected scan passes over both bids.
   */
  lemma ReversedSkipTradesWithoutCross()
    ensures ScanAsWritten(SellOrder("10005", 105, 20000), 20000, NoMatchBids).trades ==
      [Trade(SellOrder("10005", 105, 20000), BuyOrder("10003", 99, 50000))]
    ensures Scan(SellOrder("10005", 105, 20000), 20000, NoMatchBids).trades == []
  {
  }

  /**
   * A buy at 100 for 200 against sells of 50 and 200 at 100: after the first
   * trade 150 remain, and the as-written partial fill leaves the second sell
   * resting with quantity 0 instead of 50. This needs the look at the same
   * index after a removal: on the JVM the loop would end after the first
   * removal here, so :37 runs only while nothing was filled yet and the
   * remaining and the original quantity still agree.
   */
  lemma BuyFillSubtractsWholeOrder()
    ensures var book := [Resting(1, "s1", 100, 50), Resting(2, "s2", 100, 200)];
      ScanAsWritten(BuyOrder("b", 100, 200), 200, book).book == [Resting(2, "s2", 100, 0)] &&
      Scan(BuyOrder("b", 100, 200), 200, book).book == [Resting(2, "s2", 100, 50)]
  {
  }
}
