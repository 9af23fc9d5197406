/**
 * Trading sessions from src/test/kotlin/ExchangeTest.kt, replayed through the
 * engine's state transition from an empty exchange. Each session lists its
 * orders and the state after each of them; one lemma per step computes a
 * placement, and the session lemma chains them.
 */
module Scenarios {
  import opened Wrappers
  import opened Orders
  import opened OrderBook
  import opened Matching
  import opened Exchange
  import opened Cli

  const Empty := Books([], [], 0)

  // ---- testMatchingSellEvent (ExchangeTest.kt:29-51) ----

  const SellEventOrders := [
    BuyOrder("1", 99, 1000), BuyOrder("12", 99, 500), BuyOrder("123", 98, 1200),
    SellOrder("1234", 101, 2000), SellOrder("12345", 95, 2000)]

  const SellEventStates := [
    Empty,
    Books([Resting(1, "1", 99, 1000)], [], 1),
    Books([Resting(1, "1", 99, 1000), Resting(2, "12", 99, 500)], [], 2),
    Books([Resting(1, "1", 99, 1000), Resting(2, "12", 99, 500), Resting(3, "123", 98, 1200)], [], 3),
    Books([Resting(1, "1", 99, 1000), Resting(2, "12", 99, 500), Resting(3, "123", 98, 1200)], [Resting(4, "1234", 101, 2000)], 4),
    Books([Resting(3, "123", 98, 700)], [Resting(4, "1234", 101, 2000)], 4)]

  const SellEventTrades := [
    Trade(SellOrder("12345", 95, 2000), BuyOrder("1", 99, 1000)),
    Trade(SellOrder("12345", 95, 1000), BuyOrder("12", 99, 500)),
    Trade(SellOrder("12345", 95, 500), BuyOrder("123", 98, 1200))]

  /** The trades of each step of the session. */
  const SellEventSteps: seq<seq<Trade>> := [[], [], [], [], SellEventTrades]

  lemma SellEventStep0()
    ensures Place(SellEventStates[0], SellEventOrders[0]) == Placement(SellEventStates[1], [], Some(Resting(1, "1", 99, 1000)))
  {
    PlaceWithoutCrossRests(SellEventStates[0], SellEventOrders[0]);
  }

  lemma SellEventStep1()
    ensures Place(SellEventStates[1], SellEventOrders[1]) == Placement(SellEventStates[2], [], Some(Resting(2, "12", 99, 500)))
  {
    PlaceWithoutCrossRests(SellEventStates[1], SellEventOrders[1]);
    assert [Resting(1, "1", 99, 1000)][1..] == [];
  }

  lemma SellEventStep2()
    ensures Place(SellEventStates[2], SellEventOrders[2]) == Placement(SellEventStates[3], [], Some(Resting(3, "123", 98, 1200)))
  {
    var b1, b2, b3 := Resting(1, "1", 99, 1000), Resting(2, "12", 99, 500), Resting(3, "123", 98, 1200);
    PlaceWithoutCrossRests(SellEventStates[2], SellEventOrders[2]);
    assert [b1, b2][1..] == [b2] && [b2][1..] == [];
    assert Insert(Buy, b3, [b2]) == [b2, b3];
  }

  /** An ask at 101 rests above bids at 99 and 98. */
  lemma SellEventStep3()
    ensures Place(SellEventStates[3], SellEventOrders[3]) == Placement(SellEventStates[4], [], Some(Resting(4, "1234", 101, 2000)))
  {
    PlaceWithoutCrossRests(SellEventStates[3], SellEventOrders[3]);
  }

  /** An ask at 95 for 2000 takes the bids at 99, 99 and part of 98, best first. */
  lemma SellEventStep4()
    ensures Place(SellEventStates[4], SellEventOrders[4]) == Placement(SellEventStates[5], SellEventTrades, None)
  {
    var o := SellEventOrders[4];
    var b := SellEventStates[4].buy;
    var ts := SellEventTrades;
    var left := [Resting(3, "123", 98, 700)];
    assert b[1..][1..] == b[2..] && b[2..][1..] == [];
    assert Match(o, 500, b[2..]) == Outcome(left, 0, ts[2..]);
    assert Match(o, 1000, b[1..]) == Outcome(left, 0, ts[1..]);
    assert Match(o, 2000, b) == Outcome(left, 0, ts);
  }

  /** Every step of the session, as the lemmas above compute it. */
  lemma SellEventStepsHold()
    ensures forall k :: 0 <= k < |SellEventOrders| ==>
      Place(SellEventStates[k], SellEventOrders[k]).after == SellEventStates[k + 1] && Place(SellEventStates[k], SellEventOrders[k]).trades == SellEventSteps[k]
  {
    forall k | 0 <= k < |SellEventOrders|
      ensures Place(SellEventStates[k], SellEventOrders[k]).after == SellEventStates[k + 1]
      ensures Place(SellEventStates[k], SellEventOrders[k]).trades == SellEventSteps[k]
    {
      if k == 0 { SellEventStep0(); }
      else if k == 1 { SellEventStep1(); }
      else if k == 2 { SellEventStep2(); }
      else if k == 3 { SellEventStep3(); }
      else { SellEventStep4(); }
    }
  }

  lemma SellEventTradesJoined()
    ensures Concat(SellEventSteps) == SellEventTrades
  {
    var t := SellEventTrades;
    var e: seq<Trade> := [];
    assert [t][1..] == [] && Concat([t]) == t + [];
    assert [e, t][1..] == [t] && Concat([e, t]) == t;
    assert [e, e, t][1..] == [e, t] && Concat([e, e, t]) == t;
    assert [e, e, e, t][1..] == [e, e, t] && Concat([e, e, e, t]) == t;
    assert [e, e, e, e, t][1..] == [e, e, e, t];
  }

  /**
   * Three bids at 99, 99, 98; an ask at 101 rests; an ask at 95 sweeps all
   * bids best first and leaves the last one partly filled.
   */
  lemma SellSweepsBidsBestFirst()
    ensures Replay(Empty, SellEventOrders) == (SellEventStates[5], SellEventTrades)
  {
    SellEventStepsHold();
    SellEventTradesJoined();
    ReplayChain(SellEventStates, SellEventOrders, SellEventSteps);
  }

  // ---- testMatchingBuyEvent2 (ExchangeTest.kt:82-105) ----

  const PartialFillOrders := [
    SellOrder("10001", 100, 200), SellOrder("10002", 99, 50), SellOrder("10003", 98, 50),
    BuyOrder("10000", 101, 200), BuyOrder("10004", 101, 200)]

  const PartialFillStates := [
    Empty,
    Books([], [Resting(1, "10001", 100, 200)], 1),
    Books([], [Resting(2, "10002", 99, 50), Resting(1, "10001", 100, 200)], 2),
    Books([], [Resting(3, "10003", 98, 50), Resting(2, "10002", 99, 50), Resting(1, "10001", 100, 200)], 3),
    Books([], [Resting(1, "10001", 100, 100)], 3),
    Books([Resting(4, "10004", 101, 100)], [], 4)]

  const PartialFillFirstTrades := [
    Trade(BuyOrder("10000", 101, 200), SellOrder("10003", 98, 50)),
    Trade(BuyOrder("10000", 101, 150), SellOrder("10002", 99, 50)),
    Trade(BuyOrder("10000", 101, 100), SellOrder("10001", 100, 200))]

  const PartialFillSecondTrades := [Trade(BuyOrder("10004", 101, 200), SellOrder("10001", 100, 100))]

  const PartialFillSteps: seq<seq<Trade>> := [[], [], [], PartialFillFirstTrades, PartialFillSecondTrades]

  lemma PartialFillStep0()
    ensures Place(PartialFillStates[0], PartialFillOrders[0]) == Placement(PartialFillStates[1], [], Some(Resting(1, "10001", 100, 200)))
  {
    PlaceWithoutCrossRests(PartialFillStates[0], PartialFillOrders[0]);
  }

  lemma PartialFillStep1()
    ensures Place(PartialFillStates[1], PartialFillOrders[1]) == Placement(PartialFillStates[2], [], Some(Resting(2, "10002", 99, 50)))
  {
    PlaceWithoutCrossRests(PartialFillStates[1], PartialFillOrders[1]);
  }

  lemma PartialFillStep2()
    ensures Place(PartialFillStates[2], PartialFillOrders[2]) == Placement(PartialFillStates[3], [], Some(Resting(3, "10003", 98, 50)))
  {
    PlaceWithoutCrossRests(PartialFillStates[2], PartialFillOrders[2]);
  }

  /** A bid at 101 for 200 takes the asks at 98 and 99 whole and 100 of the ask at 100. */
  lemma PartialFillStep3()
    ensures Place(PartialFillStates[3], PartialFillOrders[3]) == Placement(PartialFillStates[4], PartialFillFirstTrades, None)
  {
    var o := PartialFillOrders[3];
    var b := PartialFillStates[3].sell;
    var ts := PartialFillFirstTrades;
    var left := [Resting(1, "10001", 100, 100)];
    assert b[1..][1..] == b[2..] && b[2..][1..] == [];
    assert Match(o, 100, b[2..]) == Outcome(left, 0, ts[2..]);
    assert Match(o, 150, b[1..]) == Outcome(left, 0, ts[1..]);
    assert Match(o, 200, b) == Outcome(left, 0, ts);
  }

  /** The next bid takes the 100 left at (100, 100) and rests its other 100. */
  lemma PartialFillStep4()
    ensures Place(PartialFillStates[4], PartialFillOrders[4]) ==
      Placement(PartialFillStates[5], PartialFillSecondTrades, Some(Resting(4, "10004", 101, 100)))
  {
    var o := PartialFillOrders[4];
    var x := Resting(4, "10004", 101, 100);
    assert [Resting(1, "10001", 100, 100)][1..] == [];
    assert Match(o, 200, PartialFillStates[4].sell) == Outcome([], 100, PartialFillSecondTrades);
    AddThenSortIsInsert(Buy, x, []);
    assert [] + [x] == [x];
  }

  /** Every step of the session, as the lemmas above compute it. */
  lemma PartialFillStepsHold()
    ensures forall k :: 0 <= k < |PartialFillOrders| ==>
      Place(PartialFillStates[k], PartialFillOrders[k]).after == PartialFillStates[k + 1] && Place(PartialFillStates[k], PartialFillOrders[k]).trades == PartialFillSteps[k]
  {
    forall k | 0 <= k < |PartialFillOrders|
      ensures Place(PartialFillStates[k], PartialFillOrders[k]).after == PartialFillStates[k + 1]
      ensures Place(PartialFillStates[k], PartialFillOrders[k]).trades == PartialFillSteps[k]
    {
      if k == 0 { PartialFillStep0(); }
      else if k == 1 { PartialFillStep1(); }
      else if k == 2 { PartialFillStep2(); }
      else if k == 3 { PartialFillStep3(); }
      else { PartialFillStep4(); }
    }
  }

  lemma PartialFillTradesJoined()
    ensures Concat(PartialFillSteps) == PartialFillFirstTrades + PartialFillSecondTrades
  {
    var t3, t4 := PartialFillFirstTrades, PartialFillSecondTrades;
    var e: seq<Trade> := [];
    assert [t4][1..] == [] && Concat([t4]) == t4 + [];
    assert [t3, t4][1..] == [t4] && Concat([t3, t4]) == t3 + t4;
    assert [e, t3, t4][1..] == [t3, t4] && Concat([e, t3, t4]) == t3 + t4;
    assert [e, e, t3, t4][1..] == [e, t3, t4] && Concat([e, e, t3, t4]) == t3 + t4;
    assert [e, e, e, t3, t4][1..] == [e, e, t3, t4];
  }

  /**
   * A bid at 101 takes the asks at 98, 99 and part of 100; the next bid takes
   * the rest of the ask at 100, left at (100, 100), and rests its remainder.
   */
  lemma BuyAfterPartialFill()
    ensures Replay(Empty, PartialFillOrders) == (PartialFillStates[5], PartialFillFirstTrades + PartialFillSecondTrades)
  {
    PartialFillStepsHold();
    PartialFillTradesJoined();
    ReplayChain(PartialFillStates, PartialFillOrders, PartialFillSteps);
  }

  /**
   * A partial fill (Exchange.kt:34-41): a bid of 50 against an ask of 200
   * trades 50 at the ask's price and leaves 150 of it at its own priority.
   */
  lemma PartialFillKeepsPriority()
    ensures Place(Books([], [Resting(1, "A", 100, 200)], 1), BuyOrder("B", 101, 50)) ==
      Placement(Books([], [Resting(1, "A", 100, 150)], 1), [Trade(BuyOrder("B", 101, 50), SellOrder("A", 100, 200))], None)
  {
    assert Match(BuyOrder("B", 101, 50), 50, [Resting(1, "A", 100, 200)]) ==
      Outcome([Resting(1, "A", 100, 150)], 0, [Trade(BuyOrder("B", 101, 50), SellOrder("A", 100, 200))]);
  }

  // ---- testNoMatchScenario (ExchangeTest.kt:11-27) and testMatchingBuyEvent (:53-80) ----

  const NoMatchOrders := [
    BuyOrder("10000", 98, 25500), BuyOrder("10003", 99, 50000),
    SellOrder("10005", 105, 20000), SellOrder("10001", 100, 500),
    SellOrder("10002", 100, 10000), SellOrder("10004", 103, 100)]

  const NoMatchBids := [Resting(2, "10003", 99, 50000), Resting(1, "10000", 98, 25500)]

  const NoMatchStates := [
    Empty,
    Books([Resting(1, "10000", 98, 25500)], [], 1),
    Books(NoMatchBids, [], 2),
    Books(NoMatchBids, [Resting(3, "10005", 105, 20000)], 3),
    Books(NoMatchBids, [Resting(4, "10001", 100, 500), Resting(3, "10005", 105, 20000)], 4),
    Books(NoMatchBids, [Resting(4, "10001", 100, 500), Resting(5, "10002", 100, 10000), Resting(3, "10005", 105, 20000)], 5),
    NoMatchBooks]

  /** The books after the no-match session, best first. */
  const NoMatchBooks := Books(
    NoMatchBids,
    [Resting(4, "10001", 100, 500), Resting(5, "10002", 100, 10000),
     Resting(6, "10004", 103, 100), Resting(3, "10005", 105, 20000)],
    6)

  lemma NoMatchStep0()
    ensures Place(NoMatchStates[0], NoMatchOrders[0]).after == NoMatchStates[1] && Place(NoMatchStates[0], NoMatchOrders[0]).trades == []
  {
    PlaceWithoutCrossRests(NoMatchStates[0], NoMatchOrders[0]);
  }

  lemma NoMatchStep1()
    ensures Place(NoMatchStates[1], NoMatchOrders[1]).after == NoMatchStates[2] && Place(NoMatchStates[1], NoMatchOrders[1]).trades == []
  {
    PlaceWithoutCrossRests(NoMatchStates[1], NoMatchOrders[1]);
  }

  lemma NoMatchStep2()
    ensures Place(NoMatchStates[2], NoMatchOrders[2]).after == NoMatchStates[3] && Place(NoMatchStates[2], NoMatchOrders[2]).trades == []
  {
    PlaceWithoutCrossRests(NoMatchStates[2], NoMatchOrders[2]);
  }

  lemma NoMatchStep3()
    ensures Place(NoMatchStates[3], NoMatchOrders[3]).after == NoMatchStates[4] && Place(NoMatchStates[3], NoMatchOrders[3]).trades == []
  {
    PlaceWithoutCrossRests(NoMatchStates[3], NoMatchOrders[3]);
  }

  /** An ask at 100 goes behind the earlier ask at 100 and ahead of the one at 105. */
  lemma NoMatchStep4()
    ensures Place(NoMatchStates[4], NoMatchOrders[4]).after == NoMatchStates[5] && Place(NoMatchStates[4], NoMatchOrders[4]).trades == []
  {
    var a3, a4, a5 := Resting(3, "10005", 105, 20000), Resting(4, "10001", 100, 500), Resting(5, "10002", 100, 10000);
    PlaceWithoutCrossRests(NoMatchStates[4], NoMatchOrders[4]);
    assert [a4, a3][1..] == [a3] && [a3][1..] == [];
    assert Insert(Sell, a5, [a3]) == [a5, a3];
    assert Insert(Sell, a5, [a4, a3]) == [a4, a5, a3];
  }

  lemma NoMatchStep5()
    ensures Place(NoMatchStates[5], NoMatchOrders[5]).after == NoMatchStates[6] && Place(NoMatchStates[5], NoMatchOrders[5]).trades == []
  {
    var a3, a4, a5, a6 := Resting(3, "10005", 105, 20000), Resting(4, "10001", 100, 500), Resting(5, "10002", 100, 10000), Resting(6, "10004", 103, 100);
    PlaceWithoutCrossRests(NoMatchStates[5], NoMatchOrders[5]);
    assert [a4, a5, a3][1..] == [a5, a3] && [a5, a3][1..] == [a3];
    assert Insert(Sell, a6, [a3]) == [a6, a3];
    assert Insert(Sell, a6, [a5, a3]) == [a5, a6, a3];
    assert Insert(Sell, a6, [a4, a5, a3]) == [a4, a5, a6, a3];
  }

  /** Every step of the session, as the lemmas above compute it: none trades. */
  lemma NoMatchStepsHold()
    ensures forall k :: 0 <= k < |NoMatchOrders| ==>
      Place(NoMatchStates[k], NoMatchOrders[k]).after == NoMatchStates[k + 1] && Place(NoMatchStates[k], NoMatchOrders[k]).trades == NoMatchSteps[k]
  {
    forall k | 0 <= k < |NoMatchOrders|
      ensures Place(NoMatchStates[k], NoMatchOrders[k]).after == NoMatchStates[k + 1]
      ensures Place(NoMatchStates[k], NoMatchOrders[k]).trades == NoMatchSteps[k]
    {
      if k == 0 { NoMatchStep0(); }
      else if k == 1 { NoMatchStep1(); }
      else if k == 2 { NoMatchStep2(); }
      else if k == 3 { NoMatchStep3(); }
      else if k == 4 { NoMatchStep4(); }
      else { NoMatchStep5(); }
    }
  }

  /** No step of the session trades. */
  const NoMatchSteps: seq<seq<Trade>> := [[], [], [], [], [], []]

  lemma NoMatchTradesJoined()
    ensures Concat(NoMatchSteps) == []
  {
    var e: seq<Trade> := [];
    assert [e][1..] == [] && Concat([e]) == [];
    assert [e, e][1..] == [e] && Concat([e, e]) == [];
    assert [e, e, e][1..] == [e, e] && Concat([e, e, e]) == [];
    assert [e, e, e, e][1..] == [e, e, e] && Concat([e, e, e, e]) == [];
    assert [e, e, e, e, e][1..] == [e, e, e, e] && Concat([e, e, e, e, e]) == [];
    assert [e, e, e, e, e, e][1..] == [e, e, e, e, e];
  }

  /** Bids at 98 and 99 never meet asks at 100 and above: no trade, both books fill in price-time order. */
  lemma NoMatchSession()
    ensures Replay(Empty, NoMatchOrders) == (NoMatchBooks, [])
  {
    NoMatchStepsHold();
    NoMatchTradesJoined();
    ReplayChain(NoMatchStates, NoMatchOrders, NoMatchSteps);
  }

  const BuyEventOrder := BuyOrder("10006", 105, 16000)

  const BuyEventTrades := [
    Trade(BuyOrder("10006", 105, 16000), SellOrder("10001", 100, 500)),
    Trade(BuyOrder("10006", 105, 15500), SellOrder("10002", 100, 10000)),
    Trade(BuyOrder("10006", 105, 5500), SellOrder("10004", 103, 100)),
    Trade(BuyOrder("10006", 105, 5400), SellOrder("10005", 105, 20000))]

  /** The books after the buy event: the bids untouched, 14600 left of the ask at 105. */
  const BuyEventBooks := Books(NoMatchBids, [Resting(3, "10005", 105, 14600)], 6)

  /**
   * A bid at 105 arriving after the no-match session sweeps the asks at 100,
   * 100, 103 and part of 105, in price-time order.
   */
  lemma BuyEventSweepsAsks()
    ensures Place(NoMatchBooks, BuyEventOrder) == Placement(BuyEventBooks, BuyEventTrades, None)
  {
    var o := BuyEventOrder;
    var b := NoMatchBooks.sell;
    var ts := BuyEventTrades;
    var left := [Resting(3, "10005", 105, 14600)];
    assert b[1..][1..] == b[2..] && b[2..][1..] == b[3..] && b[3..][1..] == [];
    assert Match(o, 5400, b[3..]) == Outcome(left, 0, ts[3..]);
    assert Match(o, 5500, b[2..]) == Outcome(left, 0, ts[2..]);
    assert Match(o, 15500, b[1..]) == Outcome(left, 0, ts[1..]);
    assert Match(o, 16000, b) == Outcome(left, 0, ts);
  }

  /** The buy event session: the no-match session, then a bid at 105 for 16000. */
  lemma BuyEventSession()
    ensures Replay(Empty, NoMatchOrders + [BuyEventOrder]) == (BuyEventBooks, BuyEventTrades)
  {
    assert Replay(Empty, NoMatchOrders) == (NoMatchBooks, []) by {
      NoMatchSession();
    }
    assert Replay(NoMatchBooks, [BuyEventOrder]) == (BuyEventBooks, BuyEventTrades) by {
      BuyEventSweepsAsks();
      ReplayOne(NoMatchBooks, BuyEventOrder);
    }
    ReplayAppend(Empty, NoMatchOrders, [BuyEventOrder]);
    assert [] + BuyEventTrades == BuyEventTrades;
  }

  // ---- testMatchAllEvents (ExchangeTest.kt:107-161) ----

  const MatchAllOrders := [
    BuyOrder("10000", 999999, 999999999),
    SellOrder("10005", 105, 20000),
    SellOrder("10001", 100, 500),
    SellOrder("10002", 100, 10000),
    BuyOrder("10003", 99, 50000),
    SellOrder("10004", 103, 100),
    BuyOrder("10006", 105, 16000),
    SellOrder("10007", 103, 999969399),
    SellOrder("10008", 106, 100),
    BuyOrder("10009", 110, 100),
    SellOrder("10010", 99, 66000)]

  /** The books after each order; the session ends with both books empty. */

  const MatchAllStates := [
    Empty,
    Books([Resting(1, "10000", 999999, 999999999)], [], 1),
    Books([Resting(1, "10000", 999999, 999979999)], [], 1),
    Books([Resting(1, "10000", 999999, 999979499)], [], 1),
    Books([Resting(1, "10000", 999999, 999969499)], [], 1),
    Books([Resting(1, "10000", 999999, 999969499), Resting(2, "10003", 99, 50000)], [], 2),
    Books([Resting(1, "10000", 999999, 999969399), Resting(2, "10003", 99, 50000)], [], 2),
    Books([Resting(1, "10000", 999999, 999969399), Resting(3, "10006", 105, 16000), Resting(2, "10003", 99, 50000)], [], 3),
    Books([Resting(3, "10006", 105, 16000), Resting(2, "10003", 99, 50000)], [], 3),
    Books([Resting(3, "10006", 105, 16000), Resting(2, "10003", 99, 50000)], [Resting(4, "10008", 106, 100)], 4),
    Books([Resting(3, "10006", 105, 16000), Resting(2, "10003", 99, 50000)], [], 4),
    Books([], [], 4)]

  const MatchAllTrades := [
    Trade(SellOrder("10005", 105, 20000), BuyOrder("10000", 999999, 999999999)),
    Trade(SellOrder("10001", 100, 500), BuyOrder("10000", 999999, 999979999)),
    Trade(SellOrder("10002", 100, 10000), BuyOrder("10000", 999999, 999979499)),
    Trade(SellOrder("10004", 103, 100), BuyOrder("10000", 999999, 999969499)),
    Trade(SellOrder("10007", 103, 999969399), BuyOrder("10000", 999999, 999969399)),
    Trade(BuyOrder("10009", 110, 100), SellOrder("10008", 106, 100)),
    Trade(SellOrder("10010", 99, 66000), BuyOrder("10006", 105, 16000)),
    Trade(SellOrder("10010", 99, 50000), BuyOrder("10003", 99, 50000))]

  /** The trades of each step of the session. */

  const MatchAllSteps: seq<seq<Trade>> := [
    [], [MatchAllTrades[0]], [MatchAllTrades[1]], [MatchAllTrades[2]], [], [MatchAllTrades[3]], [], [MatchAllTrades[4]], [], [MatchAllTrades[5]], [MatchAllTrades[6], MatchAllTrades[7]]]

  /** The first bid meets an empty engine and rests whole. */
  lemma MatchAllStep0()
    ensures Place(MatchAllStates[0], MatchAllOrders[0]).after == MatchAllStates[1]
    ensures Place(MatchAllStates[0], MatchAllOrders[0]).trades == MatchAllSteps[0]
  {
    PlaceWithoutCrossRests(MatchAllStates[0], MatchAllOrders[0]);
  }

  /** The ask at 105 meets the bid at 999999 and leaves it 999979999. */
  lemma MatchAllStep1()
    ensures Place(MatchAllStates[1], MatchAllOrders[1]).after == MatchAllStates[2]
    ensures Place(MatchAllStates[1], MatchAllOrders[1]).trades == MatchAllSteps[1]
  {
    assert Match(MatchAllOrders[1], 20000, MatchAllStates[1].buy) == Outcome([Resting(1, "10000", 999999, 999979999)], 0, MatchAllSteps[1]);
  }

  /** The ask at 100 for 500 lowers the bid to 999979499. */
  lemma MatchAllStep2()
    ensures Place(MatchAllStates[2], MatchAllOrders[2]).after == MatchAllStates[3]
    ensures Place(MatchAllStates[2], MatchAllOrders[2]).trades == MatchAllSteps[2]
  {
    assert Match(MatchAllOrders[2], 500, MatchAllStates[2].buy) == Outcome([Resting(1, "10000", 999999, 999979499)], 0, MatchAllSteps[2]);
  }

  /** The ask at 100 for 10000 lowers the bid to 999969499. */
  lemma MatchAllStep3()
    ensures Place(MatchAllStates[3], MatchAllOrders[3]).after == MatchAllStates[4]
    ensures Place(MatchAllStates[3], MatchAllOrders[3]).trades == MatchAllSteps[3]
  {
    assert Match(MatchAllOrders[3], 10000, MatchAllStates[3].buy) == Outcome([Resting(1, "10000", 999999, 999969499)], 0, MatchAllSteps[3]);
  }

  /** A bid at 99 meets an empty sell book and rests behind the bid at 999999. */
  lemma MatchAllStep4()
    ensures Place(MatchAllStates[4], MatchAllOrders[4]).after == MatchAllStates[5]
    ensures Place(MatchAllStates[4], MatchAllOrders[4]).trades == MatchAllSteps[4]
  {
    PlaceWithoutCrossRests(MatchAllStates[4], MatchAllOrders[4]);
  }

  /** The ask at 103 for 100 lowers the bid to 999969399. */
  lemma MatchAllStep5()
    ensures Place(MatchAllStates[5], MatchAllOrders[5]).after == MatchAllStates[6]
    ensures Place(MatchAllStates[5], MatchAllOrders[5]).trades == MatchAllSteps[5]
  {
    assert [Resting(1, "10000", 999999, 999969499), Resting(2, "10003", 99, 50000)][1..] == [Resting(2, "10003", 99, 50000)];
    assert Match(MatchAllOrders[5], 100, MatchAllStates[5].buy) == Outcome([Resting(1, "10000", 999999, 999969399), Resting(2, "10003", 99, 50000)], 0, MatchAllSteps[5]);
  }

  /** A bid at 105 rests between the bids at 999999 and 99. */
  lemma MatchAllStep6()
    ensures Place(MatchAllStates[6], MatchAllOrders[6]).after == MatchAllStates[7]
    ensures Place(MatchAllStates[6], MatchAllOrders[6]).trades == MatchAllSteps[6]
  {
    PlaceWithoutCrossRests(MatchAllStates[6], MatchAllOrders[6]);
    assert [Resting(1, "10000", 999999, 999969399), Resting(2, "10003", 99, 50000)][1..] == [Resting(2, "10003", 99, 50000)] && [Resting(2, "10003", 99, 50000)][1..] == [];
    assert Insert(Buy, Resting(3, "10006", 105, 16000), [Resting(2, "10003", 99, 50000)]) == [Resting(3, "10006", 105, 16000), Resting(2, "10003", 99, 50000)];
  }

  /** The ask at 103 for 999969399 fills the bid at 999999 exactly and removes it. */
  lemma MatchAllStep7()
    ensures Place(MatchAllStates[7], MatchAllOrders[7]).after == MatchAllStates[8]
    ensures Place(MatchAllStates[7], MatchAllOrders[7]).trades == MatchAllSteps[7]
  {
    assert [Resting(1, "10000", 999999, 999969399), Resting(3, "10006", 105, 16000), Resting(2, "10003", 99, 50000)][1..] == [Resting(3, "10006", 105, 16000), Resting(2, "10003", 99, 50000)];
    assert Match(MatchAllOrders[7], 999969399, MatchAllStates[7].buy) == Outcome([Resting(3, "10006", 105, 16000), Resting(2, "10003", 99, 50000)], 0, MatchAllSteps[7]);
  }

  /** The ask at 106 crosses no bid and rests. */
  lemma MatchAllStep8()
    ensures Place(MatchAllStates[8], MatchAllOrders[8]).after == MatchAllStates[9]
    ensures Place(MatchAllStates[8], MatchAllOrders[8]).trades == MatchAllSteps[8]
  {
    PlaceWithoutCrossRests(MatchAllStates[8], MatchAllOrders[8]);
  }

  /** The bid at 110 fills the ask at 106 exactly. */
  lemma MatchAllStep9()
    ensures Place(MatchAllStates[9], MatchAllOrders[9]).after == MatchAllStates[10]
    ensures Place(MatchAllStates[9], MatchAllOrders[9]).trades == MatchAllSteps[9]
  {
    assert [Resting(4, "10008", 106, 100)][1..] == [];
    assert Match(MatchAllOrders[9], 100, MatchAllStates[9].sell) == Outcome([], 0, MatchAllSteps[9]);
  }

  /** The ask at 99 for 66000 takes the bid at 105 whole and fills the bid at 99 exactly. */
  lemma MatchAllStep10()
    ensures Place(MatchAllStates[10], MatchAllOrders[10]).after == MatchAllStates[11]
    ensures Place(MatchAllStates[10], MatchAllOrders[10]).trades == MatchAllSteps[10]
  {
    assert [Resting(3, "10006", 105, 16000), Resting(2, "10003", 99, 50000)][1..] == [Resting(2, "10003", 99, 50000)] && [Resting(2, "10003", 99, 50000)][1..] == [];
    assert Match(MatchAllOrders[10], 50000, [Resting(2, "10003", 99, 50000)]) == Outcome([], 0, [MatchAllTrades[7]]);
    assert Match(MatchAllOrders[10], 66000, MatchAllStates[10].buy) == Outcome([], 0, MatchAllSteps[10]);
  }

  /** Every step of the session, as the lemmas above compute it. */
  lemma MatchAllStepsHold()
    ensures forall k :: 0 <= k < |MatchAllOrders| ==>
      Place(MatchAllStates[k], MatchAllOrders[k]).after == MatchAllStates[k + 1] && Place(MatchAllStates[k], MatchAllOrders[k]).trades == MatchAllSteps[k]
  {
    forall k | 0 <= k < |MatchAllOrders|
      ensures Place(MatchAllStates[k], MatchAllOrders[k]).after == MatchAllStates[k + 1]
      ensures Place(MatchAllStates[k], MatchAllOrders[k]).trades == MatchAllSteps[k]
    {
      if k == 0 { MatchAllStep0(); }
      else if k == 1 { MatchAllStep1(); }
      else if k == 2 { MatchAllStep2(); }
      else if k == 3 { MatchAllStep3(); }
      else if k == 4 { MatchAllStep4(); }
      else if k == 5 { MatchAllStep5(); }
      else if k == 6 { MatchAllStep6(); }
      else if k == 7 { MatchAllStep7(); }
      else if k == 8 { MatchAllStep8(); }
      else if k == 9 { MatchAllStep9(); }
      else { MatchAllStep10(); }
    }
  }

  /** How the trades of the session's first six steps line up, whatever the trades are. */
  lemma MatchAllFirstStepsLineUp(t0: Trade, t1: Trade, t2: Trade, t3: Trade)
    ensures var e: seq<Trade> := [];
      Concat([e, [t0], [t1], [t2], e, [t3]]) == [t0, t1, t2, t3]
  {
    var e: seq<Trade> := [];
    assert [[t3]][1..] == [] && Concat([[t3]]) == [t3] + [];
    assert [e, [t3]][1..] == [[t3]] && Concat([e, [t3]]) == [t3];
    assert [[t2], e, [t3]][1..] == [e, [t3]] && Concat([[t2], e, [t3]]) == [t2, t3];
    assert [[t1], [t2], e, [t3]][1..] == [[t2], e, [t3]] && Concat([[t1], [t2], e, [t3]]) == [t1, t2, t3];
    assert [[t0], [t1], [t2], e, [t3]][1..] == [[t1], [t2], e, [t3]] && Concat([[t0], [t1], [t2], e, [t3]]) == [t0, t1, t2, t3];
    assert [e, [t0], [t1], [t2], e, [t3]][1..] == [[t0], [t1], [t2], e, [t3]] && Concat([e, [t0], [t1], [t2], e, [t3]]) == [t0, t1, t2, t3];
  }

  /** How the trades of the session's last five steps line up, whatever the trades are. */
  lemma MatchAllLastStepsLineUp(t4: Trade, t5: Trade, t6: Trade, t7: Trade)
    ensures var e: seq<Trade> := [];
      Concat([e, [t4], e, [t5], [t6, t7]]) == [t4, t5, t6, t7]
  {
    var e: seq<Trade> := [];
    assert [[t6, t7]][1..] == [] && Concat([[t6, t7]]) == [t6, t7] + [];
    assert [[t5], [t6, t7]][1..] == [[t6, t7]] && Concat([[t5], [t6, t7]]) == [t5, t6, t7];
    assert [e, [t5], [t6, t7]][1..] == [[t5], [t6, t7]] && Concat([e, [t5], [t6, t7]]) == [t5, t6, t7];
    assert [[t4], e, [t5], [t6, t7]][1..] == [e, [t5], [t6, t7]] && Concat([[t4], e, [t5], [t6, t7]]) == [t4, t5, t6, t7];
    assert [e, [t4], e, [t5], [t6, t7]][1..] == [[t4], e, [t5], [t6, t7]] && Concat([e, [t4], e, [t5], [t6, t7]]) == [t4, t5, t6, t7];
  }

  /** How the trades of all steps line up, whatever the trades are. */
  lemma MatchAllStepsLineUp(t0: Trade, t1: Trade, t2: Trade, t3: Trade, t4: Trade, t5: Trade, t6: Trade, t7: Trade)
    ensures var e: seq<Trade> := [];
      Concat([e, [t0], [t1], [t2], e, [t3], e, [t4], e, [t5], [t6, t7]]) == [t0, t1, t2, t3, t4, t5, t6, t7]
  {
    var e: seq<Trade> := [];
    var first, last := [e, [t0], [t1], [t2], e, [t3]], [e, [t4], e, [t5], [t6, t7]];
    MatchAllFirstStepsLineUp(t0, t1, t2, t3);
    MatchAllLastStepsLineUp(t4, t5, t6, t7);
    ConcatAppend(first, last);
    assert first + last == [e, [t0], [t1], [t2], e, [t3], e, [t4], e, [t5], [t6, t7]];
  }

  lemma MatchAllTradesJoined()
    ensures Concat(MatchAllSteps) == MatchAllTrades
  {
    var ts := MatchAllTrades;
    MatchAllStepsLineUp(ts[0], ts[1], ts[2], ts[3], ts[4], ts[5], ts[6], ts[7]);
  }

  /**
   * The whole testMatchAllEvents session: the eight expected trades in order,
   * among them three exact fills of resting orders, and both books empty at
   * the end.
   */
  lemma MatchAllSession()
    ensures Replay(Empty, MatchAllOrders) == (Books([], [], 4), MatchAllTrades)
  {
    MatchAllStepsHold();
    MatchAllTradesJoined();
    ReplayChain(MatchAllStates, MatchAllOrders, MatchAllSteps);
  }
}
