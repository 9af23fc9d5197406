/**
 * The sweep of `placeBuyOrder` / `placeSellOrder` over the opposite book
 * (src/main/kotlin/Exchange.kt:21-51 and :76-103).
 *
 * Three points follow the behaviour the tests state rather than this
 * revision; module AsWritten keeps the text as written for comparison:
 *  - the match rule is `buy.limitPrice >= sell.limitPrice` (the skip
 *    tests at :24 and :79 are reversed);
 *  - a partial fill lowers the resting quantity by the aggressor's REMAINING
 *    quantity (as :89 does; :37 subtracts the original quantity);
 *  - a resting order removed during the scan is followed by a look at the
 *    entry that moved into its index (the for-in with `removeAt`
 *    would skip or fail).
 */
module Matching {
  import opened Orders
  import opened OrderBook

  /**
   * An aggressor of `side` at `aggressorPrice` may trade with a resting order
   * at `restingPrice`: a buy pays at least the ask, a sell accepts at most the bid.
   */
  predicate Crosses(side: Side, aggressorPrice: int, restingPrice: int) {
    match side
    case Buy => aggressorPrice >= restingPrice
    case Sell => aggressorPrice <= restingPrice
  }

  /**
   * What a sweep leaves: the opposite book, the aggressor's quantity still
   * unfilled (0 once it is fully filled) and the trades, in order.
   */
  datatype Outcome = Outcome(book: seq<Resting>, remaining: int, trades: seq<Trade>)

  /** The trade of one step: the aggressor at `remaining` against `x` as it stood. */
  function StepTrade(order: Order, remaining: int, x: Resting): Trade {
    Trade(order.(quantity := remaining), x.AsOrder(order.SideOf().Opposite()))
  }

  /**
   * The loop as it runs: every entry is examined front to back, a
   * non-crossing one is passed over (`continue`), a crossing one is traded
   * with by the three-way split of :27-50.
   */
  function Scan(order: Order, remaining: int, book: seq<Resting>): Outcome
    decreases |book|
  {
    if book == [] then Outcome([], remaining, [])
    else
      var x := book[0];
      if !Crosses(order.SideOf(), order.limitPrice, x.limitPrice) then
        var r := Scan(order, remaining, book[1..]);
        r.(book := [x] + r.book)
      else if remaining <= x.quantity then
        if remaining == x.quantity then Outcome(book[1..], 0, [StepTrade(order, remaining, x)])
        else Outcome([x.(quantity := x.quantity - remaining)] + book[1..], 0, [StepTrade(order, remaining, x)])
      else
        var r := Scan(order, remaining - x.quantity, book[1..]);
        r.(trades := [StepTrade(order, remaining, x)] + r.trades)
  }

  /**
   * The price-time rule the engine promises: trade with the best resting
   * order while it crosses, and stop at the first one that does not.
   */
  function Match(order: Order, remaining: int, book: seq<Resting>): Outcome
    decreases |book|
  {
    if book == [] || !Crosses(order.SideOf(), order.limitPrice, book[0].limitPrice) then
      Outcome(book, remaining, [])
    else
      var x := book[0];
      if remaining <= x.quantity then
        if remaining == x.quantity then Outcome(book[1..], 0, [StepTrade(order, remaining, x)])
        else Outcome([x.(quantity := x.quantity - remaining)] + book[1..], 0, [StepTrade(order, remaining, x)])
      else
        var r := Match(order, remaining - x.quantity, book[1..]);
        r.(trades := [StepTrade(order, remaining, x)] + r.trades)
  }

  /** The loop's result so far, given what the rest of the book yields. */
  function Joined(passed: seq<Resting>, done: seq<Trade>, r: Outcome): Outcome {
    Outcome(passed + r.book, r.remaining, done + r.trades)
  }

  /** Passing over an entry that does not cross moves it to the passed part. */
  lemma PassStep(order: Order, remaining: int, rest: seq<Resting>, index: int, done: seq<Trade>)
    requires 0 <= index < |rest| && !Crosses(order.SideOf(), order.limitPrice, rest[index].limitPrice)
    ensures Joined(rest[..index + 1], done, Scan(order, remaining, rest[index + 1..])) ==
            Joined(rest[..index], done, Scan(order, remaining, rest[index..]))
  {
    assert rest[index..][1..] == rest[index + 1..];
    assert rest[..index + 1] == rest[..index] + [rest[index]];
  }

  /** Trading an entry whole removes it; the entry behind it moves into its index. */
  lemma TakeStep(order: Order, remaining: int, rest: seq<Resting>, index: int, done: seq<Trade>)
    requires 0 <= index < |rest| && Crosses(order.SideOf(), order.limitPrice, rest[index].limitPrice)
    requires remaining > rest[index].quantity
    ensures var after := rest[..index] + rest[index + 1..];
      Joined(after[..index], done + [StepTrade(order, remaining, rest[index])],
        Scan(order, remaining - rest[index].quantity, after[index..])) ==
      Joined(rest[..index], done, Scan(order, remaining, rest[index..]))
  {
    var after := rest[..index] + rest[index + 1..];
    assert rest[index..][1..] == rest[index + 1..];
    assert after[..index] == rest[..index] && after[index..] == rest[index + 1..];
  }

  /** A fill that uses up the aggressor ends the scan, removing or reducing the entry. */
  lemma FillStep(order: Order, remaining: int, rest: seq<Resting>, index: int, done: seq<Trade>)
    requires 0 <= index < |rest| && Crosses(order.SideOf(), order.limitPrice, rest[index].limitPrice)
    requires remaining <= rest[index].quantity
    ensures var x := rest[index];
      var after := if remaining == x.quantity then rest[..index] + rest[index + 1..]
                   else rest[index := x.(quantity := x.quantity - remaining)];
      Outcome(after, 0, done + [StepTrade(order, remaining, x)]) ==
      Joined(rest[..index], done, Scan(order, remaining, rest[index..]))
  {
    var x := rest[index];
    assert rest[index..][1..] == rest[index + 1..];
    assert rest[index := x.(quantity := x.quantity - remaining)]
        == rest[..index] + [x.(quantity := x.quantity - remaining)] + rest[index + 1..];
  }

  /**
   * The for-loop of :23-51 (buy) and :77-103 (sell) on a copy of the
   * opposite book. `return` inside the loop becomes a remaining quantity of 0,
   * which tells the caller that nothing rests.
   */
  method Sweep(order: Order, book: seq<Resting>) returns (rest: seq<Resting>, remaining: int, trades: seq<Trade>)
    ensures Outcome(rest, remaining, trades) == Scan(order, order.quantity, book)
  {
    rest, remaining, trades := book, order.quantity, [];
    var index := 0;
    assert rest[..0] == [] && rest[0..] == book;
    while index < |rest|
      invariant 0 <= index <= |rest|
      invariant Joined(rest[..index], trades, Scan(order, remaining, rest[index..])) == Scan(order, order.quantity, book)
      decreases |rest| - index
    {
      var x := rest[index];
      if !Crosses(order.SideOf(), order.limitPrice, x.limitPrice) {
        PassStep(order, remaining, rest, index, trades);
        index := index + 1;
        continue;
      }
      var trade := StepTrade(order, remaining, x);
      if remaining <= x.quantity {
        FillStep(order, remaining, rest, index, trades);
        if remaining == x.quantity {
          rest := rest[..index] + rest[index + 1..];
        } else {
          rest := rest[index := x.(quantity := x.quantity - remaining)];
        }
        remaining, trades := 0, trades + [trade];
        return;
      }
      TakeStep(order, remaining, rest, index, trades);
      remaining, trades := remaining - x.quantity, trades + [trade];
      rest := rest[..index] + rest[index + 1..];
    }
    assert rest[..index] == rest && rest[index..] == [];
  }

  /** On a sorted book, once one entry does not cross, no later one does. */
  lemma NothingCrossesBeyond(order: Order, book: seq<Resting>, i: int)
    requires Sorted(order.SideOf().Opposite(), book)
    requires 0 <= i < |book| && !Crosses(order.SideOf(), order.limitPrice, book[0].limitPrice)
    ensures !Crosses(order.SideOf(), order.limitPrice, book[i].limitPrice)
  {
    if i > 0 {
      assert !Before(order.SideOf().Opposite(), book[i], book[0]);
    }
  }

  /** A scan over entries none of which cross changes nothing. */
  lemma {:induction false} ScanPassesOver(order: Order, remaining: int, book: seq<Resting>)
    requires forall i :: 0 <= i < |book| ==> !Crosses(order.SideOf(), order.limitPrice, book[i].limitPrice)
    ensures Scan(order, remaining, book) == Outcome(book, remaining, [])
  {
    if book != [] {
      ScanPassesOver(order, remaining, book[1..]);
      assert [book[0]] + book[1..] == book;
    }
  }

  /**
   * On a sorted book the `continue` scan is the same as stopping at the
   * first entry that does not cross.
   */
  lemma {:induction false} ScanIsBestFirst(order: Order, remaining: int, book: seq<Resting>)
    requires Sorted(order.SideOf().Opposite(), book)
    ensures Scan(order, remaining, book) == Match(order, remaining, book)
    decreases |book|
  {
    if book == [] {
    } else if !Crosses(order.SideOf(), order.limitPrice, book[0].limitPrice) {
      forall i | 0 <= i < |book| ensures !Crosses(order.SideOf(), order.limitPrice, book[i].limitPrice) {
        NothingCrossesBeyond(order, book, i);
      }
      ScanPassesOver(order, remaining, book);
    } else if remaining > book[0].quantity {
      ScanIsBestFirst(order, remaining - book[0].quantity, book[1..]);
    }
  }

  /** What the aggressor brought is what it traded plus what it kept. */
  lemma {:induction false} MatchConservesQuantity(order: Order, remaining: int, book: seq<Resting>)
    ensures var r := Match(order, remaining, book);
      remaining == Volume(r.trades) + r.remaining
    decreases |book|
  {
    if book != [] && Crosses(order.SideOf(), order.limitPrice, book[0].limitPrice) && remaining > book[0].quantity {
      MatchConservesQuantity(order, remaining - book[0].quantity, book[1..]);
    }
  }

  /**
   * Price-time priority: the i-th trade is with the i-th best resting order,
   * which crosses; the aggressor leg carries the quantity left before that
   * step, and every step but the last consumed its resting order whole.
   */
  lemma {:induction false} MatchTradesInBookOrder(order: Order, remaining: int, book: seq<Resting>)
    ensures var r := Match(order, remaining, book);
      |r.trades| <= |book| &&
      (forall i :: 0 <= i < |r.trades| ==>
        r.trades[i].resting == book[i].AsOrder(order.SideOf().Opposite()) &&
        Crosses(order.SideOf(), order.limitPrice, book[i].limitPrice) &&
        r.trades[i].aggressor == order.(quantity := r.trades[i].aggressor.quantity)) &&
      (r.trades != [] ==> r.trades[0].aggressor.quantity == remaining) &&
      (forall i :: 0 <= i < |r.trades| - 1 ==>
        r.trades[i].aggressor.quantity > r.trades[i].resting.quantity &&
        r.trades[i + 1].aggressor.quantity == r.trades[i].aggressor.quantity - r.trades[i].resting.quantity)
    decreases |book|
  {
    if book != [] && Crosses(order.SideOf(), order.limitPrice, book[0].limitPrice) && remaining > book[0].quantity {
      MatchTradesInBookOrder(order, remaining - book[0].quantity, book[1..]);
      var r := Match(order, remaining - book[0].quantity, book[1..]);
      var t := StepTrade(order, remaining, book[0]);
      forall i | 0 <= i < |r.trades| + 1
        ensures ([t] + r.trades)[i].resting == book[i].AsOrder(order.SideOf().Opposite())
      {
        if i > 0 {
          assert ([t] + r.trades)[i] == r.trades[i - 1];
        }
      }
    }
  }

  /**
   * How a sweep ends. With quantity left over, the consumed resting orders
   * are gone and the new best one does not cross. Fully filled, the last
   * resting order is removed on an exact fill or keeps its id, price and
   * priority and loses the aggressor's remaining quantity.
   */
  lemma {:induction false} MatchRemainder(order: Order, remaining: int, book: seq<Resting>)
    requires remaining > 0 && Positive(book)
    ensures var r := Match(order, remaining, book);
      var n := |r.trades|;
      n <= |book| && 0 <= r.remaining <= remaining &&
      (r.remaining > 0 ==>
        r.book == book[n..] &&
        (r.book == [] || !Crosses(order.SideOf(), order.limitPrice, r.book[0].limitPrice))) &&
      (r.remaining == 0 ==>
        n > 0 &&
        r.trades[n - 1].aggressor.quantity <= book[n - 1].quantity &&
        r.book == if r.trades[n - 1].aggressor.quantity == book[n - 1].quantity then book[n..]
                  else [book[n - 1].(quantity := book[n - 1].quantity - r.trades[n - 1].aggressor.quantity)] + book[n..])
  {
    if book != [] && Crosses(order.SideOf(), order.limitPrice, book[0].limitPrice) && remaining > book[0].quantity {
      MatchRemainder(order, remaining - book[0].quantity, book[1..]);
      var r := Match(order, remaining - book[0].quantity, book[1..]);
      var n := |r.trades|;
      assert book[1..][n..] == book[n + 1..];
      if n > 0 {
        assert book[1..][n - 1] == book[n];
      }
    }
  }

  /**
   * `after` is the tail of `before`, except that its head may have lost
   * quantity: ids, prices and priorities are unchanged and quantities stay
   * positive.
   */
  predicate KeptSuffix(after: seq<Resting>, before: seq<Resting>) {
    |after| <= |before| &&
    (forall i :: 0 < i < |after| ==> after[i] == before[|before| - |after| + i]) &&
    (forall i :: 0 <= i < |after| ==>
      SameKey(after[i], before[|before| - |after| + i]) &&
      0 < after[i].quantity <= before[|before| - |after| + i].quantity)
  }

  lemma KeptSuffixOfTail(after: seq<Resting>, before: seq<Resting>)
    requires before != [] && KeptSuffix(after, before[1..])
    ensures KeptSuffix(after, before)
  {
    forall i | 0 <= i < |after| ensures after[i].quantity <= before[|before| - |after| + i].quantity {
      assert before[1..][|before| - 1 - |after| + i] == before[|before| - |after| + i];
    }
  }

  /**
   * A sweep alters only a prefix of the opposite book: what it leaves is a
   * suffix of the old book whose head may have lost quantity.
   */
  lemma {:induction false} MatchLeavesSuffix(order: Order, remaining: int, book: seq<Resting>)
    requires remaining > 0 && Positive(book)
    ensures KeptSuffix(Match(order, remaining, book).book, book)
    decreases |book|
  {
    if book == [] || !Crosses(order.SideOf(), order.limitPrice, book[0].limitPrice) {
    } else if remaining < book[0].quantity {
      var x := book[0];
      var r := [x.(quantity := x.quantity - remaining)] + book[1..];
      assert Match(order, remaining, book).book == r;
      forall i | 0 < i < |r| ensures r[i] == book[i] {
        assert r[i] == book[1..][i - 1];
      }
    } else if remaining == book[0].quantity {
      assert Match(order, remaining, book).book == book[1..];
      KeptSuffixOfTail(book[1..], book);
    } else {
      MatchLeavesSuffix(order, remaining - book[0].quantity, book[1..]);
      KeptSuffixOfTail(Match(order, remaining - book[0].quantity, book[1..]).book, book);
    }
  }

  /** A kept suffix of a sorted book is sorted. */
  lemma KeptSuffixSorted(side: Side, after: seq<Resting>, before: seq<Resting>)
    requires Sorted(side, before) && KeptSuffix(after, before)
    ensures Sorted(side, after)
  {
    var j := |before| - |after|;
    forall i, k | 0 <= i < k < |after| ensures !Before(side, after[k], after[i]) {
      assert !Before(side, before[j + k], before[j + i]);
    }
  }

  /** A kept suffix holds no priority the old book did not. */
  lemma KeptSuffixPrios(after: seq<Resting>, before: seq<Resting>)
    requires KeptSuffix(after, before)
    ensures multiset(Prios(after)) <= multiset(Prios(before))
  {
    var j := |before| - |after|;
    assert Prios(after) == Prios(before)[j..];
    assert Prios(before) == Prios(before)[..j] + Prios(before)[j..];
  }
}
