/**
 * The matching engine of src/main/kotlin/Exchange.kt: its state, one
 * placement as a state transition, the invariants every placement keeps, and
 * the class whose methods update that state in place.
 */
module Exchange {
  import opened Wrappers
  import opened Orders
  import opened OrderBook
  import opened Matching

  /** The engine's state: both books and the shared priority counter (:10-13). */
  datatype Books = Books(buy: seq<Resting>, sell: seq<Resting>, counter: int) {
    function Book(side: Side): seq<Resting> {
      if side == Buy then buy else sell
    }

    function WithBook(side: Side, b: seq<Resting>): Books {
      if side == Buy then this.(buy := b) else this.(sell := b)
    }
  }

  /** A resting order within the input bounds, carrying an issued priority. */
  predicate WellFormed(r: Resting, counter: int) {
    0 < r.limitPrice <= MaxPrice && 0 < r.quantity <= MaxQuantity && 0 < r.priority <= counter
  }

  predicate AllWellFormed(b: seq<Resting>, counter: int) {
    forall i :: 0 <= i < |b| ==> WellFormed(b[i], counter)
  }

  /** No priority occurs twice among all resting orders of both books. */
  ghost predicate UniquePriorities(buy: seq<Resting>, sell: seq<Resting>) {
    forall p :: (multiset(Prios(buy)) + multiset(Prios(sell)))[p] <= 1
  }

  /** The best bid is below the best ask, or a book is empty. */
  predicate NoCross(buy: seq<Resting>, sell: seq<Resting>) {
    buy == [] || sell == [] || buy[0].limitPrice < sell[0].limitPrice
  }

  /** What holds between any two placements. */
  ghost predicate BooksValid(s: Books) {
    0 <= s.counter &&
    Sorted(Buy, s.buy) && Sorted(Sell, s.sell) &&
    AllWellFormed(s.buy, s.counter) && AllWellFormed(s.sell, s.counter) &&
    UniquePriorities(s.buy, s.sell) &&
    NoCross(s.buy, s.sell)
  }

  /** The state after one placement, its trades, and the order it rested, if any. */
  datatype Placement = Placement(after: Books, trades: seq<Trade>, rested: Option<Resting>)

  /**
   * One `placeBuyOrder` / `placeSellOrder`: sweep the opposite book, then
   * give any remainder the next priority and add-then-sort it into the
   * order's own book (:15-58, :70-111). Against an empty opposite book the
   * order rests whole whatever its quantity: the early return of :16-20 and
   * :71-75 does not look at it.
   */
  function Place(s: Books, order: Order): Placement {
    var side := order.SideOf();
    var m := Match(order, order.quantity, s.Book(side.Opposite()));
    var swept := s.WithBook(side.Opposite(), m.book);
    if m.remaining > 0 || s.Book(side.Opposite()) == [] then
      var x := Resting(s.counter + 1, order.id, order.limitPrice, m.remaining);
      Placement(swept.WithBook(side, SortBook(side, s.Book(side) + [x])).(counter := s.counter + 1), m.trades, Some(x))
    else
      Placement(swept, m.trades, None)
  }

  /** Place for a bid, once the sweep of the sell book is known. */
  lemma PlaceBuyCases(s: Books, order: Order, book: seq<Resting>, remaining: int, trades: seq<Trade>)
    requires order.BuyOrder? && Outcome(book, remaining, trades) == Match(order, order.quantity, s.sell)
    ensures var x := Resting(s.counter + 1, order.id, order.limitPrice, remaining);
      (remaining > 0 || s.sell == []) ==> Place(s, order) == Placement(Books(SortBook(Buy, s.buy + [x]), book, s.counter + 1), trades, Some(x))
    ensures (remaining == 0 && s.sell != []) ==> Place(s, order) == Placement(Books(s.buy, book, s.counter), trades, None)
  {
    assert order.SideOf() == Buy;
  }

  /** Place for an ask, once the sweep of the buy book is known. */
  lemma PlaceSellCases(s: Books, order: Order, book: seq<Resting>, remaining: int, trades: seq<Trade>)
    requires order.SellOrder? && Outcome(book, remaining, trades) == Match(order, order.quantity, s.buy)
    ensures var x := Resting(s.counter + 1, order.id, order.limitPrice, remaining);
      (remaining > 0 || s.buy == []) ==> Place(s, order) == Placement(Books(book, SortBook(Sell, s.sell + [x]), s.counter + 1), trades, Some(x))
    ensures (remaining == 0 && s.buy != []) ==> Place(s, order) == Placement(Books(book, s.sell, s.counter), trades, None)
  {
    assert order.SideOf() == Sell;
  }

  /** Quantity is conserved: traded plus rested is what the order brought. */
  lemma PlaceConservesQuantity(s: Books, order: Order)
    requires BooksValid(s) && order.Valid()
    ensures var p := Place(s, order);
      order.quantity == Volume(p.trades) + (if p.rested.Some? then p.rested.value.quantity else 0)
  {
    MatchConservesQuantity(order, order.quantity, s.Book(order.SideOf().Opposite()));
    MatchRemainder(order, order.quantity, s.Book(order.SideOf().Opposite()));
  }

  /**
   * The counter moves once for each order that rests and never for a fully
   * filled one; the rested remainder gets the new value, which is above every
   * priority already resting, and sits in the order's own book.
   */
  lemma PlaceSequencesPriority(s: Books, order: Order)
    requires BooksValid(s) && order.Valid()
    ensures var p := Place(s, order);
      p.after.counter == s.counter + (if p.rested.Some? then 1 else 0) &&
      (p.rested.Some? <==> Volume(p.trades) < order.quantity) &&
      (p.rested.Some? ==>
        p.rested.value == Resting(p.after.counter, order.id, order.limitPrice, order.quantity - Volume(p.trades)) &&
        p.rested.value in p.after.Book(order.SideOf()) &&
        (forall r :: r in s.buy + s.sell ==> r.priority < p.rested.value.priority))
  {
    var side := order.SideOf();
    var book := s.Book(side.Opposite());
    var m := Match(order, order.quantity, book);
    MatchConservesQuantity(order, order.quantity, book);
    var p := Place(s, order);
    assert p.trades == m.trades;
    if m.remaining > 0 {
      var x := Resting(s.counter + 1, order.id, order.limitPrice, m.remaining);
      assert p.rested == Some(x) && p.after.counter == s.counter + 1;
      assert p.after.Book(side) == Insert(side, x, s.Book(side)) by {
        AddThenSortIsInsert(side, x, s.Book(side));
      }
      InsertMembers(side, x, s.Book(side));
      forall r | r in s.buy + s.sell
        ensures r.priority < x.priority
      {
        assert r in s.buy || r in s.sell;
      }
    } else {
      assert Positive(book);
      MatchRemainder(order, order.quantity, book);
      assert p.rested == None;
    }
  }

  /**
   * With the opposite book empty the order rests whole, whatever its
   * quantity, with one fresh priority, and trades nothing: the early return of :16-20 and :71-75 is the
   * general path with no step of the sweep.
   */
  lemma PlaceOnEmptyOppositeRests(s: Books, order: Order)
    requires Sorted(order.SideOf(), s.Book(order.SideOf()))
    requires s.Book(order.SideOf().Opposite()) == []
    ensures var p := Place(s, order);
      p.trades == [] &&
      p.rested == Some(Resting(s.counter + 1, order.id, order.limitPrice, order.quantity)) &&
      p.after.Book(order.SideOf()) == Insert(order.SideOf(), p.rested.value, s.Book(order.SideOf())) &&
      p.after.Book(order.SideOf().Opposite()) == [] &&
      p.after.counter == s.counter + 1
  {
    AddThenSortIsInsert(order.SideOf(), Resting(s.counter + 1, order.id, order.limitPrice, order.quantity), s.Book(order.SideOf()));
  }

  /**
   * An order that does not cross the best opposite price trades nothing and
   * rests whole at its sorted place with the next priority.
   */
  lemma PlaceWithoutCrossRests(s: Books, order: Order)
    requires Sorted(order.SideOf(), s.Book(order.SideOf())) && order.quantity > 0
    requires var opp := s.Book(order.SideOf().Opposite());
      opp == [] || !Crosses(order.SideOf(), order.limitPrice, opp[0].limitPrice)
    ensures var p := Place(s, order);
      var x := Resting(s.counter + 1, order.id, order.limitPrice, order.quantity);
      p.trades == [] && p.rested == Some(x) &&
      p.after == s.WithBook(order.SideOf(), Insert(order.SideOf(), x, s.Book(order.SideOf()))).(counter := s.counter + 1)
  {
    AddThenSortIsInsert(order.SideOf(), Resting(s.counter + 1, order.id, order.limitPrice, order.quantity), s.Book(order.SideOf()));
  }

  /**
   * A placement alters only a prefix of the opposite book and inserts at most
   * one order, in sorted position, into its own book.
   */
  lemma PlaceAltersPrefixAndOneInsertion(s: Books, order: Order)
    requires BooksValid(s) && order.Valid()
    ensures var p := Place(s, order);
      KeptSuffix(p.after.Book(order.SideOf().Opposite()), s.Book(order.SideOf().Opposite())) &&
      p.after.Book(order.SideOf()) == if p.rested.Some? then Insert(order.SideOf(), p.rested.value, s.Book(order.SideOf()))
                                       else s.Book(order.SideOf())
  {
    var side := order.SideOf();
    MatchLeavesSuffix(order, order.quantity, s.Book(side.Opposite()));
    var p := Place(s, order);
    if p.rested.Some? {
      AddThenSortIsInsert(side, p.rested.value, s.Book(side));
    }
  }

  /** In a book with unique priorities, two entries never share one. */
  lemma DistinctEntries(b: seq<Resting>, ms: multiset<int>, i: int, k: int)
    requires forall p :: (multiset(Prios(b)) + ms)[p] <= 1
    requires 0 <= i < k < |b|
    ensures b[i].priority != b[k].priority
  {
    var ps := Prios(b);
    assert ps == ps[..i] + [ps[i]] + ps[i + 1..k] + [ps[k]] + ps[k + 1..];
    assert multiset(ps) == multiset(ps[..i]) + multiset{ps[i]} + multiset(ps[i + 1..k]) + multiset{ps[k]} + multiset(ps[k + 1..]);
    assert (multiset(ps) + ms)[ps[i]] <= 1;
  }

  /**
   * Price-time priority: the trades of one placement are with the opposite
   * book's entries in book order, so each trade's price is at least as good
   * for the aggressor as every later one's, and at equal price the earlier
   * arrival trades first.
   */
  lemma PlaceTradesBestFirst(s: Books, order: Order)
    requires BooksValid(s) && order.Valid()
    ensures var p := Place(s, order);
      var book := s.Book(order.SideOf().Opposite());
      |p.trades| <= |book| &&
      (forall i :: 0 <= i < |p.trades| ==>
        p.trades[i].resting == book[i].AsOrder(order.SideOf().Opposite()) &&
        p.trades[i].Price() == book[i].limitPrice) &&
      (forall i, k :: 0 <= i < k < |p.trades| ==>
        (order.BuyOrder? ==> p.trades[i].Price() <= p.trades[k].Price()) &&
        (order.SellOrder? ==> p.trades[i].Price() >= p.trades[k].Price()) &&
        (p.trades[i].Price() == p.trades[k].Price() ==> book[i].priority < book[k].priority))
  {
    var opp := order.SideOf().Opposite();
    var book := s.Book(opp);
    MatchTradesInBookOrder(order, order.quantity, book);
    var p := Place(s, order);
    forall i, k | 0 <= i < k < |p.trades| ensures book[i].priority != book[k].priority {
      if order.BuyOrder? {
        assert multiset(Prios(s.buy)) + multiset(Prios(s.sell)) == multiset(Prios(s.sell)) + multiset(Prios(s.buy));
        DistinctEntries(book, multiset(Prios(s.buy)), i, k);
      } else {
        DistinctEntries(book, multiset(Prios(s.sell)), i, k);
      }
    }
  }

  /** The opposite book after the sweep keeps the invariants, with no new priority. */
  lemma SweptBookValid(s: Books, order: Order)
    requires BooksValid(s) && order.Valid()
    ensures var opp := order.SideOf().Opposite();
      var book := s.Book(opp);
      var after := Match(order, order.quantity, book).book;
      |after| <= |book| &&
      Sorted(opp, after) && AllWellFormed(after, s.counter) &&
      multiset(Prios(after)) <= multiset(Prios(book)) &&
      (after != [] ==> after[0].limitPrice == book[|book| - |after|].limitPrice)
  {
    var opp := order.SideOf().Opposite();
    var book := s.Book(opp);
    var after := Match(order, order.quantity, book).book;
    MatchLeavesSuffix(order, order.quantity, book);
    KeptSuffixSorted(opp, after, book);
    KeptSuffixPrios(after, book);
  }

  /** Every placement keeps sortedness, bounds, unique priorities and no-cross. */
  lemma PlacePreservesValidity(s: Books, order: Order)
    requires BooksValid(s) && order.Valid()
    ensures BooksValid(Place(s, order).after)
  {
    var t := Place(s, order).after;
    var side := order.SideOf();
    PlaceKeepsBooksOrdered(s, order);
    PlaceKeepsPrioritiesUnique(s, order);
    NoCrossAfter(s, order);
    ValidFromSides(t, side);
  }

  /** Both books stay sorted and well formed; the counter never goes down. */
  lemma PlaceKeepsBooksOrdered(s: Books, order: Order)
    requires BooksValid(s) && order.Valid()
    ensures var t := Place(s, order).after;
      s.counter <= t.counter &&
      Sorted(order.SideOf(), t.Book(order.SideOf())) && AllWellFormed(t.Book(order.SideOf()), t.counter) &&
      Sorted(order.SideOf().Opposite(), t.Book(order.SideOf().Opposite())) &&
      AllWellFormed(t.Book(order.SideOf().Opposite()), t.counter)
  {
    var side := order.SideOf();
    var own := s.Book(side);
    var book := s.Book(side.Opposite());
    var m := Match(order, order.quantity, book);
    var p := Place(s, order);
    var t := p.after;
    SweptBookValid(s, order);
    MatchRemainder(order, order.quantity, book);
    if m.remaining > 0 {
      var x := p.rested.value;
      assert t.Book(side) == SortBook(side, own + [x]) && t.Book(side.Opposite()) == m.book;
      OwnBookAfterRest(side, x, own, s.counter);
      WellFormedLater(m.book, s.counter);
    } else {
      assert t.Book(side) == own && t.Book(side.Opposite()) == m.book && t.counter == s.counter;
    }
  }

  /** No priority is ever shared: a rested order's one is new. */
  lemma PlaceKeepsPrioritiesUnique(s: Books, order: Order)
    requires BooksValid(s) && order.Valid()
    ensures var t := Place(s, order).after; UniquePriorities(t.buy, t.sell)
  {
    var side := order.SideOf();
    var own := s.Book(side);
    var book := s.Book(side.Opposite());
    var m := Match(order, order.quantity, book);
    var p := Place(s, order);
    var t := p.after;
    assert multiset(Prios(m.book)) <= multiset(Prios(book)) by {
      SweptBookValid(s, order);
    }
    assert 0 <= m.remaining <= order.quantity by {
      MatchRemainder(order, order.quantity, book);
    }
    if m.remaining > 0 {
      var x := p.rested.value;
      assert t.Book(side) == SortBook(side, own + [x]) && t.Book(side.Opposite()) == m.book;
      assert multiset(Prios(t.Book(side))) == multiset(Prios(own)) + multiset{x.priority} by {
        OwnBookAfterRest(side, x, own, s.counter);
      }
      assert x.priority == s.counter + 1;
      FreshPriority(own, s.counter);
      FreshPriority(book, s.counter);
      assert multiset(Prios(own)) + multiset(Prios(book)) == multiset(Prios(s.buy)) + multiset(Prios(s.sell));
      UniqueAfter(s, t, side, multiset{x.priority});
    } else {
      assert t.Book(side) == own && t.Book(side.Opposite()) == m.book;
      UniqueAfter(s, t, side, multiset{});
    }
  }

  /** The next value of the counter is not yet anyone's priority. */
  lemma FreshPriority(b: seq<Resting>, counter: int)
    requires AllWellFormed(b, counter)
    ensures multiset(Prios(b))[counter + 1] == 0
  {
    assert counter + 1 !in Prios(b);
  }

  lemma WellFormedLater(b: seq<Resting>, counter: int)
    requires AllWellFormed(b, counter)
    ensures AllWellFormed(b, counter + 1)
  {
  }

  /** BooksValid, stated by the side an order is on and its opposite. */
  lemma ValidFromSides(t: Books, side: Side)
    requires 0 <= t.counter
    requires Sorted(side, t.Book(side)) && AllWellFormed(t.Book(side), t.counter)
    requires Sorted(side.Opposite(), t.Book(side.Opposite())) && AllWellFormed(t.Book(side.Opposite()), t.counter)
    requires UniquePriorities(t.buy, t.sell) && NoCross(t.buy, t.sell)
    ensures BooksValid(t)
  {
  }

  /** Inserting a well-formed order keeps a book well formed. */
  lemma {:induction false} InsertWellFormed(side: Side, x: Resting, b: seq<Resting>, counter: int)
    requires AllWellFormed(b, counter) && WellFormed(x, counter)
    ensures AllWellFormed(Insert(side, x, b), counter)
  {
    if b != [] && !Before(side, x, b[0]) {
      InsertWellFormed(side, x, b[1..], counter);
    }
  }

  /** Resting a fresh order keeps its own book sorted and well formed. */
  lemma OwnBookAfterRest(side: Side, x: Resting, own: seq<Resting>, counter: int)
    requires 0 <= counter && Sorted(side, own) && AllWellFormed(own, counter)
    requires 0 < x.limitPrice <= MaxPrice && 0 < x.quantity <= MaxQuantity && x.priority == counter + 1
    ensures SortBook(side, own + [x]) == Insert(side, x, own)
    ensures Sorted(side, Insert(side, x, own)) && AllWellFormed(Insert(side, x, own), counter + 1)
    ensures multiset(Prios(Insert(side, x, own))) == multiset(Prios(own)) + multiset{x.priority}
  {
    AddThenSortIsInsert(side, x, own);
    InsertSorted(side, x, own);
    InsertPrios(side, x, own);
    WellFormedLater(own, counter);
    InsertWellFormed(side, x, own, counter + 1);
  }

  lemma UniqueAfter(s: Books, t: Books, side: Side, extra: multiset<int>)
    requires UniquePriorities(s.buy, s.sell)
    requires multiset(Prios(t.Book(side.Opposite()))) <= multiset(Prios(s.Book(side.Opposite())))
    requires multiset(Prios(t.Book(side))) == multiset(Prios(s.Book(side))) + extra
    requires forall q :: q in extra ==> extra[q] == 1 && (multiset(Prios(s.buy)) + multiset(Prios(s.sell)))[q] == 0
    ensures UniquePriorities(t.buy, t.sell)
  {
    var before := multiset(Prios(s.buy)) + multiset(Prios(s.sell));
    var after := multiset(Prios(t.buy)) + multiset(Prios(t.sell));
    assert after <= before + extra;
    forall q ensures after[q] <= 1 {
      if q in extra {
        assert before[q] == 0;
      }
    }
  }

  /** After a placement the best bid is still below the best ask. */
  lemma NoCrossAfter(s: Books, order: Order)
    requires BooksValid(s) && order.Valid()
    ensures var t := Place(s, order).after; NoCross(t.buy, t.sell)
  {
    var side := order.SideOf();
    var own := s.Book(side);
    var book := s.Book(side.Opposite());
    var m := Match(order, order.quantity, book);
    var p := Place(s, order);
    var j := |book| - |m.book|;
    assert m.book != [] ==> 0 <= j < |book| && m.book[0].limitPrice == book[j].limitPrice by {
      SweptBookValid(s, order);
    }
    assert m.remaining > 0 ==> m.book == [] || !Crosses(side, order.limitPrice, m.book[0].limitPrice) by {
      MatchRemainder(order, order.quantity, book);
    }
    if m.book != [] {
      assert !Before(side.Opposite(), book[j], book[0]);
    }
    var t := p.after;
    if m.remaining > 0 {
      var x := p.rested.value;
      assert t.Book(side) == SortBook(side, own + [x]) && t.Book(side.Opposite()) == m.book;
      AddThenSortIsInsert(side, x, own);
      InsertHead(side, x, own);
    } else {
      assert t.Book(side) == own && t.Book(side.Opposite()) == m.book;
    }
  }

  /**
   * `class Exchange` (:9-150): the two books and the priority counter are
   * fields that its methods update in place.
   */
  class Exchange {
    var buyBook: seq<Resting>
    var sellBook: seq<Resting>
    var priority: int

    function State(): Books
      reads this
    {
      Books(buyBook, sellBook, priority)
    }

    ghost predicate Valid()
      reads this
    {
      BooksValid(State())
    }

    /** A new engine: empty books, counter at 0. */
    constructor ()
      ensures Valid() && State() == Books([], [], 0)
    {
      buyBook, sellBook, priority := [], [], 0;
    }

    /**
     * `placeBuyOrder` (:15-58); the trades are returned instead of passed to
     * the `onTrade` callback.
     */
    method PlaceBuyOrder(order: Order) returns (trades: seq<Trade>)
      requires Valid() && order.BuyOrder?
      modifies this
      ensures order.Valid() ==> Valid()
      ensures var p := Place(old(State()), order); State() == p.after && trades == p.trades
    {
      ghost var before := State();
      if sellBook == [] {
        var rested := AttachPriority(order);
        PlaceInBuyBook(rested);
        trades := [];
        assert State() == Books(SortBook(Buy, before.buy + [rested]), [], before.counter + 1);
        assert Place(before, order).after == State() && Place(before, order).trades == [] &&
          (order.Valid() ==> BooksValid(State())) by {
          assert Match(order, order.quantity, before.sell) == Outcome([], order.quantity, []);
          PlaceBuyCases(before, order, [], order.quantity, []);
          if order.Valid() {
            PlacePreservesValidity(before, order);
          }
        }
      } else {
        var book, remaining, steps := Sweep(order, sellBook);
        sellBook, trades := book, steps;
        if remaining > 0 {
          var rested := AttachPriority(order.(quantity := remaining));
          PlaceInBuyBook(rested);
          assert State() == Books(SortBook(Buy, before.buy + [rested]), book, before.counter + 1);
        } else {
          assert State() == Books(before.buy, book, before.counter);
        }
        assert Place(before, order).after == State() && Place(before, order).trades == steps &&
          (order.Valid() ==> BooksValid(State())) by {
          assert Outcome(book, remaining, steps) == Match(order, order.quantity, before.sell) by {
            ScanIsBestFirst(order, order.quantity, before.sell);
          }
          PlaceBuyCases(before, order, book, remaining, steps);
          if order.Valid() {
            PlacePreservesValidity(before, order);
          }
        }
      }
    }

    /** `placeSellOrder` (:70-111), the mirror image of PlaceBuyOrder. */
    method PlaceSellOrder(order: Order) returns (trades: seq<Trade>)
      requires Valid() && order.SellOrder?
      modifies this
      ensures order.Valid() ==> Valid()
      ensures var p := Place(old(State()), order); State() == p.after && trades == p.trades
    {
      ghost var before := State();
      if buyBook == [] {
        var rested := AttachPriority(order);
        PlaceInSellBook(rested);
        trades := [];
        assert State() == Books([], SortBook(Sell, before.sell + [rested]), before.counter + 1);
        assert Place(before, order).after == State() && Place(before, order).trades == [] &&
          (order.Valid() ==> BooksValid(State())) by {
          assert Match(order, order.quantity, before.buy) == Outcome([], order.quantity, []);
          PlaceSellCases(before, order, [], order.quantity, []);
          if order.Valid() {
            PlacePreservesValidity(before, order);
          }
        }
      } else {
        var book, remaining, steps := Sweep(order, buyBook);
        buyBook, trades := book, steps;
        if remaining > 0 {
          var rested := AttachPriority(order.(quantity := remaining));
          PlaceInSellBook(rested);
          assert State() == Books(book, SortBook(Sell, before.sell + [rested]), before.counter + 1);
        } else {
          assert State() == Books(book, before.sell, before.counter);
        }
        assert Place(before, order).after == State() && Place(before, order).trades == steps &&
          (order.Valid() ==> BooksValid(State())) by {
          assert Outcome(book, remaining, steps) == Match(order, order.quantity, before.buy) by {
            ScanIsBestFirst(order, order.quantity, before.buy);
          }
          PlaceSellCases(before, order, book, remaining, steps);
          if order.Valid() {
            PlacePreservesValidity(before, order);
          }
        }
      }
    }

    /** `placeInBook` for the buy side (:60-63): add, then sort. */
    method PlaceInBuyBook(rested: Resting)
      modifies this`buyBook
      ensures buyBook == SortBook(Buy, old(buyBook) + [rested])
    {
      buyBook := SortBook(Buy, buyBook + [rested]);
    }

    /** `placeInBook` for the sell side (:113-116): add, then sort. */
    method PlaceInSellBook(rested: Resting)
      modifies this`sellBook
      ensures sellBook == SortBook(Sell, old(sellBook) + [rested])
    {
      sellBook := SortBook(Sell, sellBook + [rested]);
    }

    /** `attachPriority` (:65-68, :118-121): advance the counter, then use it. */
    method AttachPriority(order: Order) returns (rested: Resting)
      modifies this`priority
      ensures priority == old(priority) + 1
      ensures rested == Resting(priority, order.id, order.limitPrice, order.quantity)
    {
      priority := priority + 1;
      rested := Resting(priority, order.id, order.limitPrice, order.quantity);
    }

    /**
     * The read-only view `getBookContents` (:127-129) would give: both books,
     * best first and never crossed.
     */
    function BookContents(): (books: (seq<Resting>, seq<Resting>))
      reads this
      requires Valid()
      ensures books.0 == buyBook && books.1 == sellBook
      ensures Sorted(Buy, books.0) && Sorted(Sell, books.1) && NoCross(books.0, books.1)
    {
      (buyBook, sellBook)
    }
  }
}
