/**
 * One side's book: the comparators of src/main/kotlin/Exchange.kt:137-149,
 * the `add` then `sortWith` of `placeInBook` (:60-63, :113-116), and the
 * resting-order facts the engine keeps.
 */
module OrderBook {
  import opened Orders

  /**
   * `a` sorts strictly ahead of `b` in the book of `side`: the buy book by
   * limit price descending, the sell book by limit price ascending, ties by
   * priority ascending.
   */
  predicate Before(side: Side, a: Resting, b: Resting) {
    match side
    case Buy => a.limitPrice > b.limitPrice || (a.limitPrice == b.limitPrice && a.priority < b.priority)
    case Sell => a.limitPrice < b.limitPrice || (a.limitPrice == b.limitPrice && a.priority < b.priority)
  }

  /** No later entry sorts strictly ahead of an earlier one. */
  predicate Sorted(side: Side, b: seq<Resting>) {
    forall i, j :: 0 <= i < j < |b| ==> !Before(side, b[j], b[i])
  }

  /** Every entry still has something to trade. */
  predicate Positive(b: seq<Resting>) {
    forall i :: 0 <= i < |b| ==> b[i].quantity > 0
  }

  /** Same order, same place in the sort: only the quantity may differ. */
  predicate SameKey(a: Resting, b: Resting) {
    a.id == b.id && a.limitPrice == b.limitPrice && a.priority == b.priority
  }

  /** The priorities of a book, in book order. */
  function Prios(b: seq<Resting>): (ps: seq<int>)
    ensures |ps| == |b| && forall i :: 0 <= i < |b| ==> ps[i] == b[i].priority
  {
    seq(|b|, i requires 0 <= i < |b| => b[i].priority)
  }

  /**
   * Stable insertion of `x`: it goes after every entry it does not sort
   * strictly ahead of.
   */
  function Insert(side: Side, x: Resting, b: seq<Resting>): (r: seq<Resting>)
    ensures |r| == |b| + 1
  {
    if b == [] then [x]
    else if Before(side, x, b[0]) then [x] + b
    else [b[0]] + Insert(side, x, b[1..])
  }

  /**
   * `sortWith` with the side's comparator, as a stable insertion sort: the
   * entries are inserted in list order. The comparator is a strict weak
   * order and the library sort is stable, so this is the list it produces.
   */
  function SortBook(side: Side, b: seq<Resting>): (r: seq<Resting>)
    ensures |r| == |b|
  {
    if b == [] then [] else Insert(side, b[|b| - 1], SortBook(side, b[..|b| - 1]))
  }

  lemma {:induction false} InsertMembers(side: Side, x: Resting, b: seq<Resting>)
    ensures forall y :: y in Insert(side, x, b) <==> y == x || y in b
  {
    if b != [] && !Before(side, x, b[0]) {
      InsertMembers(side, x, b[1..]);
      assert b == [b[0]] + b[1..];
    }
  }

  lemma {:induction false} InsertPermutes(side: Side, x: Resting, b: seq<Resting>)
    ensures multiset(Insert(side, x, b)) == multiset(b) + multiset{x}
  {
    if b != [] && !Before(side, x, b[0]) {
      InsertPermutes(side, x, b[1..]);
      assert b == [b[0]] + b[1..];
    }
  }

  /** Inserting into a sorted book keeps it sorted. */
  lemma {:induction false} InsertSorted(side: Side, x: Resting, b: seq<Resting>)
    requires Sorted(side, b)
    ensures Sorted(side, Insert(side, x, b))
  {
    if b == [] {
    } else if Before(side, x, b[0]) {
      var r := [x] + b;
      forall i, j | 0 <= i < j < |r| ensures !Before(side, r[j], r[i]) {
        if i == 0 {
          assert r[j] == b[j - 1];
        } else {
          assert r[i] == b[i - 1] && r[j] == b[j - 1];
        }
      }
    } else {
      var tail := Insert(side, x, b[1..]);
      InsertSorted(side, x, b[1..]);
      InsertMembers(side, x, b[1..]);
      var r := [b[0]] + tail;
      forall i, j | 0 <= i < j < |r| ensures !Before(side, r[j], r[i]) {
        assert r[j] == tail[j - 1];
        if i == 0 {
          assert r[j] in tail;
          if r[j] != x {
            var k :| 0 <= k < |b[1..]| && b[1..][k] == r[j];
            assert b[k + 1] == r[j];
          }
        } else {
          assert r[i] == tail[i - 1];
        }
      }
    }
  }

  /** An entry that sorts ahead of nothing in the book goes at its end. */
  lemma {:induction false} InsertAtEnd(side: Side, x: Resting, b: seq<Resting>)
    requires forall i :: 0 <= i < |b| ==> !Before(side, x, b[i])
    ensures Insert(side, x, b) == b + [x]
  {
    if b != [] {
      InsertAtEnd(side, x, b[1..]);
      assert b == [b[0]] + b[1..];
    }
  }

  /** Sorting an already sorted book leaves it as it is. */
  lemma {:induction false} SortBookOfSorted(side: Side, b: seq<Resting>)
    requires Sorted(side, b)
    ensures SortBook(side, b) == b
  {
    if b != [] {
      var init := b[..|b| - 1];
      assert Sorted(side, init);
      SortBookOfSorted(side, init);
      InsertAtEnd(side, b[|b| - 1], init);
      assert init + [b[|b| - 1]] == b;
    }
  }

  /** `sortWith` leaves the book sorted and holding the same entries. */
  lemma {:induction false} SortBookSorts(side: Side, b: seq<Resting>)
    ensures Sorted(side, SortBook(side, b))
    ensures multiset(SortBook(side, b)) == multiset(b)
  {
    if b != [] {
      var init := b[..|b| - 1];
      SortBookSorts(side, init);
      InsertSorted(side, b[|b| - 1], SortBook(side, init));
      InsertPermutes(side, b[|b| - 1], SortBook(side, init));
      assert init + [b[|b| - 1]] == b;
    }
  }

  /**
   * `placeInBook` on a sorted book: adding the order and re-sorting is the
   * same as inserting it in place.
   */
  lemma AddThenSortIsInsert(side: Side, x: Resting, b: seq<Resting>)
    requires Sorted(side, b)
    ensures SortBook(side, b + [x]) == Insert(side, x, b)
  {
    assert (b + [x])[..|b|] == b;
    SortBookOfSorted(side, b);
  }

  /** The new head of the book is the inserted entry or the old head. */
  lemma InsertHead(side: Side, x: Resting, b: seq<Resting>)
    ensures Insert(side, x, b)[0] == x || (b != [] && Insert(side, x, b)[0] == b[0])
  {
  }

  /** The priorities of a book with `r` in front. */
  lemma PriosCons(r: Resting, b: seq<Resting>)
    ensures multiset(Prios([r] + b)) == multiset{r.priority} + multiset(Prios(b))
  {
    assert Prios([r] + b) == [r.priority] + Prios(b);
  }

  /** Insertion adds exactly the new entry's priority. */
  lemma {:induction false} InsertPrios(side: Side, x: Resting, b: seq<Resting>)
    ensures multiset(Prios(Insert(side, x, b))) == multiset(Prios(b)) + multiset{x.priority}
  {
    if b == [] {
      assert Prios([x]) == [x.priority];
    } else if Before(side, x, b[0]) {
      assert Prios([x] + b) == [x.priority] + Prios(b);
    } else {
      var r := Insert(side, x, b[1..]);
      assert Insert(side, x, b) == [b[0]] + r && b == [b[0]] + b[1..];
      InsertPrios(side, x, b[1..]);
      PriosCons(b[0], r);
      PriosCons(b[0], b[1..]);
    }
  }
}
