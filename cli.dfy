/**
 * The input loop `main` of src/main/kotlin/Main.kt:3-16: read records line
 * by line, reject an empty input and blank or malformed lines, and hand each
 * parsed order to the engine. Reading standard input becomes the sequence of
 * lines it yields; the engine call becomes the list of orders dispatched,
 * which `Replay` then feeds to the engine's state transition.
 */
module Cli {
  import opened Wrappers
  import opened Orders
  import opened Parser
  import opened Exchange

  /** Kotlin's `Char.isWhitespace`: Java whitespace plus the space separators. */
  predicate IsWhitespace(c: char) {
    var k := c as int;
    (9 <= k <= 13) || (0x1C <= k <= 0x20) || k == 0xA0 || k == 0x1680 ||
    (0x2000 <= k <= 0x200A) || k == 0x2028 || k == 0x2029 || k == 0x202F ||
    k == 0x205F || k == 0x3000
  }

  /** `String.isBlank`: empty or whitespace only. */
  predicate IsBlank(s: string) {
    forall i :: 0 <= i < |s| ==> IsWhitespace(s[i])
  }

  /** Why the loop stopped early; line numbers count from 1. */
  datatype InputError =
    | EmptyInput
    | BlankLine(line: nat)
    | Malformed(line: nat, error: ParseError)

  /** The orders handed to the engine, in order, and the error that ended the run, if any. */
  datatype RunOutcome = RunOutcome(dispatched: seq<Order>, failure: Option<InputError>)

  /** The loop from the line numbered `n` on. */
  function RunFrom(lines: seq<string>, n: nat): RunOutcome
    decreases |lines|
  {
    if |lines| == 0 then RunOutcome([], None)
    else if IsBlank(lines[0]) then RunOutcome([], Some(BlankLine(n)))
    else
      match ParseOrder(lines[0])
      case Failure(e) => RunOutcome([], Some(Malformed(n, e)))
      case Success(o) =>
        var r := RunFrom(lines[1..], n + 1);
        RunOutcome([o] + r.dispatched, r.failure)
  }

  /** The whole run: no line at all is an error of its own. */
  function Run(lines: seq<string>): RunOutcome {
    if |lines| == 0 then RunOutcome([], Some(EmptyInput)) else RunFrom(lines, 1)
  }

  /** A line the loop accepts: not blank, and a well-formed record. */
  predicate Accepted(line: string) {
    !IsBlank(line) && ParseOrder(line).Success?
  }

  /** The error the loop reports for a rejected line numbered `n`. */
  function Rejection(line: string, n: nat): InputError
    requires !Accepted(line)
  {
    if IsBlank(line) then BlankLine(n) else Malformed(n, ParseOrder(line).error)
  }

  lemma {:induction false} RunFromCharacterised(lines: seq<string>, n: nat)
    ensures var r := RunFrom(lines, n);
      |r.dispatched| <= |lines| &&
      (forall i :: 0 <= i < |r.dispatched| ==> Accepted(lines[i]) && ParseOrder(lines[i]) == Success(r.dispatched[i])) &&
      (r.failure.None? <==> |r.dispatched| == |lines|) &&
      (r.failure.Some? ==>
        !Accepted(lines[|r.dispatched|]) &&
        r.failure == Some(Rejection(lines[|r.dispatched|], n + |r.dispatched|)))
    decreases |lines|
  {
    if |lines| > 0 && Accepted(lines[0]) {
      RunFromCharacterised(lines[1..], n + 1);
      var r := RunFrom(lines, n);
      var t := RunFrom(lines[1..], n + 1);
      assert r.dispatched == [ParseOrder(lines[0]).value] + t.dispatched;
      forall i | 0 < i < |r.dispatched|
        ensures Accepted(lines[i]) && ParseOrder(lines[i]) == Success(r.dispatched[i])
      {
        assert lines[i] == lines[1..][i - 1];
      }
      if r.failure.Some? {
        assert lines[|r.dispatched|] == lines[1..][|t.dispatched|];
      }
    }
  }

  /**
   * The loop's outcome: every accepted line up to the first rejected one is
   * dispatched in input order; the run fails exactly when some line is
   * rejected or there is none, and then names the first rejected line.
   */
  lemma RunCharacterised(lines: seq<string>)
    ensures var r := Run(lines);
      |r.dispatched| <= |lines| &&
      (forall i :: 0 <= i < |r.dispatched| ==> Accepted(lines[i]) && ParseOrder(lines[i]) == Success(r.dispatched[i])) &&
      (r.failure.None? <==> |lines| > 0 && forall i :: 0 <= i < |lines| ==> Accepted(lines[i])) &&
      (r.failure == Some(EmptyInput) <==> |lines| == 0) &&
      (r.failure.Some? && |lines| > 0 ==>
        |r.dispatched| < |lines| && !Accepted(lines[|r.dispatched|]) &&
        r.failure == Some(Rejection(lines[|r.dispatched|], |r.dispatched| + 1)))
  {
    if |lines| > 0 {
      RunFromCharacterised(lines, 1);
    }
  }

  /** A run that stopped at a rejected line ignores everything after it. */
  lemma {:induction false} RunFromStopsAtFirstRejection(lines: seq<string>, more: seq<string>, n: nat)
    requires RunFrom(lines, n).failure.Some?
    ensures RunFrom(lines + more, n) == RunFrom(lines, n)
    decreases |lines|
  {
    assert (lines + more)[0] == lines[0];
    if Accepted(lines[0]) {
      assert (lines + more)[1..] == lines[1..] + more;
      RunFromStopsAtFirstRejection(lines[1..], more, n + 1);
    }
  }

  /** The loop as the source runs it, over the lines standard input yields. */
  method ProcessLines(lines: seq<string>) returns (outcome: RunOutcome)
    ensures outcome == Run(lines)
  {
    if |lines| == 0 {
      return RunOutcome([], Some(EmptyInput));
    }
    var dispatched: seq<Order> := [];
    var line := 1;
    while line <= |lines|
      invariant 1 <= line <= |lines| + 1
      invariant var r := RunFrom(lines[line - 1..], line);
        RunOutcome(dispatched + r.dispatched, r.failure) == Run(lines)
      decreases |lines| + 1 - line
    {
      var text := lines[line - 1];
      if IsBlank(text) {
        return RunOutcome(dispatched, Some(BlankLine(line)));
      }
      match ParseOrder(text)
      case Failure(e) =>
        return RunOutcome(dispatched, Some(Malformed(line, e)));
      case Success(order) =>
        assert lines[line - 1..][1..] == lines[line..];
        dispatched := dispatched + [order];
        line := line + 1;
    }
    return RunOutcome(dispatched, None);
  }

  /** Orders fed one by one through a placement step: the final state and all trades, in order. */
  function Fold(step: (Books, Order) -> Placement, s: Books, orders: seq<Order>): (Books, seq<Trade>)
    decreases |orders|
  {
    if |orders| == 0 then (s, [])
    else
      var p := step(s, orders[0]);
      var r := Fold(step, p.after, orders[1..]);
      (r.0, p.trades + r.1)
  }

  /** The engine fed the dispatched orders one by one. */
  function Replay(s: Books, orders: seq<Order>): (Books, seq<Trade>) {
    Fold(Place, s, orders)
  }

  /** Replaying one order is one placement. */
  lemma ReplayOne(s: Books, order: Order)
    ensures Replay(s, [order]) == (Place(s, order).after, Place(s, order).trades)
  {
    var p := Place(s, order);
    assert [order][1..] == [] && [order][0] == order;
    assert Fold(Place, p.after, []) == (p.after, []);
    assert p.trades + [] == p.trades;
    assert Fold(Place, s, [order]) == (p.after, p.trades);
  }

  /** Replaying a session is its first placement, then the rest from there. */
  lemma ReplayCons(s: Books, order: Order, rest: seq<Order>)
    ensures var p := Place(s, order);
      var r := Replay(p.after, rest);
      Replay(s, [order] + rest) == (r.0, p.trades + r.1)
  {
    assert ([order] + rest)[0] == order && ([order] + rest)[1..] == rest;
  }

  /** A session can be split anywhere: the second part starts from where the first left off. */
  lemma {:induction false} FoldAppend(step: (Books, Order) -> Placement, s: Books, a: seq<Order>, b: seq<Order>)
    ensures var first := Fold(step, s, a);
      var second := Fold(step, first.0, b);
      Fold(step, s, a + b) == (second.0, first.1 + second.1)
    decreases |a|
  {
    if a == [] {
      assert a + b == b;
      assert [] + Fold(step, s, b).1 == Fold(step, s, b).1;
    } else {
      assert (a + b)[0] == a[0] && (a + b)[1..] == a[1..] + b;
      var p := step(s, a[0]);
      FoldAppend(step, p.after, a[1..], b);
      var first := Fold(step, p.after, a[1..]);
      var second := Fold(step, first.0, b);
      assert p.trades + (first.1 + second.1) == (p.trades + first.1) + second.1;
    }
  }

  lemma ReplayAppend(s: Books, a: seq<Order>, b: seq<Order>)
    ensures var first := Replay(s, a);
      var second := Replay(first.0, b);
      Replay(s, a + b) == (second.0, first.1 + second.1)
  {
    FoldAppend(Place, s, a, b);
  }

  /** The trades of several placements, one after the other. */
  function Concat(ts: seq<seq<Trade>>): seq<Trade>
    decreases |ts|
  {
    if |ts| == 0 then [] else ts[0] + Concat(ts[1..])
  }

  /** The trades of two runs of placements in a row are the first run's, then the second's. */
  lemma {:induction false} ConcatAppend(a: seq<seq<Trade>>, b: seq<seq<Trade>>)
    ensures Concat(a + b) == Concat(a) + Concat(b)
    decreases |a|
  {
    if a == [] {
      assert a + b == b;
    } else {
      assert (a + b)[0] == a[0] && (a + b)[1..] == a[1..] + b;
      ConcatAppend(a[1..], b);
    }
  }

  /**
   * A session replayed step by step: if each order moves the books from one
   * state to the next with the given trades, the replay ends in the last
   * state with all those trades in order.
   */
  lemma {:induction false} ReplayChain(states: seq<Books>, orders: seq<Order>, trades: seq<seq<Trade>>)
    requires |states| == |orders| + 1 && |trades| == |orders|
    requires forall k :: 0 <= k < |orders| ==>
      Place(states[k], orders[k]).after == states[k + 1] && Place(states[k], orders[k]).trades == trades[k]
    ensures Replay(states[0], orders) == (states[|orders|], Concat(trades))
    decreases |orders|
  {
    if |orders| == 0 {
      assert Replay(states[0], orders) == (states[0], []);
    } else {
      forall k | 0 <= k < |orders| - 1
        ensures Place(states[1..][k], orders[1..][k]).after == states[1..][k + 1]
        ensures Place(states[1..][k], orders[1..][k]).trades == trades[1..][k]
      {
        assert states[1..][k] == states[k + 1] && states[1..][k + 1] == states[k + 2];
        assert orders[1..][k] == orders[k + 1] && trades[1..][k] == trades[k + 1];
      }
      ReplayChain(states[1..], orders[1..], trades[1..]);
      ReplayCons(states[0], orders[0], orders[1..]);
      assert orders == [orders[0]] + orders[1..];
    }
  }

  /** Orders within the input bounds keep the engine's invariants for a whole run. */
  lemma {:induction false} ReplayPreservesValidity(s: Books, orders: seq<Order>)
    requires BooksValid(s)
    requires forall i :: 0 <= i < |orders| ==> orders[i].Valid()
    ensures BooksValid(Replay(s, orders).0)
    decreases |orders|
  {
    if |orders| > 0 {
      PlacePreservesValidity(s, orders[0]);
      ReplayPreservesValidity(Place(s, orders[0]).after, orders[1..]);
      assert Replay(s, orders).0 == Replay(Place(s, orders[0]).after, orders[1..]).0;
    }
  }

  /** A session trades no more than the orders brought. */
  lemma {:induction false} ReplayTradesWithinQuantity(s: Books, orders: seq<Order>)
    requires BooksValid(s)
    requires forall i :: 0 <= i < |orders| ==> orders[i].Valid()
    ensures Volume(Replay(s, orders).1) <= TotalQuantity(orders)
    decreases |orders|
  {
    if |orders| > 0 {
      var p := Place(s, orders[0]);
      PlaceConservesQuantity(s, orders[0]);
      PlaceSequencesPriority(s, orders[0]);
      PlacePreservesValidity(s, orders[0]);
      ReplayTradesWithinQuantity(p.after, orders[1..]);
      VolumeAppend(p.trades, Replay(p.after, orders[1..]).1);
    }
  }

  function TotalQuantity(orders: seq<Order>): int
    decreases |orders|
  {
    if |orders| == 0 then 0 else orders[0].quantity + TotalQuantity(orders[1..])
  }
}
