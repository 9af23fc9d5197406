/**
 * The value types of the order book: incoming orders, resting orders and
 * trades (src/main/kotlin/Exchange.kt:131-159).
 */
module Orders {
  /** Input bounds of the engine (src/main/kotlin/Exchange.kt:152-156). */
  const MaxPrice: int := 999_999
  const MaxQuantity: int := 999_999_999

  /** Range of a 32-bit Kotlin `Int`. */
  const MinInt: int := -0x8000_0000
  const MaxInt: int := 0x7fff_ffff

  datatype Side = Buy | Sell {
    function Opposite(): Side {
      if this == Buy then Sell else Buy
    }
  }

  /**
   * `BuyOrder` and `SellOrder` (src/main/kotlin/Exchange.kt:157-159). These
   * records have no id; the tests and Main.kt build them as
   * `BuyOrder(id, limitPrice, quantity)`, so the id is part of the model.
   */
  datatype Order =
    | BuyOrder(id: string, limitPrice: int, quantity: int)
    | SellOrder(id: string, limitPrice: int, quantity: int)
  {
    function SideOf(): Side {
      if BuyOrder? then Buy else Sell
    }

    /** The bounds an order must meet before it reaches the engine. */
    predicate Valid() {
      0 < limitPrice <= MaxPrice && 0 < quantity <= MaxQuantity
    }
  }

  function MakeOrder(side: Side, id: string, limitPrice: int, quantity: int): (o: Order)
    ensures o.SideOf() == side && o.id == id && o.limitPrice == limitPrice && o.quantity == quantity
  {
    match side
    case Buy => BuyOrder(id, limitPrice, quantity)
    case Sell => SellOrder(id, limitPrice, quantity)
  }

  /**
   * An order resting in a book: `BuyOrderWithPriority` and
   * `SellOrderWithPriority` (src/main/kotlin/Exchange.kt:131-145) have the same
   * shape, so one record serves both books, plus the id the tests carry.
   */
  datatype Resting = Resting(priority: int, id: string, limitPrice: int, quantity: int) {
    /** The resting order as the trade's resting leg shows it. */
    function AsOrder(side: Side): Order {
      MakeOrder(side, id, limitPrice, quantity)
    }
  }

  /**
   * A trade: the aggressor with the quantity it still had at that step, and
   * the resting order as it stood before the step. It executes at the resting
   * price for the smaller of the two quantities.
   */
  datatype Trade = Trade(aggressor: Order, resting: Order) {
    function Price(): int {
      resting.limitPrice
    }

    function Quantity(): int {
      if aggressor.quantity < resting.quantity then aggressor.quantity else resting.quantity
    }
  }

  /** Total quantity traded by a sequence of trades. */
  function Volume(trades: seq<Trade>): int {
    if trades == [] then 0 else trades[0].Quantity() + Volume(trades[1..])
  }

  lemma {:induction false} VolumeAppend(a: seq<Trade>, b: seq<Trade>)
    ensures Volume(a + b) == Volume(a) + Volume(b)
    decreases |a|
  {
    if a != [] {
      assert (a + b)[1..] == a[1..] + b;
      VolumeAppend(a[1..], b);
    } else {
      assert a + b == b;
    }
  }
}
