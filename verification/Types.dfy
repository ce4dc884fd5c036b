/** The value types of the order book: orders, price levels, book sides and the messages a book
    broadcasts. Prices and quantities are unscaled integers; an absent price is the null value
    that marks a market order. Flag words are sets of bit positions. */
module Types {

  datatype Option<+T> = None | Some(value: T)

  datatype Side = Buy | Sell {
    function Opposite(): Side {
      if this == Buy then Sell else Buy
    }

    /** `p` is nearer the top of this side of a book than `q`. */
    predicate Better(p: int, q: int) {
      if this == Buy then p > q else p < q
    }

    /** A resting order at `p` on this side may trade against a taker limited by `limit`. */
    predicate Within(limit: Option<int>, p: int) {
      limit.None? || !Better(limit.value, p)
    }
  }

  type OrderId = string
  type Flags = set<nat>
  type Price = Option<int>

  datatype Order = Order(id: OrderId, side: Side, rank: nat, price: Price, qty: int, flags: Flags)

  /** What an order ID is unique within: one book, or one side of a book. */
  datatype Scope = PerBook | PerSide

  datatype Config = Config(uniform: bool, scope: Scope) {
    /** The key under which the venue indexes an order. */
    function Key(side: Side, id: OrderId): OrderKey {
      OrderKey(if scope == PerSide then Some(side) else None, id)
    }

    function KeyOf(o: Order): OrderKey {
      Key(o.side, o.id)
    }
  }

  datatype OrderKey = OrderKey(side: Option<Side>, id: OrderId)

  /** Where the indexed order rests: in the level at a price (or in the market level), or nowhere. */
  datatype Location = At(side: Side, price: Price) | Detached(order: Order)

  /** The messages a book broadcasts to its replicas. */
  datatype Msg =
    | AddOrder(id: OrderId, side: Side, rank: Option<nat>, price: Price, qty: int, flags: Flags)
    | ModifyOrder(id: OrderId, side: Side, rank: Option<nat>, price: Price, qty: int, flags: Flags)
    | CancelOrder(id: OrderId, side: Side)
    | ResetOB
    | PxLevel(side: Side, delta: bool, price: Price, qty: int, nOrders: int, flags: Flags)
}
