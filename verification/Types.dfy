/** Value types of the exchange: sides, order kinds, orders, trades and submission results. */
module Types {

  const MAX_PRICE_TICKS: int := 1_000_000_000_000
  const MAX_QUANTITY: int := 1_000_000_000_000
  const INVALID_PRICE: int := -0x8000_0000_0000_0000
  const INVALID_ID: nat := 0

  datatype Option<+T> = None | Some(value: T)

  datatype Side = Buy | Sell {
    function Opposite(): Side {
      if Buy? then Sell else Buy
    }
  }

  datatype OrderType = Market | Limit

  datatype TimeInForce = GTC | IOC | FOK

  datatype OrderStatus = New | PartiallyFilled | Filled | Cancelled | Rejected | Expired

  /** The data fields of an order; timestamps are informational and not modelled. */
  datatype Order = Order(
    id: nat,
    trader: nat,
    instrument: nat,
    side: Side,
    kind: OrderType,
    tif: TimeInForce,
    price: int,
    quantity: int,
    remaining: int,
    sequence: nat,
    status: OrderStatus)

  datatype Trade = Trade(
    id: nat,
    instrument: nat,
    buyOrder: nat,
    sellOrder: nat,
    buyTrader: nat,
    sellTrader: nat,
    price: int,
    quantity: int,
    sequence: nat)

  datatype SubmitStatus = Accepted | FullyFilled | PartiallyFilled | Rejected | Cancelled

  datatype SubmitResult = SubmitResult(
    status: SubmitStatus,
    orderId: nat,
    instrument: nat,
    sequence: nat,
    filled: int,
    resting: int,
    side: Side,
    kind: OrderType,
    price: int,
    reason: string)

  datatype ModifyResult = NotFound | Refused | Modified | Replaced

  predicate ValidPrice(p: int) {
    0 <= p <= MAX_PRICE_TICKS
  }

  predicate ValidQuantity(q: int) {
    0 < q <= MAX_QUANTITY
  }

  /** An order that has neither been filled nor cancelled, as cancel, reduce and modify test it. */
  predicate Open(o: Order) {
    !o.status.Filled? && !o.status.Cancelled?
  }

  function Min(a: int, b: int): int {
    if a <= b then a else b
  }
}
