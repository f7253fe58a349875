/** Domain types of the matching core: sides, order types, orders, commands and events. */
module Types {

  /** INT64_MIN: "no price" in a command, an empty side in a top-of-book report. */
  const NO_PRICE: int := -0x8000_0000_0000_0000

  datatype Option<+T> = None | Some(value: T)

  datatype Side = Buy | Sell

  function Opposite(s: Side): Side {
    if s.Buy? then Sell else Buy
  }

  /** Does an aggressor on `side` at `limit` reach a resting level priced `level`? */
  predicate Crosses(side: Side, limit: int, level: int) {
    if limit == NO_PRICE then true
    else if side.Buy? then limit >= level else limit <= level
  }

  /** Price priority among resting orders of one side: `p` trades strictly before `q`. */
  predicate Better(side: Side, p: int, q: int) {
    if side.Buy? then p > q else p < q
  }

  datatype OrderType = Limit | Market | Ioc | PostOnly | Fok

  datatype StpMode = StpNone | CancelResting | CancelAggressor

  datatype RejectReason =
    | NoReason
    | UnknownOrder
    | DuplicateOrderId
    | PriceOutOfBand
    | ZeroQuantity
    | PostOnlyWouldCross
    | FokUnfillable
    | BookHalted
    | PoolExhausted
    | SelfTradePrevented

  /** A resting or in-flight order, without its two list links. */
  datatype Order = Order(
    id: nat, client: nat, price: int, quantity: nat, remaining: nat,
    seqNo: nat, side: Side, typ: OrderType)

  datatype CommandKind = New | Cancel | Modify

  datatype Command = Command(
    kind: CommandKind, id: nat, client: nat, side: Side, typ: OrderType,
    price: int, quantity: nat)

  function MakeNew(id: nat, client: nat, side: Side, typ: OrderType, price: int, quantity: nat): Command {
    Command(New, id, client, side, typ, price, quantity)
  }

  function MakeCancel(id: nat, client: nat): Command {
    Command(Cancel, id, client, Buy, Limit, NO_PRICE, 0)
  }

  function MakeModify(id: nat, client: nat, price: int, quantity: nat): Command {
    Command(Modify, id, client, Buy, Limit, price, quantity)
  }

  datatype Body =
    | Accepted(id: nat, client: nat, side: Side, price: int, quantity: nat, leaves: nat)
    | Rejected(id: nat, client: nat, side: Side, price: int, quantity: nat, reason: RejectReason)
    | Fill(id: nat, contra: nat, client: nat, side: Side, price: int, quantity: nat, leaves: nat, aggressor: bool)
    | Canceled(id: nat, client: nat, side: Side, price: int, quantity: nat, leaves: nat, reason: RejectReason)
    | Replaced(id: nat, client: nat, side: Side, price: int, quantity: nat, leaves: nat)
    | Trade(id: nat, contra: nat, side: Side, price: int, quantity: nat)
    | BookChanged(bidPx: int, bidQty: nat, askPx: int, askQty: nat)

  /** An outbound event with the engine sequence number stamped on it. */
  datatype Event = Event(seqNo: nat, body: Body)

  datatype Config = Config(
    minPrice: int, maxPrice: int, maxOrders: nat, stp: StpMode, emitBookChanged: bool)

  datatype Stats = Stats(
    commands: nat, newOrders: nat, cancelOrders: nat, modifyOrders: nat,
    rejects: nat, trades: nat, sharesTraded: nat, peakResting: nat)

  /** What the engine demands of its caller: key 0 is the index's empty marker, and an
      order type that may rest must name a price to rest at. */
  predicate ValidCommand(c: Command) {
    c.kind.New? ==> c.id != 0 && (c.typ.Limit? || c.typ.PostOnly? ==> c.price != NO_PRICE)
  }

  function Min(a: nat, b: nat): nat {
    if a <= b then a else b
  }
}
