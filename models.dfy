/** The value types shared by the components: order intents, live orders, fills, snapshots, markets. */
module Models {
  import opened Wrappers

  /** A point in time. The core only copies timestamps around; it never compares them. */
  type Timestamp = int

  /** Direction of an order or a fill. */
  datatype Side = Buy | Sell

  /** Life cycle of a straddle position. */
  datatype StraddleState = WaitingEntry | Entered | Exited | Resolved

  /** Metadata of a candidate market, as the scanner emits it. */
  datatype MarketMetadata = MarketMetadata(
    id: string,
    question: string,
    outcome: string,
    expiry: Timestamp,
    tags: seq<string>,
    volume24h: real,
    isActive: bool)

  datatype OrderBookLevel = OrderBookLevel(price: real, size: real)

  datatype OrderBookSnapshot = OrderBookSnapshot(
    marketId: string,
    bids: seq<OrderBookLevel>,
    asks: seq<OrderBookLevel>,
    bestBid: Option<real>,
    bestAsk: Option<real>,
    lastTradePrice: Option<real>,
    lastTradeTime: Option<Timestamp>,
    liquidityScore: Option<real>,
    receivedAt: Timestamp)

  /** A desired order before submission. */
  datatype OrderIntent = OrderIntent(
    marketId: string,
    side: Side,
    price: real,
    size: real,
    ttlSeconds: int,
    clientOrderId: string,
    metadata: map<string, string>)

  /** An order the venue has seen. */
  datatype LiveOrder = LiveOrder(
    orderHash: string,
    intent: OrderIntent,
    createdAt: Timestamp,
    status: string)

  /** Confirmation that (part of) an order executed. */
  datatype FillEvent = FillEvent(
    marketId: string,
    orderHash: string,
    side: Side,
    price: real,
    size: real,
    filledAt: Timestamp)

  /** A net position record, as the persistence layer stores it. */
  datatype Position = Position(
    marketId: string,
    netSize: real,
    avgEntryPrice: real,
    unrealizedPnl: real,
    realizedPnl: real)
}
