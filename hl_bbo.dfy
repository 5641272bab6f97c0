/**
 * Hyperliquid best bid and offer (`BboUpdate::of_channel_data`): the
 * message holds two optional levels, bid then ask; the symbol is the
 * subscribed coin handed in by the caller, not the coin in the payload.
 */
module HyperliquidBbo {
  import opened Wrappers
  import opened BoundedInts
  import opened ArgusTypes
  import opened UtcTime
  import HyperliquidOrderbook

  const SUBSCRIPTION_TYPE := "bbo"
  const PAYLOAD_IDENTIFIER := "bbo"

  const MISSING_BID := "Argus Hyperliquid BboUpdate: missing bid level"
  const MISSING_ASK := "Argus Hyperliquid BboUpdate: missing ask level"

  type WsLevel = HyperliquidOrderbook.WsLevel

  /** The decoded message; `bbo[0]` is the bid and `bbo[1]` the ask, each possibly null. */
  datatype RawBbo = RawBbo(coin: string, time: u64, bid: Option<WsLevel>, ask: Option<WsLevel>)

  datatype BboUpdate = BboUpdate(symbol: TradingSymbol, receivedTime: int, time: int,
                                 bidPrice: Price, bidSize: TradeSize, bidOrders: u32,
                                 askPrice: Price, askSize: TradeSize, askOrders: u32)

  function SchemaError(e: string): string
  {
    "Argus Hyperliquid BboUpdate conversion error: cannot convert data into RawBboUpdate struct. Check schema. " + e
  }

  /**
   * The checks in source order: both levels present, the coin, the time,
   * then bid price, bid size, ask price and ask size.
   */
  function BboOf(data: Result<RawBbo>, coin: string, now: int): Result<BboUpdate>
  {
    match data
    case Failure(e) => Failure(SchemaError(e))
    case Success(raw) =>
      match raw.bid
      case None => Failure(MISSING_BID)
      case Some(bid) =>
        match raw.ask
        case None => Failure(MISSING_ASK)
        case Some(ask) =>
          var symbol :- SymbolFromStr(coin);
          match DateOfU64Millis(raw.time)
          case None => Failure("Invalid timestamp")
          case Some(t) =>
            var bidPrice :- PriceFromString(bid.px);
            var bidSize :- SizeFromString(bid.sz);
            var askPrice :- PriceFromString(ask.px);
            var askSize :- SizeFromString(ask.sz);
            Success(BboUpdate(symbol, now, t, bidPrice, bidSize, bid.n, askPrice, askSize, ask.n))
  }

  /**
   * A quote converts exactly when both levels are present and valid, the
   * coin argument is non-empty and the time is a date; the symbol is then
   * the coin argument whatever the payload's coin, and the order counts
   * are the levels' own.
   */
  lemma BboShape(data: Result<RawBbo>, coin: string, now: int)
    ensures var r := BboOf(data, coin, now);
      && (r.Success? <==>
           && data.Success? && data.value.bid.Some? && data.value.ask.Some?
           && HyperliquidOrderbook.ValidLevel(data.value.bid.value)
           && HyperliquidOrderbook.ValidLevel(data.value.ask.value)
           && coin != "" && DateOfU64Millis(data.value.time).Some?)
      && (r.Success? ==>
           && r.value.symbol == TradingSymbol(coin) && r.value.receivedTime == now
           && r.value.time == AsI64(data.value.time)
           && r.value.bidPrice.value == data.value.bid.value.px.parsed.value
           && r.value.bidSize.value == data.value.bid.value.sz.parsed.value
           && r.value.bidOrders == data.value.bid.value.n
           && r.value.askPrice.value == data.value.ask.value.px.parsed.value
           && r.value.askSize.value == data.value.ask.value.sz.parsed.value
           && r.value.askOrders == data.value.ask.value.n)
  {
  }

  /** A missing side is reported before anything else is looked at, the bid first. */
  lemma MissingSideFirst(raw: RawBbo, coin: string, now: int)
    ensures raw.bid.None? ==> BboOf(Success(raw), coin, now) == Failure(MISSING_BID)
    ensures raw.bid.Some? && raw.ask.None? ==> BboOf(Success(raw), coin, now) == Failure(MISSING_ASK)
  {
  }

  /** Two messages that differ only in their coin field convert alike. */
  lemma PayloadCoinIgnored(raw: RawBbo, other: string, coin: string, now: int)
    ensures BboOf(Success(raw), coin, now) == BboOf(Success(raw.(coin := other)), coin, now)
  {
  }
}
