/**
 * Hyperliquid trades (`TradeUpdate::of_channel_data`): one channel
 * message carries a non-empty array of trades for one coin; every trade
 * must convert or the whole message fails.
 */
module HyperliquidTrades {
  import opened Wrappers
  import opened BoundedInts
  import opened ArgusTypes
  import opened BiMaps
  import opened UtcTime
  import opened Converters

  const SUBSCRIPTION_TYPE := "trades"
  const PAYLOAD_IDENTIFIER := "last_trade"

  const EMPTY_TRADES := "Argus Hyperliquid tradeUpdate: empty trades array"

  /** One trade as the exchange sends it; `px` and `sz` are decimal strings. */
  datatype RawTrade = RawTrade(coin: string, side: string, px: NumText, sz: NumText, time: u64, tid: u64)

  /** The converted trade; times are milliseconds since the epoch. */
  datatype TradeUpdate = TradeUpdate(symbol: Sym, receivedTime: int, tradeId: u64, price: Price,
                                     size: TradeSize, tradeTime: int, isBuy: bool)

  /** A raw trade converts exactly when both numbers parse, pass validation and the time is a date. */
  predicate Convertible(raw: RawTrade)
  {
    && raw.px.parsed.Some? && raw.px.parsed.value.Finite? && raw.px.parsed.value.r >= 0.0
    && raw.sz.parsed.Some? && raw.sz.parsed.value.Finite? && raw.sz.parsed.value.r > 0.0
    && MIN_MILLIS <= AsI64(raw.time) <= MAX_MILLIS
  }

  /**
   * One trade: price text, size text, price check, size check, then the
   * time, each failing with its own error; "B" is the buy side.
   */
  function TradeOf(raw: RawTrade, symbol: Sym, now: int): (r: Result<TradeUpdate>)
    ensures r.Success? <==> Convertible(raw)
    ensures r.Success? ==>
      && r.value.symbol == symbol && r.value.receivedTime == now
      && r.value.tradeId == raw.tid
      && r.value.price.value == raw.px.parsed.value && r.value.size.value == raw.sz.parsed.value
      && r.value.tradeTime == AsI64(raw.time)
      && (r.value.isBuy <==> raw.side == "B")
  {
    match raw.px.parsed
    case None =>
      Failure("Argus Hyperliquid tradeUpdate conversion error: parsed price " + raw.px.text
        + " cannot be converted to f64. " + ParseFloatError(raw.px.text))
    case Some(p) =>
      match raw.sz.parsed
      case None =>
        Failure("Argus Hyperliquid tradeUpdate conversion error: parsed size " + raw.sz.text
          + " cannot be converted to f64. " + ParseFloatError(raw.sz.text))
      case Some(s) =>
        var price :- PriceFromF64(p);
        var size :- SizeFromF64(s);
        match DateOfU64Millis(raw.time)
        case None => Failure("Invalid trade time")
        case Some(t) => Success(TradeUpdate(symbol, now, raw.tid, price, size, t, raw.side == "B"))
  }

  /** The schema error of a message that is not an array of trades. */
  function SchemaError(e: string): string
  {
    "Argus Hyperliquid tradeUpdate conversion error: cannot convert data into Vec<RawTradeUpdate>. Check schema. " + e
  }

  /**
   * The whole message: `data` is the outcome of decoding the JSON into raw
   * trades, `now` the receive time. The symbol is taken from the first
   * trade's coin and given to every trade.
   */
  function TradesOf(data: Result<seq<RawTrade>>, m: BiMap, now: int): Result<seq<TradeUpdate>>
  {
    match data
    case Failure(e) => Failure(SchemaError(e))
    case Success(raws) =>
      if raws == [] then Failure(EMPTY_TRADES)
      else
        var symbol :- NormalizedSymbol(m, raws[0].coin);
        Collect(raws, raw => TradeOf(raw, symbol, now))
  }

  /** `of_channel_data` as it runs: the checks, then the loop over the raw trades. */
  method OfChannelData(data: Result<seq<RawTrade>>, m: BiMap, now: int) returns (r: Result<seq<TradeUpdate>>)
    ensures r == TradesOf(data, m, now)
  {
    if data.Failure? {
      return Failure(SchemaError(data.error));
    }
    var raws := data.value;
    if |raws| == 0 {
      return Failure(EMPTY_TRADES);
    }
    var symbol := NormalizedSymbol(m, raws[0].coin);
    if symbol.Failure? {
      return Failure(symbol.error);
    }
    r := CollectLoop(raws, raw => TradeOf(raw, symbol.value, now));
  }

  /**
   * A message converts exactly when it decodes to a non-empty array whose
   * first coin is non-empty and every trade converts; then there is one
   * trade per raw trade, in order, all on the first coin's normalised
   * symbol, each keeping its id, price, size, time and side.
   */
  lemma TradesShape(data: Result<seq<RawTrade>>, m: BiMap, now: int)
    ensures var r := TradesOf(data, m, now);
      && (r.Success? <==>
           && data.Success? && data.value != [] && data.value[0].coin != ""
           && forall i :: 0 <= i < |data.value| ==> Convertible(data.value[i]))
      && (r.Success? ==>
           && |r.value| == |data.value|
           && forall i :: 0 <= i < |data.value| ==>
                && r.value[i].symbol == RightOrSelf(m, TradingSymbol(data.value[0].coin))
                && r.value[i].tradeId == data.value[i].tid
                && r.value[i].price.value == data.value[i].px.parsed.value
                && r.value[i].size.value == data.value[i].sz.parsed.value
                && r.value[i].tradeTime == AsI64(data.value[i].time)
                && (r.value[i].isBuy <==> data.value[i].side == "B"))
  {
    if data.Success? && data.value != [] && data.value[0].coin != "" {
      var symbol := RightOrSelf(m, TradingSymbol(data.value[0].coin));
      var f := raw => TradeOf(raw, symbol, now);
      assert forall i :: 0 <= i < |data.value| ==> (f(data.value[i]).Success? <==> Convertible(data.value[i]));
    }
  }

  /** An empty array and a non-array are both errors, each with its own message. */
  lemma TradesErrors(m: BiMap, now: int, e: string)
    ensures TradesOf(Success([]), m, now) == Failure(EMPTY_TRADES)
    ensures TradesOf(Failure(e), m, now) == Failure(SchemaError(e))
  {
  }

  /** One bad trade anywhere fails the batch with that trade's error when the trades before it are fine. */
  lemma {:induction false} BadTradeFailsBatch(raws: seq<RawTrade>, m: BiMap, now: int, k: nat)
    requires k < |raws| && raws[0].coin != ""
    requires !Convertible(raws[k])
    requires forall j :: 0 <= j < k ==> Convertible(raws[j])
    ensures TradesOf(Success(raws), m, now)
         == Failure(TradeOf(raws[k], RightOrSelf(m, TradingSymbol(raws[0].coin)), now).error)
  {
    var symbol := RightOrSelf(m, TradingSymbol(raws[0].coin));
    CollectFailsAt(raws, raw => TradeOf(raw, symbol, now), k);
  }
}
