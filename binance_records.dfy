/**
 * The Binance message converters (`of_json_bytes` of the trade, best
 * bid/offer and book-diff streams, and of the REST depth snapshot). Each
 * takes the message text together with the outcome of decoding it into
 * the raw fields, and the receive time.
 */
module BinanceRecords {
  import opened Wrappers
  import opened BoundedInts
  import opened ArgusTypes
  import opened UtcTime
  import opened Converters

  // ---------------------------------------------------------------------
  // Trades
  // ---------------------------------------------------------------------

  const TRADE_SUFFIX := "@trade"
  const TRADE_PAYLOAD := "last_trade"

  /** The trade fields; `T` (the trade time) is decoded but never read. */
  datatype RawTrade = RawTrade(symbol: string, eventTimeMs: u64, tradeId: u64, price: NumText, quantity: NumText,
                               buyerOrderId: u64, sellerOrderId: u64, tradeTimeMs: u64, isBuyerMaker: bool)

  datatype TradeUpdate = TradeUpdate(symbol: TradingSymbol, eventTime: int, receivedTime: int, tradeId: u64,
                                     price: Price, size: TradeSize, buyerOrderId: u64, sellerOrderId: u64,
                                     tradeTime: int, isBidQuote: bool)

  function TradeSchemaError(msg: string, e: string): string
  {
    "Argus Binance tradeUpdate conversion error: cannot convert " + msg + " into RawTradeUpdate struct. Check schema. " + e
  }

  function PriceParseError(raw: RawTrade): string
  {
    "Argus Binance tradeUpdate conversion error: parsed price " + raw.price.text + " cannot be converted to f64. "
      + ParseFloatError(raw.price.text)
  }

  /** The size error as written: it names the price text, with the parse error of the quantity. */
  function SizeParseErrorAsWritten(raw: RawTrade): string
  {
    "Argus Binance tradeUpdate conversion error: parsed size " + raw.price.text + " cannot be cnoverted to f64. "
      + ParseFloatError(raw.quantity.text)
  }

  /** The size error naming the quantity text that failed to parse. */
  function SizeParseError(raw: RawTrade): string
  {
    "Argus Binance tradeUpdate conversion error: parsed size " + raw.quantity.text + " cannot be cnoverted to f64. "
      + ParseFloatError(raw.quantity.text)
  }

  /**
   * The conversion with a given size-parse error text: price text, size
   * text, symbol, event time, price check, size check. The event time is
   * `expect`ed; its panic is a failure here. The trade time is the event
   * time again, so it cannot fail once the event time has not.
   */
  function TradeWith(msg: string, decoded: Result<RawTrade>, now: int, sizeError: RawTrade -> string)
    : Result<TradeUpdate>
  {
    match decoded
    case Failure(e) => Failure(TradeSchemaError(msg, e))
    case Success(raw) =>
      match raw.price.parsed
      case None => Failure(PriceParseError(raw))
      case Some(p) =>
        match raw.quantity.parsed
        case None => Failure(sizeError(raw))
        case Some(q) =>
          var symbol :- SymbolFromStr(raw.symbol);
          match DateOfU64Millis(raw.eventTimeMs)
          case None => Failure("Invalid event time")
          case Some(t) =>
            var price :- PriceFromF64(p);
            var size :- SizeFromF64(q);
            Success(TradeUpdate(symbol, t, now, raw.tradeId, price, size, raw.buyerOrderId, raw.sellerOrderId,
                                t, raw.isBuyerMaker))
  }

  /** `TradeUpdate::of_json_bytes` as written. */
  function TradeOfAsWritten(msg: string, decoded: Result<RawTrade>, now: int): Result<TradeUpdate>
  {
    TradeWith(msg, decoded, now, SizeParseErrorAsWritten)
  }

  /** `TradeUpdate::of_json_bytes` with the size error naming the quantity. */
  function TradeOf(msg: string, decoded: Result<RawTrade>, now: int): Result<TradeUpdate>
  {
    TradeWith(msg, decoded, now, SizeParseError)
  }

  /**
   * A valid price and an unparsable quantity: the as-written error shows
   * the price text, so it is not the error that names the bad quantity
   * whenever the two texts differ.
   */
  lemma SizeErrorShowsPrice(msg: string, raw: RawTrade, now: int)
    requires raw.price.parsed.Some? && raw.quantity.parsed.None? && raw.price.text != raw.quantity.text
    ensures TradeOfAsWritten(msg, Success(raw), now) == Failure(SizeParseErrorAsWritten(raw))
    ensures SizeParseErrorAsWritten(raw) != SizeParseError(raw)
  {
    var p := "Argus Binance tradeUpdate conversion error: parsed size ";
    var tail := " cannot be cnoverted to f64. " + ParseFloatError(raw.quantity.text);
    var a, b := raw.price.text, raw.quantity.text;
    assert SizeParseErrorAsWritten(raw) == p + a + tail;
    assert SizeParseError(raw) == p + b + tail;
    if |a| == |b| {
      var k :| 0 <= k < |a| && a[k] != b[k];
      assert (p + a + tail)[|p| + k] == a[k];
      assert (p + b + tail)[|p| + k] == b[k];
    } else {
      assert |p + a + tail| != |p + b + tail|;
    }
  }

  /** The two versions differ only in the text of the size error. */
  lemma SizeErrorOnlyDifference(msg: string, decoded: Result<RawTrade>, now: int)
    ensures TradeOf(msg, decoded, now).Success? <==> TradeOfAsWritten(msg, decoded, now).Success?
    ensures TradeOf(msg, decoded, now).Success? ==> TradeOf(msg, decoded, now) == TradeOfAsWritten(msg, decoded, now)
    ensures decoded.Success? && decoded.value.price.parsed.Some? && decoded.value.quantity.parsed.None? ==>
      TradeOf(msg, decoded, now) == Failure(SizeParseError(decoded.value))
  {
  }

  /** A raw trade converts exactly when both numbers pass validation, the symbol is non-empty and the event time is a date. */
  predicate TradeConvertible(raw: RawTrade)
  {
    && raw.price.parsed.Some? && raw.price.parsed.value.Finite? && raw.price.parsed.value.r >= 0.0
    && raw.quantity.parsed.Some? && raw.quantity.parsed.value.Finite? && raw.quantity.parsed.value.r > 0.0
    && raw.symbol != "" && DateOfU64Millis(raw.eventTimeMs).Some?
  }

  /**
   * The trade carries the ids unchanged, the maker flag as the quote side,
   * and the event time as both its event and its trade time, whatever `T` says.
   */
  lemma TradeShape(msg: string, decoded: Result<RawTrade>, now: int)
    ensures var r := TradeOf(msg, decoded, now);
      && (r.Success? <==> decoded.Success? && TradeConvertible(decoded.value))
      && (r.Success? ==>
           && r.value.symbol == TradingSymbol(decoded.value.symbol)
           && r.value.eventTime == AsI64(decoded.value.eventTimeMs)
           && r.value.tradeTime == r.value.eventTime
           && r.value.receivedTime == now
           && r.value.tradeId == decoded.value.tradeId
           && r.value.buyerOrderId == decoded.value.buyerOrderId
           && r.value.sellerOrderId == decoded.value.sellerOrderId
           && r.value.price.value == decoded.value.price.parsed.value
           && r.value.size.value == decoded.value.quantity.parsed.value
           && r.value.isBidQuote == decoded.value.isBuyerMaker)
  {
  }

  // ---------------------------------------------------------------------
  // Best bid and offer
  // ---------------------------------------------------------------------

  const BBO_SUFFIX := "@bookTicker"
  const BBO_PAYLOAD := "bbo"

  datatype RawBbo = RawBbo(symbol: string, updateId: u64, bidPrice: NumText, bidSize: NumText,
                           askPrice: NumText, askSize: NumText)

  datatype BboUpdate = BboUpdate(symbol: TradingSymbol, receivedTime: int, updateId: u64,
                                 bidPrice: Price, bidSize: TradeSize, askPrice: Price, askSize: TradeSize)

  /** The schema error of a quote reuses the trade wording. */
  function BboSchemaError(msg: string, e: string): string
  {
    "Argus Binance tradeUpdate conversion error: cannot convert " + msg + " into RawTradeUpdate struct. Check schema. " + e
  }

  /** `BboUpdate::of_json_bytes`: symbol, then bid price, bid size, ask price, ask size. */
  function BboOf(msg: string, decoded: Result<RawBbo>, now: int): Result<BboUpdate>
  {
    match decoded
    case Failure(e) => Failure(BboSchemaError(msg, e))
    case Success(raw) =>
      var symbol :- SymbolFromStr(raw.symbol);
      var bidPrice :- PriceFromString(raw.bidPrice);
      var bidSize :- SizeFromString(raw.bidSize);
      var askPrice :- PriceFromString(raw.askPrice);
      var askSize :- SizeFromString(raw.askSize);
      Success(BboUpdate(symbol, now, raw.updateId, bidPrice, bidSize, askPrice, askSize))
  }

  predicate PriceText(t: NumText)
  {
    t.parsed.Some? && t.parsed.value.Finite? && t.parsed.value.r >= 0.0
  }

  predicate SizeText(t: NumText)
  {
    t.parsed.Some? && t.parsed.value.Finite? && t.parsed.value.r > 0.0
  }

  /** A quote converts exactly when the symbol is non-empty, both prices are at least 0 and both sizes above 0. */
  lemma BboShape(msg: string, decoded: Result<RawBbo>, now: int)
    ensures var r := BboOf(msg, decoded, now);
      && (r.Success? <==>
           && decoded.Success? && decoded.value.symbol != ""
           && PriceText(decoded.value.bidPrice) && SizeText(decoded.value.bidSize)
           && PriceText(decoded.value.askPrice) && SizeText(decoded.value.askSize))
      && (r.Success? ==>
           && r.value.symbol == TradingSymbol(decoded.value.symbol)
           && r.value.updateId == decoded.value.updateId
           && r.value.bidPrice.value == decoded.value.bidPrice.parsed.value
           && r.value.bidSize.value == decoded.value.bidSize.parsed.value
           && r.value.askPrice.value == decoded.value.askPrice.parsed.value
           && r.value.askSize.value == decoded.value.askSize.parsed.value)
  {
  }

  // ---------------------------------------------------------------------
  // Book diffs and depth snapshots
  // ---------------------------------------------------------------------

  const DIFF_SUFFIX := "@depth@100ms"
  const DIFF_PAYLOAD := "book_diff"
  const DEPTH_REST_SUFFIX := "depth"

  /** A level as sent: `[price, quantity]`. */
  type RawLevel = (NumText, NumText)

  datatype RawDiff = RawDiff(symbol: string, eventTimeMs: u64, firstUpdateId: u64, finalUpdateId: u64,
                             bids: seq<RawLevel>, asks: seq<RawLevel>)

  /** A diff level keeps a plain number as its size: 0 clears the level. */
  datatype DiffUpdate = DiffUpdate(symbol: TradingSymbol, eventTime: int, receivedTime: int,
                                   firstUpdateId: u64, finalUpdateId: u64,
                                   bids: seq<(Price, F64)>, asks: seq<(Price, F64)>)

  /** `parse_float_from_string`: any `f64`, with an error that calls the text a price. */
  function ParseFloat(t: NumText): (r: Result<F64>)
    ensures r.Success? <==> t.parsed.Some?
    ensures r.Success? ==> r.value == t.parsed.value
  {
    match t.parsed
    case None => Failure("Argus float parsing error: cannot interpret string " + t.text + " as price: "
                         + ParseFloatError(t.text))
    case Some(f) => Success(f)
  }

  function DiffLevelOf(l: RawLevel): (r: Result<(Price, F64)>)
    ensures r.Success? <==> PriceText(l.0) && l.1.parsed.Some?
    ensures r.Success? ==> r.value.0.value == l.0.parsed.value && r.value.1 == l.1.parsed.value
  {
    var price :- PriceFromString(l.0);
    var size :- ParseFloat(l.1);
    Success((price, size))
  }

  /** `OrderbookDiffUpdate::of_json_bytes`: bids, asks, symbol, event time. */
  function DiffOf(msg: string, decoded: Result<RawDiff>, now: int): Result<DiffUpdate>
  {
    match decoded
    case Failure(e) =>
      Failure("Argus Binance OrderbookDiffUpdate conversion error: cannot convert " + msg
        + " into RawOrderbookDiffUpdate struct. Check schema. " + e)
    case Success(raw) =>
      var bids :- Collect(raw.bids, DiffLevelOf);
      var asks :- Collect(raw.asks, DiffLevelOf);
      var symbol :- SymbolFromStr(raw.symbol);
      match DateOfU64Millis(raw.eventTimeMs)
      case None => Failure("Invalid event time")
      case Some(t) => Success(DiffUpdate(symbol, t, now, raw.firstUpdateId, raw.finalUpdateId, bids, asks))
  }

  /** The conversion as it runs, with its two level loops. */
  method DiffOfJsonBytes(msg: string, decoded: Result<RawDiff>, now: int) returns (r: Result<DiffUpdate>)
    ensures r == DiffOf(msg, decoded, now)
  {
    if decoded.Failure? {
      return Failure("Argus Binance OrderbookDiffUpdate conversion error: cannot convert " + msg
        + " into RawOrderbookDiffUpdate struct. Check schema. " + decoded.error);
    }
    var raw := decoded.value;
    var bids := CollectLoop(raw.bids, DiffLevelOf);
    if bids.Failure? {
      return Failure(bids.error);
    }
    var asks := CollectLoop(raw.asks, DiffLevelOf);
    if asks.Failure? {
      return Failure(asks.error);
    }
    var symbol := SymbolFromStr(raw.symbol);
    if symbol.Failure? {
      return Failure(symbol.error);
    }
    var t := DateOfU64Millis(raw.eventTimeMs);
    if t.None? {
      return Failure("Invalid event time");
    }
    return Success(DiffUpdate(symbol.value, t.value, now, raw.firstUpdateId, raw.finalUpdateId, bids.value, asks.value));
  }

  /**
   * A diff converts exactly when every price is valid, every size parses
   * (zero and negative sizes included), the symbol is non-empty and the
   * event time is a date; levels keep their order and count and the
   * update ids are copied.
   */
  lemma DiffShape(msg: string, decoded: Result<RawDiff>, now: int)
    ensures var r := DiffOf(msg, decoded, now);
      && (r.Success? <==>
           && decoded.Success?
           && (forall i :: 0 <= i < |decoded.value.bids| ==>
                 PriceText(decoded.value.bids[i].0) && decoded.value.bids[i].1.parsed.Some?)
           && (forall i :: 0 <= i < |decoded.value.asks| ==>
                 PriceText(decoded.value.asks[i].0) && decoded.value.asks[i].1.parsed.Some?)
           && decoded.value.symbol != "" && DateOfU64Millis(decoded.value.eventTimeMs).Some?)
      && (r.Success? ==>
           && r.value.firstUpdateId == decoded.value.firstUpdateId
           && r.value.finalUpdateId == decoded.value.finalUpdateId
           && |r.value.bids| == |decoded.value.bids| && |r.value.asks| == |decoded.value.asks|
           && (forall i :: 0 <= i < |decoded.value.bids| ==>
                 r.value.bids[i].0.value == decoded.value.bids[i].0.parsed.value
                 && r.value.bids[i].1 == decoded.value.bids[i].1.parsed.value)
           && (forall i :: 0 <= i < |decoded.value.asks| ==>
                 r.value.asks[i].0.value == decoded.value.asks[i].0.parsed.value
                 && r.value.asks[i].1 == decoded.value.asks[i].1.parsed.value))
  {
  }

  /** A zero size is a valid diff level (a cleared level) but not a valid depth level. */
  lemma ZeroSizeClearsOnlyInDiffs(price: NumText, zero: NumText)
    requires PriceText(price) && zero.parsed == Some(Finite(0.0))
    ensures DiffLevelOf((price, zero)).Success?
    ensures DepthLevelOf((price, zero)).Failure?
  {
  }

  datatype RawDepth = RawDepth(lastUpdateId: u64, bids: seq<RawLevel>, asks: seq<RawLevel>)

  /** A depth level: `PriceLevel`, a price and a strictly positive size. */
  type PriceLevel = (Price, TradeSize)

  datatype DepthUpdate = DepthUpdate(symbol: TradingSymbol, requestTime: int, receivedTime: int, lastUpdateId: u64,
                                     bidLevels: seq<PriceLevel>, askLevels: seq<PriceLevel>)

  function DepthLevelOf(l: RawLevel): (r: Result<PriceLevel>)
    ensures r.Success? <==> PriceText(l.0) && SizeText(l.1)
    ensures r.Success? ==> r.value.0.value == l.0.parsed.value && r.value.1.value == l.1.parsed.value
  {
    var price :- PriceFromString(l.0);
    var size :- SizeFromString(l.1);
    Success((price, size))
  }

  /** `OrderbookDepthUpdate::of_json_bytes`: bids, asks, then the symbol given by the caller. */
  function DepthOf(msg: string, decoded: Result<RawDepth>, symbol: string, requestTime: int, now: int)
    : Result<DepthUpdate>
  {
    match decoded
    case Failure(e) =>
      Failure("Argus Binance OrderbookDepthUpdate conversion error: cannot convert " + msg
        + " into RawOrderbookDepthUpdate struct. Check schema. " + e)
    case Success(raw) =>
      var bids :- Collect(raw.bids, DepthLevelOf);
      var asks :- Collect(raw.asks, DepthLevelOf);
      var sym :- SymbolFromStr(symbol);
      Success(DepthUpdate(sym, requestTime, now, raw.lastUpdateId, bids, asks))
  }

  /** The conversion as it runs, with its two level loops. */
  method DepthOfJsonBytes(msg: string, decoded: Result<RawDepth>, symbol: string, requestTime: int, now: int)
    returns (r: Result<DepthUpdate>)
    ensures r == DepthOf(msg, decoded, symbol, requestTime, now)
  {
    if decoded.Failure? {
      return Failure("Argus Binance OrderbookDepthUpdate conversion error: cannot convert " + msg
        + " into RawOrderbookDepthUpdate struct. Check schema. " + decoded.error);
    }
    var bids := CollectLoop(decoded.value.bids, DepthLevelOf);
    if bids.Failure? {
      return Failure(bids.error);
    }
    var asks := CollectLoop(decoded.value.asks, DepthLevelOf);
    if asks.Failure? {
      return Failure(asks.error);
    }
    var sym := SymbolFromStr(symbol);
    if sym.Failure? {
      return Failure(sym.error);
    }
    return Success(DepthUpdate(sym.value, requestTime, now, decoded.value.lastUpdateId, bids.value, asks.value));
  }

  /**
   * A snapshot converts exactly when every level has a valid price and a
   * positive size and the symbol argument is non-empty; every level keeps
   * its parsed price and size, in order, and the symbol and the request
   * time come from the caller.
   */
  lemma DepthShape(msg: string, decoded: Result<RawDepth>, symbol: string, requestTime: int, now: int)
    ensures var r := DepthOf(msg, decoded, symbol, requestTime, now);
      && (r.Success? <==>
           && decoded.Success?
           && (forall i :: 0 <= i < |decoded.value.bids| ==>
                 PriceText(decoded.value.bids[i].0) && SizeText(decoded.value.bids[i].1))
           && (forall i :: 0 <= i < |decoded.value.asks| ==>
                 PriceText(decoded.value.asks[i].0) && SizeText(decoded.value.asks[i].1))
           && symbol != "")
      && (r.Success? ==>
           && r.value.symbol == TradingSymbol(symbol) && r.value.requestTime == requestTime
           && r.value.lastUpdateId == decoded.value.lastUpdateId
           && |r.value.bidLevels| == |decoded.value.bids| && |r.value.askLevels| == |decoded.value.asks|
           && (forall i :: 0 <= i < |decoded.value.bids| ==>
                 r.value.bidLevels[i].0.value == decoded.value.bids[i].0.parsed.value
                 && r.value.bidLevels[i].1.value == decoded.value.bids[i].1.parsed.value)
           && (forall i :: 0 <= i < |decoded.value.asks| ==>
                 r.value.askLevels[i].0.value == decoded.value.asks[i].0.parsed.value
                 && r.value.askLevels[i].1.value == decoded.value.asks[i].1.parsed.value))
  {
  }

  // ---------------------------------------------------------------------
  // Depth display
  // ---------------------------------------------------------------------

  /** One row of the depth table: the bid and the ask at that depth, either possibly blank. */
  datatype Row = Row(bid: Option<PriceLevel>, ask: Option<PriceLevel>)

  function LevelAt(levels: seq<PriceLevel>, i: nat): Option<PriceLevel>
  {
    if i < |levels| then Some(levels[i]) else None
  }

  /**
   * The rows the `Display` of a depth snapshot prints below its header, one
   * per depth up to the longer side (number formatting is not modelled).
   */
  method DisplayRows(d: DepthUpdate) returns (rows: seq<Row>)
    ensures |rows| == if |d.bidLevels| >= |d.askLevels| then |d.bidLevels| else |d.askLevels|
    ensures forall i :: 0 <= i < |rows| ==> rows[i] == Row(LevelAt(d.bidLevels, i), LevelAt(d.askLevels, i))
  {
    var maxRows := if |d.bidLevels| >= |d.askLevels| then |d.bidLevels| else |d.askLevels|;
    rows := [];
    for i := 0 to maxRows
      invariant |rows| == i
      invariant forall k :: 0 <= k < i ==> rows[k] == Row(LevelAt(d.bidLevels, k), LevelAt(d.askLevels, k))
    {
      rows := rows + [Row(LevelAt(d.bidLevels, i), LevelAt(d.askLevels, i))];
    }
  }

  /** The bid column of the table, blanks dropped. */
  function Bids(rows: seq<Row>): seq<PriceLevel>
  {
    if rows == [] then []
    else (if rows[0].bid.Some? then [rows[0].bid.value] else []) + Bids(rows[1..])
  }

  /** Reading the bid column of the rows back, blanks skipped, gives every bid level in order. */
  lemma {:induction false} RowsShowAllBids(levels: seq<PriceLevel>, rows: seq<Row>, from: nat)
    requires |levels| <= from + |rows|
    requires forall i :: 0 <= i < |rows| ==> rows[i].bid == LevelAt(levels, from + i)
    ensures Bids(rows) == if from < |levels| then levels[from..] else []
    decreases |rows|
  {
    if rows != [] {
      RowsShowAllBids(levels, rows[1..], from + 1);
      if from < |levels| {
        assert levels[from..] == [levels[from]] + levels[from + 1..];
      }
    }
  }
}
