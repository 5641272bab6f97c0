/**
 * Hyperliquid asset contexts (`PerpAssetContext::of_channel_data` and
 * `SpotAssetContext::of_channel_data`): one record per message, built
 * from a required mark price and a run of optional fields. An absent
 * field stays absent; a present one must convert or the message fails.
 */
module HyperliquidContexts {
  import opened Wrappers
  import opened ArgusTypes
  import opened BiMaps
  import opened Converters

  /** Perp and spot contexts arrive on the same channel. */
  const SUBSCRIPTION_TYPE := "activeAssetCtx"
  const PERP_PAYLOAD_IDENTIFIER := "perp_context"
  const SPOT_PAYLOAD_IDENTIFIER := "spot_context"

  const PERP_ERROR := "Argus Hyperliquid PerpAssetContext conversion error: "
  const SPOT_ERROR := "Argus Hyperliquid SpotAssetContext conversion error: "

  /** What an optional numeric string becomes: absent stays absent, present becomes its parse. */
  function ParsedOr(s: Option<NumText>): Option<F64>
    requires s.Some? ==> s.value.parsed.Some?
  {
    match s
    case None => None
    case Some(t) => Some(t.parsed.value)
  }

  /** An optional price: `Price::from_string` on a present value. */
  function OptionalPrice(s: Option<NumText>): (r: Result<Option<Price>>)
    ensures s.None? ==> r == Success(None)
    ensures s.Some? ==> (r.Success? <==> PriceFromString(s.value).Success?)
    ensures s.Some? && r.Success? ==> r.value == Some(PriceFromString(s.value).value)
  {
    match s
    case None => Success(None)
    case Some(t) =>
      var p :- PriceFromString(t);
      Success(Some(p))
  }

  /** An optional plain number: any `f64` the text parses to, with `what` naming it in the error. */
  function OptionalNumber(s: Option<NumText>, prefix: string, what: string): (r: Result<Option<F64>>)
    ensures r.Success? <==> (s.Some? ==> s.value.parsed.Some?)
    ensures r.Success? ==> r.value == ParsedOr(s)
  {
    match s
    case None => Success(None)
    case Some(t) =>
      match t.parsed
      case None => Failure(prefix + "cannot parse " + what + " " + t.text + ": " + ParseFloatError(t.text))
      case Some(f) => Success(Some(f))
  }

  /** A price text converts exactly when it parses to a finite non-negative number. */
  predicate PriceText(t: NumText)
  {
    t.parsed.Some? && t.parsed.value.Finite? && t.parsed.value.r >= 0.0
  }

  predicate OptionalPriceText(s: Option<NumText>)
  {
    s.Some? ==> PriceText(s.value)
  }

  predicate OptionalParses(s: Option<NumText>)
  {
    s.Some? ==> s.value.parsed.Some?
  }

  // ---------------------------------------------------------------------
  // Perpetuals
  // ---------------------------------------------------------------------

  datatype RawPerpCtx = RawPerpCtx(markPx: NumText, midPx: Option<NumText>, funding: NumText,
                                   openInterest: Option<NumText>, dayNtlVlm: Option<NumText>,
                                   oraclePx: Option<NumText>)

  datatype PerpAssetContext = PerpAssetContext(symbol: Sym, receivedTime: int, markPrice: Price,
                                               midPrice: Option<Price>, fundingRate: F64,
                                               openInterest: Option<F64>, volume24h: Option<F64>,
                                               oraclePrice: Option<Price>)

  /** The fields in source order: coin, mark, mid, funding, open interest, volume, oracle. */
  function PerpOf(data: Result<(string, RawPerpCtx)>, m: BiMap, now: int): Result<seq<PerpAssetContext>>
  {
    match data
    case Failure(e) =>
      Failure(PERP_ERROR + "cannot convert data into RawAssetContext struct. Check schema. " + e)
    case Success((coin, ctx)) =>
      var symbol :- NormalizedSymbol(m, coin);
      var mark :- PriceFromString(ctx.markPx);
      var mid :- OptionalPrice(ctx.midPx);
      var funding :- match ctx.funding.parsed
        case None => Failure(PERP_ERROR + "cannot parse funding rate " + ctx.funding.text + ": "
                             + ParseFloatError(ctx.funding.text))
        case Some(f) => Success(f);
      var openInterest :- OptionalNumber(ctx.openInterest, PERP_ERROR, "open interest");
      var volume :- OptionalNumber(ctx.dayNtlVlm, PERP_ERROR, "volume");
      var oracle :- OptionalPrice(ctx.oraclePx);
      Success([PerpAssetContext(symbol, now, mark, mid, funding, openInterest, volume, oracle)])
  }

  /**
   * A perp context converts exactly when the coin is non-empty, the mark
   * price (and the mid and oracle prices when present) are valid prices,
   * the funding rate parses, and open interest and volume parse when
   * present; the one record then holds each optional field as absent or
   * as its parsed value.
   */
  lemma PerpShape(data: Result<(string, RawPerpCtx)>, m: BiMap, now: int)
    ensures var r := PerpOf(data, m, now);
      && (r.Success? <==>
           && data.Success? && data.value.0 != ""
           && PriceText(data.value.1.markPx) && OptionalPriceText(data.value.1.midPx)
           && data.value.1.funding.parsed.Some?
           && OptionalParses(data.value.1.openInterest) && OptionalParses(data.value.1.dayNtlVlm)
           && OptionalPriceText(data.value.1.oraclePx))
      && (r.Success? ==>
           && |r.value| == 1
           && r.value[0].symbol == RightOrSelf(m, TradingSymbol(data.value.0))
           && r.value[0].markPrice.value == data.value.1.markPx.parsed.value
           && r.value[0].fundingRate == data.value.1.funding.parsed.value
           && (r.value[0].midPrice.Some? <==> data.value.1.midPx.Some?)
           && (r.value[0].midPrice.Some? ==> r.value[0].midPrice.value.value == data.value.1.midPx.value.parsed.value)
           && (r.value[0].oraclePrice.Some? <==> data.value.1.oraclePx.Some?)
           && (r.value[0].oraclePrice.Some? ==>
                 r.value[0].oraclePrice.value.value == data.value.1.oraclePx.value.parsed.value)
           && r.value[0].openInterest == ParsedOr(data.value.1.openInterest)
           && r.value[0].volume24h == ParsedOr(data.value.1.dayNtlVlm))
  {
  }

  // ---------------------------------------------------------------------
  // Spot
  // ---------------------------------------------------------------------

  datatype RawSpotCtx = RawSpotCtx(markPx: NumText, midPx: Option<NumText>, dayNtlVlm: Option<NumText>,
                                   circulatingSupply: Option<NumText>, totalSupply: Option<NumText>)

  datatype SpotAssetContext = SpotAssetContext(symbol: Sym, receivedTime: int, markPrice: Price,
                                               midPrice: Option<Price>, volume24h: Option<F64>,
                                               circulatingSupply: Option<F64>, totalSupply: Option<F64>)

  /** The fields in source order: coin, mark, mid, volume, circulating supply, total supply. */
  function SpotOf(data: Result<(string, RawSpotCtx)>, m: BiMap, now: int): Result<seq<SpotAssetContext>>
  {
    match data
    case Failure(e) =>
      Failure(SPOT_ERROR + "cannot convert data into RawSpotAssetContext struct. Check schema. " + e)
    case Success((coin, ctx)) =>
      var symbol :- NormalizedSymbol(m, coin);
      var mark :- PriceFromString(ctx.markPx);
      var mid :- OptionalPrice(ctx.midPx);
      var volume :- OptionalNumber(ctx.dayNtlVlm, SPOT_ERROR, "volume");
      var circulating :- OptionalNumber(ctx.circulatingSupply, SPOT_ERROR, "circulating supply");
      var total :- OptionalNumber(ctx.totalSupply, SPOT_ERROR, "total supply");
      Success([SpotAssetContext(symbol, now, mark, mid, volume, circulating, total)])
  }

  /**
   * A spot context converts exactly when the coin is non-empty, the mark
   * price and a present mid price are valid, and the other optional
   * fields parse when present; the one record holds them as parsed.
   */
  lemma SpotShape(data: Result<(string, RawSpotCtx)>, m: BiMap, now: int)
    ensures var r := SpotOf(data, m, now);
      && (r.Success? <==>
           && data.Success? && data.value.0 != ""
           && PriceText(data.value.1.markPx) && OptionalPriceText(data.value.1.midPx)
           && OptionalParses(data.value.1.dayNtlVlm)
           && OptionalParses(data.value.1.circulatingSupply) && OptionalParses(data.value.1.totalSupply))
      && (r.Success? ==>
           && |r.value| == 1
           && r.value[0].symbol == RightOrSelf(m, TradingSymbol(data.value.0))
           && r.value[0].markPrice.value == data.value.1.markPx.parsed.value
           && (r.value[0].midPrice.Some? <==> data.value.1.midPx.Some?)
           && (r.value[0].midPrice.Some? ==> r.value[0].midPrice.value.value == data.value.1.midPx.value.parsed.value)
           && r.value[0].volume24h == ParsedOr(data.value.1.dayNtlVlm)
           && r.value[0].circulatingSupply == ParsedOr(data.value.1.circulatingSupply)
           && r.value[0].totalSupply == ParsedOr(data.value.1.totalSupply))
  {
  }
}
