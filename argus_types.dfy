/**
 * The validated market-data scalars of argus: a non-empty trading symbol,
 * a finite non-negative price and a finite positive trade size.
 *
 * An `f64` is one of: a finite value (a real), an infinity, or NaN; the
 * arithmetic of floats is not needed. Text-to-float parsing belongs to the
 * Rust standard library and is not modelled: a numeric string arrives
 * together with the outcome of `str::parse::<f64>` on it.
 */
module ArgusTypes {
  import opened Wrappers

  datatype F64 = Finite(r: real) | Inf(negative: bool) | NaN

  predicate IsFinite(f: F64)
  {
    f.Finite?
  }

  /** `f < 0.0`: false for NaN, true for negative infinity. */
  predicate LessThanZero(f: F64)
  {
    match f
    case Finite(r) => r < 0.0
    case Inf(neg) => neg
    case NaN => false
  }

  /** `f <= 0.0`. */
  predicate AtMostZero(f: F64)
  {
    match f
    case Finite(r) => r <= 0.0
    case Inf(neg) => neg
    case NaN => false
  }

  /** A numeric string together with what `parse::<f64>` makes of it (nothing when it fails). */
  datatype NumText = NumText(text: string, parsed: Option<F64>)

  /** The `Display` of the standard library's `ParseFloatError`. */
  function ParseFloatError(text: string): string
  {
    if text == "" then "cannot parse float from empty string" else "invalid float literal"
  }

  datatype TradingSymbol = TradingSymbol(name: string)

  /** `TradingSymbol::from_str`: fails exactly for the empty string; `to_string` gives the input back. */
  function SymbolFromStr(s: string): (r: Result<TradingSymbol>)
    ensures r.Success? <==> s != ""
    ensures r.Success? ==> r.value.name == s
    ensures r.Failure? ==> r.error == "TradingSymbol cannot be empty"
  {
    if s == "" then Failure("TradingSymbol cannot be empty") else Success(TradingSymbol(s))
  }

  datatype Price = Price(value: F64)

  /** `Price::from_f64`: finite and not negative. */
  function PriceFromF64(f: F64): (r: Result<Price>)
    ensures r.Success? <==> f.Finite? && f.r >= 0.0
    ensures r.Success? ==> r.value.value == f
  {
    if !IsFinite(f) || LessThanZero(f) then Failure("Price needs to be finite and nonnegative")
    else Success(Price(f))
  }

  /** `Price::from_string`: a parse failure names the text; otherwise `from_f64`. */
  function PriceFromString(s: NumText): (r: Result<Price>)
    ensures s.parsed.Some? ==> r == PriceFromF64(s.parsed.value)
    ensures s.parsed.None? ==> r.Failure?
  {
    match s.parsed
    case None =>
      Failure("Argus price conversion error: cannot interpret string " + s.text + " as price: "
        + ParseFloatError(s.text))
    case Some(f) => PriceFromF64(f)
  }

  datatype TradeSize = TradeSize(value: F64)

  /** `TradeSize::from_f64`: finite and strictly positive. */
  function SizeFromF64(f: F64): (r: Result<TradeSize>)
    ensures r.Success? <==> f.Finite? && f.r > 0.0
    ensures r.Success? ==> r.value.value == f
  {
    if !IsFinite(f) || AtMostZero(f) then Failure("TradeSize needs to be finite and positive")
    else Success(TradeSize(f))
  }

  /** `TradeSize::from_string`. */
  function SizeFromString(s: NumText): (r: Result<TradeSize>)
    ensures s.parsed.Some? ==> r == SizeFromF64(s.parsed.value)
    ensures s.parsed.None? ==> r.Failure?
  {
    match s.parsed
    case None =>
      Failure("Argus price conversion error: cannot interpret string " + s.text + " as trade size: "
        + ParseFloatError(s.text))
    case Some(f) => SizeFromF64(f)
  }

  /** Every valid size is a valid price, but zero is a price and not a size. */
  lemma SizeIsPrice(f: F64)
    ensures SizeFromF64(f).Success? ==> PriceFromF64(f).Success?
    ensures PriceFromF64(Finite(0.0)).Success? && SizeFromF64(Finite(0.0)).Failure?
  {
  }

  /** NaN and both infinities are rejected by both constructors. */
  lemma NonFiniteRejected(f: F64)
    requires !f.Finite?
    ensures PriceFromF64(f).Failure? && SizeFromF64(f).Failure?
  {
  }
}
