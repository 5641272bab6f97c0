/**
 * Hyperliquid L2 book snapshots (`OrderbookSnapshot::of_channel_data`)
 * and the list columns of their Arrow record batch: every level of every
 * snapshot laid end to end, with offsets marking where each snapshot's
 * levels begin and end.
 */
module HyperliquidOrderbook {
  import opened Wrappers
  import opened BoundedInts
  import opened ArgusTypes
  import opened BiMaps
  import opened UtcTime
  import opened Converters

  const SUBSCRIPTION_TYPE := "l2Book"
  const PAYLOAD_IDENTIFIER := "orderbook"

  /** A level as sent: price and size strings and the number of orders. */
  datatype WsLevel = WsLevel(px: NumText, sz: NumText, n: u32)

  /** A converted level: (price, size, number of orders). */
  datatype Level = Level(price: Price, size: TradeSize, orders: u32)

  /** The decoded message; `levels[0]` are the bids and `levels[1]` the asks. */
  datatype RawOrderbook = RawOrderbook(coin: string, time: u64, bids: seq<WsLevel>, asks: seq<WsLevel>)

  datatype OrderbookSnapshot = OrderbookSnapshot(symbol: Sym, receivedTime: int, time: int,
                                                 bidLevels: seq<Level>, askLevels: seq<Level>)

  /** A level converts exactly when its price is a finite non-negative number and its size a finite positive one. */
  predicate ValidLevel(l: WsLevel)
  {
    && l.px.parsed.Some? && l.px.parsed.value.Finite? && l.px.parsed.value.r >= 0.0
    && l.sz.parsed.Some? && l.sz.parsed.value.Finite? && l.sz.parsed.value.r > 0.0
  }

  /** `Price::from_string`, `TradeSize::from_string`, and the order count as it is. */
  function LevelOf(l: WsLevel): (r: Result<Level>)
    ensures r.Success? <==> ValidLevel(l)
    ensures r.Success? ==>
      r.value.price.value == l.px.parsed.value && r.value.size.value == l.sz.parsed.value && r.value.orders == l.n
  {
    var price :- PriceFromString(l.px);
    var size :- SizeFromString(l.sz);
    Success(Level(price, size, l.n))
  }

  function SchemaError(e: string): string
  {
    "Argus Hyperliquid OrderbookSnapshot conversion error: cannot convert data into RawOrderbookSnapshot struct. Check schema. "
      + e
  }

  /** The message: symbol, bid levels, ask levels, then the time; a one-element list on success. */
  function SnapshotOf(data: Result<RawOrderbook>, m: BiMap, now: int): Result<seq<OrderbookSnapshot>>
  {
    match data
    case Failure(e) => Failure(SchemaError(e))
    case Success(raw) =>
      var symbol :- NormalizedSymbol(m, raw.coin);
      var bids :- Collect(raw.bids, LevelOf);
      var asks :- Collect(raw.asks, LevelOf);
      match DateOfU64Millis(raw.time)
      case None => Failure("Invalid timestamp")
      case Some(t) => Success([OrderbookSnapshot(symbol, now, t, bids, asks)])
  }

  /** `of_channel_data` as it runs, with its two level loops. */
  method OfChannelData(data: Result<RawOrderbook>, m: BiMap, now: int) returns (r: Result<seq<OrderbookSnapshot>>)
    ensures r == SnapshotOf(data, m, now)
  {
    SnapshotOfSteps(data, m, now);
    if data.Failure? {
      return Failure(SchemaError(data.error));
    }
    var raw := data.value;
    var symbol := NormalizedSymbol(m, raw.coin);
    if symbol.Failure? {
      return Failure(symbol.error);
    }
    var bids := CollectLoop(raw.bids, LevelOf);
    if bids.Failure? {
      return Failure(bids.error);
    }
    var asks := CollectLoop(raw.asks, LevelOf);
    if asks.Failure? {
      return Failure(asks.error);
    }
    var t := DateOfU64Millis(raw.time);
    if t.None? {
      return Failure("Invalid timestamp");
    }
    return Success([OrderbookSnapshot(symbol.value, now, t.value, bids.value, asks.value)]);
  }

  /** `SnapshotOf` as the chain of checks the method makes, one early return per failure. */
  lemma SnapshotOfSteps(data: Result<RawOrderbook>, m: BiMap, now: int)
    ensures SnapshotOf(data, m, now) ==
      if data.Failure? then Failure(SchemaError(data.error))
      else if NormalizedSymbol(m, data.value.coin).Failure? then Failure(NormalizedSymbol(m, data.value.coin).error)
      else if Collect(data.value.bids, LevelOf).Failure? then Failure(Collect(data.value.bids, LevelOf).error)
      else if Collect(data.value.asks, LevelOf).Failure? then Failure(Collect(data.value.asks, LevelOf).error)
      else if DateOfU64Millis(data.value.time).None? then Failure("Invalid timestamp")
      else Success([OrderbookSnapshot(NormalizedSymbol(m, data.value.coin).value, now,
                                      DateOfU64Millis(data.value.time).value,
                                      Collect(data.value.bids, LevelOf).value, Collect(data.value.asks, LevelOf).value)])
  {
  }

  /**
   * A snapshot converts exactly when the coin is non-empty, every level on
   * both sides is valid and the time is a date; it is then the only
   * element, on the normalised coin, with bids from the first list and asks
   * from the second, in order, each level keeping its order count.
   */
  lemma SnapshotShape(data: Result<RawOrderbook>, m: BiMap, now: int)
    ensures var r := SnapshotOf(data, m, now);
      && (r.Success? <==>
           && data.Success? && data.value.coin != ""
           && (forall i :: 0 <= i < |data.value.bids| ==> ValidLevel(data.value.bids[i]))
           && (forall i :: 0 <= i < |data.value.asks| ==> ValidLevel(data.value.asks[i]))
           && DateOfU64Millis(data.value.time).Some?)
      && (r.Success? ==>
           && |r.value| == 1
           && r.value[0].symbol == RightOrSelf(m, TradingSymbol(data.value.coin))
           && r.value[0].time == AsI64(data.value.time)
           && |r.value[0].bidLevels| == |data.value.bids| && |r.value[0].askLevels| == |data.value.asks|
           && (forall i :: 0 <= i < |data.value.bids| ==>
                 && r.value[0].bidLevels[i].price.value == data.value.bids[i].px.parsed.value
                 && r.value[0].bidLevels[i].size.value == data.value.bids[i].sz.parsed.value
                 && r.value[0].bidLevels[i].orders == data.value.bids[i].n)
           && (forall i :: 0 <= i < |data.value.asks| ==>
                 && r.value[0].askLevels[i].price.value == data.value.asks[i].px.parsed.value
                 && r.value[0].askLevels[i].size.value == data.value.asks[i].sz.parsed.value
                 && r.value[0].askLevels[i].orders == data.value.asks[i].n))
  {
  }

  // ---------------------------------------------------------------------
  // List columns of `to_record_batch`
  // ---------------------------------------------------------------------

  /** The levels of all records, record after record. */
  function Concat(levels: seq<seq<Level>>): seq<Level>
  {
    if levels == [] then [] else Concat(levels[..|levels| - 1]) + levels[|levels| - 1]
  }

  function TotalLevels(levels: seq<seq<Level>>): nat
  {
    if levels == [] then 0 else TotalLevels(levels[..|levels| - 1]) + |levels[|levels| - 1]|
  }

  /** The offsets buffer: 0, then the running number of levels after each record. */
  function Offsets(levels: seq<seq<Level>>): seq<int>
  {
    if levels == [] then [0] else Offsets(levels[..|levels| - 1]) + [TotalLevels(levels)]
  }

  function PriceColumn(ls: seq<Level>): (c: seq<F64>)
    ensures |c| == |ls| && forall k :: 0 <= k < |ls| ==> c[k] == ls[k].price.value
  {
    seq(|ls|, k requires 0 <= k < |ls| => ls[k].price.value)
  }

  function SizeColumn(ls: seq<Level>): (c: seq<F64>)
    ensures |c| == |ls| && forall k :: 0 <= k < |ls| ==> c[k] == ls[k].size.value
  {
    seq(|ls|, k requires 0 <= k < |ls| => ls[k].size.value)
  }

  function OrdersColumn(ls: seq<Level>): (c: seq<u32>)
    ensures |c| == |ls| && forall k :: 0 <= k < |ls| ==> c[k] == ls[k].orders
  {
    seq(|ls|, k requires 0 <= k < |ls| => ls[k].orders)
  }

  lemma ConcatSnoc(levels: seq<seq<Level>>, i: nat)
    requires i < |levels|
    ensures Concat(levels[..i + 1]) == Concat(levels[..i]) + levels[i]
    ensures TotalLevels(levels[..i + 1]) == TotalLevels(levels[..i]) + |levels[i]|
    ensures Offsets(levels[..i + 1]) == Offsets(levels[..i]) + [TotalLevels(levels[..i + 1])]
  {
    assert levels[..i + 1][..i] == levels[..i];
  }

  /** The number of levels is the length of their concatenation. */
  lemma {:induction false} TotalIsLength(levels: seq<seq<Level>>)
    ensures TotalLevels(levels) == |Concat(levels)|
    decreases |levels|
  {
    if levels != [] {
      TotalIsLength(levels[..|levels| - 1]);
    }
  }

  /** There is one offset more than there are records, and offset `i` counts the levels of the first `i` records. */
  lemma {:induction false} OffsetsCount(levels: seq<seq<Level>>)
    ensures |Offsets(levels)| == |levels| + 1
    ensures forall i :: 0 <= i <= |levels| ==> Offsets(levels)[i] == TotalLevels(levels[..i])
    decreases |levels|
  {
    if levels != [] {
      var n := |levels| - 1;
      OffsetsCount(levels[..n]);
      assert levels[..n + 1] == levels;
      forall i | 0 <= i <= n ensures Offsets(levels)[i] == TotalLevels(levels[..i]) {
        assert levels[..n][..i] == levels[..i];
      }
    }
  }

  /** The concatenation of the first `i` records is a prefix of the whole. */
  lemma {:induction false} ConcatPrefix(levels: seq<seq<Level>>, i: nat)
    requires i <= |levels|
    ensures Concat(levels[..i]) <= Concat(levels)
    decreases |levels| - i
  {
    if i < |levels| {
      ConcatSnoc(levels, i);
      ConcatPrefix(levels, i + 1);
    } else {
      assert levels[..i] == levels;
    }
  }

  /**
   * The list array gives every record back: its slice of the flattened
   * levels, between its two offsets, is exactly that record's levels, and
   * the offsets start at 0, step by each record's level count and end at
   * the total.
   */
  lemma OffsetsDelimit(levels: seq<seq<Level>>, i: nat)
    requires i < |levels|
    ensures |Offsets(levels)| == |levels| + 1 && Offsets(levels)[0] == 0
    ensures Offsets(levels)[i + 1] - Offsets(levels)[i] == |levels[i]|
    ensures Offsets(levels)[|levels|] == |Concat(levels)|
    ensures 0 <= Offsets(levels)[i] <= Offsets(levels)[i + 1] <= |Concat(levels)|
    ensures Concat(levels)[Offsets(levels)[i]..Offsets(levels)[i + 1]] == levels[i]
  {
    OffsetsCount(levels);
    ConcatSnoc(levels, i);
    TotalIsLength(levels[..i]);
    TotalIsLength(levels[..i + 1]);
    TotalIsLength(levels);
    assert levels[..|levels|] == levels;
    assert levels[..0] == [];
    ConcatPrefix(levels, i + 1);
  }

  /**
   * The bid (or ask) columns as `to_record_batch` builds them: for each
   * record, push every level's price, size and order count, then push the
   * running length as the next offset.
   */
  method FlattenLevels(levels: seq<seq<Level>>)
    returns (prices: seq<F64>, sizes: seq<F64>, orders: seq<u32>, offsets: seq<int>)
    ensures prices == PriceColumn(Concat(levels))
    ensures sizes == SizeColumn(Concat(levels))
    ensures orders == OrdersColumn(Concat(levels))
    ensures offsets == Offsets(levels)
  {
    prices, sizes, orders, offsets := [], [], [], [0];
    var i := 0;
    while i < |levels|
      invariant i <= |levels|
      invariant prices == PriceColumn(Concat(levels[..i]))
      invariant sizes == SizeColumn(Concat(levels[..i]))
      invariant orders == OrdersColumn(Concat(levels[..i]))
      invariant offsets == Offsets(levels[..i])
    {
      var record := levels[i];
      var j := 0;
      while j < |record|
        invariant j <= |record|
        invariant prices == PriceColumn(Concat(levels[..i]) + record[..j])
        invariant sizes == SizeColumn(Concat(levels[..i]) + record[..j])
        invariant orders == OrdersColumn(Concat(levels[..i]) + record[..j])
      {
        ghost var before := Concat(levels[..i]) + record[..j];
        assert Concat(levels[..i]) + record[..j + 1] == before + [record[j]];
        prices := prices + [record[j].price.value];
        sizes := sizes + [record[j].size.value];
        orders := orders + [record[j].orders];
        j := j + 1;
      }
      assert record[..j] == record;
      ConcatSnoc(levels, i);
      TotalIsLength(levels[..i + 1]);
      offsets := offsets + [|prices|];
      i := i + 1;
    }
    assert levels[..i] == levels;
  }
}
