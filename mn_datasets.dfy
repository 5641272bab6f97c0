/**
 * Where each dataset lives (`DatasetType` in Rust, and its pure-Python
 * mirror): the lossless hive directory, the raw download directory and
 * the grid directory of each dataset, for a peg symbol and a grid
 * interval. A Python member is modelled by its value, which the
 * `if`/`elif` chains compare against.
 */
module Datasets {
  import opened Wrappers
  import opened Strings

  const LIB_CACHE_PATH := "/bigdata/mnemosyne/cache"
  const BINANCE_DATA_PATH := "/bigdata/mnemosyne/binance"
  const BINANCE_STUDY_DATA_PATH := "/data/mnemosyne/binance"
  const HYPERLIQUID_DATA_PATH := "/bigdata/mnemosyne/hyperliquid"
  const HYPERLIQUID_STUDY_DATA_PATH := "/data/mnemosyne/hyperliquid"

  datatype DatasetType = BinanceSpotTrades | BinanceUmPerpTrades | HyperliquidPerpL2 | HyperliquidPerpTrades

  predicate IsBinance(t: DatasetType)
  {
    t.BinanceSpotTrades? || t.BinanceUmPerpTrades?
  }

  // ---------------------------------------------------------------------
  // Rust
  // ---------------------------------------------------------------------

  /** `hive_path`: where lossless processed data is stored. */
  function HivePath(t: DatasetType, peg: string): string
  {
    match t
    case BinanceSpotTrades => BINANCE_DATA_PATH + "/lossless/spot/last_trade/peg_symbol=" + peg
    case BinanceUmPerpTrades => BINANCE_DATA_PATH + "/lossless/futures/um/last_trade/peg_symbol=" + peg
    case HyperliquidPerpL2 => HYPERLIQUID_DATA_PATH + "/lossless/l2"
    case HyperliquidPerpTrades => HYPERLIQUID_DATA_PATH + "/lossless/last_trade"
  }

  /** `raw_data_path`: where raw downloads are stored. */
  function RawDataPath(t: DatasetType, peg: string): string
  {
    match t
    case BinanceSpotTrades => BINANCE_DATA_PATH + "/raw/spot/last_trade/peg_symbol=" + peg
    case BinanceUmPerpTrades => BINANCE_DATA_PATH + "/raw/trades"
    case HyperliquidPerpL2 => HYPERLIQUID_DATA_PATH + "/raw/futures/market_data"
    case HyperliquidPerpTrades => HYPERLIQUID_DATA_PATH + "/raw/futures/trades"
  }

  /** `grid_hive_path`: where gridded data is stored. */
  function GridHivePath(t: DatasetType, peg: string, interval: string): string
  {
    match t
    case BinanceSpotTrades =>
      BINANCE_STUDY_DATA_PATH + "/grids/spot/last_trade/" + interval + "/peg_symbol=" + peg
    case BinanceUmPerpTrades =>
      BINANCE_STUDY_DATA_PATH + "/grids/futures/um/last_trade/" + interval + "/peg_symbol=" + peg
    case HyperliquidPerpL2 => HYPERLIQUID_STUDY_DATA_PATH + "/grids/l2/" + interval
    case HyperliquidPerpTrades => HYPERLIQUID_STUDY_DATA_PATH + "/grids/last_trade/" + interval
  }

  /**
   * The `Debug` name, which `__repr__` and `__str__` return; the Python
   * member of the same name has it as its value and prints it too.
   */
  function DebugName(t: DatasetType): string
  {
    match t
    case BinanceSpotTrades => "BinanceSpotTrades"
    case BinanceUmPerpTrades => "BinanceUmPerpTrades"
    case HyperliquidPerpL2 => "HyperliquidPerpL2"
    case HyperliquidPerpTrades => "HyperliquidPerpTrades"
  }

  /**
   * The Hyperliquid datasets and the UM-perp raw directory do not depend
   * on the peg; every Binance directory with a peg names it last, so
   * different pegs get different directories.
   */
  lemma PegDependence(t: DatasetType, peg1: string, peg2: string, interval: string)
    ensures !IsBinance(t) ==>
      && HivePath(t, peg1) == HivePath(t, peg2)
      && RawDataPath(t, peg1) == RawDataPath(t, peg2)
      && GridHivePath(t, peg1, interval) == GridHivePath(t, peg2, interval)
    ensures RawDataPath(BinanceUmPerpTrades, peg1) == RawDataPath(BinanceUmPerpTrades, peg2)
    ensures IsBinance(t) && HivePath(t, peg1) == HivePath(t, peg2) ==> peg1 == peg2
    ensures IsBinance(t) && GridHivePath(t, peg1, interval) == GridHivePath(t, peg2, interval) ==> peg1 == peg2
    ensures t.BinanceSpotTrades? && RawDataPath(t, peg1) == RawDataPath(t, peg2) ==> peg1 == peg2
  {
    if IsBinance(t) {
      SuffixDetermined(HivePath(t, peg1), HivePath(t, peg2), peg1, peg2);
      SuffixDetermined(GridHivePath(t, peg1, interval), GridHivePath(t, peg2, interval), peg1, peg2);
      if t.BinanceSpotTrades? {
        SuffixDetermined(RawDataPath(t, peg1), RawDataPath(t, peg2), peg1, peg2);
      }
    }
  }

  /** Two texts with a common head and their own tails are equal only when the tails are. */
  lemma SuffixDetermined(x: string, y: string, a: string, b: string)
    requires |x| - |a| == |y| - |b| >= 0 && x[|x| - |a|..] == a && y[|y| - |b|..] == b
    ensures x == y ==> a == b
  {
  }

  /** A piece right after a '/' and followed by nothing or by a '/' comes back out of the split. */
  lemma SegmentInside(x: string, piece: string, y: string)
    requires '/' !in piece && |x| > 0 && x[|x| - 1] == '/' && (y == [] || y[0] == '/')
    ensures piece in Split(x + piece + y, '/')
  {
    var head := x[..|x| - 1];
    assert x == head + ['/'];
    if y == [] {
      assert x + piece + y == head + ['/'] + piece;
      LastSegment(head, piece);
    } else {
      var tail := y[1..];
      assert y == ['/'] + tail;
      assert x + piece + y == (head + ['/'] + piece) + ['/'] + tail;
      MiddleSegment(head, piece, tail);
    }
  }

  /** A piece free of '/' after a '/' is the last piece of the split. */
  lemma LastSegment(head: string, piece: string)
    requires '/' !in piece
    ensures Split(head + ['/'] + piece, '/') == Split(head, '/') + [piece]
  {
    SplitPrefix(piece, [], '/');
    assert piece + [] == piece;
    SplitAtSeparator(head, piece, '/');
  }

  /** A piece free of '/' between two '/' is one piece of the split. */
  lemma MiddleSegment(head: string, piece: string, tail: string)
    requires '/' !in piece
    ensures piece in Split((head + ['/'] + piece) + ['/'] + tail, '/')
  {
    LastSegment(head, piece);
    SplitAtSeparator(head + ['/'] + piece, tail, '/');
    var a, b := Split(head, '/'), Split(tail, '/');
    assert (a + [piece] + b)[|a|] == piece;
  }

  /** The grid interval is a segment of its own in every grid directory. */
  lemma GridIntervalSegment(t: DatasetType, peg: string, interval: string)
    requires '/' !in interval
    ensures interval in Split(GridHivePath(t, peg, interval), '/')
  {
    var p := GridHivePath(t, peg, interval);
    match t
    case BinanceSpotTrades =>
      var x, y := BINANCE_STUDY_DATA_PATH + "/grids/spot/last_trade/", "/peg_symbol=" + peg;
      assert p == x + interval + y;
      SegmentInside(x, interval, y);
    case BinanceUmPerpTrades =>
      var x, y := BINANCE_STUDY_DATA_PATH + "/grids/futures/um/last_trade/", "/peg_symbol=" + peg;
      assert p == x + interval + y;
      SegmentInside(x, interval, y);
    case HyperliquidPerpL2 =>
      var x := HYPERLIQUID_STUDY_DATA_PATH + "/grids/l2/";
      assert p == x + interval + [];
      SegmentInside(x, interval, []);
    case HyperliquidPerpTrades =>
      var x := HYPERLIQUID_STUDY_DATA_PATH + "/grids/last_trade/";
      assert p == x + interval + [];
      SegmentInside(x, interval, []);
  }

  // ---------------------------------------------------------------------
  // Python
  // ---------------------------------------------------------------------

  function UnknownType(member: string): string
  {
    "Unknown DatasetType: " + member
  }

  /** Python `hive_path`: the `if`/`elif` chain over the members, `ValueError` past its end. */
  function PyHivePath(member: string, peg: string): Result<string>
  {
    if member == "BinanceSpotTrades" then Success(BINANCE_DATA_PATH + "/lossless/spot/last_trade/peg_symbol=" + peg)
    else if member == "BinanceUmPerpTrades" then
      Success(BINANCE_DATA_PATH + "/lossless/futures/um/last_trade/peg_symbol=" + peg)
    else if member == "HyperliquidPerpL2" then Success(HYPERLIQUID_DATA_PATH + "/lossless/l2")
    else if member == "HyperliquidPerpTrades" then Success(HYPERLIQUID_DATA_PATH + "/lossless/last_trade")
    else Failure(UnknownType(member))
  }

  /** Python `raw_data_path`. */
  function PyRawDataPath(member: string, peg: string): Result<string>
  {
    if member == "BinanceSpotTrades" then Success(BINANCE_DATA_PATH + "/raw/spot/last_trade/peg_symbol=" + peg)
    else if member == "BinanceUmPerpTrades" then Success(BINANCE_DATA_PATH + "/raw/trades")
    else if member == "HyperliquidPerpL2" then Success(HYPERLIQUID_DATA_PATH + "/raw/futures/market_data")
    else if member == "HyperliquidPerpTrades" then Success(HYPERLIQUID_DATA_PATH + "/raw/futures/trades")
    else Failure(UnknownType(member))
  }

  /** Python `grid_hive_path`. */
  function PyGridHivePath(member: string, peg: string, interval: string): Result<string>
  {
    if member == "BinanceSpotTrades" then
      Success(BINANCE_STUDY_DATA_PATH + "/grids/spot/last_trade/" + interval + "/peg_symbol=" + peg)
    else if member == "BinanceUmPerpTrades" then
      Success(BINANCE_STUDY_DATA_PATH + "/grids/futures/um/last_trade/" + interval + "/peg_symbol=" + peg)
    else if member == "HyperliquidPerpL2" then Success(HYPERLIQUID_STUDY_DATA_PATH + "/grids/l2/" + interval)
    else if member == "HyperliquidPerpTrades" then Success(HYPERLIQUID_STUDY_DATA_PATH + "/grids/last_trade/" + interval)
    else Failure(UnknownType(member))
  }

  /**
   * The Python mirror, whose members' values and printed names are the
   * Rust variants' `Debug` names, agrees with the Rust enum on every
   * member, peg and interval.
   */
  lemma PythonMatchesRust(t: DatasetType, peg: string, interval: string)
    ensures PyHivePath(DebugName(t), peg) == Success(HivePath(t, peg))
    ensures PyRawDataPath(DebugName(t), peg) == Success(RawDataPath(t, peg))
    ensures PyGridHivePath(DebugName(t), peg, interval) == Success(GridHivePath(t, peg, interval))
  {
  }

  /** A value that is no member's fails in all three path functions. */
  lemma UnknownMemberFails(member: string, peg: string, interval: string)
    requires forall t: DatasetType :: DebugName(t) != member
    ensures PyHivePath(member, peg) == Failure(UnknownType(member))
    ensures PyRawDataPath(member, peg) == Failure(UnknownType(member))
    ensures PyGridHivePath(member, peg, interval) == Failure(UnknownType(member))
  {
    assert DebugName(BinanceSpotTrades) != member && DebugName(BinanceUmPerpTrades) != member;
    assert DebugName(HyperliquidPerpL2) != member && DebugName(HyperliquidPerpTrades) != member;
  }
}
