/**
 * The Binance last-trade downloader (`BinanceTradeBook`): the timestamp
 * normalisation applied to every downloaded file, the download URL and the
 * raw and hive paths of one (symbol, date), the peg check of `new`, and
 * the discovery of the (symbol, date) universe from the bucket listing.
 * Downloads, unzipping, CSV and Parquet I/O are left out; the listings the
 * discovery reads are parameters.
 */
module BinanceLastTrades {
  import opened Wrappers
  import opened Strings
  import opened UtcTime
  import opened Converters

  const BINANCE_S3_BASE_URL := "https://s3-ap-northeast-1.amazonaws.com/data.binance.vision"
  const CHECKSUM_SUFFIX := ".CHECKSUM"
  const UNIVERSE_FILE := "universe.parquet"

  // ---------------------------------------------------------------------
  // Timestamps
  // ---------------------------------------------------------------------

  /**
   * `convert_binance_timestamps` on one `time` value: at or after the
   * cutoff (given in milliseconds) it is kept, below it it is multiplied
   * by 1000.
   */
  function NormalizeTime(t: int, cutoffMs: int): int
  {
    if t >= cutoffMs then t else t * 1000
  }

  /** A timestamp as Binance writes it: milliseconds before the switch, microseconds from it on. */
  datatype Stamp = Millis(ms: int) | Micros(us: int)

  function MicrosOf(s: Stamp): int
  {
    match s
    case Millis(ms) => ms * 1000
    case Micros(us) => us
  }

  /**
   * Files from before the switch hold milliseconds below the cutoff, later
   * files microseconds past `1000 * cutoff`.
   */
  predicate WrittenAsBinanceDoes(s: Stamp, cutoffMs: int)
  {
    match s
    case Millis(ms) => ms < cutoffMs
    case Micros(us) => us >= cutoffMs * 1000
  }

  /**
   * Every value Binance writes, in either unit, comes out as the same
   * instant in microseconds, so times from both sides of the switch
   * compare correctly after normalisation.
   */
  lemma NormalizeTimeIsMicros(s: Stamp, u: Stamp, cutoffMs: int)
    requires cutoffMs >= 0 && WrittenAsBinanceDoes(s, cutoffMs) && WrittenAsBinanceDoes(u, cutoffMs)
    ensures NormalizeTime(if s.Millis? then s.ms else s.us, cutoffMs) == MicrosOf(s)
    ensures MicrosOf(s) <= MicrosOf(u) <==>
      NormalizeTime(if s.Millis? then s.ms else s.us, cutoffMs) <= NormalizeTime(if u.Millis? then u.ms else u.us, cutoffMs)
  {
    if s.Micros? {
      assert s.us >= cutoffMs;
    }
    if u.Micros? {
      assert u.us >= cutoffMs;
    }
  }

  /** The `with_column` over the whole `time` column. */
  function NormalizeTimes(ts: seq<int>, cutoffMs: int): (r: seq<int>)
    ensures |r| == |ts| && forall i :: 0 <= i < |ts| ==> r[i] == NormalizeTime(ts[i], cutoffMs)
  {
    seq(|ts|, i requires 0 <= i < |ts| => NormalizeTime(ts[i], cutoffMs))
  }

  // ---------------------------------------------------------------------
  // URLs and paths
  // ---------------------------------------------------------------------

  /** "{symbol}{peg}-{suffix}-{date}.zip", the name of one day's archive. */
  function ZipName(symbol: string, peg: string, suffix: string, date: Date): string
  {
    symbol + peg + "-" + suffix + "-" + IsoDate(date) + ".zip"
  }

  /** `build_download_url`: "{base}/{suffix}/{symbol}{peg}/{archive}". */
  function DownloadUrl(dataBaseUrl: string, suffix: string, symbol: string, date: Date, peg: string): string
  {
    dataBaseUrl + "/" + suffix + "/" + symbol + peg + "/" + ZipName(symbol, peg, suffix, date)
  }

  /**
   * `PathBuf::join` on Unix: an absolute `p` replaces the base; otherwise
   * a '/' goes between them unless the base is empty or already ends in one.
   */
  function PathJoin(base: string, p: string): string
  {
    if StartsWithChar(p, '/') then p
    else if base == "" || EndsWithChar(base, '/') then base + p
    else base + "/" + p
  }

  /** Joining a relative piece below a directory not ending in '/' puts one '/' between them. */
  lemma PathJoinBelow(base: string, p: string)
    requires base != "" && !EndsWithChar(base, '/') && !StartsWithChar(p, '/')
    ensures PathJoin(base, p) == base + "/" + p
    ensures !EndsWithChar(PathJoin(base, p), '/') <==> !EndsWithChar(p, '/') && p != ""
  {
  }

  /** `build_hive_path`: "{hive}/date={date}/symbol={symbol}/data.parquet". */
  function HivePath(hive: string, symbol: string, date: Date): string
  {
    PathJoin(PathJoin(PathJoin(hive, "date=" + IsoDate(date)), "symbol=" + symbol), "data.parquet")
  }

  /** `build_raw_path`: "{raw}/{symbol}{peg}/{archive}". */
  function RawPath(raw: string, symbol: string, peg: string, suffix: string, date: Date): string
  {
    PathJoin(PathJoin(raw, symbol + peg), ZipName(symbol, peg, suffix, date))
  }

  /**
   * Below the hive directory a file sits in the partition of its date and
   * its symbol: the path splits back into "date=…", "symbol=…" and the file.
   */
  lemma HivePathPartitions(hive: string, symbol: string, date: Date)
    requires hive != "" && !EndsWithChar(hive, '/') && '/' !in symbol
    ensures var p := HivePath(hive, symbol, date);
      StartsWith(p, hive + "/")
      && Split(p[|hive| + 1..], '/') == ["date=" + IsoDate(date), "symbol=" + symbol, "data.parquet"]
  {
    HivePathText(hive, symbol, date);
    LabelledPiece("date=", IsoDate(date));
    LabelledPiece("symbol=", symbol);
    SplitBelow(hive, "date=" + IsoDate(date), "symbol=" + symbol, "data.parquet");
  }

  /** Below "{base}/", three pieces without '/' split back out. */
  lemma SplitBelow(base: string, a: string, b: string, c: string)
    requires '/' !in a && '/' !in b && '/' !in c
    ensures var p := base + "/" + (a + "/" + b + "/" + c);
      StartsWith(p, base + "/") && Split(p[|base| + 1..], '/') == [a, b, c]
  {
    var parts := [a, b, c];
    SplitJoin(parts, '/');
    ThreeJoined(a, b, c);
    var p := base + "/" + (a + "/" + b + "/" + c);
    assert p == (base + "/") + Join(parts, '/');
    assert p[|base| + 1..] == Join(parts, '/');
  }

  lemma ThreeJoined(a: string, b: string, c: string)
    ensures Join([a, b, c], '/') == a + "/" + b + "/" + c
  {
    var parts := [a, b, c];
    assert parts[1..][1..] == [c];
    assert Join(parts[1..], '/') == b + "/" + c;
  }

  /** The three joins each add one '/'. */
  lemma HivePathText(hive: string, symbol: string, date: Date)
    requires hive != "" && !EndsWithChar(hive, '/') && '/' !in symbol
    ensures HivePath(hive, symbol, date) == hive + "/" + ("date=" + IsoDate(date) + "/" + ("symbol=" + symbol) + "/" + "data.parquet")
  {
    LabelledPiece("date=", IsoDate(date));
    LabelledPiece("symbol=", symbol);
    JoinThreeBelow(hive, "date=" + IsoDate(date), "symbol=" + symbol, "data.parquet");
  }

  /** A piece "{tag}{value}" is not empty and holds no '/'. */
  lemma LabelledPiece(tag: string, v: string)
    requires tag != "" && '/' !in tag && '/' !in v
    ensures tag + v != "" && '/' !in tag + v
  {
    NoSlashAfter(tag, v);
  }

  /** Three relative pieces joined below a directory: one '/' before each. */
  lemma JoinThreeBelow(base: string, a: string, b: string, c: string)
    requires base != "" && !EndsWithChar(base, '/')
    requires a != "" && b != "" && '/' !in a && '/' !in b && !StartsWithChar(c, '/')
    ensures PathJoin(PathJoin(PathJoin(base, a), b), c) == base + "/" + (a + "/" + b + "/" + c)
  {
    assert a[0] in a && a[|a| - 1] in a;
    assert b[0] in b && b[|b| - 1] in b;
    PathJoinBelow(base, a);
    PathJoinBelow(base + "/" + a, b);
    PathJoinBelow(base + "/" + a + "/" + b, c);
  }

  /**
   * The raw store mirrors the download URL: both end in
   * "{symbol}{peg}/{archive}", so a file is kept under the name it was
   * served with.
   */
  lemma RawPathMirrorsUrl(raw: string, dataBaseUrl: string, symbol: string, peg: string, suffix: string, date: Date)
    requires raw != "" && !EndsWithChar(raw, '/')
    requires symbol + peg != "" && '/' !in symbol + peg
    ensures var tail := symbol + peg + "/" + ZipName(symbol, peg, suffix, date);
      && RawPath(raw, symbol, peg, suffix, date) == raw + "/" + tail
      && DownloadUrl(dataBaseUrl, suffix, symbol, date, peg) == dataBaseUrl + "/" + suffix + "/" + tail
  {
    RawPathText(raw, symbol, peg, suffix, date);
    var dir := symbol + peg;
    var zip := ZipName(symbol, peg, suffix, date);
    var u := dataBaseUrl + "/" + suffix + "/";
    assert DownloadUrl(dataBaseUrl, suffix, symbol, date, peg) == u + symbol + peg + "/" + zip;
    SeqAssoc(u, symbol, peg);
    SeqAssoc(u, dir, "/");
    SeqAssoc(u, dir + "/", zip);
    SeqAssoc(dir, "/", zip);
  }

  lemma RawPathText(raw: string, symbol: string, peg: string, suffix: string, date: Date)
    requires raw != "" && !EndsWithChar(raw, '/')
    requires symbol + peg != "" && '/' !in symbol + peg
    ensures RawPath(raw, symbol, peg, suffix, date) == raw + "/" + (symbol + peg + "/" + ZipName(symbol, peg, suffix, date))
  {
    var dir := symbol + peg;
    var zip := ZipName(symbol, peg, suffix, date);
    assert dir[0] in dir && dir[|dir| - 1] in dir;
    PathJoinBelow(raw, dir);
    assert zip[0] == dir[0];
    PathJoinBelow(raw + "/" + dir, zip);
    var r := raw + "/";
    SeqAssoc(r, dir, "/");
    SeqAssoc(r, dir + "/", zip);
    SeqAssoc(dir, "/", zip);
  }

  // ---------------------------------------------------------------------
  // Construction
  // ---------------------------------------------------------------------

  /** The downloader's settings; they do not change after `new`. */
  datatype TradeBook = TradeBook(rawDataPath: string, hiveDataPath: string, universeCachePath: string,
                                 baseUrl: string, dataBaseUrl: string, suffix: string, prefix: string,
                                 peg: string, earliestDate: Option<Date>, latestDate: Option<Date>)

  function PegError(peg: string): string
  {
    "Invalid peg_symbol '" + peg + "'. Must be either 'USDT' or 'USDC'"
  }

  /**
   * `new`: the peg must be "USDT" or "USDC"; then both directories are
   * created (`createDirAll` is `fs::create_dir_all`) and the universe cache
   * sits in the hive directory.
   */
  function NewBook(hive: string, raw: string, dataBaseUrl: string, suffix: string, prefix: string, peg: string,
                   earliest: Option<Date>, latest: Option<Date>, createDirAll: string -> Result<Unit>)
    : (r: Result<TradeBook>)
    ensures peg != "USDT" && peg != "USDC" ==> r == Failure(PegError(peg))
    ensures r.Success? <==> (peg == "USDT" || peg == "USDC") && createDirAll(raw).Success? && createDirAll(hive).Success?
    ensures r.Success? ==>
      && r.value.peg == peg && r.value.rawDataPath == raw && r.value.hiveDataPath == hive
      && r.value.universeCachePath == PathJoin(hive, UNIVERSE_FILE) && r.value.baseUrl == BINANCE_S3_BASE_URL
      && r.value.earliestDate == earliest && r.value.latestDate == latest
  {
    if peg != "USDT" && peg != "USDC" then Failure(PegError(peg))
    else
      var _ :- createDirAll(raw);
      var _ :- createDirAll(hive);
      Success(TradeBook(raw, hive, PathJoin(hive, UNIVERSE_FILE), BINANCE_S3_BASE_URL, dataBaseUrl, suffix,
                        prefix, peg, earliest, latest))
  }

  // ---------------------------------------------------------------------
  // Dates in keys: the regex (\d{4}-\d{2}-\d{2})
  // ---------------------------------------------------------------------

  /** The pattern matches at `i`: four digits, '-', two digits, '-', two digits. */
  predicate DateAt(s: string, i: int)
  {
    0 <= i && i + 10 <= |s|
    && IsAsciiDigit(s[i]) && IsAsciiDigit(s[i + 1]) && IsAsciiDigit(s[i + 2]) && IsAsciiDigit(s[i + 3])
    && s[i + 4] == '-' && IsAsciiDigit(s[i + 5]) && IsAsciiDigit(s[i + 6])
    && s[i + 7] == '-' && IsAsciiDigit(s[i + 8]) && IsAsciiDigit(s[i + 9])
  }

  /** The leftmost match at or after `i`, as `captures` finds it. */
  function FirstDateFrom(s: string, i: nat): (r: Option<string>)
    ensures r.None? <==> forall k :: i <= k ==> !DateAt(s, k)
    ensures r.Some? ==> exists k :: i <= k && DateAt(s, k) && r.value == s[k..k + 10]
                                    && forall j :: i <= j < k ==> !DateAt(s, j)
    decreases |s| - i
  {
    if i + 10 > |s| then None
    else if DateAt(s, i) then Some(s[i..i + 10])
    else FirstDateFrom(s, i + 1)
  }

  /** The date a key names: its first YYYY-MM-DD. */
  function FirstDate(s: string): Option<string>
  {
    FirstDateFrom(s, 0)
  }

  /** The first place the pattern matches is the one reported. */
  lemma FirstDateIs(s: string, m: nat)
    requires DateAt(s, m) && forall k :: 0 <= k < m ==> !DateAt(s, k)
    ensures FirstDate(s) == Some(s[m..m + 10])
  {
    var r := FirstDate(s);
    assert r.Some?;
    var k :| 0 <= k && DateAt(s, k) && r.value == s[k..k + 10] && forall j :: 0 <= j < k ==> !DateAt(s, j);
    assert !(k < m) && !(m < k);
  }

  predicate NoDigits(s: string)
  {
    forall i :: 0 <= i < |s| ==> !IsAsciiDigit(s[i])
  }

  /** A date printed after text without digits is the date read back. */
  lemma DateAfterText(p: string, date: Date, q: string)
    requires NoDigits(p) && date.year <= 9999 && date.month < 100 && date.day < 100
    ensures FirstDate(p + IsoDate(date) + q) == Some(IsoDate(date))
  {
    var d := IsoDate(date);
    var s := p + d + q;
    IsoDateShape(date);
    forall k | 0 <= k < |p| ensures !DateAt(s, k) {
      assert s[k] == p[k];
    }
    assert s[|p|..|p| + 10] == d;
    assert DateAt(s, |p|) by {
      forall j | 0 <= j < 10 ensures s[|p| + j] == d[j] {
      }
    }
    FirstDateIs(s, |p|);
  }

  /** Keys that are checksums are dropped; any other key gives its first date, if it has one. */
  function KeyDate(key: string): Option<string>
  {
    if EndsWith(key, CHECKSUM_SUFFIX) then None else FirstDate(key)
  }

  /**
   * A day's archive listed under a directory without digits, from a
   * symbol, peg and suffix without digits, yields the archive's date.
   */
  lemma ArchiveKeyDate(dir: string, symbol: string, peg: string, suffix: string, date: Date)
    requires NoDigits(dir + symbol + peg + "-" + suffix + "-")
    requires date.year <= 9999 && date.month < 100 && date.day < 100
    ensures KeyDate(dir + ZipName(symbol, peg, suffix, date)) == Some(IsoDate(date))
  {
    var p := dir + symbol + peg + "-" + suffix + "-";
    var key := dir + ZipName(symbol, peg, suffix, date);
    ZipKeyShape(dir, symbol, peg, suffix, IsoDate(date));
    DateAfterText(p, date, ".zip");
    NotChecksum(p + IsoDate(date));
  }

  /** An archive key is its digit-free lead, the date and ".zip". */
  lemma ZipKeyShape(dir: string, symbol: string, peg: string, suffix: string, d: string)
    ensures dir + (symbol + peg + "-" + suffix + "-" + d + ".zip") == dir + symbol + peg + "-" + suffix + "-" + d + ".zip"
  {
  }

  /** A key ending in ".zip" is not a checksum. */
  lemma NotChecksum(lead: string)
    ensures !EndsWith(lead + ".zip", CHECKSUM_SUFFIX)
  {
    var key := lead + ".zip";
    assert key[|key| - 1] == 'p' && CHECKSUM_SUFFIX[|CHECKSUM_SUFFIX| - 1] == 'M';
  }

  // ---------------------------------------------------------------------
  // The universe
  // ---------------------------------------------------------------------

  function StripPeg(peg: string): string -> Option<string>
  {
    pair => if EndsWith(pair, peg) then Some(pair[..|pair| - |peg|]) else None
  }

  /** The trade pairs quoted in the peg, with the peg stripped. */
  function PegSymbols(pairs: seq<string>, peg: string): seq<string>
  {
    Pick(pairs, StripPeg(peg))
  }

  /** A symbol is kept exactly when it, followed by the peg, is a listed pair. */
  lemma PegSymbolsExactly(pairs: seq<string>, peg: string)
    ensures |PegSymbols(pairs, peg)| <= |pairs|
    ensures forall s :: s in PegSymbols(pairs, peg) <==> s + peg in pairs
  {
    PickExactly(pairs, StripPeg(peg));
    forall s ensures s in PegSymbols(pairs, peg) <==> s + peg in pairs {
      if s in PegSymbols(pairs, peg) {
        var i :| 0 <= i < |pairs| && StripPeg(peg)(pairs[i]) == Some(s);
        assert pairs[i] == s + peg;
      }
      if s + peg in pairs {
        var i :| 0 <= i < |pairs| && pairs[i] == s + peg;
        assert (s + peg)[..|s|] == s;
        assert EndsWith(s + peg, peg);
        assert StripPeg(peg)(pairs[i]) == Some(s);
      }
    }
  }

  /** The listing of one symbol's keys: "{prefix}/{symbol}{peg}". */
  function SymbolPrefix(prefix: string, symbol: string, peg: string): string
  {
    prefix + "/" + symbol + peg
  }

  /** What fetching one symbol's keys came to: the keys, an error, or the 30-second timeout. */
  datatype KeyListing = Keys(keys: seq<string>) | ListError(error: string) | TimedOut

  /** The dates of the listed keys, checksums dropped. */
  function DatesOfKeys(keys: seq<string>): seq<string>
  {
    Pick(keys, KeyDate)
  }

  /** One symbol's dates; an error or a timeout is reported and gives no dates. */
  function SymbolDates(symbol: string, listing: KeyListing): (string, seq<string>)
  {
    match listing
    case Keys(keys) => (symbol, DatesOfKeys(keys))
    case _ => (symbol, [])
  }

  /** One (symbol, date) row per date of each symbol, symbol by symbol. */
  function Rows(results: seq<(string, seq<string>)>): seq<(string, string)>
    decreases |results|
  {
    if results == [] then []
    else
      var (symbol, dates) := results[|results| - 1];
      Rows(results[..|results| - 1]) + seq(|dates|, j requires 0 <= j < |dates| => (symbol, dates[j]))
  }

  /** A row is there exactly when its date is one of its symbol's dates. */
  lemma {:induction false} RowsExactly(results: seq<(string, seq<string>)>)
    ensures forall s, d :: (s, d) in Rows(results) <==> exists i :: 0 <= i < |results| && results[i].0 == s && d in results[i].1
    decreases |results|
  {
    if results != [] {
      var init := results[..|results| - 1];
      var (symbol, dates) := results[|results| - 1];
      var tail := seq(|dates|, j requires 0 <= j < |dates| => (symbol, dates[j]));
      RowsExactly(init);
      assert Rows(results) == Rows(init) + tail;
      forall s, d ensures (s, d) in Rows(results) <==> exists i :: 0 <= i < |results| && results[i].0 == s && d in results[i].1 {
        if (s, d) in tail {
          var j :| 0 <= j < |dates| && tail[j] == (s, d);
          assert results[|results| - 1].0 == s && d in results[|results| - 1].1;
        }
        if (s, d) in Rows(init) {
          var i :| 0 <= i < |init| && init[i].0 == s && d in init[i].1;
          assert results[i] == init[i];
        }
        if exists i :: 0 <= i < |results| && results[i].0 == s && d in results[i].1 {
          var i :| 0 <= i < |results| && results[i].0 == s && d in results[i].1;
          if i < |init| {
            assert init[i] == results[i];
          } else {
            var j :| 0 <= j < |dates| && dates[j] == d;
            assert tail[j] == (s, d);
          }
        }
      }
    }
  }

  /** Phase 4: the two columns, filled by the nested loop. */
  method FlattenResults(results: seq<(string, seq<string>)>) returns (symbols: seq<string>, dates: seq<string>)
    ensures |symbols| == |dates| == |Rows(results)|
    ensures forall k :: 0 <= k < |symbols| ==> (symbols[k], dates[k]) == Rows(results)[k]
  {
    symbols, dates := [], [];
    var i := 0;
    while i < |results|
      invariant i <= |results|
      invariant |symbols| == |dates| == |Rows(results[..i])|
      invariant forall k :: 0 <= k < |symbols| ==> (symbols[k], dates[k]) == Rows(results[..i])[k]
    {
      assert results[..i + 1][..i] == results[..i];
      var (symbol, dateStrings) := results[i];
      ghost var before := Rows(results[..i]);
      ghost var n := |symbols|;
      var j := 0;
      while j < |dateStrings|
        invariant j <= |dateStrings|
        invariant |symbols| == |dates| == n + j
        invariant forall k :: 0 <= k < n ==> (symbols[k], dates[k]) == before[k]
        invariant forall k :: n <= k < n + j ==> symbols[k] == symbol && dates[k] == dateStrings[k - n]
      {
        symbols := symbols + [symbol];
        dates := dates + [dateStrings[j]];
        j := j + 1;
      }
      i := i + 1;
    }
    assert results[..i] == results;
  }

  /** Each symbol of the peg with the dates of its own listing, in pair order. */
  function SymbolResults(ps: seq<string>, prefix: string, peg: string, listing: string -> KeyListing)
    : seq<(string, seq<string>)>
  {
    var symbols := PegSymbols(ps, peg);
    seq(|symbols|, i requires 0 <= i < |symbols| =>
          SymbolDates(symbols[i], listing(SymbolPrefix(prefix, symbols[i], peg))))
  }

  /** The year, month and day fields of a "YYYY-MM-DD" text. */
  function TextDate(text: string): Date
    requires |text| == 10
  {
    Date(DecimalValue(text[..4]), DecimalValue(text[5..7]), DecimalValue(text[8..10]))
  }

  /**
   * The strict `str.to_date` on a text the key pattern matched: the format
   * inferred from such texts is "%Y-%m-%d", so a text converts exactly when
   * it names a day of the calendar.
   */
  predicate ParsesAsDate(text: string)
  {
    |text| == 10 && ValidDate(TextDate(text))
  }

  /** A rendered calendar day of years 0 to 9999 converts back to that day. */
  lemma IsoDateParses(d: Date)
    requires ValidDate(d) && d.year <= 9999
    ensures ParsesAsDate(IsoDate(d)) && TextDate(IsoDate(d)) == d
  {
    IsoDateShape(d);
    PadNatWidth(d.year, 4);
    PadNatWidth(d.month, 2);
    PadNatWidth(d.day, 2);
    var y, m, dd := PadNat(d.year, 4), PadNat(d.month, 2), PadNat(d.day, 2);
    var r := IsoDate(d);
    assert r == y + "-" + m + "-" + dd;
    assert r[..4] == y && r[5..7] == m && r[8..10] == dd;
    PadNatValue(d.year, 4);
    PadNatValue(d.month, 2);
    PadNatValue(d.day, 2);
  }

  /** What the strict date conversion raises; polars' counts and sample values are not rendered. */
  const DATE_CONVERSION_FAILED := "conversion from `str` to `date` failed in column 'date'"

  /**
   * `fetch_new_universe` once the trade pairs are in: the pairs in the
   * peg, each symbol's dates from its own listing, flattened, then the
   * date column converted strictly. `listing` stands for `get_all_keys`
   * under the 30-second timeout.
   */
  function UniverseRows(pairs: Result<seq<string>>, prefix: string, peg: string, listing: string -> KeyListing)
    : Result<seq<(string, string)>>
  {
    var ps :- pairs;
    var rows := Rows(SymbolResults(ps, prefix, peg, listing));
    if forall k :: 0 <= k < |rows| ==> ParsesAsDate(rows[k].1) then Success(rows)
    else Failure(DATE_CONVERSION_FAILED)
  }

  /** `key` is listed for `symbol`, is not a checksum, and names `date` first. */
  predicate DatedKey(prefix: string, peg: string, listing: string -> KeyListing, symbol: string, date: string)
  {
    var l := listing(SymbolPrefix(prefix, symbol, peg));
    l.Keys? && exists k :: k in l.keys && KeyDate(k) == Some(date)
  }

  /**
   * The universe fails when the trade pairs could not be listed, or when
   * some listed date does not name a calendar day. Otherwise it holds
   * (s, d) exactly when s followed by the peg is a pair and d is the date
   * of one of the non-checksum keys listed for it. A symbol whose listing
   * failed or timed out has no rows.
   */
  lemma UniverseExactly(pairs: Result<seq<string>>, prefix: string, peg: string, listing: string -> KeyListing)
    ensures var r := UniverseRows(pairs, prefix, peg, listing);
      && (pairs.Failure? ==> r == Failure(pairs.error))
      && (pairs.Success? ==>
            (r.Success? <==> forall s, d :: s + peg in pairs.value && DatedKey(prefix, peg, listing, s, d) ==> ParsesAsDate(d)))
      && (r.Success? ==> forall s, d :: (s, d) in r.value <==> s + peg in pairs.value && DatedKey(prefix, peg, listing, s, d))
  {
    if pairs.Success? {
      var rows := Rows(SymbolResults(pairs.value, prefix, peg, listing));
      UniverseMembers(pairs.value, prefix, peg, listing);
      if forall k :: 0 <= k < |rows| ==> ParsesAsDate(rows[k].1) {
        forall s, d | s + peg in pairs.value && DatedKey(prefix, peg, listing, s, d)
          ensures ParsesAsDate(d)
        {
          var k :| 0 <= k < |rows| && rows[k] == (s, d);
        }
      } else {
        var k :| 0 <= k < |rows| && !ParsesAsDate(rows[k].1);
        assert rows[k] in rows;
        assert rows[k].0 + peg in pairs.value && DatedKey(prefix, peg, listing, rows[k].0, rows[k].1);
      }
    }
  }

  /** The flattened rows are exactly the (symbol, date) pairs the listings give. */
  lemma UniverseMembers(ps: seq<string>, prefix: string, peg: string, listing: string -> KeyListing)
    ensures forall s, d :: (s, d) in Rows(SymbolResults(ps, prefix, peg, listing)) <==>
              s + peg in ps && DatedKey(prefix, peg, listing, s, d)
  {
    var symbols := PegSymbols(ps, peg);
    var results := SymbolResults(ps, prefix, peg, listing);
    RowsExactly(results);
    PegSymbolsExactly(ps, peg);
    forall s, d ensures (s, d) in Rows(results) <==> s + peg in ps && DatedKey(prefix, peg, listing, s, d) {
      if (s, d) in Rows(results) {
        var i :| 0 <= i < |results| && results[i].0 == s && d in results[i].1;
        assert results[i] == SymbolDates(symbols[i], listing(SymbolPrefix(prefix, symbols[i], peg)));
        assert symbols[i] == s;
        DatesOfKeysExactly(listing(SymbolPrefix(prefix, s, peg)));
      }
      if s + peg in ps && DatedKey(prefix, peg, listing, s, d) {
        var i :| 0 <= i < |symbols| && symbols[i] == s;
        assert results[i] == SymbolDates(symbols[i], listing(SymbolPrefix(prefix, symbols[i], peg)));
        DatesOfKeysExactly(listing(SymbolPrefix(prefix, s, peg)));
        assert results[i].0 == s && d in results[i].1;
      }
    }
  }

  lemma DatesOfKeysExactly(l: KeyListing)
    ensures l.Keys? ==> forall d :: d in DatesOfKeys(l.keys) <==> exists k :: k in l.keys && KeyDate(k) == Some(d)
  {
    if l.Keys? {
      PickExactly(l.keys, KeyDate);
      forall d ensures d in DatesOfKeys(l.keys) <==> exists k :: k in l.keys && KeyDate(k) == Some(d) {
        if exists k :: k in l.keys && KeyDate(k) == Some(d) {
          var k :| k in l.keys && KeyDate(k) == Some(d);
          var i :| 0 <= i < |l.keys| && l.keys[i] == k;
        }
      }
    }
  }
}
