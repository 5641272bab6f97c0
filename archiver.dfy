/**
 * The archiver: every tick, for each data type, it lists the temporary
 * files "{src_dir}/{data_type}/{symbol}_{YY-MM-DD HH:MM:SS}.pq", raises
 * each symbol's latest timestamp to the newest file seen, and moves every
 * file strictly older than that into the hive layout
 * "{target_dir}/{data_type}/date={YYYY-MM-DD}/symbol={symbol}/data.parquet".
 * Directory listings, the file system and Parquet I/O are inputs; chrono's
 * timestamp parser and the machine's time zone are the `Clock`.
 */
module Archiver {
  import opened Wrappers
  import opened Strings
  import opened ArgusTypes
  import opened Converters
  import opened UtcTime

  // ---------------------------------------------------------------------
  // Time
  // ---------------------------------------------------------------------

  /** A wall-clock reading, as `%y-%m-%d %H:%M:%S` yields it. */
  datatype NaiveDateTime = NaiveDateTime(date: Date, hour: nat, minute: nat, second: nat)

  /** A `DateTime<Local>`: its wall-clock reading and the instant it denotes; comparisons compare instants. */
  datatype LocalTime = LocalTime(naive: NaiveDateTime, instant: int)

  /**
   * `NaiveDateTime::parse_from_str(_, "%y-%m-%d %H:%M:%S")` (with chrono's
   * error text), and `Local.from_local_datetime(_).single()`, which is
   * `None` for a reading the time zone skips or repeats.
   */
  datatype Clock = Clock(parse: string -> Result<NaiveDateTime>, local: NaiveDateTime -> Option<int>)

  // ---------------------------------------------------------------------
  // Paths
  // ---------------------------------------------------------------------

  /** The pieces of a path that `Path` keeps as components: no empty piece, no ".". */
  function Normal(parts: seq<string>): (r: seq<string>)
    ensures forall i :: 0 <= i < |r| ==> r[i] != "" && r[i] != "." && r[i] in parts
  {
    if parts == [] then []
    else (if parts[0] == "" || parts[0] == "." then [] else [parts[0]]) + Normal(parts[1..])
  }

  lemma {:induction false} NormalAppend(a: seq<string>, b: seq<string>)
    ensures Normal(a + b) == Normal(a) + Normal(b)
  {
    if a != [] {
      assert (a + b)[1..] == a[1..] + b;
      NormalAppend(a[1..], b);
    } else {
      assert a + b == b;
    }
  }

  /** The components of a '/'-separated path; the root and "." steps are not names. */
  function Components(path: string): (r: seq<string>)
    ensures forall i :: 0 <= i < |r| ==> r[i] != "" && r[i] != "." && '/' !in r[i]
  {
    Normal(Split(path, '/'))
  }

  /** A file name with a '.pq' extension, room for '_' and a 17-character timestamp, and a non-empty symbol. */
  predicate WellNamed(f: string)
  {
    EndsWith(f, ".pq") && |f| >= 22 && f[|f| - 21] == '_'
  }

  /** The symbol part of "{symbol}_{timestamp}.pq". */
  function NameSymbol(f: string): string
    requires |f| >= 21
  {
    f[..|f| - 21]
  }

  /** The 17-character timestamp part of "{symbol}_{timestamp}.pq". */
  function NameStamp(f: string): string
    requires |f| >= 21
  {
    f[|f| - 20..|f| - 3]
  }

  /** What `parse_tmp_filepath` reads out of a path. */
  datatype TmpName = TmpName(dataType: string, symbol: TradingSymbol, time: LocalTime)

  /**
   * `parse_tmp_filepath`: the parent directory's name is the data type;
   * the file name must end in ".pq"; what is left must be at least 18
   * characters with '_' just before the last 17, which are the timestamp;
   * the rest is the symbol.
   */
  function ParseTmpFilepath(path: string, clock: Clock): Result<TmpName>
  {
    var c := Components(path);
    if |c| < 2 || c[|c| - 2] == ".." then Failure("Cannot extract data type from path: " + path)
    else if c[|c| - 1] == ".." then Failure("Cannot extract filename from path: " + path)
    else ParseTmpName(c[|c| - 2], c[|c| - 1], clock)
  }

  /** The part of `parse_tmp_filepath` after the data type and the file name have been read. */
  function ParseTmpName(dataType: string, filename: string, clock: Clock): Result<TmpName>
  {
    if !EndsWith(filename, ".pq") then Failure("File does not have .pq extension: " + filename)
    else
      var stem := filename[..|filename| - 3];
      if |stem| < 18 then Failure("Filename too short to contain timestamp: " + filename)
      else
        var split := |stem| - 17;
        if stem[split - 1] != '_' then Failure("Expected underscore before timestamp in: " + filename)
        else
          var symbol :- SymbolFromStr(stem[..split - 1]);
          var stamp := stem[split..];
          match clock.parse(stamp)
          case Failure(e) => Failure("Failed to parse timestamp '" + stamp + "': " + e)
          case Success(naive) =>
            match clock.local(naive)
            case None => Failure("Ambiguous or invalid local datetime: " + stamp)
            case Some(instant) => Success(TmpName(dataType, symbol, LocalTime(naive, instant)))
  }

  /** A file name parses exactly when it is "{symbol}_{timestamp}.pq" with a timestamp the clock reads as one local time. */
  lemma ParseTmpNameShape(dataType: string, f: string, clock: Clock)
    ensures var r := ParseTmpName(dataType, f, clock);
      && (r.Success? <==>
           && WellNamed(f)
           && clock.parse(NameStamp(f)).Success?
           && clock.local(clock.parse(NameStamp(f)).value).Some?)
      && (r.Success? ==>
           && r.value.dataType == dataType
           && r.value.symbol == TradingSymbol(NameSymbol(f))
           && r.value.time.naive == clock.parse(NameStamp(f)).value
           && r.value.time.instant == clock.local(r.value.time.naive).value)
  {
    if EndsWith(f, ".pq") && |f| >= 21 {
      var stem := f[..|f| - 3];
      assert stem[..|stem| - 18] == NameSymbol(f);
      assert stem[|stem| - 17..] == NameStamp(f);
      assert stem[|stem| - 18] == f[|f| - 21];
    }
  }

  /**
   * A path parses exactly when it has a parent directory name and a file
   * name "{symbol}_{timestamp}.pq" with a non-empty symbol and a
   * 17-character timestamp the clock accepts; the data type is the parent's
   * name, and the symbol may itself contain '_'.
   */
  lemma ParseShape(path: string, clock: Clock)
    ensures var c := Components(path);
      var r := ParseTmpFilepath(path, clock);
      && (r.Success? <==>
           && |c| >= 2 && c[|c| - 2] != ".." && c[|c| - 1] != ".." && WellNamed(c[|c| - 1])
           && clock.parse(NameStamp(c[|c| - 1])).Success?
           && clock.local(clock.parse(NameStamp(c[|c| - 1])).value).Some?)
      && (r.Success? ==>
           && r.value.dataType == c[|c| - 2]
           && r.value.symbol == TradingSymbol(NameSymbol(c[|c| - 1]))
           && r.value.time.naive == clock.parse(NameStamp(c[|c| - 1])).value
           && r.value.time.instant == clock.local(r.value.time.naive).value)
  {
    var c := Components(path);
    if |c| >= 2 && c[|c| - 2] != ".." && c[|c| - 1] != ".." {
      ParseTmpNameShape(c[|c| - 2], c[|c| - 1], clock);
    }
  }

  lemma SplitBelow(dir: string, sub: string, name: string)
    requires '/' !in sub && '/' !in name
    ensures Split(dir + "/" + sub + "/" + name, '/') == Split(dir, '/') + [sub, name]
  {
    assert dir + "/" + sub + "/" + name == (dir + ['/'] + sub) + ['/'] + name;
    SplitAtSeparator(dir + ['/'] + sub, name, '/');
    SplitAtSeparator(dir, sub, '/');
    SplitPrefix(sub, "", '/');
    SplitPrefix(name, "", '/');
    assert sub + "" == sub && name + "" == name;
  }

  lemma NormalNames(sub: string, name: string)
    requires sub != "" && sub != "." && name != "" && name != "."
    ensures Normal([sub, name]) == [sub, name]
  {
    assert [sub, name][1..] == [name];
    assert [name][1..] == [];
    assert Normal([name]) == [name] + Normal([]);
    assert Normal([sub, name]) == [sub] + Normal([name]);
  }

  /** Two more components under a directory: a name and, below it, a file. */
  lemma ComponentsBelow(dir: string, sub: string, name: string)
    requires sub != "" && sub != "." && '/' !in sub
    requires name != "" && name != "." && '/' !in name
    ensures Components(dir + "/" + sub + "/" + name) == Components(dir) + [sub, name]
  {
    SplitBelow(dir, sub, name);
    NormalAppend(Split(dir, '/'), [sub, name]);
    NormalNames(sub, name);
  }

  /** The scribe's file name "{symbol}_{timestamp}.pq" is well formed and splits back into its parts. */
  lemma TmpFileName(symbol: string, stamp: string)
    requires symbol != "" && '/' !in symbol && |stamp| == 17 && '/' !in stamp
    ensures var name := symbol + "_" + stamp + ".pq";
      && name != "" && name != "." && name != ".." && '/' !in name
      && WellNamed(name) && NameSymbol(name) == symbol && NameStamp(name) == stamp
  {
    var name := symbol + "_" + stamp + ".pq";
    forall i | 0 <= i < |name| ensures name[i] != '/' {
      if i < |symbol| {
        assert name[i] == symbol[i];
      } else if |symbol| < i < |symbol| + 18 {
        assert name[i] == stamp[i - |symbol| - 1];
      }
    }
    assert name[|name| - 3..] == ".pq";
    assert name[..|name| - 21] == symbol;
    assert name[|name| - 20..|name| - 3] == stamp;
  }

  /**
   * The names the file scribe writes parse back: "{dir}/{data_type}/
   * {symbol}_{timestamp}.pq" gives the data type, the symbol and the
   * timestamp's reading, whatever the directory above.
   */
  lemma TmpNameRoundTrip(dir: string, dataType: string, symbol: string, stamp: string, clock: Clock)
    requires dataType != "" && dataType != "." && dataType != ".." && '/' !in dataType
    requires symbol != "" && '/' !in symbol && |stamp| == 17 && '/' !in stamp
    requires clock.parse(stamp).Success? && clock.local(clock.parse(stamp).value).Some?
    ensures var naive := clock.parse(stamp).value;
      ParseTmpFilepath(dir + "/" + dataType + "/" + (symbol + "_" + stamp + ".pq"), clock)
        == Success(TmpName(dataType, TradingSymbol(symbol), LocalTime(naive, clock.local(naive).value)))
  {
    var name := symbol + "_" + stamp + ".pq";
    TmpFileName(symbol, stamp);
    ComponentsBelow(dir, dataType, name);
    var path := dir + "/" + dataType + "/" + name;
    var c := Components(path);
    assert c[|c| - 1] == name && c[|c| - 2] == dataType;
    ParseShape(path, clock);
  }

  /** "{target}/{data_type}/date={date}/symbol={symbol}/data.parquet". */
  function TargetPath(targetDir: string, dataType: string, date: string, symbol: string): string
  {
    targetDir + "/" + dataType + "/date=" + date + "/symbol=" + symbol + "/data.parquet"
  }

  /**
   * Below the target directory the path has exactly four components: the
   * data type, "date=...", "symbol=..." and the file; so files of
   * different data types, dates or symbols never share a target.
   */
  lemma TargetPathComponents(targetDir: string, dataType: string, date: string, symbol: string)
    requires '/' !in dataType && '/' !in date && '/' !in symbol
    ensures var p := TargetPath(targetDir, dataType, date, symbol);
      |p| > |targetDir| && p[..|targetDir| + 1] == targetDir + "/"
      && Split(p[|targetDir| + 1..], '/') == [dataType, "date=" + date, "symbol=" + symbol, "data.parquet"]
  {
    var parts := [dataType, "date=" + date, "symbol=" + symbol, "data.parquet"];
    NoSlashAfter("date=", date);
    NoSlashAfter("symbol=", symbol);
    SplitJoin(parts, '/');
    TargetPathJoin(targetDir, dataType, date, symbol);
    var p := TargetPath(targetDir, dataType, date, symbol);
    assert p[|targetDir| + 1..] == Join(parts, '/');
  }

  /** The target path is the target directory, then its four components joined by '/'. */
  lemma TargetPathJoin(targetDir: string, dataType: string, date: string, symbol: string)
    ensures TargetPath(targetDir, dataType, date, symbol)
      == targetDir + "/" + Join([dataType, "date=" + date, "symbol=" + symbol, "data.parquet"], '/')
  {
    var parts := [dataType, "date=" + date, "symbol=" + symbol, "data.parquet"];
    assert parts[1..][1..][1..] == ["data.parquet"];
    assert Join(parts[1..][1..], '/') == ("symbol=" + symbol) + "/" + "data.parquet";
    assert Join(parts[1..], '/') == ("date=" + date) + "/" + (("symbol=" + symbol) + "/" + "data.parquet");
    assert Join(parts, '/') == dataType + "/" + (("date=" + date) + "/" + (("symbol=" + symbol) + "/" + "data.parquet"));
  }

  /** `flush_tmp_file_blocking` writes a new file, or merges into the existing one through "{target}.tmp". */
  datatype FlushPlan = Recompress(dest: string) | Merge(temp: string, dest: string)

  /**
   * Where a temporary file goes: the path is parsed again, the date is the
   * reading's "%Y-%m-%d", and `present` says whether the target already exists.
   */
  function FlushPlanOf(path: string, targetDir: string, clock: Clock, present: string -> bool): (r: Result<FlushPlan>)
    ensures r.Success? <==> ParseTmpFilepath(path, clock).Success?
    ensures r.Failure? ==> r.error == ParseTmpFilepath(path, clock).error
    ensures r.Success? ==>
      var n := ParseTmpFilepath(path, clock).value;
      && r.value.dest == TargetPath(targetDir, n.dataType, IsoDate(n.time.naive.date), n.symbol.name)
      && (r.value.Merge? <==> present(r.value.dest))
      && (r.value.Merge? ==> r.value.temp == r.value.dest + ".tmp")
  {
    var n :- ParseTmpFilepath(path, clock);
    var dest := TargetPath(targetDir, n.dataType, IsoDate(n.time.naive.date), n.symbol.name);
    if present(dest) then Success(Merge(dest + ".tmp", dest)) else Success(Recompress(dest))
  }

  /** The file system as the flush sees it: whether a path exists, and the outcome of a flush (its record count). */
  datatype Disk = Disk(present: string -> bool, write: (string, FlushPlan) -> Result<nat>)

  /** `flush_tmp_file`: plan the move, then carry it out. */
  function FlushOutcome(path: string, targetDir: string, clock: Clock, disk: Disk): (r: Result<nat>)
    ensures ParseTmpFilepath(path, clock).Failure? ==> r == Failure(ParseTmpFilepath(path, clock).error)
    ensures ParseTmpFilepath(path, clock).Success? ==>
      r == disk.write(path, FlushPlanOf(path, targetDir, clock, disk.present).value)
  {
    match FlushPlanOf(path, targetDir, clock, disk.present)
    case Failure(e) => Failure(e)
    case Success(plan) => disk.write(path, plan)
  }

  // ---------------------------------------------------------------------
  // One tick of a data type's task
  // ---------------------------------------------------------------------

  /** A temporary file kept for this tick: its path, symbol and instant. */
  datatype TmpFile = TmpFile(path: string, symbol: TradingSymbol, time: int)

  /** A listed path's file, when the path parses and names this data type. */
  function Keep(dataType: string, clock: Clock): string -> Option<TmpFile>
  {
    (path: string) =>
      match ParseTmpFilepath(path, clock)
      case Success(n) => if n.dataType == dataType then Some(TmpFile(path, n.symbol, n.time.instant)) else None
      case Failure(_) => None
  }

  /** The first pass: the listed files that parse and belong to this data type, in listing order. */
  function Scan(paths: seq<string>, dataType: string, clock: Clock): seq<TmpFile>
  {
    Pick(paths, Keep(dataType, clock))
  }

  /**
   * A file is kept exactly when its path is listed and parses to this
   * data type; it then carries the parsed symbol and instant.
   */
  lemma ScanExactly(paths: seq<string>, dataType: string, clock: Clock)
    ensures |Scan(paths, dataType, clock)| <= |paths|
    ensures forall f :: f in Scan(paths, dataType, clock) <==>
      && f.path in paths && ParseTmpFilepath(f.path, clock).Success?
      && ParseTmpFilepath(f.path, clock).value.dataType == dataType
      && f.symbol == ParseTmpFilepath(f.path, clock).value.symbol
      && f.time == ParseTmpFilepath(f.path, clock).value.time.instant
  {
    PickExactly(paths, Keep(dataType, clock));
    forall f: TmpFile ensures f in Scan(paths, dataType, clock) ==> f.path in paths {
      if f in Scan(paths, dataType, clock) {
        var i :| 0 <= i < |paths| && Keep(dataType, clock)(paths[i]) == Some(f);
      }
    }
    forall f: TmpFile | f.path in paths ensures Keep(dataType, clock)(f.path) == Some(f) ==> f in Scan(paths, dataType, clock) {
      var i :| 0 <= i < |paths| && paths[i] == f.path;
    }
  }

  /** The first pass as it runs. */
  method ScanFiles(paths: seq<string>, dataType: string, clock: Clock) returns (files: seq<TmpFile>)
    ensures files == Scan(paths, dataType, clock)
  {
    files := PickLoop(paths, Keep(dataType, clock));
  }

  /** `entry(symbol).and_modify(raise to a later timestamp).or_insert(timestamp)`. */
  function Bump(latest: map<TradingSymbol, int>, f: TmpFile): map<TradingSymbol, int>
  {
    if f.symbol in latest && f.time <= latest[f.symbol] then latest else latest[f.symbol := f.time]
  }

  /** The latest timestamps after the files are folded in, in order. */
  function Merged(latest: map<TradingSymbol, int>, files: seq<TmpFile>): map<TradingSymbol, int>
  {
    if files == [] then latest else Bump(Merged(latest, files[..|files| - 1]), files[|files| - 1])
  }

  /**
   * After the update each symbol's entry is the maximum of its old entry
   * and the timestamps of its files: it covers the old symbols and the
   * scanned ones, never decreases, is at least every scanned timestamp,
   * and is the old entry or one of them.
   */
  lemma MergedIsMax(latest: map<TradingSymbol, int>, files: seq<TmpFile>)
    ensures var m := Merged(latest, files);
      && (forall k :: k in m <==> k in latest || exists i :: 0 <= i < |files| && files[i].symbol == k)
      && (forall k :: k in latest ==> m[k] >= latest[k])
      && (forall i :: 0 <= i < |files| ==> files[i].symbol in m && m[files[i].symbol] >= files[i].time)
      && (forall k :: k in m ==>
            (k in latest && m[k] == latest[k])
            || exists i :: 0 <= i < |files| && files[i].symbol == k && files[i].time == m[k])
  {
    MergedKeys(latest, files);
    MergedGrows(latest, files);
    MergedCovers(latest, files);
    MergedAttained(latest, files);
  }

  /** The merged map holds the old symbols and the scanned ones, and no other. */
  lemma {:induction false} MergedKeys(latest: map<TradingSymbol, int>, files: seq<TmpFile>)
    ensures forall k :: k in Merged(latest, files) <==> k in latest || exists i :: 0 <= i < |files| && files[i].symbol == k
    decreases |files|
  {
    if files != [] {
      var init := files[..|files| - 1];
      MergedKeys(latest, init);
      forall k | k in latest || exists i :: 0 <= i < |files| && files[i].symbol == k
        ensures k in Merged(latest, files)
      {
        if k !in latest && k != files[|files| - 1].symbol {
          var i :| 0 <= i < |files| && files[i].symbol == k;
          assert init[i] == files[i];
        }
      }
      forall k | k in Merged(latest, files)
        ensures k in latest || exists i :: 0 <= i < |files| && files[i].symbol == k
      {
        if k != files[|files| - 1].symbol && k !in latest {
          var i :| 0 <= i < |init| && init[i].symbol == k;
          assert files[i] == init[i];
        }
      }
    }
  }

  /** No old entry goes down. */
  lemma {:induction false} MergedGrows(latest: map<TradingSymbol, int>, files: seq<TmpFile>)
    ensures forall k :: k in latest ==> k in Merged(latest, files) && Merged(latest, files)[k] >= latest[k]
    decreases |files|
  {
    if files != [] {
      MergedGrows(latest, files[..|files| - 1]);
    }
  }

  /** Every scanned timestamp is at most its symbol's merged entry. */
  lemma {:induction false} MergedCovers(latest: map<TradingSymbol, int>, files: seq<TmpFile>)
    ensures forall i :: 0 <= i < |files| ==> files[i].symbol in Merged(latest, files) && Merged(latest, files)[files[i].symbol] >= files[i].time
    decreases |files|
  {
    if files != [] {
      var init := files[..|files| - 1];
      MergedCovers(latest, init);
      forall i | 0 <= i < |files| - 1
        ensures files[i].symbol in Merged(latest, files) && Merged(latest, files)[files[i].symbol] >= files[i].time
      {
        assert files[i] == init[i];
      }
    }
  }

  /** Every merged entry is the old entry or the timestamp of one of the symbol's files. */
  lemma {:induction false} MergedAttained(latest: map<TradingSymbol, int>, files: seq<TmpFile>)
    ensures var m := Merged(latest, files);
      forall k :: k in m ==>
        (k in latest && m[k] == latest[k])
        || exists i :: 0 <= i < |files| && files[i].symbol == k && files[i].time == m[k]
    decreases |files|
  {
    if files != [] {
      var init := files[..|files| - 1];
      var last := files[|files| - 1];
      MergedAttained(latest, init);
      var before := Merged(latest, init);
      var m := Merged(latest, files);
      assert m == Bump(before, last);
      forall k | k in m
        ensures (k in latest && m[k] == latest[k])
          || exists i :: 0 <= i < |files| && files[i].symbol == k && files[i].time == m[k]
      {
        if k != last.symbol || (last.symbol in before && last.time <= before[last.symbol]) {
          assert k in before && m[k] == before[k];
          if !(k in latest && before[k] == latest[k]) {
            var i :| 0 <= i < |init| && init[i].symbol == k && init[i].time == before[k];
            assert files[i] == init[i];
          }
        } else {
          assert files[|files| - 1].symbol == k && files[|files| - 1].time == m[k];
        }
      }
    }
  }

  /** The merge as it runs, one file after another. */
  method MergeUpdates(latest: map<TradingSymbol, int>, files: seq<TmpFile>) returns (r: map<TradingSymbol, int>)
    ensures r == Merged(latest, files)
  {
    r := latest;
    var i := 0;
    while i < |files|
      invariant i <= |files|
      invariant r == Merged(latest, files[..i])
    {
      assert files[..i + 1][..i] == files[..i];
      var f := files[i];
      if f.symbol in r {
        if f.time > r[f.symbol] {
          r := r[f.symbol := f.time];
        }
      } else {
        r := r[f.symbol := f.time];
      }
      i := i + 1;
    }
    assert files[..i] == files;
  }

  /** A file is flushed when it is strictly older than its symbol's latest timestamp. */
  predicate Older(f: TmpFile, latest: map<TradingSymbol, int>)
  {
    f.symbol in latest && f.time < latest[f.symbol]
  }

  function Selected(files: seq<TmpFile>, latest: map<TradingSymbol, int>): seq<TmpFile>
  {
    if files == [] then []
    else
      var rest := Selected(files[..|files| - 1], latest);
      if Older(files[|files| - 1], latest) then rest + [files[|files| - 1]] else rest
  }

  /** The flushed files are exactly the older ones, in order. */
  lemma {:induction false} SelectedExactly(files: seq<TmpFile>, latest: map<TradingSymbol, int>)
    ensures forall f :: f in Selected(files, latest) <==> f in files && Older(f, latest)
    decreases |files|
  {
    if files != [] {
      var init := files[..|files| - 1];
      SelectedExactly(init, latest);
      assert files == init + [files[|files| - 1]];
    }
  }

  /**
   * After the update a symbol keeps at least one of its files exactly
   * when it had no entry before or its entry was not newer than all of
   * its files; otherwise (an entry left by an earlier source directory)
   * every one of its files is flushed.
   */
  lemma NewestKept(latest: map<TradingSymbol, int>, files: seq<TmpFile>, s: TradingSymbol)
    requires exists i :: 0 <= i < |files| && files[i].symbol == s
    ensures (exists i :: 0 <= i < |files| && files[i].symbol == s && !Older(files[i], Merged(latest, files)))
      <==> (s !in latest || exists i :: 0 <= i < |files| && files[i].symbol == s && latest[s] <= files[i].time)
  {
    MergedIsMax(latest, files);
    var m := Merged(latest, files);
    var j :| 0 <= j < |files| && files[j].symbol == s;
    assert s in m;
    if s !in latest || exists i :: 0 <= i < |files| && files[i].symbol == s && latest[s] <= files[i].time {
      if s in latest && m[s] == latest[s] {
        var i :| 0 <= i < |files| && files[i].symbol == s && latest[s] <= files[i].time;
        assert !Older(files[i], m);
      } else {
        var i :| 0 <= i < |files| && files[i].symbol == s && files[i].time == m[s];
        assert !Older(files[i], m);
      }
    }
  }

  /** The counters: flushes that succeeded, and the records they moved. */
  function Totals(selected: seq<TmpFile>, outcome: string -> Result<nat>): (nat, nat)
  {
    if selected == [] then (0, 0)
    else
      var (files, records) := Totals(selected[..|selected| - 1], outcome);
      match outcome(selected[|selected| - 1].path)
      case Success(n) => (files + 1, records + n)
      case Failure(_) => (files, records)
  }

  /** A failed flush is skipped, not counted: the file count reaches the number selected exactly when every flush succeeds. */
  lemma {:induction false} TotalsCount(selected: seq<TmpFile>, outcome: string -> Result<nat>)
    ensures Totals(selected, outcome).0 <= |selected|
    ensures Totals(selected, outcome).0 == |selected| <==>
      forall i :: 0 <= i < |selected| ==> outcome(selected[i].path).Success?
    decreases |selected|
  {
    if selected != [] {
      var init := selected[..|selected| - 1];
      TotalsCount(init, outcome);
      if Totals(selected, outcome).0 == |selected| {
        forall i | 0 <= i < |selected| ensures outcome(selected[i].path).Success? {
          if i < |init| {
            assert selected[i] == init[i];
          }
        }
      }
    }
  }

  lemma SelectedSnoc(files: seq<TmpFile>, i: nat, latest: map<TradingSymbol, int>)
    requires i < |files|
    ensures Selected(files[..i + 1], latest)
      == Selected(files[..i], latest) + (if Older(files[i], latest) then [files[i]] else [])
  {
    assert files[..i + 1][..i] == files[..i];
  }

  lemma TotalsSnoc(selected: seq<TmpFile>, f: TmpFile, outcome: string -> Result<nat>)
    ensures Totals(selected + [f], outcome) ==
      match outcome(f.path)
      case Success(n) => (Totals(selected, outcome).0 + 1, Totals(selected, outcome).1 + n)
      case Failure(_) => Totals(selected, outcome)
  {
    assert (selected + [f])[..|selected|] == selected;
  }

  /** One more file: counted when it is older and its flush succeeds. */
  lemma FlushStep(files: seq<TmpFile>, i: nat, latest: map<TradingSymbol, int>, outcome: string -> Result<nat>)
    requires i < |files|
    ensures var f := files[i];
      var t := Totals(Selected(files[..i], latest), outcome);
      Totals(Selected(files[..i + 1], latest), outcome) ==
        if f.symbol in latest && f.time < latest[f.symbol] then
          match outcome(f.path)
          case Success(n) => (t.0 + 1, t.1 + n)
          case Failure(_) => t
        else t
  {
    var selected := Selected(files[..i], latest);
    SelectedSnoc(files, i, latest);
    if Older(files[i], latest) {
      assert Selected(files[..i + 1], latest) == selected + [files[i]];
      TotalsSnoc(selected, files[i], outcome);
    } else {
      assert Selected(files[..i + 1], latest) == selected + [];
      assert selected + [] == selected;
    }
  }

  /** The second pass as it runs: flush each older file and count the successes. */
  method FlushFiles(files: seq<TmpFile>, latest: map<TradingSymbol, int>, outcome: string -> Result<nat>)
    returns (flushedFiles: nat, flushedRecords: nat)
    ensures (flushedFiles, flushedRecords) == Totals(Selected(files, latest), outcome)
  {
    flushedFiles, flushedRecords := 0, 0;
    var i := 0;
    while i < |files|
      invariant i <= |files|
      invariant (flushedFiles, flushedRecords) == Totals(Selected(files[..i], latest), outcome)
    {
      FlushStep(files, i, latest, outcome);
      ghost var next := Totals(Selected(files[..i + 1], latest), outcome);
      var f := files[i];
      if f.symbol in latest && f.time < latest[f.symbol] {
        var o := outcome(f.path);
        if o.Success? {
          flushedFiles, flushedRecords := flushedFiles + 1, flushedRecords + o.value;
        }
      }
      assert (flushedFiles, flushedRecords) == next;
      i := i + 1;
    }
    assert files[..i] == files;
  }

  // ---------------------------------------------------------------------
  // Directories
  // ---------------------------------------------------------------------

  /** What the file system says about a candidate source directory. */
  datatype DirStatus = Missing | NotADirectory | Unreadable(error: string) | Listed(hasSubdirectory: bool)

  /** `is_valid_src_dir`: an existing, readable directory with at least one subdirectory. */
  function IsValidSrcDir(src: string, status: DirStatus): (r: Result<Unit>)
    ensures r.Success? <==> status == Listed(true)
  {
    match status
    case Missing => Failure("Source directory does not exist: " + src)
    case NotADirectory => Failure("Source path is not a directory: " + src)
    case Unreadable(e) => Failure("Cannot read source directory " + src + ": " + e)
    case Listed(has) =>
      if has then Success(Unit) else Failure("Source directory " + src + " does not contain any subdirectories")
  }

  /** `create_dir_all` of one data type's directory, with the constructor's error text. */
  function MakeTypeDir(targetDir: string, mkdir: string -> Result<Unit>): string -> Result<Unit>
  {
    (dataType: string) =>
      var dir := targetDir + "/" + dataType;
      match mkdir(dir)
      case Success(_) => Success(Unit)
      case Failure(e) => Failure("Failed to create data type directory " + dir + ": " + e)
  }

  /** The constructor's checks: the source directory, the target directory, then each data type's directory. */
  function Startup(targetDir: string, dataTypes: seq<string>, srcDir: string, status: DirStatus,
                   mkdir: string -> Result<Unit>): Result<Unit>
  {
    var _ :- IsValidSrcDir(srcDir, status);
    match mkdir(targetDir)
    case Failure(e) => Failure("Failed to create target directory " + targetDir + ": " + e)
    case Success(_) =>
      var made :- Collect(dataTypes, MakeTypeDir(targetDir, mkdir));
      Success(Unit)
  }

  /** The archiver starts exactly when the source is valid and every target directory can be created. */
  lemma StartupShape(targetDir: string, dataTypes: seq<string>, srcDir: string, status: DirStatus,
                     mkdir: string -> Result<Unit>)
    ensures Startup(targetDir, dataTypes, srcDir, status, mkdir).Success? <==>
      && status == Listed(true) && mkdir(targetDir).Success?
      && forall i :: 0 <= i < |dataTypes| ==> mkdir(targetDir + "/" + dataTypes[i]).Success?
    ensures status != Listed(true) ==>
      Startup(targetDir, dataTypes, srcDir, status, mkdir) == IsValidSrcDir(srcDir, status)
  {
    assert forall i :: 0 <= i < |dataTypes| ==>
      (MakeTypeDir(targetDir, mkdir)(dataTypes[i]).Success? <==> mkdir(targetDir + "/" + dataTypes[i]).Success?);
  }

  /** Every data type starts with no symbols. */
  function EmptyUpdates(dataTypes: seq<string>): (r: map<string, map<TradingSymbol, int>>)
    ensures forall d :: d in r <==> d in dataTypes
    ensures forall d :: d in r ==> r[d] == map[]
  {
    map d | d in dataTypes :: map[]
  }

  /** "{src_dir}/{data_type}", the directory a task lists. */
  function ScanPath(srcDir: string, dataType: string): string
  {
    srcDir + "/" + dataType
  }

  class Archiver {
    const dataTypes: seq<string>
    const targetDir: string
    var srcDir: string
    /** Per data type, per symbol: the instant of the newest temporary file seen. */
    var lastUpdates: map<string, map<TradingSymbol, int>>

    /** Every data type has its table (the tasks `unwrap` it). */
    ghost predicate Valid()
      reads this
    {
      forall d :: d in dataTypes ==> d in lastUpdates
    }

    constructor (targetDir: string, dataTypes: seq<string>, srcDir: string)
      ensures this.targetDir == targetDir && this.dataTypes == dataTypes && this.srcDir == srcDir
      ensures lastUpdates == EmptyUpdates(dataTypes) && Valid()
    {
      this.targetDir := targetDir;
      this.dataTypes := dataTypes;
      this.srcDir := srcDir;
      lastUpdates := EmptyUpdates(dataTypes);
    }

    /** `Archiver::new`: the checks in order, then empty tables for every data type. */
    static method New(targetDir: string, dataTypes: seq<string>, srcDir: string, status: DirStatus,
                      mkdir: string -> Result<Unit>) returns (r: Result<Archiver>)
      ensures r.Success? <==> Startup(targetDir, dataTypes, srcDir, status, mkdir).Success?
      ensures r.Failure? ==> r.error == Startup(targetDir, dataTypes, srcDir, status, mkdir).error
      ensures r.Success? ==>
        && fresh(r.value) && r.value.Valid()
        && r.value.targetDir == targetDir && r.value.dataTypes == dataTypes && r.value.srcDir == srcDir
        && r.value.lastUpdates == EmptyUpdates(dataTypes)
    {
      var valid := IsValidSrcDir(srcDir, status);
      if valid.Failure? {
        return Failure(valid.error);
      }
      var top := mkdir(targetDir);
      if top.Failure? {
        return Failure("Failed to create target directory " + targetDir + ": " + top.error);
      }
      var made := CollectLoop(dataTypes, MakeTypeDir(targetDir, mkdir));
      if made.Failure? {
        return Failure(made.error);
      }
      var a := new Archiver(targetDir, dataTypes, srcDir);
      return Success(a);
    }

    /** `swap_on`: the new directory is checked first; only a valid one replaces the source. */
    method SwapOn(newSrcDir: string, status: DirStatus) returns (r: Result<Unit>)
      requires Valid()
      modifies this
      ensures Valid()
      ensures r == IsValidSrcDir(newSrcDir, status)
      ensures srcDir == (if r.Success? then newSrcDir else old(srcDir))
      ensures lastUpdates == old(lastUpdates)
    {
      r := IsValidSrcDir(newSrcDir, status);
      if r.Success? {
        srcDir := newSrcDir;
      }
    }

    /**
     * One tick of `track_single_data_type`: list the current source
     * directory's folder for the data type, keep the files that parse to
     * it, raise the symbols' latest timestamps, then flush every file
     * strictly older than its symbol's latest and count the successes.
     * An unreadable folder or no matching file changes nothing.
     */
    method Track(dataType: string, listDir: string -> Result<seq<string>>, clock: Clock, disk: Disk)
      returns (flushedFiles: nat, flushedRecords: nat)
      requires Valid() && dataType in dataTypes
      modifies this
      ensures Valid() && srcDir == old(srcDir)
      ensures var listing := listDir(ScanPath(old(srcDir), dataType));
        var files := if listing.Success? then Scan(listing.value, dataType, clock) else [];
        var merged := Merged(old(lastUpdates)[dataType], files);
        && lastUpdates == (if files == [] then old(lastUpdates) else old(lastUpdates)[dataType := merged])
        && (flushedFiles, flushedRecords) ==
             (if files == [] then (0, 0)
              else Totals(Selected(files, merged), p => FlushOutcome(p, targetDir, clock, disk)))
    {
      var listing := listDir(ScanPath(srcDir, dataType));
      if listing.Failure? {
        return 0, 0;
      }
      var files := ScanFiles(listing.value, dataType, clock);
      if files == [] {
        return 0, 0;
      }
      var merged := MergeUpdates(lastUpdates[dataType], files);
      lastUpdates := lastUpdates[dataType := merged];
      flushedFiles, flushedRecords := FlushFiles(files, merged, p => FlushOutcome(p, targetDir, clock, disk));
    }

    /** `time_since_last_update`: every data type and symbol, with `now` minus its latest instant. */
    method TimeSinceLastUpdate(now: int) returns (r: map<string, map<TradingSymbol, int>>)
      ensures r.Keys == lastUpdates.Keys
      ensures forall d :: d in r ==> r[d].Keys == lastUpdates[d].Keys
      ensures forall d, s :: d in r && s in r[d] ==> r[d][s] == now - lastUpdates[d][s]
    {
      r := map[];
      var remaining := lastUpdates.Keys;
      while remaining != {}
        invariant remaining <= lastUpdates.Keys
        invariant r.Keys == lastUpdates.Keys - remaining
        invariant forall d :: d in r ==> r[d].Keys == lastUpdates[d].Keys
        invariant forall d, s :: d in r && s in r[d] ==> r[d][s] == now - lastUpdates[d][s]
        decreases remaining
      {
        var d :| d in remaining;
        var durations := ElapsedSince(lastUpdates[d], now);
        r := r[d := durations];
        remaining := remaining - {d};
      }
    }
  }

  /** The inner loop of `time_since_last_update`, over one data type's symbols. */
  method ElapsedSince(latest: map<TradingSymbol, int>, now: int) returns (r: map<TradingSymbol, int>)
    ensures r.Keys == latest.Keys
    ensures forall s :: s in r ==> r[s] == now - latest[s]
  {
    r := map[];
    var remaining := latest.Keys;
    while remaining != {}
      invariant remaining <= latest.Keys
      invariant r.Keys == latest.Keys - remaining
      invariant forall s :: s in r ==> r[s] == now - latest[s]
      decreases remaining
    {
      var s :| s in remaining;
      r := r[s := now - latest[s]];
      remaining := remaining - {s};
    }
  }
}
