/**
 * Date-partitioned datasets (`ByDateDataview` and its computing subclass
 * `ByDateDataset`): the partitions are the distinct dates of the universe,
 * in order; a set of partitions known to be valid is kept in memory and
 * written to `validated_partitions.json`; partitions are checked or
 * computed in parallel batches and the cache follows the outcome.
 *
 * The reading and writing of parquet files is left out: whether a
 * partition is readable is the function `valid`, and what a batch
 * computation does is the function `worker`. The cache file is modelled
 * by the set of dates it lists.
 */
module DatasetInterface {
  import opened Wrappers
  import opened Strings
  import opened UtcTime
  import opened Multiprocessing

  // ---------------------------------------------------------------------
  // Dates in order
  // ---------------------------------------------------------------------

  /** `datetime.date` ordering. */
  predicate DateLt(a: Date, b: Date)
  {
    a.year < b.year || (a.year == b.year && (a.month < b.month || (a.month == b.month && a.day < b.day)))
  }

  predicate StrictlySorted(ds: seq<Date>)
  {
    forall i, j :: 0 <= i < j < |ds| ==> DateLt(ds[i], ds[j])
  }

  /** A date put in its place in a strictly sorted list, unless it is there already. */
  function InsertDate(d: Date, s: seq<Date>): seq<Date>
  {
    if s == [] then [d]
    else if d == s[0] then s
    else if DateLt(d, s[0]) then [d] + s
    else [s[0]] + InsertDate(d, s[1..])
  }

  lemma {:induction false} InsertDateSpec(d: Date, s: seq<Date>)
    requires StrictlySorted(s)
    ensures StrictlySorted(InsertDate(d, s))
    ensures forall x :: x in InsertDate(d, s) <==> x == d || x in s
  {
    if s != [] && d != s[0] && !DateLt(d, s[0]) {
      InsertDateSpec(d, s[1..]);
      var r := InsertDate(d, s);
      assert r == [s[0]] + InsertDate(d, s[1..]);
      forall j | 0 < j < |r|
        ensures DateLt(r[0], r[j])
      {
        assert r[j] in InsertDate(d, s[1..]);
      }
    }
  }

  /** `sorted(set(ds))`: the distinct dates, earliest first. */
  function SortedDistinct(ds: seq<Date>): seq<Date>
  {
    if ds == [] then [] else InsertDate(ds[|ds| - 1], SortedDistinct(ds[..|ds| - 1]))
  }

  /** The result is strictly increasing and holds exactly the dates given. */
  lemma {:induction false} SortedDistinctSpec(ds: seq<Date>)
    ensures StrictlySorted(SortedDistinct(ds))
    ensures forall x :: x in SortedDistinct(ds) <==> x in ds
  {
    if ds != [] {
      var front := ds[..|ds| - 1];
      SortedDistinctSpec(front);
      InsertDateSpec(ds[|ds| - 1], SortedDistinct(front));
      assert ds == front + [ds[|ds| - 1]];
    }
  }

  /** `[d for d in partitions if d not in valid]`. */
  function Uncached(partitions: seq<Date>, valid: set<Date>): (r: seq<Date>)
    ensures forall d :: d in r <==> d in partitions && d !in valid
  {
    if partitions == [] then []
    else (if partitions[0] in valid then [] else [partitions[0]]) + Uncached(partitions[1..], valid)
  }

  // ---------------------------------------------------------------------
  // Universe and cache file
  // ---------------------------------------------------------------------

  /** The universe table, by its column names and its date and symbol columns. */
  datatype Universe = Universe(columns: set<string>, dates: seq<Date>, symbols: seq<string>)

  /** The cache file: absent, unreadable, or listing some dates. */
  datatype CacheFile = NoFile | Unreadable | Listing(dates: set<Date>)

  /** `_load_validation_cache`: the listed dates, or none when the file is missing or unreadable. */
  function LoadCache(file: CacheFile): (r: set<Date>)
    ensures file.Listing? ==> r == file.dates
    ensures !file.Listing? ==> r == {}
  {
    match file
    case Listing(dates) => dates
    case _ => {}
  }

  const BAD_SCHEMA := "RuntimeError: Dataview expects symbol, date columns."

  /** The schema check and the partitions: the distinct dates of the universe, in order. */
  function UniversePartitions(u: Universe): (r: Result<seq<Date>>)
    ensures r.Failure? <==> "date" !in u.columns || "symbol" !in u.columns
    ensures r.Success? ==> StrictlySorted(r.value) && forall d :: d in r.value <==> d in u.dates
  {
    SortedDistinctSpec(u.dates);
    if "date" in u.columns && "symbol" in u.columns then Success(SortedDistinct(u.dates)) else Failure(BAD_SCHEMA)
  }

  function InvalidPartitionError(d: Date): string
  {
    "RuntimeError: Invalid partition " + IsoDate(d)
  }

  function FailedComputations(n: nat): string
  {
    "RuntimeError: Computation failed for " + NatToString(n) + " partitions"
  }

  function NotValidated(n: nat): string
  {
    "RuntimeError: DatasetView failed validation. " + NatToString(n) + " invalid partitions"
  }

  /** `dict(zip(keys, values))`: a later key wins. */
  function ZipMap(keys: seq<Date>, values: seq<bool>): (m: map<Date, bool>)
    requires |keys| == |values|
    ensures m.Keys == set k | k in keys
    ensures forall k :: k in m ==> exists i :: 0 <= i < |keys| && keys[i] == k && m[k] == values[i]
  {
    if keys == [] then map[]
    else
      var n := |keys| - 1;
      var m := ZipMap(keys[..n], values[..n])[keys[n] := values[n]];
      assert forall k :: k in keys <==> k in keys[..n] || k == keys[n];
      m
  }

  // ---------------------------------------------------------------------
  // Spreading batch outcomes over their dates
  // ---------------------------------------------------------------------

  /** What a computation batch returns: one flag for the batch, or a list of them. */
  datatype BatchResult = Flag(ok: bool) | Flags(oks: seq<bool>)

  /** The flags a batch leaves in the pool's results: the worker's, or all false when it crashed. */
  function Outcome(worker: seq<Date> -> Result<bool>, batch: seq<Date>): BatchResult
  {
    if worker(batch).Success? then Flag(worker(batch).value) else Flags(seq(|batch|, _ => false))
  }

  /** Whether a batch succeeded. */
  predicate BatchOk(worker: seq<Date> -> Result<bool>, batch: seq<Date>)
  {
    worker(batch) == Success(true)
  }

  /** The inner `zip(dates_batch, batch_success)` loop: stops at the shorter of the two. */
  function ZipInto(m: map<Date, bool>, batch: seq<Date>, flags: seq<bool>): map<Date, bool>
    decreases |batch|
  {
    if batch == [] || flags == [] then m
    else ZipInto(m[batch[0] := flags[0]], batch[1..], flags[1..])
  }

  /** One batch's flags written over `m`. */
  function SpreadOne(m: map<Date, bool>, batch: seq<Date>, result: BatchResult): map<Date, bool>
  {
    match result
    case Flags(oks) => ZipInto(m, batch, oks)
    case Flag(ok) => ZipInto(m, batch, seq(|batch|, _ => ok))
  }

  /** The outer loop over `zip(date_chunks, batch_results)`. */
  function Spread(chunks: seq<seq<Date>>, results: seq<BatchResult>): map<Date, bool>
    requires |chunks| == |results|
  {
    if chunks == [] then map[]
    else
      var n := |chunks| - 1;
      SpreadOne(Spread(chunks[..n], results[..n]), chunks[n], results[n])
  }

  /** Writing the same flag for every date of a batch. */
  lemma {:induction false} ZipIntoConst(m: map<Date, bool>, batch: seq<Date>, ok: bool, flags: seq<bool>)
    requires |flags| == |batch| && forall i :: 0 <= i < |flags| ==> flags[i] == ok
    ensures ZipInto(m, batch, flags).Keys == m.Keys + set d | d in batch
    ensures forall d :: d in ZipInto(m, batch, flags) ==>
      ZipInto(m, batch, flags)[d] == if d in batch then ok else m[d]
    decreases |batch|
  {
    if batch != [] {
      ZipIntoConst(m[batch[0] := flags[0]], batch[1..], ok, flags[1..]);
      assert forall d :: d in batch <==> d == batch[0] || d in batch[1..];
    }
  }

  /** No date belongs to two batches. */
  predicate Disjoint(chunks: seq<seq<Date>>)
  {
    forall j, k, d :: 0 <= j < k < |chunks| && d in chunks[j] ==> d !in chunks[k]
  }

  /** One batch's outcome gives each of its dates the batch's success flag and leaves the others alone. */
  lemma SpreadOneOutcome(m: map<Date, bool>, worker: seq<Date> -> Result<bool>, batch: seq<Date>)
    ensures SpreadOne(m, batch, Outcome(worker, batch)).Keys == m.Keys + set d | d in batch
    ensures forall d :: d in SpreadOne(m, batch, Outcome(worker, batch)) ==>
      SpreadOne(m, batch, Outcome(worker, batch))[d] == if d in batch then BatchOk(worker, batch) else m[d]
  {
    var ok := BatchOk(worker, batch);
    match Outcome(worker, batch)
    case Flag(b) => ZipIntoConst(m, batch, ok, seq(|batch|, _ => b));
    case Flags(oks) => ZipIntoConst(m, batch, ok, oks);
  }

  /**
   * With the outcomes the pool produces, every date of every batch gets
   * its batch's success flag, and no other date gets one.
   */
  lemma {:induction false} SpreadFlags(worker: seq<Date> -> Result<bool>, chunks: seq<seq<Date>>, results: seq<BatchResult>)
    requires |chunks| == |results| && Disjoint(chunks)
    requires forall j :: 0 <= j < |chunks| ==> results[j] == Outcome(worker, chunks[j])
    ensures forall d :: d in Spread(chunks, results) <==> exists j :: 0 <= j < |chunks| && d in chunks[j]
    ensures forall j, d :: 0 <= j < |chunks| && d in chunks[j] ==> Spread(chunks, results)[d] == BatchOk(worker, chunks[j])
  {
    if chunks != [] {
      var n := |chunks| - 1;
      var front, frontResults := chunks[..n], results[..n];
      var before := Spread(front, frontResults);
      assert Disjoint(front) by {
        forall j, k, d | 0 <= j < k < n && d in front[j]
          ensures d !in front[k]
        {
          assert front[j] == chunks[j] && front[k] == chunks[k];
        }
      }
      SpreadFlags(worker, front, frontResults);
      SpreadOneOutcome(before, worker, chunks[n]);
      assert Spread(chunks, results) == SpreadOne(before, chunks[n], Outcome(worker, chunks[n]));
      SpreadLast(worker, chunks, chunks[n], before, Spread(chunks, results));
    }
  }

  /** The step of `SpreadFlags`: adding the last batch to the map of the others. */
  lemma SpreadLast(worker: seq<Date> -> Result<bool>, chunks: seq<seq<Date>>, batch: seq<Date>,
                   before: map<Date, bool>, after: map<Date, bool>)
    requires |chunks| > 0 && Disjoint(chunks) && batch == chunks[|chunks| - 1]
    requires forall d :: d in before <==> exists j :: 0 <= j < |chunks| - 1 && d in chunks[j]
    requires forall j, d :: 0 <= j < |chunks| - 1 && d in chunks[j] ==> before[d] == BatchOk(worker, chunks[j])
    requires after.Keys == before.Keys + (set d | d in batch)
    requires forall d :: d in after ==> after[d] == if d in batch then BatchOk(worker, batch) else before[d]
    ensures forall d :: d in after <==> exists j :: 0 <= j < |chunks| && d in chunks[j]
    ensures forall j, d :: 0 <= j < |chunks| && d in chunks[j] ==> after[d] == BatchOk(worker, chunks[j])
  {
    var n := |chunks| - 1;
    forall d | d in after
      ensures exists j :: 0 <= j < |chunks| && d in chunks[j]
    {
      if d !in chunks[n] {
        assert d in before;
        var j :| 0 <= j < n && d in chunks[j];
      }
    }
    forall j, d | 0 <= j < |chunks| && d in chunks[j]
      ensures d in after && after[d] == BatchOk(worker, chunks[j])
    {
      if j < n {
        assert d in before && d !in chunks[n];
      }
    }
  }

  /** Chunks of a list without repeats share no date. */
  lemma {:induction false} ChunksDisjoint(lst: seq<Date>, k: nat)
    requires k > 0 && StrictlySorted(lst)
    ensures Disjoint(Chunks(lst, k))
    decreases |lst|
  {
    if |lst| > k {
      var rest := Chunks(lst[k..], k);
      SortedTail(lst, k);
      ChunksDisjoint(lst[k..], k);
      var c := Chunks(lst, k);
      assert c == [lst[..k]] + rest;
      forall j, l, d | 0 <= j < l < |c| && d in c[j]
        ensures d !in c[l]
      {
        if j == 0 {
          FirstChunkApart(lst, k, d, l - 1);
        } else {
          assert c[j] == rest[j - 1] && c[l] == rest[l - 1];
        }
      }
    }
  }

  lemma SortedTail(lst: seq<Date>, k: nat)
    requires StrictlySorted(lst) && k <= |lst|
    ensures StrictlySorted(lst[k..])
  {
    forall i, j | 0 <= i < j < |lst| - k
      ensures DateLt(lst[k..][i], lst[k..][j])
    {
      assert lst[k..][i] == lst[k + i] && lst[k..][j] == lst[k + j];
    }
  }

  /** A date among the first `k` of a strictly sorted list is in none of the later chunks. */
  lemma FirstChunkApart(lst: seq<Date>, k: nat, d: Date, l: nat)
    requires k > 0 && |lst| > k && StrictlySorted(lst) && d in lst[..k]
    requires l < |Chunks(lst[k..], k)|
    ensures d !in Chunks(lst[k..], k)[l]
  {
    HeadBeforeTail(lst, k, d);
    ChunksShape(lst[k..], k);
    ChunkMember(Chunks(lst[k..], k), l, d);
  }

  /** In a strictly sorted list, a date of the first `k` does not come again after them. */
  lemma HeadBeforeTail(lst: seq<Date>, k: nat, d: Date)
    requires StrictlySorted(lst) && k <= |lst| && d in lst[..k]
    ensures d !in lst[k..]
  {
  }

  /** A date of one chunk is a date of the concatenation. */
  lemma ChunkMember(rest: seq<seq<Date>>, l: nat, d: Date)
    requires l < |rest|
    ensures d in rest[l] ==> d in Flatten(rest)
  {
    if d in rest[l] {
      var i :| 0 <= i < |rest[l]| && rest[l][i] == d;
      FlattenHolds(rest, l, i);
    }
  }

  /** The pool task of `_check_partitions_batch`: a worker reports whether the partition reads. */
  function CheckTask(valid: Date -> bool): Date -> Result<bool>
  {
    (d: Date) => Success(valid(d))
  }

  /** `on_validation_error`: a check whose process failed counts as invalid. */
  function CheckCrashed(): (string, Date, nat) -> bool
  {
    (e: string, d: Date, i: nat) => false
  }

  /** The pool task of `_compute_partitions_batch`: the worker's flag for the batch. */
  function ComputeTask(worker: seq<Date> -> Result<bool>): seq<Date> -> Result<BatchResult>
  {
    (batch: seq<Date>) => if worker(batch).Success? then Success(Flag(worker(batch).value)) else Failure(worker(batch).error)
  }

  /** `on_compute_error`: one false per date of a batch whose process failed. */
  function ComputeCrashed(): (string, seq<Date>, nat) -> BatchResult
  {
    (e: string, batch: seq<Date>, i: nat) => Flags(seq(|batch|, _ => false))
  }

  /** Every date of chunk `j` is flagged with whether chunk `j` itself succeeded. */
  predicate FlagsByChunk(results: map<Date, bool>, chunks: seq<seq<Date>>, worker: seq<Date> -> Result<bool>)
  {
    forall j, d :: 0 <= j < |chunks| && d in chunks[j] ==> d in results && results[d] == BatchOk(worker, chunks[j])
  }

  /**
   * Spreading the outcomes of the chunks of a strictly sorted list gives
   * each of its dates, and no other, the success flag of the chunk that
   * holds it.
   */
  lemma BatchFlags(sorted: seq<Date>, k: nat, worker: seq<Date> -> Result<bool>, outcomes: seq<BatchResult>)
    requires k > 0 && StrictlySorted(sorted) && |outcomes| == |Chunks(sorted, k)|
    requires forall j :: 0 <= j < |outcomes| ==> outcomes[j] == Outcome(worker, Chunks(sorted, k)[j])
    ensures forall d :: d in Spread(Chunks(sorted, k), outcomes) <==> d in sorted
    ensures FlagsByChunk(Spread(Chunks(sorted, k), outcomes), Chunks(sorted, k), worker)
  {
    var chunks := Chunks(sorted, k);
    ChunksShape(sorted, k);
    ChunksDisjoint(sorted, k);
    ChunksNonEmpty(sorted, k);
    SpreadFlags(worker, chunks, outcomes);
    forall d | d in sorted
      ensures exists j :: 0 <= j < |chunks| && d in chunks[j]
    {
      var p :| 0 <= p < |sorted| && sorted[p] == d;
      ChunkHolding(chunks, p);
    }
    forall j, d | 0 <= j < |chunks| && d in chunks[j]
      ensures d in sorted
    {
      ChunkMember(chunks, j, d);
    }
  }

  // ---------------------------------------------------------------------
  // The dataview
  // ---------------------------------------------------------------------

  class ByDateDataview {
    var numWorkers: int
    var parquetNames: string
    var partitions: seq<Date>
    var validPartitions: set<Date>
    var cacheFile: CacheFile
    var parallelMap: ParallelMap

    /**
     * `__post_init__` once the universe has passed its schema check: a
     * process pool of `num_workers`, the partitions, and the dates the
     * cache file lists taken as valid.
     */
    constructor (numWorkers: int, parquetNames: string, partitions: seq<Date>, file: CacheFile)
      ensures this.numWorkers == numWorkers && this.parquetNames == parquetNames
      ensures this.partitions == partitions && validPartitions == LoadCache(file) && cacheFile == file
      ensures fresh(parallelMap) && parallelMap.maxWorkers == numWorkers && !parallelMap.useThread
    {
      this.numWorkers := numWorkers;
      this.parquetNames := parquetNames;
      this.partitions := partitions;
      validPartitions := LoadCache(file);
      cacheFile := file;
      parallelMap := new ParallelMap(Some(numWorkers), true, false, "spawn", 0);
    }

    /** Construction: the universe must have date and symbol columns. */
    static method Open(numWorkers: int, parquetNames: string, universe: Universe, file: CacheFile)
      returns (r: Result<ByDateDataview>)
      ensures r.Failure? <==> "date" !in universe.columns || "symbol" !in universe.columns
      ensures r.Success? ==> (fresh(r.value) && StrictlySorted(r.value.partitions)
        && (forall d :: d in r.value.partitions <==> d in universe.dates)
        && r.value.validPartitions == LoadCache(file))
    {
      var partitions := UniversePartitions(universe);
      if partitions.Failure? {
        return Failure(partitions.error);
      }
      var view := new ByDateDataview(numWorkers, parquetNames, partitions.value, file);
      return Success(view);
    }

    /**
     * `update_validations`: the single place the cache changes. In memory
     * the new dates are added and then the outdated ones removed, so a date
     * in both ends up absent; on request the cache is written to the file,
     * which keeps its old contents when the write fails.
     */
    method UpdateValidations(newPartitions: set<Date>, outdated: set<Date>, memory: bool, file: bool, saveOk: bool)
      modifies this
      ensures validPartitions == if memory then (old(validPartitions) + newPartitions) - outdated else old(validPartitions)
      ensures cacheFile == if file && saveOk then Listing(validPartitions) else old(cacheFile)
      ensures partitions == old(partitions) && parallelMap == old(parallelMap)
      ensures numWorkers == old(numWorkers) && parquetNames == old(parquetNames)
      ensures memory ==> ((forall d :: d in outdated ==> d !in validPartitions)
        && forall d :: d in newPartitions && d !in outdated ==> d in validPartitions)
      ensures !memory && !file ==> unchanged(this)
    {
      if !memory && !file {
        return;
      }
      if memory {
        validPartitions := validPartitions + newPartitions;
        validPartitions := validPartitions - outdated;
      }
      if file && saveOk {
        cacheFile := Listing(validPartitions);
      }
    }

    /**
     * `valid_partition`: a cached date is valid without a check (`checked`
     * is false); otherwise the check's verdict is returned and recorded,
     * adding the date when valid and removing it when not.
     */
    method ValidPartition(date: Date, recompute: bool, valid: Date -> bool, saveOk: bool)
      returns (isValid: bool, checked: bool)
      modifies this
      ensures !recompute && date in old(validPartitions) ==> isValid && !checked && unchanged(this)
      ensures recompute || date !in old(validPartitions) ==>
        && checked && isValid == valid(date)
        && validPartitions == (if isValid then old(validPartitions) + {date} else old(validPartitions) - {date})
        && cacheFile == (if saveOk then Listing(validPartitions) else old(cacheFile))
      ensures partitions == old(partitions) && parallelMap == old(parallelMap)
    {
      if !recompute && date in validPartitions {
        return true, false;
      }
      isValid := valid(date);
      checked := true;
      UpdateValidations(if isValid then {date} else {}, if isValid then {} else {date}, true, true, saveOk);
    }

    /** `validate_partition`: raises exactly when `valid_partition` says no. */
    method ValidatePartition(date: Date, recompute: bool, valid: Date -> bool, saveOk: bool) returns (r: Result<Unit>)
      modifies this
      ensures r.Success? <==> (!recompute && date in old(validPartitions)) || valid(date)
      ensures r.Failure? ==> r.error == InvalidPartitionError(date) && date !in validPartitions
      ensures r.Success? ==> date in validPartitions
      ensures partitions == old(partitions) && parallelMap == old(parallelMap)
    {
      var isValid, _ := ValidPartition(date, recompute, valid, saveOk);
      if !isValid {
        return Failure(InvalidPartitionError(date));
      }
      return Success(Unit);
    }

    /** `_check_partitions_batch`: every date checked in the pool; a crashed check counts as invalid. */
    method CheckPartitionsBatch(dates: seq<Date>, valid: Date -> bool, schedule: Schedule) returns (results: map<Date, bool>)
      ensures results.Keys == set d | d in dates
      ensures forall d :: d in results ==> results[d] == valid(d)
    {
      if dates == [] {
        return map[];
      }
      var outcome := parallelMap.Call(CheckTask(valid), dates, schedule, Some(CheckCrashed()));
      assert forall i :: 0 <= i < |dates| ==> Settled(CheckTask(valid), Some(CheckCrashed()), dates, i).Some?;
      var values := outcome.value;
      assert forall i :: 0 <= i < |dates| ==> values[i] == valid(dates[i]);
      results := ZipMap(dates, values);
    }

    /**
     * `invalid_partitions`. Without `recompute` only uncached partitions
     * are checked, nothing happens when there are none, and the answer is
     * every partition still uncached afterwards, which is exactly the
     * checked ones found invalid. With `recompute` every partition is
     * checked and the answer is those found invalid.
     */
    method InvalidPartitions(recompute: bool, valid: Date -> bool, schedule: Schedule, saveOk: bool)
      returns (r: set<Date>, checked: seq<Date>)
      modifies this
      ensures checked == if recompute then old(partitions) else Uncached(old(partitions), old(validPartitions))
      ensures !recompute && checked == [] ==> r == {} && unchanged(this)
      ensures checked != [] || recompute ==>
        validPartitions == (old(validPartitions) + (set d | d in checked && valid(d))) - (set d | d in checked && !valid(d))
      ensures recompute ==> r == set d | d in partitions && !valid(d)
      ensures !recompute ==> (r == (set d | d in partitions && d !in validPartitions)
        && r == (set d | d in checked && !valid(d)))
      ensures partitions == old(partitions) && parallelMap == old(parallelMap)
    {
      if recompute {
        checked := partitions;
      } else {
        checked := Uncached(partitions, validPartitions);
        if checked == [] {
          return {}, checked;
        }
      }
      var results := CheckPartitionsBatch(checked, valid, schedule);
      var validDates := set d | d in results && results[d];
      var invalidDates := set d | d in results && !results[d];
      assert validDates == set d | d in checked && valid(d);
      assert invalidDates == set d | d in checked && !valid(d);
      UpdateValidations(validDates, invalidDates, true, true, saveOk);
      if !recompute {
        return (set d | d in partitions && d !in validPartitions), checked;
      }
      return invalidDates, checked;
    }

    /** `validate`: raises when any partition is found invalid. */
    method Validate(recompute: bool, valid: Date -> bool, schedule: Schedule, saveOk: bool) returns (r: Result<Unit>)
      modifies this
      ensures !recompute ==> (r.Success? <==> forall d :: d in old(partitions) && d !in old(validPartitions) ==> valid(d))
      ensures recompute ==> (r.Success? <==> forall d :: d in old(partitions) ==> valid(d))
      ensures r.Success? ==> forall d :: d in partitions ==> d in validPartitions
    {
      var invalid, checked := InvalidPartitions(recompute, valid, schedule, saveOk);
      if invalid != {} {
        var d :| d in invalid;
        return Failure(NotValidated(|invalid|));
      }
      assert forall d :: d in checked ==> valid(d) by {
        forall d | d in checked
          ensures valid(d)
        {
          assert d !in invalid;
          if !recompute {
            assert invalid == set x | x in checked && !valid(x);
          } else {
            assert d in partitions;
            assert invalid == set x | x in partitions && !valid(x);
          }
        }
      }
      return Success(Unit);
    }

    /** `clear_validation_cache`: empties the memory cache and, on request, deletes the file if it exists. */
    method ClearValidationCache(memory: bool, file: bool, deleteOk: bool)
      modifies this
      ensures validPartitions == if memory then {} else old(validPartitions)
      ensures cacheFile == if file && old(cacheFile) != NoFile && deleteOk then NoFile else old(cacheFile)
      ensures partitions == old(partitions) && parallelMap == old(parallelMap)
    {
      if memory {
        validPartitions := {};
      }
      if file && cacheFile != NoFile && deleteOk {
        cacheFile := NoFile;
      }
    }

    // -------------------------------------------------------------------
    // ByDateDataset: computing partitions
    // -------------------------------------------------------------------

    /**
     * `_compute_partitions_batch`: the dates, sorted, go out in chunks of
     * `days_per_batch`, one pool task per chunk, and each chunk's outcome
     * is spread over its dates.
     */
    method ComputePartitionsBatch(dates: seq<Date>, daysPerBatch: int, worker: seq<Date> -> Result<bool>,
                                  schedule: Schedule)
      returns (r: Result<map<Date, bool>>)
      ensures daysPerBatch == 0 && dates != [] ==> r == Failure(RANGE_STEP_ZERO)
      ensures daysPerBatch < 0 || dates == [] ==> r == Success(map[])
      ensures daysPerBatch > 0 ==> (r.Success? && (forall d :: d in r.value <==> d in dates)
        && FlagsByChunk(r.value, Chunks(SortedDistinct(dates), daysPerBatch), worker))
    {
      if dates == [] {
        return Success(map[]);
      }
      var sorted := SortedDistinct(dates);
      SortedDistinctSpec(dates);
      var chunked := ChunkList(sorted, daysPerBatch, false);
      if chunked.Failure? {
        return Failure(chunked.error);
      }
      if daysPerBatch < 0 {
        // no chunks: the pool runs nothing and the loop records nothing
        return Success(map[]);
      }
      var chunks := chunked.value;
      var run := parallelMap.Call(ComputeTask(worker), chunks, schedule, Some(ComputeCrashed()));
      var outcomes := run.value;
      forall j | 0 <= j < |chunks|
        ensures outcomes[j] == Outcome(worker, chunks[j])
      {
        assert Some(outcomes[j]) == Settled(ComputeTask(worker), Some(ComputeCrashed()), chunks, j);
      }
      var results := SpreadLoop(chunks, outcomes);
      BatchFlags(sorted, daysPerBatch, worker, outcomes);
      return Success(results);
    }

    /** The flatten loop over the chunks and their outcomes. */
    method SpreadLoop(chunks: seq<seq<Date>>, outcomes: seq<BatchResult>) returns (results: map<Date, bool>)
      requires |chunks| == |outcomes|
      ensures results == Spread(chunks, outcomes)
    {
      results := map[];
      var j := 0;
      while j < |chunks|
        invariant j <= |chunks| && results == Spread(chunks[..j], outcomes[..j])
      {
        var batch := chunks[j];
        var flags := match outcomes[j] case Flags(oks) => oks case Flag(ok) => seq(|batch|, _ => ok);
        var i := 0;
        var before := results;
        while i < |batch| && i < |flags|
          invariant i <= |batch| && i <= |flags|
          invariant ZipInto(results, batch[i..], flags[i..]) == ZipInto(before, batch, flags)
        {
          assert batch[i..][1..] == batch[i + 1..] && flags[i..][1..] == flags[i + 1..];
          results := results[batch[i] := flags[i]];
          i := i + 1;
        }
        assert results == SpreadOne(before, chunks[j], outcomes[j]);
        assert chunks[..j + 1][..j] == chunks[..j] && outcomes[..j + 1][..j] == outcomes[..j];
        j := j + 1;
      }
      assert chunks[..j] == chunks && outcomes[..j] == outcomes;
    }

    /**
     * `compute`: every partition with `recompute`, otherwise the uncached
     * ones (nothing at all when there are none). Dates of successful
     * batches are cached, those of failed batches evicted, and the call
     * fails exactly when some date failed.
     */
    method Compute(recompute: bool, daysPerBatch: int, worker: seq<Date> -> Result<bool>, schedule: Schedule, saveOk: bool)
      returns (r: Result<Unit>, processed: seq<Date>, results: map<Date, bool>)
      modifies this
      ensures processed == if recompute then old(partitions) else Uncached(old(partitions), old(validPartitions))
      ensures !recompute && processed == [] ==> r.Success? && results == map[] && unchanged(this)
      ensures daysPerBatch > 0 && (recompute || processed != []) ==>
        && (forall d :: d in results <==> d in processed)
        && FlagsByChunk(results, Chunks(SortedDistinct(processed), daysPerBatch), worker)
        && validPartitions == (old(validPartitions) + (set d | d in results && results[d])) - (set d | d in results && !results[d])
        && (r.Failure? <==> exists d :: d in results && !results[d])
      ensures daysPerBatch == 0 && processed != [] ==> r == Failure(RANGE_STEP_ZERO) && validPartitions == old(validPartitions)
      ensures partitions == old(partitions)
    {
      if recompute {
        processed := partitions;
      } else {
        processed := Uncached(partitions, validPartitions);
        if processed == [] {
          return Success(Unit), processed, map[];
        }
      }
      var computed := ComputePartitionsBatch(processed, daysPerBatch, worker, schedule);
      if computed.Failure? {
        return Failure(computed.error), processed, map[];
      }
      results := computed.value;
      var successful := set d | d in results && results[d];
      var failed := set d | d in results && !results[d];
      UpdateValidations(successful, failed, true, true, saveOk);
      if failed != {} {
        var d :| d in failed;
        return Failure(FailedComputations(|failed|)), processed, results;
      }
      assert forall d :: d in results ==> d !in failed;
      r := Success(Unit);
    }
  }

  /** Every chunk of a list holds at least one date. */
  lemma ChunksNonEmpty(lst: seq<Date>, k: nat)
    requires k > 0
    ensures forall c :: c in Chunks(lst, k) ==> |c| > 0
  {
    ChunkListShape(lst, k, false);
  }
}
