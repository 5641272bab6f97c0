/**
 * The parallel-map helpers shared by the Python packages: `chunk_list`,
 * which cuts a list into consecutive chunks, and `ParallelMap`, which runs
 * a function on every argument in a worker pool, writes each result into
 * a preallocated list at its argument's index as tasks complete, and
 * `chunk_apply`, which does the same over chunks and concatenates.
 *
 * The pool itself is not modelled: the order in which tasks complete is a
 * `Schedule` (for n tasks, an order that names each of them), and a task
 * that raises returns a `Failure`. Python exceptions are `Failure`s whose
 * text starts with the exception's class.
 */
module Multiprocessing {
  import opened Wrappers
  import opened Strings
  import opened Converters

  const RANGE_STEP_ZERO := "ValueError: range() arg 3 must not be zero"
  const MODULO_BY_ZERO := "ZeroDivisionError: integer modulo by zero"
  const DIVISION_BY_ZERO := "ZeroDivisionError: division by zero"
  const BOTH_SIZES := "RuntimeError: batch_size and num_chunks cannot be specified at the same time"
  const EMPTY_REDUCE := "TypeError: reduce() of empty iterable with no initial value"

  /** Python's `str` of an int. */
  function IntText(n: int): string
  {
    if n < 0 then "-" + NatToString(-n) else NatToString(n)
  }

  function NotDivisible(len: nat, size: int): string
  {
    "ValueError: List length " + NatToString(len) + " is not divisible by chunk size " + IntText(size) + "."
  }

  // ---------------------------------------------------------------------
  // chunk_list
  // ---------------------------------------------------------------------

  /** How many steps `range(0, n, k)` takes for a positive `k`. */
  function Ceil(n: nat, k: nat): nat
    requires k > 0
  {
    (n + k - 1) / k
  }

  function Min(a: int, b: int): int
  {
    if a <= b then a else b
  }

  /**
   * `[lst[i : i + k] for i in range(0, len(lst), k)]` for a positive `k`,
   * taken one chunk at a time from the front.
   */
  function Chunks<T>(lst: seq<T>, k: nat): (r: seq<seq<T>>)
    requires k > 0
    decreases |lst|
  {
    if lst == [] then []
    else if |lst| <= k then [lst]
    else [lst[..k]] + Chunks(lst[k..], k)
  }

  /** The lists concatenated: what `reduce(lambda x, y: x + y, lists)` gives for a non-empty list. */
  function Flatten<T>(lists: seq<seq<T>>): seq<T>
  {
    if lists == [] then [] else lists[0] + Flatten(lists[1..])
  }

  lemma {:induction false} MulMonotone(a: nat, b: nat, k: nat)
    requires a <= b
    ensures a * k <= b * k
    decreases b - a
  {
    if a < b {
      MulMonotone(a + 1, b, k);
      assert (a + 1) * k == a * k + k;
    }
  }

  /** Euclidean division has one quotient: `a` when `y == a * k + b` with `0 <= b < k`. */
  lemma DivUnique(y: int, k: nat, a: int, b: int)
    requires k > 0 && y == a * k + b && 0 <= b < k
    ensures y / k == a
  {
    var q, r := y / k, y % k;
    assert y == q * k + r;
    var d := a - q;
    assert d * k == r - b;
    if d >= 1 {
      MulMonotone(1, d, k);
    }
  }

  lemma DivStep(x: nat, k: nat)
    requires k > 0
    ensures (x + k) / k == x / k + 1
  {
    assert x == (x / k) * k + x % k;
    assert x + k == (x / k + 1) * k + x % k;
    DivUnique(x + k, k, x / k + 1, x % k);
  }

  lemma DivOne(x: nat, k: nat)
    requires k <= x < 2 * k
    ensures x / k == 1
  {
    DivUnique(x, k, 1, x - k);
  }

  /** There is one chunk per step of `range(0, len(lst), k)`. */
  lemma {:induction false} ChunkCount<T>(lst: seq<T>, k: nat)
    requires k > 0
    ensures |Chunks(lst, k)| == Ceil(|lst|, k)
    decreases |lst|
  {
    if |lst| > k {
      ChunkCount(lst[k..], k);
      DivStep(|lst| - k + k - 1, k);
    } else if lst != [] {
      DivOne(|lst| + k - 1, k);
    }
  }

  /** Chunk `j` is the slice the comprehension takes at `i = j * k`. */
  lemma {:induction false} ChunkAt<T>(lst: seq<T>, k: nat, j: nat)
    requires k > 0 && j < |Chunks(lst, k)|
    ensures j * k < |lst| && Chunks(lst, k)[j] == lst[j * k .. Min(j * k + k, |lst|)]
    decreases |lst|
  {
    if j > 0 {
      var rest := lst[k..];
      assert |lst| > k;
      assert Chunks(lst, k)[j] == Chunks(rest, k)[j - 1];
      ChunkAt(rest, k, j - 1);
      var i := (j - 1) * k;
      MulSucc(j, k);
      var e := Min(i + k, |rest|);
      assert e + k == Min(i + k + k, |lst|);
      SliceShift(lst, k, i, e);
    } else if |lst| <= k {
      assert Chunks(lst, k)[0] == lst;
      assert lst[0..|lst|] == lst;
    } else {
      assert Chunks(lst, k)[0] == lst[..k];
    }
  }

  lemma SliceShift<T>(lst: seq<T>, k: nat, a: nat, b: nat)
    requires k <= |lst| && a <= b <= |lst| - k
    ensures lst[k..][a..b] == lst[a + k..b + k]
  {
  }

  lemma MulSucc(j: nat, k: nat)
    requires j > 0
    ensures j * k == (j - 1) * k + k
  {
  }

  /**
   * The chunks, concatenated, give the list back; every chunk but the last
   * holds exactly `k` elements, and the last one between 1 and `k`.
   */
  lemma {:induction false} ChunksShape<T>(lst: seq<T>, k: nat)
    requires k > 0
    ensures Flatten(Chunks(lst, k)) == lst
    ensures forall j :: 0 <= j < |Chunks(lst, k)| - 1 ==> |Chunks(lst, k)[j]| == k
    ensures lst != [] ==> 0 < |Chunks(lst, k)[|Chunks(lst, k)| - 1]| <= k
    ensures lst == [] <==> Chunks(lst, k) == []
    decreases |lst|
  {
    if |lst| > k {
      ChunksShape(lst[k..], k);
      var c := Chunks(lst, k);
      assert c[1..] == Chunks(lst[k..], k);
      assert lst[..k] + lst[k..] == lst;
    }
  }

  /** `chunk_list(lst, chunk_size, assert_div)` with Python's errors for a zero or indivisible size. */
  function ChunkList<T>(lst: seq<T>, size: int, assertDiv: bool): Result<seq<seq<T>>>
  {
    if assertDiv && size == 0 then Failure(MODULO_BY_ZERO)
    // Python's `%` takes the divisor's sign, Dafny's is never negative; both are zero on the same inputs
    else if assertDiv && |lst| % size != 0 then Failure(NotDivisible(|lst|, size))
    else if size == 0 then Failure(RANGE_STEP_ZERO)
    else if size < 0 then Success([])
    else Success(Chunks(lst, size))
  }

  /**
   * `chunk_list` fails exactly for a zero size or, under `assert_div`, an
   * indivisible length; for a positive size it gives the list back in
   * chunks of that size, and for a negative one no chunks.
   */
  lemma ChunkListShape<T>(lst: seq<T>, size: int, assertDiv: bool)
    ensures ChunkList(lst, size, assertDiv).Failure? <==> size == 0 || (assertDiv && |lst| % size != 0)
    ensures assertDiv && size != 0 && |lst| % size != 0 ==> ChunkList(lst, size, assertDiv) == Failure(NotDivisible(|lst|, size))
    ensures size > 0 && ChunkList(lst, size, assertDiv).Success? ==>
      && Flatten(ChunkList(lst, size, assertDiv).value) == lst
      && forall c :: c in ChunkList(lst, size, assertDiv).value ==> 0 < |c| <= size
    ensures size < 0 && ChunkList(lst, size, assertDiv).Success? ==> ChunkList(lst, size, assertDiv).value == []
  {
    if size > 0 {
      ChunksShape(lst, size);
      var c := Chunks(lst, size);
      forall x | x in c
        ensures 0 < |x| <= size
      {
        var j :| 0 <= j < |c| && c[j] == x;
        if j < |c| - 1 {
          assert |c[j]| == size;
        }
      }
    }
  }

  /** The examples in the documentation of `chunk_list`. */
  lemma ChunkListExamples()
    ensures ChunkList([1, 2, 3, 4, 5, 6, 7, 8, 9], 3, true) == Success([[1, 2, 3], [4, 5, 6], [7, 8, 9]])
    ensures ChunkList([1, 2, 3, 4, 5, 6, 7, 8, 9], 4, false) == Success([[1, 2, 3, 4], [5, 6, 7, 8], [9]])
    ensures ChunkList([1, 2, 3, 4, 5, 6, 7, 8, 9], 4, true) == Failure(NotDivisible(9, 4))
  {
    var lst := [1, 2, 3, 4, 5, 6, 7, 8, 9];
    assert lst[..3] == [1, 2, 3] && lst[3..] == [4, 5, 6, 7, 8, 9];
    assert Chunks([4, 5, 6, 7, 8, 9], 3) == [[4, 5, 6]] + Chunks([7, 8, 9], 3) by {
      assert [4, 5, 6, 7, 8, 9][..3] == [4, 5, 6] && [4, 5, 6, 7, 8, 9][3..] == [7, 8, 9];
    }
    assert Chunks([7, 8, 9], 3) == [[7, 8, 9]];
    assert Chunks(lst, 3) == [[1, 2, 3]] + Chunks([4, 5, 6, 7, 8, 9], 3);
    assert lst[..4] == [1, 2, 3, 4] && lst[4..] == [5, 6, 7, 8, 9];
    assert Chunks([5, 6, 7, 8, 9], 4) == [[5, 6, 7, 8]] + Chunks([9], 4) by {
      assert [5, 6, 7, 8, 9][..4] == [5, 6, 7, 8] && [5, 6, 7, 8, 9][4..] == [9];
    }
    assert Chunks([9], 4) == [[9]];
    assert Chunks(lst, 4) == [[1, 2, 3, 4]] + Chunks([5, 6, 7, 8, 9], 4);
    assert Chunks(lst, 4) == [[1, 2, 3, 4], [5, 6, 7, 8], [9]];
    assert Chunks(lst, 3) == [[1, 2, 3], [4, 5, 6], [7, 8, 9]];
  }

  // ---------------------------------------------------------------------
  // ParallelMap
  // ---------------------------------------------------------------------

  /** For `n` tasks, an order of completion that names each of them. */
  predicate Covers(order: seq<nat>, n: nat)
  {
    && |order| == n
    && (forall k :: 0 <= k < n ==> order[k] < n)
    && (forall i :: 0 <= i < n ==> i in order)
  }

  /** Tasks completing in the order they were submitted. */
  function InOrder(n: nat): (r: seq<nat>)
    ensures Covers(r, n)
  {
    InOrderCovers(n);
    seq(n, i => i)
  }

  lemma InOrderCovers(n: nat)
    ensures Covers(seq(n, i => i), n)
  {
    var r := seq(n, i => i);
    forall i | 0 <= i < n
      ensures i in r
    {
      assert r[i] == i;
    }
  }

  /** How `as_completed` hands back the futures of `n` tasks. */
  type Schedule = s: nat -> seq<nat> | forall n: nat :: Covers(s(n), n) witness InOrder

  /**
   * What `results[i]` holds once task `i` has finished: its value, or what
   * `on_error` makes of its exception; nothing when it raised and there is
   * no handler, in which case the exception propagates.
   */
  function Settled<A, B>(fn: A -> Result<B>, onError: Option<(string, A, nat) -> B>, args: seq<A>, i: nat): Option<B>
    requires i < |args|
  {
    match fn(args[i])
    case Success(v) => Some(v)
    case Failure(e) => if onError.Some? then Some(onError.value(e, args[i], i)) else None
  }

  function Values<B>(s: seq<Option<B>>): (r: seq<B>)
    requires forall i :: 0 <= i < |s| ==> s[i].Some?
    ensures |r| == |s| && forall i :: 0 <= i < |s| ==> s[i] == Some(r[i])
  {
    seq(|s|, i requires 0 <= i < |s| => s[i].value)
  }

  /**
   * The body of `ParallelMap.__call__`: `results = [None] * len(args)`,
   * then, for each task in completion order, its result (or `on_error`'s)
   * stored at the task's index; a task that raises without a handler ends
   * the call with its exception. Whatever the order, the result for
   * `args[i]` lands at index `i`.
   */
  method RunPool<A, B>(fn: A -> Result<B>, args: seq<A>, order: seq<nat>, onError: Option<(string, A, nat) -> B>)
    returns (r: Result<seq<B>>)
    requires Covers(order, |args|)
    ensures r.Success? <==> forall i :: 0 <= i < |args| ==> Settled(fn, onError, args, i).Some?
    ensures r.Success? ==> |r.value| == |args| && forall i :: 0 <= i < |args| ==> Some(r.value[i]) == Settled(fn, onError, args, i)
    ensures r.Failure? ==> exists k :: (0 <= k < |order| && Settled(fn, onError, args, order[k]).None?
      && r.error == fn(args[order[k]]).error
      && forall m :: 0 <= m < k ==> Settled(fn, onError, args, order[m]).Some?)
  {
    var results := new Option<B>[|args|](_ => None);
    var k := 0;
    while k < |order|
      invariant k <= |order|
      invariant forall i :: 0 <= i < |args| ==> results[i] == (if i in order[..k] then Settled(fn, onError, args, i) else None)
      invariant forall m :: 0 <= m < k ==> Settled(fn, onError, args, order[m]).Some?
    {
      var index := order[k];
      assert order[..k + 1] == order[..k] + [index];
      match fn(args[index]) {
        case Success(v) =>
          results[index] := Some(v);
        case Failure(e) =>
          if onError.Some? {
            results[index] := Some(onError.value(e, args[index], index));
          } else {
            assert Settled(fn, onError, args, index).None?;
            return Failure(e);
          }
      }
      k := k + 1;
    }
    assert order[..k] == order;
    forall i | 0 <= i < |args|
      ensures Settled(fn, onError, args, i).Some?
    {
      assert i in order;
      var m :| 0 <= m < |order| && order[m] == i;
    }
    return Success(Values(results[..]));
  }

  /** The results do not depend on the order in which the tasks complete. */
  lemma ResultsInInputOrder<A, B>(fn: A -> Result<B>, args: seq<A>, onError: Option<(string, A, nat) -> B>,
                                  r1: Result<seq<B>>, r2: Result<seq<B>>)
    requires r1.Success? && |r1.value| == |args| && forall i :: 0 <= i < |args| ==> Some(r1.value[i]) == Settled(fn, onError, args, i)
    requires r2.Success? && |r2.value| == |args| && forall i :: 0 <= i < |args| ==> Some(r2.value[i]) == Settled(fn, onError, args, i)
    ensures r1 == r2
  {
    assert forall i :: 0 <= i < |args| ==> r1.value[i] == r2.value[i];
    assert r1.value == r2.value;
  }

  /** `math.ceil(n / d)`. */
  function CeilDiv(n: nat, d: int): (r: int)
    requires d != 0
    ensures d > 0 ==> r * d >= n && (r - 1) * d < n
  {
    if d > 0 then
      var q := Ceil(n, d);
      assert n + d - 1 == q * d + (n + d - 1) % d;
      assert (q - 1) * d == q * d - d;
      q
    else -(n / -d)
  }

  /** The batch size `chunk_apply` settles on, in the order its branches test. */
  function BatchSize(n: nat, batchSize: Option<int>, numChunks: Option<int>, maxWorkers: int): Result<int>
  {
    if batchSize.Some? && numChunks.Some? then Failure(BOTH_SIZES)
    else if numChunks.Some? then (if numChunks.value == 0 then Failure(DIVISION_BY_ZERO) else Success(CeilDiv(n, numChunks.value)))
    else if batchSize.None? then (if maxWorkers == 0 then Failure(DIVISION_BY_ZERO) else Success(CeilDiv(n, maxWorkers)))
    else Success(batchSize.value)
  }

  /** `lambda args_lst: [fn(arg) for arg in args_lst]`: the first raising element fails the chunk. */
  function ChunkFn<A, B>(fn: A -> Result<B>): seq<A> -> Result<seq<B>>
  {
    (chunk: seq<A>) => Collect(chunk, fn)
  }

  /** The results of `fn` on every argument, when none raises. */
  function MapAll<A, B>(fn: A -> Result<B>, args: seq<A>): (r: seq<B>)
    requires forall i :: 0 <= i < |args| ==> fn(args[i]).Success?
    ensures |r| == |args| && forall i :: 0 <= i < |args| ==> r[i] == fn(args[i]).value
  {
    seq(|args|, i requires 0 <= i < |args| => fn(args[i]).value)
  }

  /** Mapping chunk by chunk and concatenating is mapping the concatenation. */
  lemma {:induction false} FlattenMapAll<A, B>(fn: A -> Result<B>, chunks: seq<seq<A>>, results: seq<seq<B>>)
    requires forall i :: 0 <= i < |Flatten(chunks)| ==> fn(Flatten(chunks)[i]).Success?
    requires |results| == |chunks|
    requires forall j :: 0 <= j < |chunks| ==> ((forall i :: 0 <= i < |chunks[j]| ==> fn(chunks[j][i]).Success?)
      && results[j] == MapAll(fn, chunks[j]))
    ensures Flatten(results) == MapAll(fn, Flatten(chunks))
  {
    if chunks != [] {
      assert Flatten(chunks) == chunks[0] + Flatten(chunks[1..]);
      assert forall i :: 0 <= i < |Flatten(chunks[1..])| ==> Flatten(chunks[1..])[i] == Flatten(chunks)[|chunks[0]| + i];
      FlattenMapAll(fn, chunks[1..], results[1..]);
    }
  }

  /** Every chunk's results, when no argument raises. */
  lemma ChunkResults<A, B>(fn: A -> Result<B>, chunks: seq<seq<A>>)
    requires forall i :: 0 <= i < |Flatten(chunks)| ==> fn(Flatten(chunks)[i]).Success?
    ensures forall j :: 0 <= j < |chunks| ==> (ChunkFn(fn)(chunks[j]).Success?
      && (forall i :: 0 <= i < |chunks[j]| ==> fn(chunks[j][i]).Success?)
      && ChunkFn(fn)(chunks[j]).value == MapAll(fn, chunks[j]))
  {
    forall j, i | 0 <= j < |chunks| && 0 <= i < |chunks[j]|
      ensures fn(chunks[j][i]).Success?
    {
      FlattenHolds(chunks, j, i);
    }
  }

  /** Element `i` of chunk `j` is an element of the concatenation. */
  lemma {:induction false} FlattenHolds<T>(chunks: seq<seq<T>>, j: nat, i: nat)
    requires j < |chunks| && i < |chunks[j]|
    ensures exists p :: 0 <= p < |Flatten(chunks)| && Flatten(chunks)[p] == chunks[j][i]
  {
    if j == 0 {
      assert Flatten(chunks)[i] == chunks[0][i];
    } else {
      FlattenHolds(chunks[1..], j - 1, i);
      var p :| 0 <= p < |Flatten(chunks[1..])| && Flatten(chunks[1..])[p] == chunks[j][i];
      assert Flatten(chunks)[|chunks[0]| + p] == chunks[j][i];
    }
  }

  /**
   * `chunk_apply` after its batch size is known: the chunks, one pool task
   * per chunk, and the concatenation of the chunks' results, which `reduce`
   * refuses when there are none.
   */
  method ApplyInChunks<A, B>(fn: A -> Result<B>, args: seq<A>, size: int, schedule: Schedule,
                             onError: Option<(string, seq<A>, nat) -> seq<B>>)
    returns (r: Result<seq<B>>)
    ensures size > 0 && args != [] && (forall i :: 0 <= i < |args| ==> fn(args[i]).Success?) ==>
      r == Success(MapAll(fn, args))
    ensures size <= 0 || args == [] ==> r.Failure?
    ensures onError.None? && (exists i :: 0 <= i < |args| && fn(args[i]).Failure?) ==> r.Failure?
  {
    var chunked := ChunkList(args, size, false);
    if chunked.Failure? {
      return Failure(chunked.error);
    }
    var chunks := chunked.value;
    if size > 0 {
      ChunksShape(args, size);
      if forall i :: 0 <= i < |args| ==> fn(args[i]).Success? {
        ChunkResults(fn, chunks);
      }
    }
    var results := RunPool(ChunkFn(fn), chunks, schedule(|chunks|), onError);
    if results.Failure? {
      return Failure(results.error);
    }
    if results.value == [] {
      return Failure(EMPTY_REDUCE);
    }
    assert size > 0 && Flatten(chunks) == args;
    if onError.None? {
      forall j | 0 <= j < |chunks|
        ensures Collect(chunks[j], fn).Success?
      {
        assert Settled(ChunkFn(fn), onError, chunks, j).Some?;
      }
      ChunksSucceed(fn, chunks);
    }
    if forall i :: 0 <= i < |args| ==> fn(args[i]).Success? {
      forall j | 0 <= j < |chunks|
        ensures results.value[j] == MapAll(fn, chunks[j])
      {
        assert Some(results.value[j]) == Settled(ChunkFn(fn), onError, chunks, j);
      }
      FlattenMapAll(fn, chunks, results.value);
    }
    return Success(Flatten(results.value));
  }

  /** Every element of the concatenation lies in some chunk. */
  lemma {:induction false} ChunkHolding<T>(chunks: seq<seq<T>>, p: nat)
    requires p < |Flatten(chunks)|
    ensures exists j, i :: 0 <= j < |chunks| && 0 <= i < |chunks[j]| && chunks[j][i] == Flatten(chunks)[p]
  {
    if p < |chunks[0]| {
      assert chunks[0][p] == Flatten(chunks)[p];
    } else {
      ChunkHolding(chunks[1..], p - |chunks[0]|);
      var j, i :| 0 <= j < |chunks| - 1 && 0 <= i < |chunks[1..][j]| && chunks[1..][j][i] == Flatten(chunks[1..])[p - |chunks[0]|];
      assert chunks[j + 1][i] == Flatten(chunks)[p];
    }
  }

  /** When every chunk converts, no element of their concatenation raises. */
  lemma ChunksSucceed<A, B>(fn: A -> Result<B>, chunks: seq<seq<A>>)
    requires forall j :: 0 <= j < |chunks| ==> Collect(chunks[j], fn).Success?
    ensures forall p :: 0 <= p < |Flatten(chunks)| ==> fn(Flatten(chunks)[p]).Success?
  {
    forall p | 0 <= p < |Flatten(chunks)|
      ensures fn(Flatten(chunks)[p]).Success?
    {
      ChunkHolding(chunks, p);
    }
  }

  /** `ParallelMap`: its worker count, taken from the machine's logical CPUs when not given. */
  class ParallelMap {
    var maxWorkers: int
    var pbar: bool
    var useThread: bool
    var mpContext: string

    constructor (maxWorkers: Option<int>, pbar: bool, useThread: bool, mpContext: string, logicalCpus: nat)
      ensures this.maxWorkers == (if maxWorkers.Some? then maxWorkers.value else logicalCpus)
      ensures this.pbar == pbar && this.useThread == useThread && this.mpContext == mpContext
    {
      this.maxWorkers := if maxWorkers.Some? then maxWorkers.value else logicalCpus;
      this.pbar := pbar;
      this.useThread := useThread;
      this.mpContext := mpContext;
    }

    /** `__call__`: the pool run over `args`, tasks completing as `schedule` says. */
    method Call<A, B>(fn: A -> Result<B>, args: seq<A>, schedule: Schedule, onError: Option<(string, A, nat) -> B>)
      returns (r: Result<seq<B>>)
      ensures r.Success? <==> forall i :: 0 <= i < |args| ==> Settled(fn, onError, args, i).Some?
      ensures r.Success? ==> |r.value| == |args| && forall i :: 0 <= i < |args| ==> Some(r.value[i]) == Settled(fn, onError, args, i)
    {
      r := RunPool(fn, args, schedule(|args|), onError);
    }

    /**
     * `chunk_apply`: both sizes given is an error; otherwise the arguments
     * go out in batches and, when the batch size is positive, there are
     * arguments and none raises, the result is `fn` of every argument, in
     * order.
     */
    method ChunkApply<A, B>(fn: A -> Result<B>, args: seq<A>, batchSize: Option<int>, numChunks: Option<int>,
                            schedule: Schedule, onError: Option<(string, seq<A>, nat) -> seq<B>>)
      returns (r: Result<seq<B>>)
      ensures batchSize.Some? && numChunks.Some? ==> r == Failure(BOTH_SIZES)
      ensures var size := BatchSize(|args|, batchSize, numChunks, maxWorkers);
        size.Success? && size.value > 0 && args != [] && (forall i :: 0 <= i < |args| ==> fn(args[i]).Success?) ==>
          r == Success(MapAll(fn, args))
      ensures args == [] ==> r.Failure?
      ensures onError.None? && (exists i :: 0 <= i < |args| && fn(args[i]).Failure?) ==> r.Failure?
    {
      var size := BatchSize(|args|, batchSize, numChunks, maxWorkers);
      if size.Failure? {
        return Failure(size.error);
      }
      r := ApplyInChunks(fn, args, size.value, schedule, onError);
    }
  }
}
