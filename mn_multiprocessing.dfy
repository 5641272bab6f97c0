/**
 * The older copy of the parallel-map helpers kept in the mnemosyne
 * package: the same `chunk_list`, a `ParallelMap` without an error
 * handler whose pool defaults to the physical CPU count, and a
 * `chunk_apply` that reaches its batch size through `num_chunks`.
 */
module MnemosyneMultiprocessing {
  import opened Wrappers
  import opened Multiprocessing

  /** The batch size of this `chunk_apply`: neither size given means one chunk per worker. */
  function MnBatchSize(n: nat, batchSize: Option<int>, numChunks: Option<int>, maxWorkers: int): Result<int>
  {
    if batchSize.Some? && numChunks.Some? then Failure(BOTH_SIZES)
    else
      var chunks := if batchSize.None? && numChunks.None? then Some(maxWorkers) else numChunks;
      if chunks.Some? then (if chunks.value == 0 then Failure(DIVISION_BY_ZERO) else Success(CeilDiv(n, chunks.value)))
      else Success(batchSize.value)
  }

  /** Both versions of `chunk_apply` settle on the same batch size, or the same error. */
  lemma BatchSizesAgree(n: nat, batchSize: Option<int>, numChunks: Option<int>, maxWorkers: int)
    ensures MnBatchSize(n, batchSize, numChunks, maxWorkers) == BatchSize(n, batchSize, numChunks, maxWorkers)
  {
  }

  /** With no size given, a batch holds the arguments divided evenly between the workers, rounded up. */
  lemma DefaultBatchSize(n: nat, maxWorkers: int)
    requires maxWorkers > 0
    ensures var size := MnBatchSize(n, None, None, maxWorkers);
      size.Success? && size.value * maxWorkers >= n && (size.value - 1) * maxWorkers < n
  {
  }

  class ParallelMap {
    var maxWorkers: int
    var pbar: bool
    var useThread: bool
    var mpContext: string

    /** The pool size defaults to the number of physical CPUs. */
    constructor (maxWorkers: Option<int>, pbar: bool, useThread: bool, mpContext: string, physicalCpus: nat)
      ensures this.maxWorkers == (if maxWorkers.Some? then maxWorkers.value else physicalCpus)
      ensures this.pbar == pbar && this.useThread == useThread && this.mpContext == mpContext
    {
      this.maxWorkers := if maxWorkers.Some? then maxWorkers.value else physicalCpus;
      this.pbar := pbar;
      this.useThread := useThread;
      this.mpContext := mpContext;
    }

    /**
     * `__call__`, on threads or processes alike: results in input order,
     * and the first exception to surface ends the call.
     */
    method Call<A, B>(fn: A -> Result<B>, args: seq<A>, schedule: Schedule) returns (r: Result<seq<B>>)
      ensures r.Success? <==> forall i :: 0 <= i < |args| ==> fn(args[i]).Success?
      ensures r.Success? ==> r.value == MapAll(fn, args)
    {
      r := RunPool(fn, args, schedule(|args|), None);
      assert forall i :: 0 <= i < |args| ==> (Settled(fn, None, args, i).Some? <==> fn(args[i]).Success?);
      if r.Success? {
        assert forall i :: 0 <= i < |args| ==> Some(r.value[i]) == Settled(fn, None, args, i);
      }
    }

    /** `chunk_apply`: `fn` of every argument, in order, for a positive batch size over at least one argument. */
    method ChunkApply<A, B>(fn: A -> Result<B>, args: seq<A>, batchSize: Option<int>, numChunks: Option<int>,
                            schedule: Schedule)
      returns (r: Result<seq<B>>)
      ensures batchSize.Some? && numChunks.Some? ==> r == Failure(BOTH_SIZES)
      ensures var size := MnBatchSize(|args|, batchSize, numChunks, maxWorkers);
        size.Success? && size.value > 0 && args != [] && (forall i :: 0 <= i < |args| ==> fn(args[i]).Success?) ==>
          r == Success(MapAll(fn, args))
      ensures args == [] ==> r.Failure?
      ensures r.Success? ==> forall i :: 0 <= i < |args| ==> fn(args[i]).Success?
    {
      var size := MnBatchSize(|args|, batchSize, numChunks, maxWorkers);
      if size.Failure? {
        return Failure(size.error);
      }
      r := ApplyInChunks(fn, args, size.value, schedule, None);
    }
  }
}
