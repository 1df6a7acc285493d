/** The ObjectCacher that FileCache delegates to, as an oracle: its answers
    are fields set by its environment, its storage is not modelled, and
    every call FileCache makes on it is recorded in `trace`. */
module ObjectCacherOracle {
  import opened CallbackTable

  /** One call made on the ObjectCacher for the file's inode. */
  datatype Call =
    | SetIsCached
    | SetIsDirtyOrCommitting
    | FlushSet(onfinish: Ctx)
    | ReleaseSet
    | CommitSet(onsafe: Ctx)
    | FileRead(offset: int, size: nat)
    | FileAtomicSyncRead(offset: int, size: nat)
    | WaitForWrite(size: nat)
    | FileWrite(offset: int, size: nat)
    | FileAtomicSyncWrite(offset: int, size: nat)

  class ObjectCacher {
    /** What set_is_cached answers: the file has data in the cache. */
    var cached: bool
    /** What set_is_dirty_or_committing answers. */
    var dirtyOrCommitting: bool
    /** What flush_set answers: nothing was left to flush, so the caller's
        completion is not kept. */
    var flushDone: bool
    /** What commit_set answers: everything is already safe, so the caller's
        completion is not kept. */
    var commitDone: bool
    /** What release_set answers: bytes that stayed because they were not
        clean. */
    var unclean: int
    /** What file_read answers: 0 when the read was started and will finish
        through the completion it was given, anything else when it finished
        at once. */
    var readResult: int
    /** The value the completion given to file_read records when it fires. */
    var readCompletionValue: int
    /** What file_atomic_sync_read answers. */
    var syncReadResult: int

    /** Every call made on this cache, in order. */
    ghost var trace: seq<Call>

    constructor (cached: bool, dirtyOrCommitting: bool, flushDone: bool, commitDone: bool,
                 unclean: int, readResult: int, readCompletionValue: int, syncReadResult: int)
      ensures this.cached == cached && this.dirtyOrCommitting == dirtyOrCommitting
      ensures this.flushDone == flushDone && this.commitDone == commitDone
      ensures this.unclean == unclean && this.readResult == readResult
      ensures this.readCompletionValue == readCompletionValue && this.syncReadResult == syncReadResult
      ensures trace == []
    {
      this.cached, this.dirtyOrCommitting := cached, dirtyOrCommitting;
      this.flushDone, this.commitDone := flushDone, commitDone;
      this.unclean, this.readResult := unclean, readResult;
      this.readCompletionValue, this.syncReadResult := readCompletionValue, syncReadResult;
      trace := [];
    }

    // The two status queries change nothing but the trace.

    method SetIsCached() returns (b: bool)
      modifies this`trace
      ensures b == cached
      ensures trace == old(trace) + [Call.SetIsCached]
    {
      b := cached;
      trace := trace + [Call.SetIsCached];
    }

    method SetIsDirtyOrCommitting() returns (b: bool)
      modifies this`trace
      ensures b == dirtyOrCommitting
      ensures trace == old(trace) + [Call.SetIsDirtyOrCommitting]
    {
      b := dirtyOrCommitting;
      trace := trace + [Call.SetIsDirtyOrCommitting];
    }

    // The calls below act on the cache: each returns the answer it held on
    // entry and promises nothing about the cache's state afterwards.

    method FlushSet(onfinish: Ctx) returns (done: bool)
      modifies this
      ensures done == old(flushDone)
      ensures trace == old(trace) + [Call.FlushSet(onfinish)]
    {
      done := flushDone;
      trace := trace + [Call.FlushSet(onfinish)];
    }

    /** Releasing clean data leaves the dirty data, hence flush_set's answer,
        as it was. */
    method ReleaseSet() returns (left: int)
      modifies this
      ensures left == old(unclean)
      ensures flushDone == old(flushDone)
      ensures trace == old(trace) + [Call.ReleaseSet]
    {
      left := unclean;
      trace := trace + [Call.ReleaseSet];
    }

    method CommitSet(onsafe: Ctx) returns (safe: bool)
      modifies this
      ensures safe == old(commitDone)
      ensures trace == old(trace) + [Call.CommitSet(onsafe)]
    {
      safe := commitDone;
      trace := trace + [Call.CommitSet(onsafe)];
    }

    /** A cached read: `r` is file_read's answer, `value` what the completion
        handed to it records if the read has to wait for it. */
    method FileRead(offset: int, size: nat) returns (r: int, value: int)
      modifies this
      ensures r == old(readResult) && value == old(readCompletionValue)
      ensures trace == old(trace) + [Call.FileRead(offset, size)]
    {
      r, value := readResult, readCompletionValue;
      trace := trace + [Call.FileRead(offset, size)];
    }

    method FileAtomicSyncRead(offset: int, size: nat) returns (r: int)
      modifies this
      ensures r == old(syncReadResult)
      ensures trace == old(trace) + [Call.FileAtomicSyncRead(offset, size)]
    {
      r := syncReadResult;
      trace := trace + [Call.FileAtomicSyncRead(offset, size)];
    }

    method WaitForWrite(size: nat)
      modifies this
      ensures trace == old(trace) + [Call.WaitForWrite(size)]
    {
      trace := trace + [Call.WaitForWrite(size)];
    }

    method FileWrite(offset: int, size: nat)
      modifies this
      ensures trace == old(trace) + [Call.FileWrite(offset, size)]
    {
      trace := trace + [Call.FileWrite(offset, size)];
    }

    method FileAtomicSyncWrite(offset: int, size: nat)
      modifies this
      ensures trace == old(trace) + [Call.FileAtomicSyncWrite(offset, size)]
    {
      trace := trace + [Call.FileAtomicSyncWrite(offset, size)];
    }
  }
}
