/** The per-file cache controller: the capability mask and the callbacks
    waiting for a downgrade to be implemented, the reader and writer counts
    that bracket every read and write, and the drain helpers. */
module FileCacheModel {
  import opened Caps
  import opened CallbackTable
  import opened ObjectCacherOracle

  /** An optional completion: a `Context*` that may be null. */
  datatype Option<T> = None | Some(value: T)

  /** The two status queries check_caps makes, in order. */
  const CheckCapsCalls: seq<Call> := [Call.SetIsCached, Call.SetIsDirtyOrCommitting]

  class FileCache {
    /** The cache shared by all files; not owned. */
    const oc: ObjectCacher

    var latestCaps: CInt
    var numReading: nat
    var numWriting: nat
    var capsCallbacks: Table

    /** Every completion this object has finished, in order. */
    ghost var fired: seq<Ctx>

    /** The table is a well-formed std::map image, and no completion has
        been finished twice or is both finished and still waiting. */
    ghost predicate Valid()
      reads this
    {
      WellFormed(capsCallbacks) && Distinct(fired + Pending(capsCallbacks))
    }

    /** A completion this object has neither finished nor holds: a newly
        allocated `Context`. */
    ghost predicate Unseen(c: Ctx)
      reads this
    {
      c !in fired && c !in Pending(capsCallbacks)
    }

    /** The capabilities in use at this moment, as check_caps computes them. */
    ghost function UsedNow(): Mask
      reads this, oc
    {
      Used(numReading, oc.cached, numWriting, oc.dirtyOrCommitting)
    }

    constructor (oc: ObjectCacher)
      ensures Valid() && this.oc == oc
      ensures latestCaps == 0 && numReading == 0 && numWriting == 0
      ensures capsCallbacks == [] && fired == []
    {
      this.oc := oc;
      latestCaps, numReading, numWriting := 0, 0, 0;
      capsCallbacks, fired := [], [];
    }

    // -------------------------------------------------------------------
    // Drain and durability

    /** Finishes `onflush` at once when flush_set reports nothing to flush;
        otherwise the cache keeps it. */
    method FlushDirty(onflush: Ctx)
      requires Valid() && Unseen(onflush)
      modifies this`fired, oc
      ensures Valid()
      ensures oc.trace == old(oc.trace) + [Call.FlushSet(onflush)]
      ensures fired == old(fired) + (if old(oc.flushDone) then [onflush] else [])
    {
      var done := oc.FlushSet(onflush);
      if done {
        FinishOneShot(fired, capsCallbacks, onflush);
        fired := fired + [onflush];
      }
    }

    method ReleaseClean() returns (unclean: int)
      modifies oc
      ensures unclean == old(oc.unclean)
      ensures oc.flushDone == old(oc.flushDone)
      ensures oc.trace == old(oc.trace) + [Call.ReleaseSet]
    {
      unclean := oc.ReleaseSet();
    }

    method IsCached() returns (b: bool)
      modifies oc`trace
      ensures b == oc.cached
      ensures oc.trace == old(oc.trace) + [Call.SetIsCached]
    {
      b := oc.SetIsCached();
    }

    method IsDirty() returns (b: bool)
      modifies oc`trace
      ensures b == oc.dirtyOrCommitting
      ensures oc.trace == old(oc.trace) + [Call.SetIsDirtyOrCommitting]
    {
      b := oc.SetIsDirtyOrCommitting();
    }

    /** Releases clean data, then flushes; the two answers must agree that
        the file is clean exactly when nothing unclean stayed behind.
        `onempty` is finished at once when it is. */
    method Empty(onempty: Ctx)
      requires Valid() && Unseen(onempty)
      requires (oc.unclean == 0) == oc.flushDone
      modifies this`fired, oc
      ensures Valid()
      ensures oc.trace == old(oc.trace) + [Call.ReleaseSet, Call.FlushSet(onempty)]
      ensures fired == old(fired) + (if old(oc.flushDone) then [onempty] else [])
    {
      var unclean := ReleaseClean();
      var clean := oc.FlushSet(onempty);
      assert (unclean == 0) == clean;
      if clean {
        FinishOneShot(fired, capsCallbacks, onempty);
        fired := fired + [onempty];
      }
    }

    method AllSafe() returns (safe: bool)
      modifies oc`trace
      ensures safe == !oc.dirtyOrCommitting
      ensures oc.trace == old(oc.trace) + [Call.SetIsDirtyOrCommitting]
    {
      var dirty := oc.SetIsDirtyOrCommitting();
      safe := !dirty;
    }

    /** Finishes `c` at once when commit_set reports everything safe;
        otherwise the cache keeps it until the data is safe. */
    method AddSafeWaiter(c: Ctx)
      requires Valid() && Unseen(c)
      modifies this`fired, oc
      ensures Valid()
      ensures oc.trace == old(oc.trace) + [Call.CommitSet(c)]
      ensures fired == old(fired) + (if old(oc.commitDone) then [c] else [])
    {
      var safe := oc.CommitSet(c);
      if safe {
        FinishOneShot(fired, capsCallbacks, c);
        fired := fired + [c];
      }
    }

    // -------------------------------------------------------------------
    // Capabilities

    /** Installs the new mask. A completion may only come with a mask that
        drops a capability held before; it waits under the new mask. The
        table is then swept. */
    method SetCaps(caps: CInt, onimplement: Option<Ctx>)
      requires Valid()
      requires onimplement.Some? ==> LosesCaps(latestCaps, caps) && Unseen(onimplement.value)
      modifies this`latestCaps, this`capsCallbacks, this`fired, oc`trace
      ensures Valid()
      ensures latestCaps == caps
      ensures var t := if onimplement.Some? then Enqueue(old(capsCallbacks), caps, onimplement.value)
                       else old(capsCallbacks);
              capsCallbacks == Keep(t, UsedNow()) && fired == old(fired) + Fire(t, UsedNow())
      ensures oc.trace == old(oc.trace) + CheckCapsCalls
    {
      if onimplement.Some? {
        assert LosesCaps(latestCaps, caps);
        EnqueueWellFormed(capsCallbacks, caps, onimplement.value);
        EnqueueOneShot(fired, capsCallbacks, caps, onimplement.value);
        capsCallbacks := Enqueue(capsCallbacks, caps, onimplement.value);
      }
      latestCaps := caps;
      CheckCaps();
    }

    /** Computes the capabilities in use, then finishes and erases every
        entry whose key `Implemented` accepts, leaving the others in place. */
    method CheckCaps()
      requires Valid()
      modifies this`capsCallbacks, this`fired, oc`trace
      ensures Valid()
      ensures capsCallbacks == Keep(old(capsCallbacks), UsedNow())
      ensures fired == old(fired) + Fire(old(capsCallbacks), UsedNow())
      ensures oc.trace == old(oc.trace) + CheckCapsCalls
    {
      var used: Mask := 0;
      if numReading != 0 { used := used | CAP_FILE_RD; }
      var cached := oc.SetIsCached();
      if cached { used := used | CAP_FILE_RDCACHE; }
      if numWriting != 0 { used := used | CAP_FILE_WR; }
      var dirty := oc.SetIsDirtyOrCommitting();
      if dirty { used := used | CAP_FILE_WRBUFFER; }
      assert used == UsedNow();
      KeepWellFormed(capsCallbacks, used);
      SweepOneShot(fired, capsCallbacks, used);
      FinishImplemented(used);
    }

    /** The loop of check_caps: walks the table in key order; an entry whose
        key is implemented has its completions finished in list order and is
        erased in place, any other entry is stepped over. */
    method FinishImplemented(used: Mask)
      modifies this`capsCallbacks, this`fired
      ensures capsCallbacks == Keep(old(capsCallbacks), used)
      ensures fired == old(fired) + Fire(old(capsCallbacks), used)
    {
      ghost var t := capsCallbacks;
      ghost var done := 0;
      var i := 0;
      while i < |capsCallbacks|
        invariant 0 <= done <= |t|
        invariant capsCallbacks == Keep(t[..done], used) + t[done..]
        invariant i == |Keep(t[..done], used)|
        invariant fired == old(fired) + Fire(t[..done], used)
        decreases |t| - done
      {
        SweepStep(t, done, used, capsCallbacks, i);
        var g := capsCallbacks[i];
        if Implemented(g.key, used) {
          fired := fired + g.waiters;
          capsCallbacks := capsCallbacks[..i] + capsCallbacks[i + 1..];
        } else {
          i := i + 1;
        }
        done := done + 1;
      }
      assert t[..done] == t;
    }

    // -------------------------------------------------------------------
    // Reads and writes

    /** A read through the cache when the mask allows cached reads, else a
        synchronous read around it. The reader count is raised for the
        duration and restored; when it drops back to zero with callbacks
        waiting, the table is swept. */
    method Read(offset: int, size: nat) returns (r: int)
      requires Valid()
      modifies this`numReading, this`capsCallbacks, this`fired, oc
      ensures Valid()
      ensures numReading == old(numReading) && numWriting == old(numWriting)
      ensures latestCaps == old(latestCaps)
      ensures Holds(Bits(old(latestCaps)), CAP_FILE_RDCACHE) ==>
                r == (if old(oc.readResult) == 0 then old(oc.readCompletionValue) else old(oc.readResult))
      ensures !Holds(Bits(old(latestCaps)), CAP_FILE_RDCACHE) ==> r == old(oc.syncReadResult)
      ensures var call := if Holds(Bits(old(latestCaps)), CAP_FILE_RDCACHE) then Call.FileRead(offset, size)
                          else Call.FileAtomicSyncRead(offset, size);
              if old(numReading) == 0 && old(capsCallbacks) != [] then
                && capsCallbacks == Keep(old(capsCallbacks), UsedNow())
                && fired == old(fired) + Fire(old(capsCallbacks), UsedNow())
                && oc.trace == old(oc.trace) + [call] + CheckCapsCalls
              else
                && capsCallbacks == old(capsCallbacks) && fired == old(fired)
                && oc.trace == old(oc.trace) + [call]
    {
      numReading := numReading + 1;

      if Bits(latestCaps) & CAP_FILE_RDCACHE != 0 {
        var value;
        r, value := oc.FileRead(offset, size);
        if r == 0 {
          // The read waits, with the client lock released, until the
          // completion handed to file_read fires and records `value`.
          r := value;
        }
        // Otherwise the data was cached and the completion is dropped unfired.
      } else {
        r := oc.FileAtomicSyncRead(offset, size);
      }

      numReading := numReading - 1;

      if numReading == 0 && capsCallbacks != [] {
        CheckCaps();
      }
    }

    /** A buffered write, after waiting for room in the cache, when the mask
        allows buffered writes, else a synchronous write. The writer count is
        raised for the duration and restored; when it drops back to zero with
        callbacks waiting, the table is swept. */
    method Write(offset: int, size: nat)
      requires Valid()
      modifies this`numWriting, this`capsCallbacks, this`fired, oc
      ensures Valid()
      ensures numWriting == old(numWriting) && numReading == old(numReading)
      ensures latestCaps == old(latestCaps)
      ensures var calls := if Holds(Bits(old(latestCaps)), CAP_FILE_WRBUFFER)
                           then [Call.WaitForWrite(size), Call.FileWrite(offset, size)]
                           else [Call.FileAtomicSyncWrite(offset, size)];
              if old(numWriting) == 0 && old(capsCallbacks) != [] then
                && capsCallbacks == Keep(old(capsCallbacks), UsedNow())
                && fired == old(fired) + Fire(old(capsCallbacks), UsedNow())
                && oc.trace == old(oc.trace) + calls + CheckCapsCalls
              else
                && capsCallbacks == old(capsCallbacks) && fired == old(fired)
                && oc.trace == old(oc.trace) + calls
    {
      numWriting := numWriting + 1;

      ghost var calls := if Holds(Bits(latestCaps), CAP_FILE_WRBUFFER)
                         then [Call.WaitForWrite(size), Call.FileWrite(offset, size)]
                         else [Call.FileAtomicSyncWrite(offset, size)];
      if Bits(latestCaps) & CAP_FILE_WRBUFFER != 0 {
        oc.WaitForWrite(size);
        oc.FileWrite(offset, size);
      } else {
        oc.FileAtomicSyncWrite(offset, size);
      }
      assert oc.trace == old(oc.trace) + calls;

      numWriting := numWriting - 1;
      if numWriting == 0 && capsCallbacks != [] {
        CheckCaps();
      }
    }
  }
}
