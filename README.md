# FileCache: per-file cache coherence and control in the Ceph client

This project models `FileCache` from the Ceph client's file cache layer in Dafny
and proves properties of the model. `FileCache` sits between the client's
read/write calls and the shared `ObjectCacher`. It does four things:

- It keeps the file's capability mask, `latest_caps`.
- It counts the reads and writes in flight, `num_reading` and `num_writing`.
- It holds `caps_callbacks`, a table from a capability mask to an ordered
  list of one-shot completions. Each list waits for a downgrade to that mask
  to be "implemented".
- It decides, for flush, empty and safe-waiter requests, whether the caller's
  completion fires at once or is left to the `ObjectCacher`.

Files:

- `caps.dfy` (module `Caps`): the C `int` masks and their bit patterns, and
  the four `CAP_FILE_*` bits. It also holds `Used`, the mask of capabilities
  the file's state requires, and the two bit tests the code makes:
  check_caps' test and set_caps' assertion.
- `callback_table.dfy` (module `CallbackTable`): `caps_callbacks` as an
  association list in `std::map<int, ...>` key order. It defines the
  `push_back` of set_caps (`Enqueue`) and what the sweep of check_caps keeps
  (`Keep`) and fires (`Fire`), with the lemmas about them.
- `object_cacher.dfy` (module `ObjectCacherOracle`): the `ObjectCacher` as an
  oracle. Its answers are fields, and every call made on it is appended to
  a ghost `trace`.
- `file_cache.dfy` (module `FileCacheModel`): the class `FileCache`. Its
  fields are the four above plus a ghost log `fired` of the completions it
  has finished. Its object invariant `Valid()` says two things. The table is
  sorted by key with no empty list. No completion occurs twice across `fired`
  and the table, which is the one-shot property.

Completions are numbers (`Ctx`). Firing one appends it to `fired`. A
completion handed to the `ObjectCacher` (a deferred flush, empty or safe
waiter) leaves the model with the call recorded in the trace.

check_caps' test at `FileCache.cc:73` is modelled exactly as written. A group
keyed by `k` fires when `used` holds a bit that `k` lacks. That is the
opposite of waiting until usage fits within the new grant.
`CallbackTable.IdleSweepKeepsAll` shows one consequence. A file that uses
nothing never fires any pending group.

Two facts about the code that the model names:

- `empty()` stores `release_clean()`'s result as `unclean`
  (`FileCache.cc:36`), the bytes that stayed because they were not clean,
  and asserts that it is zero exactly when the flush reports clean
  (`FileCache.cc:38`). The model uses that name.
- When a completion is attached, set_caps asserts `latest_caps & ~caps`
  (`FileCache.cc:52`): a capability held before is dropped
  (`Caps.LosesCaps`).

## Model

| member | source | states |
|---|---|---|
| `Caps.Used` | ceph/client/FileCache.cc:63-67 | `used` holds RD iff `num_reading > 0`, RDCACHE iff the cache reports the file cached, WR iff `num_writing > 0`, WRBUFFER iff it reports it dirty or committing, and no other bit |
| `Caps.ImplementedWhenUsageExceeds` | ceph/client/FileCache.cc:63-73 | a group keyed `k` is implemented exactly when some capability in use (reading, cached, writing, dirty) is missing from `k` |
| `CallbackTable.EnqueueLookup` | ceph/client/FileCache.cc:53 | after `caps_callbacks[caps].push_back(c)` the list under `caps` is the old list followed by `c`, and every other key's list is unchanged |
| `CallbackTable.EnqueueWellFormed` | ceph/client/FileCache.cc:53 | the push keeps the table in ascending key order with no empty list |
| `CallbackTable.EnqueuePending` | ceph/client/FileCache.cc:53 | the push adds exactly one waiting completion, `c` |
| `CallbackTable.EnqueueOneShot` | ceph/client/FileCache.cc:51-54 | enqueueing a new completion keeps every completion occurring at most once across finished and waiting |
| `CallbackTable.SetCapsOutcome` | ceph/client/FileCache.cc:49-57 | the completion given to set_caps fires in the same call iff its key `caps` is implemented; otherwise it is last in the list under `caps`, behind the earlier ones |
| `CallbackTable.KeepMembers` | ceph/client/FileCache.cc:71-86 | the entries left after the sweep are exactly the original entries whose key is not implemented, unchanged |
| `CallbackTable.KeepLookup` | ceph/client/FileCache.cc:71-86 | after the sweep an implemented key has no list and every other key keeps its list |
| `CallbackTable.KeepWellFormed` | ceph/client/FileCache.cc:71-86 | erasing during the sweep keeps the table sorted with no empty list |
| `CallbackTable.FireAccounting` | ceph/client/FileCache.cc:71-86 | the finished completions plus those still waiting are exactly, as a multiset, those waiting before |
| `CallbackTable.FireMembers` | ceph/client/FileCache.cc:73-77 | a completion is finished by the sweep iff it waits in an entry whose key is implemented |
| `CallbackTable.SweepOneShot` | ceph/client/FileCache.cc:77-80 | the sweep never finishes a completion twice, or one that is still waiting |
| `CallbackTable.IdleSweepKeepsAll` | ceph/client/FileCache.cc:73 | with nothing in use the sweep fires nothing and keeps every entry, a consequence of the test as written |
| `CallbackTable.SweepStep` | ceph/client/FileCache.cc:72-85 | one loop step, erasing the current entry when implemented and stepping past it otherwise, keeps the shape "kept prefix, then the unvisited rest" |
| `CallbackTable.SweepSnoc` | ceph/client/FileCache.cc:72-85 | visiting one more entry extends the kept entries or the finished completions by that entry alone |
| `CallbackTable.FinishOneShot` | ceph/client/FileCache.cc:13-15 | finishing a new completion at once keeps one-shot firing |
| `CallbackTable.LookupAbsent` | ceph/client/FileCache.cc:53 | a key below every key of the sorted table is absent, so operator[] creates a new entry for it |
| `FileCacheModel.FileCache.FlushDirty` | ceph/client/FileCache.cc:11-17 | calls flush_set once and fires the completion inline iff flush_set answered true |
| `FileCacheModel.FileCache.ReleaseClean` | ceph/client/FileCache.cc:19-22 | returns release_set's answer after one call |
| `FileCacheModel.FileCache.IsCached` | ceph/client/FileCache.cc:24-27 | returns set_is_cached's answer |
| `FileCacheModel.FileCache.IsDirty` | ceph/client/FileCache.cc:29-32 | returns set_is_dirty_or_committing's answer |
| `FileCacheModel.FileCache.Empty` | ceph/client/FileCache.cc:34-44 | requires `(unclean == 0) == clean`; calls release_set, then flush_set, and fires the completion inline iff the flush reported clean |
| `FileCacheModel.FileCache.SetCaps` | ceph/client/FileCache.cc:49-58 | requires a dropped bit when a completion is given; the mask becomes `caps`, the completion joins the end of the list under `caps`, then the table is swept |
| `FileCacheModel.FileCache.CheckCaps` | ceph/client/FileCache.cc:61-87 | builds `used` bit by bit around the two cache queries, equal to `Caps.Used` of the counters and answers; then leaves exactly `Keep(table, used)` and appends `Fire(table, used)` to the finished log, keeping `Valid()` |
| `FileCacheModel.FileCache.FinishImplemented` | ceph/client/FileCache.cc:71-86 | the in-place erase loop computes `Keep` and fires `Fire`, in key order and list order |
| `FileCacheModel.FileCache.Read` | ceph/client/FileCache.cc:93-129 | `num_reading` returns to its entry value; file_read iff RDCACHE is held, else file_atomic_sync_read; the result is the completion's value when `file_read` returned 0, otherwise `file_read`'s answer (or file_atomic_sync_read's on the uncached path); the table is swept iff the count was 0 and the table non-empty |
| `FileCacheModel.FileCache.Write` | ceph/client/FileCache.cc:131-151 | `num_writing` returns to its entry value; wait_for_write then file_write iff WRBUFFER is held, else exactly one file_atomic_sync_write; the table is swept iff the count was 0 and the table non-empty |
| `FileCacheModel.FileCache.AllSafe` | ceph/client/FileCache.cc:153-156 | the negation of set_is_dirty_or_committing's answer |
| `FileCacheModel.FileCache.AddSafeWaiter` | ceph/client/FileCache.cc:158-165 | calls commit_set once and fires the completion inline iff it answered true |

## Left out

- The internals of `ObjectCacher` are not modelled: storage, dirty accounting, flush and commit execution, and `wait_for_write`'s backpressure. Its source is not part of this model. It is an oracle whose answers are fields. After any call that acts on the cache, its state is unconstrained, except that `release_set` keeps `flush_set`'s answer. That exception is what lets `empty()`'s assertion be stated as a precondition. The answers of `flush_set` and `commit_set` are not tied to `set_is_dirty_or_committing`'s, so the model does not promise that `add_safe_waiter` fires at once when `all_safe()` holds; keeping those answers consistent is the `ObjectCacher`'s job.
- `FileCacheModel.FileCache.Read`: the wait at `FileCache.cc:111-112`, with the client lock released, is one step that yields the value the completion records. Other callers cannot run during it, so interleavings are not modelled.
- Mutex and condition-variable behaviour and concurrency in general are not modelled: every method runs as one atomic step under the client lock.
- `bufferlist` contents and the inode handle are not modelled. The trace records offsets and sizes only.
- The `dout` and `cap_string` logging is left out; it has no effect on behaviour.
- `delete` and ownership of `Context` objects are left out. The value passed to `finish` is not recorded either. Firing is an append to the ghost log `fired`.
- `FileCacheModel.FileCache.FlushDirty`, `Empty`, `AddSafeWaiter` and `SetCaps` require the completion to be one the object has not seen. This stands in for a newly allocated `Context`, so that one-shot firing can be stated.
- A completion passed on to the `ObjectCacher` for later firing is not followed once it is handed off.
- `num_reading` and `num_writing` are unbounded naturals; C `int` overflow is not modelled.
- The `CAP_FILE_*` constants are defined in a header that is not part of this model. They are given distinct single-bit values, and the proofs use nothing else about them.
- FileCache.h is not part of this model. Its constructor is modelled as starting with mask 0, zero counters and an empty table.
