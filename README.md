# Log-tailing engine, modelled and verified in Dafny

The system tails a growing log file that may be rotated, truncated or
deleted while it runs. It decodes each line as JSON, keeps a bounded
in-memory window of recent entries, indexes entries by dotted module path,
and lets readers page through that window. The repository holds three
versions of this engine, and the model follows each one separately:

- **LogFileWrapper.py**, the version the service uses.
  - Every admitted line gets an increasing `_id`; a line that is not JSON
    is kept as a raw-text record.
  - The newest `limit` entries live in a deque.
  - A module hierarchy is built from `module.name` paths.
  - `get_logs` pages by id; `check_updates` counts what is newer than a
    client's id.
- **LoggerBackend_v3.py**, the cursor variant.
  - Entries carry no id: `last_entry_index` counts what was read since the
    last rotation.
  - Each rotation, truncation or disappearance bumps a `generation`.
  - Readers hold a `LogSession` cursor, which is rebased when the
    generation moves on.
- **LoggerFileBackend.py**, the earliest variant.
  - Every decoded line goes into a cache, which is bounded only when it is
    limited by line count.
  - Entries are filed in append-only per-level and per-module indexes.
  - Once a minute the monitor checks the index totals against the cache
    and rebuilds the indexes when they disagree.
  - `get_logs` pages newest first and `get_log_stats` counts per key.

Layout:

- `common.dfy` (`Common`): decoded JSON values and the Python built-ins the
  engine relies on. These are the bounded deque, the `deque(f, maxlen)`
  tail read, list slicing, `reverse`, the idle back-off, and the file
  observation one poll works on.
- `module_tree.dfy` (`ModuleTree`): the dotted-path hierarchy that
  `_update_module_hierarchy` maintains. It is shared by LogFileWrapper.py
  and LoggerFileBackend.py.
- `id_cache.dfy` (`IdCache`) and `log_file_wrapper.dfy` (`LogFileWrapper`):
  LogFileWrapper.py. The first is the value-level specification, the
  second the class, whose methods are proved against it.
- `session_cursor.dfy` (`SessionCursor`) and `logger_backend_v3.dfy`
  (`LoggerBackendV3`): LoggerBackend_v3.py, with the same split.
- `backend_index.dfy` (`BackendIndex`) and `logger_file_backend.dfy`
  (`LoggerFileBackend`): LoggerFileBackend.py, with the same split.

Each monitor thread is modelled as one loop iteration per call of a
`MonitorStep` method. What that iteration sees of the file system is a
`FileObs` value: missing, or present with an identity, a size, all its
lines, the lines after the read position, and the end offset.
`json.loads` is a parameter `decode` that returns `None` for undecodable
text. `time.time()` is a parameter `now`. Python exceptions that escape an
operation are modelled as `Raised(...)` results or `Failed(...)` outcomes.

Points of the code that a reader might expect to behave otherwise, all
modelled as the code has them:

- In LogFileWrapper.py, a rotation or truncation clears the window and the
  read position and re-reads the file identity (LogFileWrapper.py:121-126);
  only a vanished file sets the identity to none (LogFileWrapper.py:138-142).
  Neither clears `module_hierarchy` or `seen_modules`.
- In LogFileWrapper.py, `next_id` keeps counting across rotations.
- In LoggerBackend_v3.py, a historical read is relative to the session's
  start index, not its end position (LoggerBackend_v3.py:222).

## Model

| member | source | states |
|---|---|---|
| Common.Bounded | LogFileWrapper.py:105-107 | a bounded deque holds the newest `limit` items, in order, and fewer only when fewer were pushed |
| Common.BoundedExtend | LogFileWrapper.py:105-107 | extending a bounded deque batch by batch evicts the same items as extending it all at once |
| Common.TailLines | LogFileWrapper.py:62-66 | the initial load reads the last `min(limit, len)` lines, in order, when `limit > 0`, every line otherwise |
| Common.Backoff | LogFileWrapper.py:170-172 | one idle back-off step never exceeds 10.0 and is either 1.5 times the old pause or the ceiling |
| Common.PySlice | LoggerFileBackend.py:250 | `s[a:b]` with non-negative `a` returns items of `s` from position `a` on, at most `b - a` of them |
| Common.ClampIndex | LoggerFileBackend.py:250 | a slice bound is normalised into `0..len`, unchanged when already inside |
| Common.Reverse | LoggerFileBackend.py:249 | `reverse()` puts item `len-1-k` at position `k` |
| Common.PagesJoin | LoggerFileBackend.py:250 | consecutive non-negative slices join without gap or overlap |
| Common.PollSleep | LogFileWrapper.py:133-172 | as written, after any iteration that follows an idle one the pause is 0.1, or 0.15 if this iteration is idle too, and the idle counter is 1 exactly after an idle iteration |
| Common.IdleRunAsWrittenStalls | LogFileWrapper.py:133-172 | as written, any run of idle iterations sleeps `Backoff(0.1)` = 0.15 with the counter at 1 |
| Common.IdleRunCounterexample | LogFileWrapper.py:133-172 | three idle iterations sleep 0.15 as written against 0.3375 as intended |
| Common.PollSleepCorrected | LogFileWrapper.py:132-135 | corrected: a change resets the pause to 0.1, an idle iteration backs off within `0..10` |
| Common.IdleRunGrows | LogFileWrapper.py:170-172 | corrected, `n` idle iterations sleep `min(0.1 * 1.5^n, 10.0)` |
| ModuleTree.Split | LogFileWrapper.py:185 | `split('.')` gives at least one part, and no part holds a `.` |
| ModuleTree.JoinSplit | LogFileWrapper.py:185-188 | joining the split parts gives back the path |
| ModuleTree.Insert | LogFileWrapper.py:189 | `hierarchy[parent].add(child)` adds `child` under `parent` and changes no other parent |
| ModuleTree.AddPathEdges | LogFileWrapper.py:185-189 | the prefix loop computes exactly `AddPath` of the path |
| ModuleTree.AddPathExact | LogFileWrapper.py:185-189 | adding a path adds exactly its prefix edges (root→p1, prefix(i-1)→prefix(i)) and removes nothing |
| ModuleTree.AddPathCovers | LogFileWrapper.py:185-189 | after adding, every prefix of the path sits under its parent prefix, the full path under the last one |
| ModuleTree.AddPathIdempotent | LogFileWrapper.py:181-189 | adding the same path twice is adding it once |
| ModuleTree.AddPathWellFormed | LogFileWrapper.py:185-189 | every child stays under its own parent path (`root` for top-level names) |
| IdCache.AdmitLine | LogFileWrapper.py:88-104 | an undecodable line becomes a raw record stamped `now`; a non-object value or a non-string truthy module or name is dropped; a decoded object is kept with path `module.name` when the module is truthy |
| IdCache.Records | LogFileWrapper.py:86-104 | a batch admits at most one record per line, in line order |
| IdCache.Numbered | LogFileWrapper.py:99-102 | admitted records are numbered consecutively from `next_id` |
| IdCache.AppendKeepsContiguous | LogFileWrapper.py:99-107 | appending a numbered batch to a gap-free bounded window keeps ids gap-free and ending at `next_id - 1` |
| IdCache.AddPathCommutes | LogFileWrapper.py:179-189 | two module paths can be added in either order |
| IdCache.UpdateHierarchy | LogFileWrapper.py:179-189 | the path is marked seen, and no parent loses a child |
| IdCache.UpdateAll | LogFileWrapper.py:92-95 | after a batch the seen-set is the old one plus exactly the batch's paths |
| IdCache.UpdateHierarchyIsAddPath | LogFileWrapper.py:179-189 | with every seen path already in the tree, the seen-set test only skips work: the result is `AddPath` |
| IdCache.UpdateAllInvariant | LogFileWrapper.py:92-95 | over a whole batch the seen-set stays a sound shortcut, the tree stays well formed, and seen paths are never forgotten |
| IdCache.BatchKeepsInvariant | LogFileWrapper.py:81-107 | admitting a batch keeps the window gap-free below the advanced counter and the hierarchy consistent |
| IdCache.Filtered | LogFileWrapper.py:236 | filtering keeps only entries of the window that satisfy the filter |
| IdCache.FirstAtOrAbove | LogFileWrapper.py:222-229 | the start index is the first whose `_id >= start_id`, or the end when none is |
| IdCache.FirstAtOrAboveAt | LogFileWrapper.py:223-229 | any index with all ids before it below `start_id` and its own at or above is that start index |
| IdCache.CollectMatching | LogFileWrapper.py:231-238 | the collecting loop returns the first `count` matching entries from the start index on |
| IdCache.TakeMatchingIsPrefix | LogFileWrapper.py:231-238 | the collected entries are the first `min(count, …)` entries of the filtered window |
| IdCache.LogsFromLength | LogFileWrapper.py:218-238 | `get_logs` returns at most `count` entries, none for `count <= 0` or when no id reaches `start_id` |
| IdCache.LogsFrom | LogFileWrapper.py:218-238 | whatever the id order, every returned entry lies at or after the start index and satisfies the filter |
| IdCache.TakeMatchingMembers | LogFileWrapper.py:231-238 | every collected entry is in the window and satisfies the filter |
| IdCache.TakeMatchingSound | LogFileWrapper.py:231-238 | on ascending ids the collected entries are ascending and none lies before the start |
| IdCache.LogsFromSound | LogFileWrapper.py:205-238 | on ascending ids `get_logs` returns resident, matching entries in ascending id order, all with `_id >= start_id` |
| IdCache.LogsFromComplete | LogFileWrapper.py:205-238 | asked for at least the window's length, `get_logs` returns every matching entry from the start on |
| IdCache.Count | LogFileWrapper.py:250-253 | the count never exceeds the window and is its length without a filter |
| IdCache.CountIsFiltered | LogFileWrapper.py:250-253 | the count is the number of matching entries |
| IdCache.CountIsFullPage | LogFileWrapper.py:240-253 | `get_total_count(f)` equals the length of the page `get_logs(min_id, len, f)` returns |
| IdCache.UpdatesSince | LogFileWrapper.py:271-289 | zeros on an empty window, otherwise the first and last ids, with `new_count >= 0` and `has_updates` iff `new_count > 0` |
| IdCache.CountAboveRun | LogFileWrapper.py:280-282 | on consecutive ids the number above `x` is `max(0, max_id - max(min_id - 1, x))` |
| IdCache.UpdatesSinceCountsNewer | LogFileWrapper.py:280-289 | on a gap-free window `new_count` is exactly the number of resident entries newer than the client's id |
| LogFileWrapper.LogFileWrapper.constructor | LogFileWrapper.py:16-39 | a fresh wrapper over a missing file is empty; over a present one it holds the reloaded tail, numbered from 0 |
| LogFileWrapper.LogFileWrapper.LoadInitialEntries | LogFileWrapper.py:52-71 | nothing for a missing file; otherwise identity, tail batch and end offset are taken from the file |
| LogFileWrapper.LogFileWrapper.UpdateFileId | LogFileWrapper.py:73-79 | the identity is the file's, or none when it is gone |
| LogFileWrapper.LogFileWrapper.AppendLogEntries | LogFileWrapper.py:81-107 | the window becomes the bounded old window plus the numbered batch; counter and hierarchy advance as the batch says |
| LogFileWrapper.LogFileWrapper.DecodeLines | LogFileWrapper.py:86-104 | the per-line loop numbers the admitted records from `next_id` and feeds their paths to the hierarchy in order |
| LogFileWrapper.LogFileWrapper.UpdateModuleHierarchy | LogFileWrapper.py:179-189 | a seen path changes nothing; a new one is marked seen and its prefix edges are added |
| LogFileWrapper.LogFileWrapper.HandleRotation | LogFileWrapper.py:121-126 | the window is emptied, the position reset, the identity re-read; counter and hierarchy are kept |
| LogFileWrapper.LogFileWrapper.MonitorStep | LogFileWrapper.py:128-177 | per branch (missing, new identity, truncated, grown, idle) the new window, counter, position, identity and pause; the counter never decreases |
| LogFileWrapper.LogFileWrapper.GetLogs | LogFileWrapper.py:205-238 | the two loops of `get_logs` compute `LogsFrom` of the window |
| LogFileWrapper.LogFileWrapper.GetTotalCount | LogFileWrapper.py:240-253 | the count of matching resident entries, at most the window's length |
| LogFileWrapper.LogFileWrapper.CheckUpdates | LogFileWrapper.py:255-289 | `has_updates` iff the newest id is above the client's; `new_count` counts the resident entries above it; `min_id`/`max_id` are the window's ends |
| LogFileWrapper.LogFileWrapper.GetModuleHierarchy | LogFileWrapper.py:191-193 | the hierarchy is a well-formed tree already holding every seen path |
| SessionCursor.DecodeItem | LoggerBackend_v3.py:110-116 | a line is the decoded value, or a raw fallback stamped `now` exactly when it does not decode |
| SessionCursor.DecodeItems | LoggerBackend_v3.py:107-116 | one entry per line, in line order |
| SessionCursor.Oldest | LoggerBackend_v3.py:229 | the oldest resident index is never negative |
| SessionCursor.WindowPositions | LoggerBackend_v3.py:229-234 | the window holds history indexes `oldest..last`, entry `k` being index `oldest + k` |
| SessionCursor.IndexedExtend | LoggerBackend_v3.py:118-120 | appending a batch keeps the window the newest `limit` entries and `last_entry_index` their last index |
| SessionCursor.ByIndex | LoggerBackend_v3.py:263-270 | `[]` on an empty window; `ValueError` exactly for a negative start or stop; otherwise window items from `start`, at most `count` |
| SessionCursor.Historical | LoggerBackend_v3.py:219-235 | at most `count` entries; nothing when the window is empty or the requested index lies outside `[oldest, last]`; an exception only for a negative count |
| SessionCursor.HistoricalReadsHistory | LoggerBackend_v3.py:222-235 | an in-window request returns history from index `start + offset + 1`, up to `count` entries or the newest |
| SessionCursor.RealtimeAsWritten | LoggerBackend_v3.py:237-261 | as written: an empty window or a session at the newest index reads nothing and does not advance; otherwise the advance equals the number of entries returned, and nothing advances on an exception |
| SessionCursor.RealtimeAsWrittenReads | LoggerBackend_v3.py:243-261 | as written, a read at position `pos` returns history from index `pos` (already seen) |
| SessionCursor.RealtimeAsWrittenCounterexample | LoggerBackend_v3.py:247-259 | concrete runs: it re-delivers the seen entry, then stalls with nothing, and raises `ValueError` below the window |
| SessionCursor.UpdatesMeanDelivery | LoggerBackend_v3.py:214-261 | for a session inside the window both reads succeed, and the corrected read returns something exactly when `has_updates` holds |
| SessionCursor.Realtime | LoggerBackend_v3.py:247-260 | corrected: the advance equals the number returned, nothing on an exception |
| SessionCursor.RealtimeReadsNext | LoggerBackend_v3.py:247-260 | corrected, a read returns exactly the next `min(count, last - pos)` entries after the session's position, or `ValueError` when they were evicted |
| SessionCursor.RealtimeWindow | LoggerBackend_v3.py:247-260 | corrected, the read is the window slice after the session's position |
| SessionCursor.WindowSlice | LoggerBackend_v3.py:229-234 | a window slice is the history slice shifted by the oldest index |
| SessionCursor.RealtimeChain | LoggerBackend_v3.py:237-261 | corrected, two reads in a row deliver consecutive, non-overlapping runs that together are one longer read |
| SessionCursor.RealtimeDrains | LoggerBackend_v3.py:237-261 | corrected, a read asked for all that is new returns the rest of the history and brings the session to the newest index |
| LoggerBackendV3.LogSession.constructor | LoggerBackend_v3.py:13-16 | a session starts at the given index and generation with offset 0 |
| LoggerBackendV3.LogSession.AdvanceOffset | LoggerBackend_v3.py:18-20 | only the offset moves, so the end position moves by `delta` |
| LoggerBackendV3.LogSession.Reset | LoggerBackend_v3.py:22-30 | re-anchored at the new index and generation with offset 0, so `end_position()` is the new index |
| LoggerBackendV3.LogFileWrapper.constructor | LoggerBackend_v3.py:39-60 | generation 0; a missing file gives an empty window at index -1, a present one the reloaded tail |
| LoggerBackendV3.LogFileWrapper.LoadInitialEntries | LoggerBackend_v3.py:73-92 | nothing for a missing file; otherwise identity, tail batch and end offset are taken from the file |
| LoggerBackendV3.LogFileWrapper.UpdateFileId | LoggerBackend_v3.py:94-100 | the identity is the file's, or none when it is gone |
| LoggerBackendV3.LogFileWrapper.AppendLogEntries | LoggerBackend_v3.py:102-120 | history gains one entry per line, the window is its bounded tail, and the index advances by the batch length |
| LoggerBackendV3.LogFileWrapper.HandleRotation | LoggerBackend_v3.py:134-141 | a new generation, an empty window at index -1, position 0, identity re-read |
| LoggerBackendV3.LogFileWrapper.MonitorStep | LoggerBackend_v3.py:143-194 | per branch the new window, index, position, identity and pause; the generation moves exactly on missing, replaced and truncated files |
| LoggerBackendV3.LogFileWrapper.Reload | LoggerBackend_v3.py:164-168 | a rotation then reload bumps the generation and holds exactly the file's tail |
| LoggerBackendV3.LogFileWrapper.GetStartSession | LoggerBackend_v3.py:206-212 | a new session anchored at the newest index and current generation |
| LoggerBackendV3.LogFileWrapper.HasUpdatesMeansDelivery | LoggerBackend_v3.py:214-217 | for a session inside the window, `has_updates` holds exactly when a real-time read from its end position returns entries, as written and as corrected |
| LoggerBackendV3.LogFileWrapper.RecoverSession | LoggerBackend_v3.py:272-279 | no change within the generation; otherwise rebased at the newest index with offset 0 |
| LoggerBackendV3.LogFileWrapper.GetLogsByIndex | LoggerBackend_v3.py:263-270 | the islice loop computes `ByIndex` of the window |
| LoggerBackendV3.LogFileWrapper.GetHistoricalLogs | LoggerBackend_v3.py:219-235 | the session is recovered, then the read is `Historical` of the window |
| LoggerBackendV3.LogFileWrapper.GetRealtimeLogs | LoggerBackend_v3.py:237-261 | the session is recovered, the read is the as-written one, and the session advances by exactly what it returned |
| BackendIndex.AppendToLookup | LoggerFileBackend.py:123-125 | `index[key].append(e)` extends only the list under `key`, at its end |
| BackendIndex.AppendToTotal | LoggerFileBackend.py:182-183 | each append adds one to the index total |
| BackendIndex.AppendToObjects | LoggerFileBackend.py:116-125 | appending an object keeps the index made of objects |
| BackendIndex.NoteModule | LoggerFileBackend.py:131-141 | the module joins the seen-set; it fails (`AttributeError`) exactly when it is new and not a string |
| BackendIndex.NoteModuleOnce | LoggerFileBackend.py:133-134 | noting the same module again succeeds and changes nothing |
| BackendIndex.NoteModuleEdges | LoggerFileBackend.py:136-141 | a new dotted module adds exactly its prefix edges, a seen one none |
| BackendIndex.IndexStep | LoggerFileBackend.py:119-126 | an entry is either left unfiled (not an object, or an unhashable level) or filed under its level exactly once, even when its module then raises; the module index grows by at most one |
| BackendIndex.IndexStepDone | LoggerFileBackend.py:119-126 | filing succeeds exactly for an object with hashable level and a hashable, new-string-or-seen truthy module; it then appends under level and module and marks the module seen |
| BackendIndex.IndexStepObjects | LoggerFileBackend.py:119-126 | only decoded objects are ever filed |
| BackendIndex.ReindexStops | LoggerFileBackend.py:195-202 | once the rebuild raises, later entries are not filed |
| BackendIndex.Reindex | LoggerFileBackend.py:188-202 | no cached entry is filed twice in either index, and a rebuild that does not raise files every entry under its level |
| BackendIndex.ReindexDone | LoggerFileBackend.py:188-202 | the rebuild succeeds iff every cached entry is an object with a hashable level and a string (or falsy) module; the seen-set is then exactly the resident modules |
| BackendIndex.ReindexLookup | LoggerFileBackend.py:188-202 | after a successful rebuild each level and module key lists exactly the cached entries with that key, in cache order |
| BackendIndex.ReindexTotals | LoggerFileBackend.py:188-202 | after a successful rebuild the level total is the cache length and the module total the number of entries with a module |
| BackendIndex.ReindexHierarchy | LoggerFileBackend.py:188-202 | after a successful rebuild each parent's children are exactly the prefix edges of resident modules |
| BackendIndex.RebuildSettles | LoggerFileBackend.py:178-202 | a rebuild leaves the indexes consistent iff every cached entry has a module; otherwise every later validation rebuilds again |
| BackendIndex.Validate | LoggerFileBackend.py:178-186 | unless the rebuild raises, afterwards the level total equals the cache length and the module total does not exceed it |
| BackendIndex.ProcessLine | LoggerFileBackend.py:111-129 | an undecodable line changes nothing; a decoded one is cached and bumps the revision by 1 before filing, whose outcome is returned |
| BackendIndex.ProcessLinesStop | LoggerFileBackend.py:161-162 | the first exception ends a batch |
| BackendIndex.ProcessLines | LoggerFileBackend.py:161-162 | a batch bumps the revision by at most one per line, never lowering it |
| BackendIndex.ProcessLinesRevision | LoggerFileBackend.py:111-129 | a batch without exception bumps the revision once per decodable line |
| BackendIndex.ProcessLineAppends | LoggerFileBackend.py:115-126 | between rebuilds the indexes only grow, by the new entry under its level and (if any) module |
| BackendIndex.ProcessLineDrift | LoggerFileBackend.py:116-123 | with a full bounded cache each filed line pushes the level total one further past the cache length; unbounded they grow together |
| BackendIndex.PageOf | LoggerFileBackend.py:218-228 | a client at or past the current revision gets an empty page with the cache length as total and `hasMore` false |
| BackendIndex.Filtered | LoggerFileBackend.py:230-244 | only the combined level-and-module filter raises (`TypeError`), and when it does not it returns nothing |
| BackendIndex.PageNewestFirst | LoggerFileBackend.py:247-258 | a page holds the filtered entries from the `start`-th newest on, `min(limit, total - start)` of them, with `hasMore` iff older ones remain |
| BackendIndex.PagesAdjoin | LoggerFileBackend.py:247-250 | consecutive pages at one revision join into the page spanning both |
| BackendIndex.GatherRebuilt | LoggerFileBackend.py:237-242 | against rebuilt indexes a single filter returns the cache entries of each requested key, keys in request order |
| BackendIndex.Counts | LoggerFileBackend.py:273-274 | one count per key, in insertion order, each the length of its list |
| BackendIndex.CountSumTotal | LoggerFileBackend.py:273-274 | the counts add up to the index total |
| BackendIndex.StatsAfterRebuild | LoggerFileBackend.py:271-281 | right after a successful rebuild the level counts add up to `totalEntries` and the module counts to the entries with a module |
| BackendIndex.StatsOf | LoggerFileBackend.py:271-281 | `totalEntries` is the cache length, and each index's counts add up to that index's total |
| LoggerFileBackend.Collect | LoggerFileBackend.py:239-242 | the comprehension concatenates the lists of the requested keys in request order |
| LoggerFileBackend.LoggerBackend.constructor | LoggerFileBackend.py:18-33 | empty cache and indexes, revision and position 0, the validation clock at `now` |
| LoggerFileBackend.LoggerBackend.UpdateModuleHierarchy | LoggerFileBackend.py:131-141 | the hierarchy, seen-set and outcome are `NoteModule` of the old ones |
| LoggerFileBackend.LoggerBackend.IndexEntry | LoggerFileBackend.py:119-126 | the indexes and outcome are `IndexStep` of the old indexes |
| LoggerFileBackend.LoggerBackend.ProcessLogLine | LoggerFileBackend.py:111-129 | cache, revision, indexes and outcome are `ProcessLine` of the old state |
| LoggerFileBackend.LoggerBackend.ProcessBatch | LoggerFileBackend.py:161-162 | the line loop computes `ProcessLines` of the old state |
| LoggerFileBackend.LoggerBackend.WarmCache | LoggerFileBackend.py:101-109 | nothing for a missing file; otherwise every line is taken in and the position set to the end unless an exception escaped |
| LoggerFileBackend.LoggerBackend.RebuildIndexes | LoggerFileBackend.py:188-202 | clearing then filing the cache computes `Reindex` of the cache |
| LoggerFileBackend.LoggerBackend.ValidateCacheConsistency | LoggerFileBackend.py:178-186 | the indexes are rebuilt iff either total differs from the cache length |
| LoggerFileBackend.LoggerBackend.MonitorStep | LoggerFileBackend.py:143-176 | a missing file only sleeps 5; a shrunk file is re-read from 0 with nothing cleared; new lines are taken in and the position moves to the end; validation runs when more than 60 s have passed; an exception sleeps 5 with the position kept |
| LoggerFileBackend.LoggerBackend.GetLogs | LoggerFileBackend.py:209-259 | the handler's filtering and pagination compute `PageOf` of the state |

## Left out

- Threads and locks: each monitor loop is one sequential step, and readers run between steps.
- `stop_monitoring`, `__del__`, thread start and join: they are thread life-cycle only.
- `stream_logs` in both backends: an endless generator with heartbeats and sleeps.
- Flask wiring, `request.args` parsing, `jsonify` and the HTML viewer: transport only.
- LoggerBackend.py is not part of this model. It calls methods the wrapper does not define.
- LoggerManager.py, LogUtility.py, LogGenerator.py and `__init__.py` are not part of this model. They are logging set-up and traffic generation.
- Real file I/O: `os.stat`, `getsize`, `open`, `seek`, `readlines` and `tell` are replaced by the `FileObs` observation, whose lines arrive already stripped.
- `time.time()`: one `now` per batch, so all fallback records of a batch share a timestamp.
- Float rounding: pauses are Dafny `real`s.
- JSON numbers are integers, and `True == 1` key conflation in Python dicts is not modelled: `JBool` and `JNum` keys stay distinct.
- Printing of caught exceptions, and the 5-second sleep after one, which is modelled as the returned pause.
- LoggerFileBackend.LoggerBackend.GetLogs: reading an absent key of a `defaultdict` inserts an empty list, which later shows up with count 0 in `get_log_stats`; the model reads without inserting.
- LoggerFileBackend.LoggerBackend.constructor: `__init__` is modelled as the constructor followed by `WarmCache`; when `WarmCache` returns `Failed`, Python's `__init__` raises and no backend exists.
- LoggerBackendV3.LogFileWrapper.constructor: a negative `limit` makes `deque(maxlen=limit)` raise; the model takes `limit` as a `nat`.
- BackendIndex.PageNewestFirst: stated for non-negative `start` and `limit`; negative values follow Python's slice rules, which `PageOf` models but no lemma characterises.
- SessionCursor.RealtimeChain: stated on the window alone; `RealtimeReadsNext` ties a single read to the history.
- LogFileWrapper.LogFileWrapper.constructor: a negative `limit` makes `deque(maxlen=limit)` raise `ValueError`, so no wrapper exists; the model takes `limit` as a `nat`.
- LoggerFileBackend.LoggerBackend.constructor: limiting by line with a negative count makes `deque(maxlen=…)` raise `ValueError`; the model makes a non-negative count the constructor's precondition in that mode and accepts any count otherwise.
- LogFileWrapper.LogFileWrapper.GetModuleHierarchy: `module_hierarchy.copy()` is a shallow copy whose child sets are shared with the live hierarchy, so a caller keeping it sees later additions under existing parents and may hit "set changed size during iteration" while the monitor adds; the model returns an unchanging value.

## Findings

| source | as written | input that shows it | evidently intended | confidence | as-written member | corrected member |
|---|---|---|---|---|---|---|
| LoggerBackend_v3.py:258 | the real-time read starts at deque index `pos - oldest`, the entry the session has already seen | three entries read (indexes 0..2), session at 0, count 10: it returns indexes 0 and 1 and moves to 2, so index 0 comes twice and index 2 is held back until a newer line arrives, then delivered one read late; a session opened on an empty file stands at -1, and once the file grows its first read raises `ValueError` from `islice` | start at `pos + 1 - oldest`, so each read returns the next unseen entries | high, not executed | SessionCursor.RealtimeAsWritten, SessionCursor.RealtimeAsWrittenCounterexample | SessionCursor.Realtime, SessionCursor.RealtimeReadsNext, SessionCursor.RealtimeChain, SessionCursor.RealtimeDrains |
| LogFileWrapper.py:132-135 | the pause is reset to 0.1 at the top of every iteration that follows an idle one, so the idle back-off never exceeds 0.15 s (same code in LoggerBackend_v3.py:148-150) | three idle iterations from the start: pauses 0.15, 0.15, 0.15 | reset only when a change was seen, so idle pauses grow 0.15, 0.225, 0.3375, … up to 10 s | high, not executed | Common.PollSleep, Common.IdleRunAsWrittenStalls, Common.IdleRunCounterexample | Common.PollSleepCorrected, Common.IdleRunGrows |
