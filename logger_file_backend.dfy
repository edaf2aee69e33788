/** LoggerFileBackend.py: the earliest variant of the engine. Every decoded
    line is cached in a deque (bounded only when the cache is limited by
    line count) and filed in append-only per-level and per-module indexes;
    the monitor thread periodically checks the indexes against the cache
    and rebuilds them when their totals disagree. The monitor thread is
    modelled as one loop iteration per call of `MonitorStep`, the file
    system as the `FileObs` the iteration sees, and `time.time()` as the
    `now` it is given. */
module LoggerFileBackend {
  import opened Common
  import opened ModuleTree
  import opened BackendIndex

  /** `LoggerBackend.LIMIT_BY_LINE` and `LoggerBackend.LIMIT_BY_SIZE`. */
  const LimitByLine: int := 1
  const LimitBySize: int := 2

  /** The pause between two polls of the file. */
  const PollInterval: real := 0.1

  /** Seconds between two consistency checks. */
  const ValidationPeriod: real := 60.0

  /** `[log for k in keys for log in index[k]]`, built up key by key. */
  method Collect(ix: Index, keys: seq<string>) returns (result: seq<Json>)
    ensures result == Gather(ix, keys)
  {
    result := [];
    for i := 0 to |keys|
      invariant result == Gather(ix, keys[..i])
    {
      assert keys[..i + 1][..i] == keys[..i];
      result := result + Lookup(ix, JStr(keys[i]));
    }
    assert keys[..|keys|] == keys;
  }

  class LoggerBackend {
    const cacheLimitBy: int
    const cacheLimitCount: int
    var logRevision: int
    var filePosition: nat
    var lastValidationTime: real
    var logCache: seq<Json>
    var levelIndex: Index
    var moduleIndex: Index
    var moduleHierarchy: Hierarchy
    var seenModules: set<Json>

    /** The cache's `maxlen`: the count limit when limiting by line,
        otherwise none, whatever the count. */
    function MaxLen(): Option<nat> {
      if cacheLimitBy == LimitByLine && cacheLimitCount >= 0 then Some(cacheLimitCount as nat) else None
    }

    /** The four index structures as one value. */
    function Ix(): Indexes
      reads this
    {
      Indexes(levelIndex, moduleIndex, moduleHierarchy, seenModules)
    }

    /** The cache, the revision and the indexes as one value. */
    function State(): Store
      reads this
    {
      Store(logCache, logRevision, Ix())
    }

    /** The cache respects its `maxlen`, the revision never goes negative,
        and only decoded objects are filed in the indexes. */
    ghost predicate Valid()
      reads this
    {
      && (cacheLimitBy == LimitByLine ==> cacheLimitCount >= 0)
      && (MaxLen().Some? ==> |logCache| <= MaxLen().value)
      && logRevision >= 0
      && Objects(levelIndex) && Objects(moduleIndex)
    }

    /** `__init__` up to the cache warm-up: empty cache and indexes,
        revision and position 0, the validation clock started at `now`.
        When limiting by line, `deque(maxlen=…)` raises `ValueError` for a
        negative count and no backend is made; in any other mode the count
        is not used. */
    constructor (cacheLimitBy: int, cacheLimitCount: int, now: real)
      requires cacheLimitBy == LimitByLine ==> cacheLimitCount >= 0
      ensures Valid()
      ensures this.cacheLimitBy == cacheLimitBy && this.cacheLimitCount == cacheLimitCount
      ensures State() == Store([], 0, NoIndexes)
      ensures filePosition == 0 && lastValidationTime == now
    {
      this.cacheLimitBy := cacheLimitBy;
      this.cacheLimitCount := cacheLimitCount;
      logRevision := 0;
      filePosition := 0;
      lastValidationTime := now;
      logCache := [];
      levelIndex := [];
      moduleIndex := [];
      moduleHierarchy := map[];
      seenModules := {};
    }

    /** `_update_module_hierarchy(module_path)`. */
    method UpdateModuleHierarchy(name: Json) returns (outcome: Outcome)
      modifies this`moduleHierarchy, this`seenModules
      ensures (moduleHierarchy, seenModules, outcome) == NoteModule(old(moduleHierarchy), old(seenModules), name)
    {
      if name in seenModules {
        return Done;
      }
      seenModules := seenModules + {name};
      if !name.JStr? {
        return Failed(AttributeError);
      }
      moduleHierarchy := AddPathEdges(moduleHierarchy, name.s);
      outcome := Done;
    }

    /** The indexing half of `_process_log_line`, which the loop of
        `_rebuild_indexes` repeats for each cached entry. */
    method IndexEntry(entry: Json) returns (outcome: Outcome)
      requires Valid()
      modifies this`levelIndex, this`moduleIndex, this`moduleHierarchy, this`seenModules
      ensures Valid()
      ensures (Ix(), outcome) == IndexStep(old(Ix()), entry)
    {
      IndexStepObjects(Ix(), entry);
      if !entry.JObj? {
        return Failed(AttributeError);
      }
      var level := LevelOf(entry.fields);
      var name := ModuleOf(entry.fields);
      if !Hashable(level) {
        return Failed(TypeError);
      }
      levelIndex := AppendTo(levelIndex, level, entry);
      if !Truthy(name) {
        return Done;
      }
      if !Hashable(name) {
        return Failed(TypeError);
      }
      moduleIndex := AppendTo(moduleIndex, name, entry);
      outcome := UpdateModuleHierarchy(name);
    }

    /** `_process_log_line(line)`. */
    method ProcessLogLine(line: string, decode: Decoder) returns (outcome: Outcome)
      requires Valid()
      modifies this`logCache, this`logRevision, this`levelIndex, this`moduleIndex, this`moduleHierarchy, this`seenModules
      ensures Valid()
      ensures (State(), outcome) == ProcessLine(old(State()), MaxLen(), line, decode)
    {
      match decode(line)
      case None =>
        outcome := Done;
      case Some(entry) =>
        logCache := Push(logCache, MaxLen(), entry);
        logRevision := logRevision + 1;
        outcome := IndexEntry(entry);
    }

    /** `for line in lines: self._process_log_line(line)`, the loop that
        `_warm_cache` and the monitor share; an exception leaves the loop. */
    method ProcessBatch(lines: seq<string>, decode: Decoder) returns (outcome: Outcome)
      requires Valid()
      modifies this`logCache, this`logRevision, this`levelIndex, this`moduleIndex, this`moduleHierarchy, this`seenModules
      ensures Valid()
      ensures (State(), outcome) == ProcessLines(old(State()), MaxLen(), lines, decode)
    {
      ghost var st0 := State();
      outcome := Done;
      var i := 0;
      while i < |lines| && outcome.Done?
        invariant 0 <= i <= |lines|
        invariant Valid()
        invariant (State(), outcome) == ProcessLines(st0, MaxLen(), lines[..i], decode)
      {
        assert lines[..i + 1][..i] == lines[..i];
        outcome := ProcessLogLine(lines[i], decode);
        i := i + 1;
      }
      if i < |lines| {
        ProcessLinesStop(st0, MaxLen(), lines, decode, i);
      } else {
        assert lines[..i] == lines;
      }
    }

    /** `_warm_cache`: take in every line of an existing file, then remember
        where reading stopped. An exception escapes (and `__init__` with
        it) before the position is set. */
    method WarmCache(obs: FileObs, decode: Decoder) returns (outcome: Outcome)
      requires Valid()
      modifies this`logCache, this`logRevision, this`levelIndex, this`moduleIndex, this`moduleHierarchy, this`seenModules, this`filePosition
      ensures Valid()
      ensures obs.Missing? ==> outcome == Done && State() == old(State()) && filePosition == old(filePosition)
      ensures obs.Present? ==>
        && (State(), outcome) == ProcessLines(old(State()), MaxLen(), obs.lines, decode)
        && filePosition == (if outcome.Done? then obs.end else old(filePosition))
    {
      if obs.Missing? {
        return Done;
      }
      outcome := ProcessBatch(obs.lines, decode);
      if outcome.Done? {
        filePosition := obs.end;
      }
    }

    /** `_rebuild_indexes`. */
    method RebuildIndexes() returns (outcome: Outcome)
      requires Valid()
      modifies this`levelIndex, this`moduleIndex, this`moduleHierarchy, this`seenModules
      ensures Valid()
      ensures (Ix(), outcome) == Reindex(logCache)
    {
      levelIndex := [];
      moduleIndex := [];
      moduleHierarchy := map[];
      seenModules := {};
      var cache := logCache;
      outcome := Done;
      var i := 0;
      while i < |cache| && outcome.Done?
        invariant 0 <= i <= |cache|
        invariant Valid()
        invariant (Ix(), outcome) == Reindex(cache[..i])
      {
        assert cache[..i + 1][..i] == cache[..i];
        outcome := IndexEntry(cache[i]);
        i := i + 1;
      }
      if i < |cache| {
        ReindexStops(cache, i);
      } else {
        assert cache[..i] == cache;
      }
    }

    /** `_validate_cache_consistency`. */
    method ValidateCacheConsistency() returns (outcome: Outcome)
      requires Valid()
      modifies this`levelIndex, this`moduleIndex, this`moduleHierarchy, this`seenModules
      ensures Valid()
      ensures (Ix(), outcome) == Validate(logCache, old(Ix()))
    {
      if |logCache| != TotalLen(levelIndex) || |logCache| != TotalLen(moduleIndex) {
        outcome := RebuildIndexes();
      } else {
        outcome := Done;
      }
    }

    /** One iteration of `_monitor_log_file`, returning how it ended and
        how long the thread then sleeps. A missing file only sleeps. A file
        shorter than the read position is read again from its start, with
        nothing cleared. New lines are taken in and the position moves to
        their end; at most once a minute the indexes are validated. An
        exception anywhere is caught by the loop, which sleeps 5 seconds
        with the position where it was, so the same lines are read again
        on the next iteration. */
    method MonitorStep(obs: FileObs, decode: Decoder, now: real) returns (outcome: Outcome, pause: real)
      requires Valid()
      modifies this
      ensures Valid()
      ensures obs.Missing? ==> outcome == Done && pause == MissingPause && unchanged(this)
      ensures obs.Present? ==>
        var reset := obs.size < old(filePosition);
        var lines := if reset then obs.lines else obs.newLines;
        var read := ProcessLines(old(State()), MaxLen(), lines, decode);
        var checked := Validate(read.0.cache, read.0.ix);
        var due := now - old(lastValidationTime) > ValidationPeriod;
        && logCache == read.0.cache && logRevision == read.0.revision
        && filePosition == (if lines != [] && read.1.Done? then obs.end else if reset then 0 else old(filePosition))
        && (if read.1.Failed? then
              Ix() == read.0.ix && outcome == read.1 && pause == MissingPause
              && lastValidationTime == old(lastValidationTime)
            else if due then
              Ix() == checked.0 && outcome == checked.1
              && pause == (if checked.1.Done? then PollInterval else MissingPause)
              && lastValidationTime == (if checked.1.Done? then now else old(lastValidationTime))
            else
              Ix() == read.0.ix && outcome == Done && pause == PollInterval
              && lastValidationTime == old(lastValidationTime))
    {
      if obs.Missing? {
        return Done, MissingPause;
      }
      var lines := obs.newLines;
      if obs.size < filePosition {
        filePosition := 0;
        lines := obs.lines;
      }
      outcome := Done;
      if lines != [] {
        outcome := ProcessBatch(lines, decode);
        if outcome.Failed? {
          return outcome, MissingPause;
        }
        filePosition := obs.end;
      }
      if now - lastValidationTime > ValidationPeriod {
        outcome := ValidateCacheConsistency();
        if outcome.Failed? {
          return outcome, MissingPause;
        }
        lastValidationTime := now;
      }
      pause := PollInterval;
    }

    /** The filtering and pagination of `get_logs` for a client at
        `revision`: the filtered entries are reversed to newest first and
        sliced `[start:start + limit]`. */
    method GetLogs(start: int, limit: int, levels: seq<string>, modules: seq<string>, revision: int)
      returns (r: Result<Page>)
      ensures r == PageOf(logCache, logRevision, Ix(), start, limit, levels, modules, revision)
    {
      if revision >= logRevision {
        return Ok(Page([], |logCache|, start, limit, logRevision, false));
      }
      var filtered: seq<Json>;
      if levels != [] && modules != [] {
        var byLevel := Collect(levelIndex, levels);
        var byModule := Collect(moduleIndex, modules);
        if byLevel != [] || byModule != [] {
          return Raised(TypeError);
        }
        filtered := [];
      } else if levels != [] {
        filtered := Collect(levelIndex, levels);
      } else if modules != [] {
        filtered := Collect(moduleIndex, modules);
      } else {
        filtered := logCache;
      }
      var total := |filtered|;
      var newestFirst := Reverse(filtered);
      r := Ok(Page(PySlice(newestFirst, start, start + limit), total, start, limit, logRevision, start + limit < total));
    }
  }
}
