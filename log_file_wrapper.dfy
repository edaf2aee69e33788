/** LogFileWrapper.py: the wrapper the service uses. It numbers every
    admitted record with a never-reset `_id`, keeps the newest `limit`
    records, grows a module hierarchy, and polls the watched file. The
    monitor thread is modelled as one loop iteration per call of
    `MonitorStep`, the file system as the `FileObs` the iteration sees. */
module LogFileWrapper {
  import opened Common
  import opened ModuleTree
  import opened IdCache

  class LogFileWrapper {
    const limit: nat
    var logEntries: seq<Entry>
    var nextId: int
    var filePosition: int
    var fileId: Option<FileId>
    var noChangesCount: int
    var sleepDuration: real
    var moduleHierarchy: Hierarchy
    var seenModules: set<string>

    /** The bounded, gap-free window; a seen-set whose paths all have their
        edges; a tree-shaped hierarchy; and the back-off, which as written
        only ever takes two values. */
    ghost predicate Valid()
      reads this
    {
      && |logEntries| <= limit
      && Contiguous(logEntries, nextId)
      && 0 <= nextId
      && SeenCovered(moduleHierarchy, seenModules)
      && WellFormed(moduleHierarchy)
      && ((noChangesCount == 0 && sleepDuration == InitialSleep) ||
          (noChangesCount == 1 && sleepDuration == Backoff(InitialSleep)))
    }

    /** The window, counter and hierarchy after a batch of lines was
        admitted to the window `entries0` with the counter at `id0`. */
    ghost predicate AdmittedBatch(lines: seq<string>, decode: Decoder, now: real,
                                  entries0: seq<Entry>, id0: int, h0: Hierarchy, seen0: set<string>)
      reads this
    {
      var recs := Records(lines, decode, now);
      && logEntries == Bounded(entries0 + Numbered(recs, id0), limit)
      && nextId == id0 + |recs|
      && (moduleHierarchy, seenModules) == UpdateAll(h0, seen0, Paths(lines, decode, now))
    }

    /** The state a reload of `obs` into an empty window leaves behind:
        the file's last `limit` lines admitted (all of them when `limit` is
        0), reading resumed at end of file, the file's identity taken. */
    ghost predicate ReloadedFrom(obs: FileObs, decode: Decoder, now: real,
                                 id0: int, h0: Hierarchy, seen0: set<string>)
      requires obs.Present?
      reads this
    {
      && AdmittedBatch(TailLines(obs.lines, limit), decode, now, [], id0, h0, seen0)
      && filePosition == obs.end
      && fileId == Some(obs.id)
    }

    /** `__init__` followed by `_load_initial_entries`. */
    constructor (limit: nat, obs: FileObs, decode: Decoder, now: real)
      ensures Valid()
      ensures this.limit == limit
      ensures noChangesCount == 0 && sleepDuration == InitialSleep
      ensures obs.Missing? ==> logEntries == [] && nextId == 0 && filePosition == 0 && fileId == None
                                && moduleHierarchy == map[] && seenModules == {}
      ensures obs.Present? ==> ReloadedFrom(obs, decode, now, 0, map[], {})
    {
      this.limit := limit;
      logEntries := [];
      nextId := 0;
      filePosition := 0;
      fileId := None;
      noChangesCount := 0;
      sleepDuration := InitialSleep;
      moduleHierarchy := map[];
      seenModules := {};
      new;
      LoadInitialEntries(obs, decode, now);
    }

    /** `_load_initial_entries`: nothing when the file is missing; otherwise
        take its identity, admit its last `limit` lines (every line when
        `limit == 0`) and continue reading from end of file. */
    method LoadInitialEntries(obs: FileObs, decode: Decoder, now: real)
      requires Valid()
      modifies this
      ensures Valid()
      ensures noChangesCount == old(noChangesCount) && sleepDuration == old(sleepDuration)
      ensures obs.Missing? ==> unchanged(this)
      ensures obs.Present? ==>
        && AdmittedBatch(TailLines(obs.lines, limit), decode, now,
                         old(logEntries), old(nextId), old(moduleHierarchy), old(seenModules))
        && filePosition == obs.end && fileId == Some(obs.id)
    {
      if obs.Missing? {
        return;
      }
      UpdateFileId(obs);
      var lines := TailLines(obs.lines, limit);
      AppendLogEntries(lines, decode, now);
      filePosition := obs.end;
    }

    /** `_update_file_id`: the identity of the file, or `None` when it is gone. */
    method UpdateFileId(obs: FileObs)
      modifies this`fileId
      ensures fileId == if obs.Present? then Some(obs.id) else None
    {
      fileId := if obs.Present? then Some(obs.id) else None;
    }

    /** `_append_log_entries`: number the admitted records from `next_id`,
        feed module paths to the hierarchy, then extend the bounded deque. */
    method AppendLogEntries(lines: seq<string>, decode: Decoder, now: real)
      requires Valid()
      modifies this`logEntries, this`nextId, this`moduleHierarchy, this`seenModules
      ensures Valid()
      ensures AdmittedBatch(lines, decode, now, old(logEntries), old(nextId), old(moduleHierarchy), old(seenModules))
    {
      if |lines| == 0 {
        return;
      }
      var entries := DecodeLines(lines, decode, now);
      BatchKeepsInvariant(lines, decode, now, limit, logEntries, old(nextId), old(moduleHierarchy), old(seenModules));
      logEntries := Bounded(logEntries + entries, limit);
    }

    /** The loop of `_append_log_entries` (before the deque is extended):
        each line that decodes without an exception gets `_id = next_id` and
        advances the counter; a `module` field adds `module.name` to the
        hierarchy. */
    method DecodeLines(lines: seq<string>, decode: Decoder, now: real) returns (entries: seq<Entry>)
      modifies this`nextId, this`moduleHierarchy, this`seenModules
      ensures entries == Numbered(Records(lines, decode, now), old(nextId))
      ensures nextId == old(nextId) + |entries|
      ensures (moduleHierarchy, seenModules) == UpdateAll(old(moduleHierarchy), old(seenModules), Paths(lines, decode, now))
    {
      ghost var id0, h0, seen0 := nextId, moduleHierarchy, seenModules;
      entries := [];
      for i := 0 to |lines|
        invariant entries == Numbered(Records(lines[..i], decode, now), id0)
        invariant nextId == id0 + |entries|
        invariant (moduleHierarchy, seenModules) == UpdateAll(h0, seen0, Paths(lines[..i], decode, now))
      {
        DecodeStep(lines, i, decode, now, id0, h0, seen0);
        var a := AdmitLine(lines[i], decode, now);
        if a.Admitted? {
          if a.path.Some? {
            UpdateModuleHierarchy(a.path.value);
          }
          entries := entries + [Entry(nextId, a.record)];
          nextId := nextId + 1;
        }
      }
      assert lines[..|lines|] == lines;
    }

    /** `_update_module_hierarchy(module_path)`: a path already seen changes
        nothing; otherwise it is marked seen and its prefix edges added. */
    method UpdateModuleHierarchy(path: string)
      modifies this`moduleHierarchy, this`seenModules
      ensures (moduleHierarchy, seenModules) == UpdateHierarchy(old(moduleHierarchy), old(seenModules), path)
    {
      if path in seenModules {
        return;
      }
      seenModules := seenModules + {path};
      moduleHierarchy := AddPathEdges(moduleHierarchy, path);
    }

    /** `_handle_rotation`: empty the window, read from offset 0 again and
        take the file's new identity. The id counter and the hierarchy stay. */
    method HandleRotation(obs: FileObs)
      requires Valid()
      modifies this`logEntries, this`filePosition, this`fileId
      ensures Valid()
      ensures logEntries == [] && filePosition == 0
      ensures fileId == if obs.Present? then Some(obs.id) else None
    {
      logEntries := [];
      filePosition := 0;
      UpdateFileId(obs);
    }

    /** One iteration of `_monitor_file`, returning the branch taken and
        how long the loop then sleeps (0 where it `continue`s at once). */
    method MonitorStep(obs: FileObs, decode: Decoder, now: real) returns (poll: Poll, pause: real)
      requires Valid()
      modifies this
      ensures Valid()
      ensures nextId >= old(nextId)
      ensures poll == Idle <==> noChangesCount == 1
      ensures (sleepDuration, noChangesCount) == PollSleep(old(sleepDuration), old(noChangesCount), poll == Idle)
      ensures sleepDuration <= Backoff(InitialSleep)
      ensures obs.Missing? ==>
        && poll == Vanished && pause == MissingPause
        && logEntries == [] && filePosition == 0 && fileId == None
        && nextId == old(nextId) && moduleHierarchy == old(moduleHierarchy) && seenModules == old(seenModules)
      ensures obs.Present? && old(fileId) != Some(obs.id) ==>
        && poll == Rotated && pause == 0.0
        && ReloadedFrom(obs, decode, now, old(nextId), old(moduleHierarchy), old(seenModules))
      ensures obs.Present? && old(fileId) == Some(obs.id) && obs.size < old(filePosition) ==>
        && poll == Truncated && pause == InitialSleep
        && ReloadedFrom(obs, decode, now, old(nextId), old(moduleHierarchy), old(seenModules))
      ensures obs.Present? && old(fileId) == Some(obs.id) && obs.size > old(filePosition) ==>
        && poll == Grew && pause == InitialSleep && fileId == old(fileId)
        && AdmittedBatch(obs.newLines, decode, now, old(logEntries), old(nextId), old(moduleHierarchy), old(seenModules))
        && filePosition == if obs.newLines == [] then old(filePosition) else obs.end
      ensures obs.Present? && old(fileId) == Some(obs.id) && obs.size == old(filePosition) ==>
        && poll == Idle && pause == Backoff(InitialSleep)
        && logEntries == old(logEntries) && nextId == old(nextId) && filePosition == old(filePosition)
        && fileId == old(fileId)
        && moduleHierarchy == old(moduleHierarchy) && seenModules == old(seenModules)
    {
      if noChangesCount > 0 {
        sleepDuration := InitialSleep;
        noChangesCount := 0;
      }
      if obs.Missing? {
        logEntries := [];
        filePosition := 0;
        fileId := None;
        return Vanished, MissingPause;
      }
      if fileId != Some(obs.id) {
        HandleRotation(obs);
        LoadInitialEntries(obs, decode, now);
        return Rotated, 0.0;
      }
      if obs.size < filePosition {
        HandleRotation(obs);
        LoadInitialEntries(obs, decode, now);
        poll := Truncated;
      } else if obs.size > filePosition {
        if obs.newLines != [] {
          AppendLogEntries(obs.newLines, decode, now);
          filePosition := obs.end;
        } else {
          assert Records(obs.newLines, decode, now) == [];
          assert Paths(obs.newLines, decode, now) == [];
          assert old(logEntries) + [] == old(logEntries);
        }
        poll := Grew;
      } else {
        noChangesCount := noChangesCount + 1;
        sleepDuration := Backoff(sleepDuration);
        poll := Idle;
      }
      pause := sleepDuration;
    }

    /** `get_logs(start_id, count, filter_func)`: find the first entry whose
        `_id >= start_id`, then collect up to `count` entries that satisfy
        the filter. */
    method GetLogs(startId: int, count: int, filter: Filter) returns (result: seq<Entry>)
      ensures result == LogsFrom(logEntries, startId, count, filter)
    {
      var s := logEntries;
      if |s| == 0 {
        return [];
      }
      var startIndex := 0;
      while startIndex < |s| && s[startIndex].id < startId
        invariant 0 <= startIndex <= |s|
        invariant forall j :: 0 <= j < startIndex ==> s[j].id < startId
      {
        startIndex := startIndex + 1;
      }
      FirstAtOrAboveAt(s, startId, startIndex);
      if startIndex == |s| {
        return [];
      }
      result := CollectMatching(s, startIndex, count, filter);
    }

    /** `get_total_count(filter_func)`: the window's length without a
        filter, otherwise the number of entries that satisfy it. */
    function GetTotalCount(filter: Filter): (n: nat)
      reads this
      ensures n == Count(logEntries, filter)
      ensures n <= |logEntries|
    {
      if filter.None? then |logEntries| else Count(logEntries, filter)
    }

    /** `check_updates(current_id)`: counts exactly the resident entries
        newer than `current_id`; an update is reported exactly when the
        newest id, `next_id - 1`, is above it. */
    function CheckUpdates(currentId: int): (u: Updates)
      requires Valid()
      reads this
      ensures u.newCount == CountAbove(logEntries, currentId) <= |logEntries|
      ensures u.hasUpdates <==> logEntries != [] && nextId - 1 > currentId
      ensures logEntries == [] ==> u == Updates(false, 0, 0, 0)
      ensures logEntries != [] ==> u.minId == nextId - |logEntries| && u.maxId == nextId - 1
    {
      UpdatesSinceCountsNewer(logEntries, nextId, currentId);
      UpdatesSince(logEntries, currentId)
    }

    /** `get_module_hierarchy`: a copy of the hierarchy, a tree of dotted
        prefixes in which every seen path has all its edges. */
    function GetModuleHierarchy(): (r: Hierarchy)
      requires Valid()
      reads this
      ensures WellFormed(r)
      ensures forall p :: p in seenModules ==> AddPath(r, p) == r
    {
      moduleHierarchy
    }
  }
}
