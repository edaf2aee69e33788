/** LoggerBackend_v3.py: the cursor variant of the engine. Entries carry
    no id; `last_entry_index` counts the entries read since the last
    rotation, and every rotation, truncation or disappearance bumps a
    `generation` and restarts the count. Readers hold a `LogSession`
    cursor that is rebased when the generation has moved on. The monitor
    thread is modelled as one loop iteration per call of `MonitorStep`,
    the file system as the `FileObs` the iteration sees. */
module LoggerBackendV3 {
  import opened Common
  import opened SessionCursor

  /** A reader's cursor: it was anchored at index `startEntryIndex` in
      generation `generation` and has since advanced by
      `currentEntryOffset`. */
  class LogSession {
    var startEntryIndex: int
    var currentEntryOffset: int
    var generation: int

    constructor (startIndex: int, generation: int)
      ensures startEntryIndex == startIndex && currentEntryOffset == 0 && this.generation == generation
    {
      startEntryIndex := startIndex;
      currentEntryOffset := 0;
      this.generation := generation;
    }

    /** `end_position()`: the index of the last entry the session has seen. */
    function EndPosition(): int
      reads this
    {
      startEntryIndex + currentEntryOffset
    }

    /** `advance_offset(delta)`: only the offset moves, so the end position
        moves by exactly `delta`. */
    method AdvanceOffset(delta: int)
      modifies this
      ensures currentEntryOffset == old(currentEntryOffset) + delta
      ensures startEntryIndex == old(startEntryIndex) && generation == old(generation)
      ensures EndPosition() == old(EndPosition()) + delta
    {
      currentEntryOffset := currentEntryOffset + delta;
    }

    /** `reset(new_index, new_generation)`: re-anchor with a zero offset. */
    method Reset(newIndex: int, newGeneration: int)
      modifies this
      ensures startEntryIndex == newIndex && currentEntryOffset == 0 && generation == newGeneration
      ensures EndPosition() == newIndex
    {
      startEntryIndex := newIndex;
      currentEntryOffset := 0;
      generation := newGeneration;
    }
  }

  class LogFileWrapper {
    const limit: nat
    var logEntries: seq<Item>
    /** Every entry read since the last rotation; entry `i` has index `i`. */
    ghost var history: seq<Item>
    var lastEntryIndex: int
    var filePosition: nat
    var generation: int
    var fileId: Option<FileId>
    var noChangesCount: int
    var sleepDuration: real

    /** The window is the newest `limit` entries of the history, whose
        newest index is `last_entry_index`; the back-off is either fresh or
        one idle step in. */
    ghost predicate Valid()
      reads this
    {
      && Indexed(logEntries, history, lastEntryIndex, limit)
      && generation >= 0
      && ((noChangesCount == 0 && sleepDuration == InitialSleep)
          || (noChangesCount == 1 && sleepDuration == Backoff(InitialSleep)))
    }

    /** The state a rotation followed by a reload of `obs` leaves: the
        tail of the file read from scratch, indexes restarting at 0. */
    ghost predicate ReloadedFrom(obs: FileObs, decode: Decoder, now: real)
      reads this
      requires obs.Present?
    {
      var items := DecodeItems(TailLines(obs.lines, limit), decode, now);
      && history == items
      && logEntries == Bounded(items, limit)
      && lastEntryIndex == |items| - 1
      && filePosition == obs.end
      && fileId == Some(obs.id)
    }

    /** `__init__` followed by `_load_initial_entries`. */
    constructor (limit: nat, obs: FileObs, decode: Decoder, now: real)
      ensures Valid()
      ensures this.limit == limit && generation == 0
      ensures noChangesCount == 0 && sleepDuration == InitialSleep
      ensures obs.Missing? ==> logEntries == [] && lastEntryIndex == -1 && filePosition == 0 && fileId == None
      ensures obs.Present? ==> ReloadedFrom(obs, decode, now)
    {
      this.limit := limit;
      logEntries := [];
      history := [];
      lastEntryIndex := -1;
      filePosition := 0;
      generation := 0;
      fileId := None;
      noChangesCount := 0;
      sleepDuration := InitialSleep;
      new;
      LoadInitialEntries(obs, decode, now);
      if obs.Present? {
        assert [] + DecodeItems(TailLines(obs.lines, limit), decode, now)
            == DecodeItems(TailLines(obs.lines, limit), decode, now);
      }
    }

    /** `_load_initial_entries`: nothing when the file is missing;
        otherwise record its identity, append its last `limit` lines (all of
        them when `limit` is 0) and move the read position to its end. */
    method LoadInitialEntries(obs: FileObs, decode: Decoder, now: real)
      requires Valid()
      modifies this`logEntries, this`history, this`lastEntryIndex, this`filePosition, this`fileId
      ensures Valid()
      ensures obs.Missing? ==> unchanged(this)
      ensures obs.Present? ==>
        var items := DecodeItems(TailLines(obs.lines, limit), decode, now);
        && history == old(history) + items
        && logEntries == Bounded(old(logEntries) + items, limit)
        && lastEntryIndex == old(lastEntryIndex) + |items|
        && filePosition == obs.end && fileId == Some(obs.id)
    {
      if obs.Missing? {
        return;
      }
      UpdateFileId(obs);
      var lastLines := TailLines(obs.lines, limit);
      AppendLogEntries(lastLines, decode, now);
      filePosition := obs.end;
    }

    /** `_update_file_id`: the identity of the file, `None` when it is gone. */
    method UpdateFileId(obs: FileObs)
      modifies this`fileId
      ensures fileId == if obs.Present? then Some(obs.id) else None
    {
      if obs.Present? {
        fileId := Some(obs.id);
      } else {
        fileId := None;
      }
    }

    /** `_append_log_entries`: one entry per line, the decoded value or the
        raw fallback; the window is extended as a bounded deque and
        `last_entry_index` grows by exactly the number of lines. */
    method AppendLogEntries(lines: seq<string>, decode: Decoder, now: real)
      requires Valid()
      modifies this`logEntries, this`history, this`lastEntryIndex
      ensures Valid()
      ensures history == old(history) + DecodeItems(lines, decode, now)
      ensures logEntries == Bounded(old(logEntries) + DecodeItems(lines, decode, now), limit)
      ensures lastEntryIndex == old(lastEntryIndex) + |lines|
    {
      if |lines| == 0 {
        assert DecodeItems(lines, decode, now) == [];
        assert history + [] == history;
        assert logEntries + [] == logEntries;
        WindowPositions(logEntries, history, lastEntryIndex, limit);
        return;
      }
      var entries: seq<Item> := [];
      for i := 0 to |lines|
        invariant |entries| == i
        invariant forall k :: 0 <= k < i ==> entries[k] == DecodeItem(lines[k], decode, now)
      {
        entries := entries + [DecodeItem(lines[i], decode, now)];
      }
      assert entries == DecodeItems(lines, decode, now);
      IndexedExtend(logEntries, history, lastEntryIndex, limit, entries);
      logEntries := Bounded(logEntries + entries, limit);
      history := history + entries;
      lastEntryIndex := lastEntryIndex + |entries|;
    }

    /** `_handle_rotation`: a new generation, an empty window, indexes
        restarting from 0, the read position at the start, and the
        identity of whatever file is there now. */
    method HandleRotation(obs: FileObs)
      requires Valid()
      modifies this`generation, this`logEntries, this`history, this`lastEntryIndex, this`filePosition, this`fileId
      ensures Valid()
      ensures generation == old(generation) + 1
      ensures logEntries == [] && history == [] && lastEntryIndex == -1 && filePosition == 0
      ensures fileId == if obs.Present? then Some(obs.id) else None
    {
      generation := generation + 1;
      logEntries := [];
      history := [];
      lastEntryIndex := -1;
      filePosition := 0;
      UpdateFileId(obs);
    }

    /** One iteration of `_monitor_file`, returning the branch taken and
        how long the loop then sleeps (0 where it `continue`s at once). */
    method MonitorStep(obs: FileObs, decode: Decoder, now: real) returns (poll: Poll, pause: real)
      requires Valid()
      modifies this
      ensures Valid()
      ensures generation == old(generation) + (if poll == Grew || poll == Idle then 0 else 1)
      ensures poll == Idle <==> noChangesCount == 1
      ensures (sleepDuration, noChangesCount) == PollSleep(old(sleepDuration), old(noChangesCount), poll == Idle)
      ensures obs.Missing? ==>
        && poll == Vanished && pause == MissingPause
        && logEntries == [] && history == [] && lastEntryIndex == -1
        && filePosition == 0 && fileId == None
      ensures obs.Present? && old(fileId) != Some(obs.id) ==>
        && poll == Rotated && pause == 0.0
        && ReloadedFrom(obs, decode, now)
      ensures obs.Present? && old(fileId) == Some(obs.id) && obs.size < old(filePosition) ==>
        && poll == Truncated && pause == InitialSleep
        && ReloadedFrom(obs, decode, now)
      ensures obs.Present? && old(fileId) == Some(obs.id) && obs.size > old(filePosition) ==>
        && poll == Grew && pause == InitialSleep && fileId == old(fileId)
        && history == old(history) + DecodeItems(obs.newLines, decode, now)
        && logEntries == Bounded(old(logEntries) + DecodeItems(obs.newLines, decode, now), limit)
        && lastEntryIndex == old(lastEntryIndex) + |obs.newLines|
        && filePosition == if obs.newLines == [] then old(filePosition) else obs.end
      ensures obs.Present? && old(fileId) == Some(obs.id) && obs.size == old(filePosition) ==>
        && poll == Idle && pause == Backoff(InitialSleep)
        && logEntries == old(logEntries) && history == old(history)
        && lastEntryIndex == old(lastEntryIndex) && filePosition == old(filePosition)
        && fileId == old(fileId)
    {
      if noChangesCount > 0 {
        sleepDuration := InitialSleep;
        noChangesCount := 0;
      }
      if obs.Missing? {
        generation := generation + 1;
        logEntries := [];
        history := [];
        lastEntryIndex := -1;
        filePosition := 0;
        fileId := None;
        return Vanished, MissingPause;
      }
      if fileId != Some(obs.id) {
        Reload(obs, decode, now);
        return Rotated, 0.0;
      }
      if obs.size < filePosition {
        Reload(obs, decode, now);
        poll := Truncated;
      } else if obs.size > filePosition {
        if obs.newLines != [] {
          AppendLogEntries(obs.newLines, decode, now);
          filePosition := obs.end;
        } else {
          assert DecodeItems(obs.newLines, decode, now) == [];
          assert old(history) + [] == old(history);
          assert old(logEntries) + [] == old(logEntries);
          WindowPositions(logEntries, history, lastEntryIndex, limit);
        }
        poll := Grew;
      } else {
        noChangesCount := noChangesCount + 1;
        sleepDuration := Backoff(sleepDuration);
        poll := Idle;
      }
      pause := sleepDuration;
    }

    /** `_handle_rotation()` followed by `_load_initial_entries()`, as the
        rotation and truncation branches of `_monitor_file` do. */
    method Reload(obs: FileObs, decode: Decoder, now: real)
      requires Valid() && obs.Present?
      modifies this`generation, this`logEntries, this`history, this`lastEntryIndex, this`filePosition, this`fileId
      ensures Valid()
      ensures generation == old(generation) + 1
      ensures ReloadedFrom(obs, decode, now)
    {
      HandleRotation(obs);
      LoadInitialEntries(obs, decode, now);
      assert [] + DecodeItems(TailLines(obs.lines, limit), decode, now)
          == DecodeItems(TailLines(obs.lines, limit), decode, now);
    }

    /** `get_start_session()`: a session anchored at the newest index of
        the current generation. */
    method GetStartSession() returns (session: LogSession)
      ensures fresh(session)
      ensures session.startEntryIndex == lastEntryIndex && session.currentEntryOffset == 0
      ensures session.generation == generation
      ensures session.EndPosition() == lastEntryIndex
    {
      session := new LogSession(lastEntryIndex, generation);
    }

    /** `has_updates(session)`: entries newer than what the session has seen
        exist. */
    function HasUpdates(session: LogSession): (b: bool)
      reads this, session
      ensures b <==> lastEntryIndex > session.EndPosition()
    {
      lastEntryIndex > session.EndPosition()
    }

    /** For a session inside the window, `has_updates` tells exactly whether
        a real-time read of at least one entry from the session's end
        position returns anything, as written and as corrected. */
    lemma HasUpdatesMeansDelivery(session: LogSession, count: int)
      requires Valid() && logEntries != []
      requires Oldest(logEntries, lastEntryIndex) <= session.EndPosition() && count > 0
      ensures var r := RealtimeAsWritten(logEntries, lastEntryIndex, session.EndPosition(), count);
        r.result.Ok? && (r.result.value != [] <==> HasUpdates(session))
      ensures var r := Realtime(logEntries, lastEntryIndex, session.EndPosition(), count);
        r.result.Ok? && (r.result.value != [] <==> HasUpdates(session))
    {
      UpdatesMeanDelivery(logEntries, history, lastEntryIndex, limit, session.EndPosition(), count);
    }

    /** Where `_recover_session` leaves a session's anchor: untouched in
        the current generation, the newest index otherwise. */
    function RecoveredStart(sessionGeneration: int, sessionStart: int): int
      reads this
    {
      if sessionGeneration == generation then sessionStart else lastEntryIndex
    }

    /** Where `_recover_session` leaves a session's offset. */
    function RecoveredOffset(sessionGeneration: int, sessionOffset: int): int
      reads this
    {
      if sessionGeneration == generation then sessionOffset else 0
    }

    /** `_recover_session(session)`: a no-op within the current generation;
        otherwise the session is rebased to the newest index of the
        current generation with a zero offset, as if freshly created. */
    method RecoverSession(session: LogSession)
      modifies session
      ensures old(session.generation) == generation ==> unchanged(session)
      ensures old(session.generation) != generation ==>
        && session.startEntryIndex == lastEntryIndex && session.currentEntryOffset == 0
      ensures session.generation == generation
      ensures session.startEntryIndex == RecoveredStart(old(session.generation), old(session.startEntryIndex))
      ensures session.currentEntryOffset == RecoveredOffset(old(session.generation), old(session.currentEntryOffset))
    {
      if session.generation != generation {
        session.Reset(lastEntryIndex, generation);
      }
    }

    /** `_get_logs_by_index(start_index, count)`: `list(islice(...))` up to
        `min(len, start + count)`; `islice` rejects a negative bound with
        `ValueError`. */
    method GetLogsByIndex(startIndex: int, count: int) returns (r: Result<seq<Item>>)
      ensures r == ByIndex(logEntries, startIndex, count)
    {
      if |logEntries| == 0 {
        return Ok([]);
      }
      var endIndex := Min(|logEntries|, startIndex + count);
      if startIndex < 0 || endIndex < 0 {
        return Raised(ValueError);
      }
      var items: seq<Item> := [];
      if startIndex < endIndex {
        for i := startIndex to endIndex
          invariant items == logEntries[startIndex..i]
        {
          items := items + [logEntries[i]];
        }
      }
      r := Ok(items);
    }

    /** `get_historical_logs(session, offset, count)`: recover the session,
        then read from index `start + offset + 1`; the session does not
        advance. */
    method GetHistoricalLogs(session: LogSession, offset: int, count: int) returns (r: Result<seq<Item>>)
      modifies session
      ensures session.generation == generation
      ensures session.startEntryIndex == RecoveredStart(old(session.generation), old(session.startEntryIndex))
      ensures session.currentEntryOffset == RecoveredOffset(old(session.generation), old(session.currentEntryOffset))
      ensures r == Historical(logEntries, lastEntryIndex, session.startEntryIndex, offset, count)
    {
      RecoverSession(session);
      var requestedIndex := session.startEntryIndex + offset + 1;
      if |logEntries| == 0 {
        return Ok([]);
      }
      var oldestIndex := if lastEntryIndex - |logEntries| + 1 > 0 then lastEntryIndex - |logEntries| + 1 else 0;
      if requestedIndex < oldestIndex || requestedIndex > lastEntryIndex {
        return Ok([]);
      }
      var entriesIndex := requestedIndex - oldestIndex;
      r := GetLogsByIndex(entriesIndex, count);
    }

    /** `get_realtime_logs(session, count)` as written: recover the session,
        read from window position `pos - oldest`, and advance the session
        by what was read. */
    method GetRealtimeLogs(session: LogSession, count: int) returns (r: Result<seq<Item>>)
      modifies session
      ensures session.generation == generation
      ensures session.startEntryIndex == RecoveredStart(old(session.generation), old(session.startEntryIndex))
      ensures var pos := RecoveredStart(old(session.generation), old(session.startEntryIndex))
                       + RecoveredOffset(old(session.generation), old(session.currentEntryOffset));
        var read := RealtimeAsWritten(logEntries, lastEntryIndex, pos, count);
        && r == read.result
        && session.EndPosition() == pos + read.advance
    {
      RecoverSession(session);
      var currentReadPosition := session.EndPosition();
      if |logEntries| == 0 || currentReadPosition >= lastEntryIndex {
        return Ok([]);
      }
      var oldestIndex := if lastEntryIndex - |logEntries| + 1 > 0 then lastEntryIndex - |logEntries| + 1 else 0;
      var newEntriesCount := Min(Min(count, lastEntryIndex - currentReadPosition),
                                 |logEntries| - (currentReadPosition - oldestIndex));
      if newEntriesCount <= 0 {
        return Ok([]);
      }
      var entriesIndex := currentReadPosition - oldestIndex;
      r := GetLogsByIndex(entriesIndex, newEntriesCount);
      if r.Raised? {
        return;
      }
      session.AdvanceOffset(newEntriesCount);
    }
  }
}
