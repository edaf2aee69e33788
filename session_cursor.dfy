/** The read side of the cursor variant of the engine (LoggerBackend_v3.py).
    Entries carry no id there: an entry's index is its position in
    everything read since the last rotation, `last_entry_index` is the
    index of the newest one, and the bounded window holds the newest
    `limit` of them. A session is a cursor whose end position is the index
    of the last entry it has seen. */
module SessionCursor {
  import opened Common

  /** One cached entry: whatever `json.loads` returned (any JSON value, not
      only objects), or the `{"raw": line, "timestamp": now}` fallback for a
      line that is not JSON. */
  datatype Item = Decoded(value: Json) | Fallback(raw: string, timestamp: real)

  /** The body of the loop in `_append_log_entries`. */
  function DecodeItem(line: string, decode: Decoder, now: real): (it: Item)
    ensures it.Fallback? <==> decode(line).None?
    ensures it.Fallback? ==> it == Fallback(line, now)
    ensures it.Decoded? ==> decode(line) == Some(it.value)
  {
    match decode(line)
    case Some(v) => Decoded(v)
    case None => Fallback(line, now)
  }

  /** The entries `_append_log_entries` builds: one per line, in order. */
  function DecodeItems(lines: seq<string>, decode: Decoder, now: real): (r: seq<Item>)
    ensures |r| == |lines|
    ensures forall k :: 0 <= k < |r| ==> r[k] == DecodeItem(lines[k], decode, now)
  {
    seq(|lines|, k requires 0 <= k < |lines| => DecodeItem(lines[k], decode, now))
  }

  function Min(a: int, b: int): int { if a <= b then a else b }

  // ---------------------------------------------------------------- the window

  /** The window invariant: `history` is everything read since the last
      rotation, so its item `i` is the entry with index `i`; the newest of
      them has index `last`, and the window is what a `deque(maxlen=limit)`
      keeps of them. */
  ghost predicate Indexed(window: seq<Item>, history: seq<Item>, last: int, limit: nat) {
    |history| == last + 1 && window == Bounded(history, limit)
  }

  /** `oldest_index = max(0, last_entry_index - len(log_entries) + 1)`. */
  function Oldest(window: seq<Item>, last: int): (o: int)
    ensures o >= 0
  {
    if last - |window| + 1 > 0 then last - |window| + 1 else 0
  }

  /** The window never holds more than `limit` entries nor more than have
      been read, so the `max(0, …)` in the oldest index never clips, and
      window position `k` holds the entry with index `oldest + k`. */
  lemma WindowPositions(window: seq<Item>, history: seq<Item>, last: int, limit: nat)
    requires Indexed(window, history, last, limit)
    ensures |window| <= limit && |window| <= last + 1
    ensures Oldest(window, last) == last - |window| + 1
    ensures forall k :: 0 <= k < |window| ==> window[k] == history[Oldest(window, last) + k]
  {
  }

  lemma OldestExact(window: seq<Item>, history: seq<Item>, last: int, limit: nat)
    requires Indexed(window, history, last, limit)
    ensures |window| <= last + 1
    ensures Oldest(window, last) == last - |window| + 1
  {
  }

  /** Reading more lines keeps the invariant: the window is the bounded
      extension of the old window, the history grows by the new entries,
      and `last_entry_index` grows by their number. */
  lemma {:induction false} IndexedExtend(window: seq<Item>, history: seq<Item>, last: int, limit: nat, items: seq<Item>)
    requires Indexed(window, history, last, limit)
    ensures Indexed(Bounded(window + items, limit), history + items, last + |items|, limit)
  {
    BoundedExtend(history, items, limit);
  }

  // ---------------------------------------------------------------- reads

  /** `_get_logs_by_index(start, count)`: `[]` on an empty window, otherwise
      `islice(log_entries, start, min(len, start + count))`, which raises
      `ValueError` when either bound is negative. */
  function ByIndex(window: seq<Item>, start: int, count: int): (r: Result<seq<Item>>)
    ensures window == [] ==> r == Ok([])
    ensures r.Raised? <==> window != [] && (start < 0 || Min(|window|, start + count) < 0)
    ensures r.Raised? ==> r.error == ValueError
    ensures r.Ok? ==> |r.value| <= (if count < 0 then 0 else count)
    ensures r.Ok? ==> forall k :: 0 <= k < |r.value| ==> 0 <= start + k < |window| && r.value[k] == window[start + k]
  {
    if window == [] then Ok([])
    else
      var stop := Min(|window|, start + count);
      if start < 0 || stop < 0 then Raised(ValueError)
      else if start < stop then Ok(window[start..stop])
      else Ok([])
  }

  /** `get_historical_logs(session, offset, count)` after the session has
      been recovered: read from index `start + offset + 1` when it lies in
      the window. It returns at most `count` entries, nothing when the
      window is empty or the index lies outside it, and raises only for a
      negative `count`. */
  function Historical(window: seq<Item>, last: int, sessionStart: int, offset: int, count: int): (r: Result<seq<Item>>)
    ensures r.Ok? ==> |r.value| <= (if count < 0 then 0 else count)
    ensures r.Raised? ==> count < 0 && r.error == ValueError
    ensures var requested := sessionStart + offset + 1;
      window == [] || requested < Oldest(window, last) || requested > last ==> r == Ok([])
  {
    var requested := sessionStart + offset + 1;
    if window == [] then Ok([])
    else
      var oldest := Oldest(window, last);
      if requested < oldest || requested > last then Ok([])
      else ByIndex(window, requested - oldest, count)
  }

  /** A historical read from an index inside the window returns, in index
      order, the entries from that index on: `count` of them, or fewer when
      the newest is reached first. */
  lemma HistoricalReadsHistory(window: seq<Item>, history: seq<Item>, last: int, limit: nat,
                               sessionStart: int, offset: int, count: int)
    requires Indexed(window, history, last, limit)
    requires window != [] && Oldest(window, last) <= sessionStart + offset + 1 <= last && count >= 0
    ensures var requested := sessionStart + offset + 1;
      Historical(window, last, sessionStart, offset, count)
        == Ok(history[requested..Min(last + 1, requested + count)])
  {
    WindowPositions(window, history, last, limit);
    var requested := sessionStart + offset + 1;
    var r := Historical(window, last, sessionStart, offset, count);
    var hi := Min(last + 1, requested + count);
    assert r.Ok? && |r.value| == hi - requested;
    assert forall k :: 0 <= k < |r.value| ==> r.value[k] == history[requested + k];
    assert r.value == history[requested..hi];
  }

  /** The outcome of a real-time read: what it returns or raises, and how
      far it advances the session. */
  datatype Read = Read(result: Result<seq<Item>>, advance: int)

  /** `get_realtime_logs(session, count)` as written, after the session has
      been recovered: read `n = min(count, last - pos, len - (pos - oldest))`
      entries from window position `pos - oldest`, and advance by `n` once
      the read has succeeded. An empty window, or a session already at the
      newest index, reads nothing and does not advance. */
  function RealtimeAsWritten(window: seq<Item>, last: int, pos: int, count: int): (r: Read)
    ensures window == [] || pos >= last ==> r == Read(Ok([]), 0)
    ensures r.advance >= 0
    ensures r.result.Ok? ==> r.advance == |r.result.value|
    ensures r.result.Raised? ==> r.advance == 0
  {
    if window == [] || pos >= last then Read(Ok([]), 0)
    else
      var oldest := Oldest(window, last);
      var n := Min(Min(count, last - pos), |window| - (pos - oldest));
      if n <= 0 then Read(Ok([]), 0)
      else
        match ByIndex(window, pos - oldest, n)
        case Ok(items) => Read(Ok(items), n)
        case Raised(e) => Read(Raised(e), 0)
  }

  /** As written, a real-time read inside the window returns the entries
      from index `pos` on: the first of them is the one the session had
      already reached, and the newest entry is withheld. */
  lemma RealtimeAsWrittenReads(window: seq<Item>, history: seq<Item>, last: int, limit: nat, pos: int, count: int)
    requires Indexed(window, history, last, limit)
    requires window != [] && Oldest(window, last) <= pos < last && count > 0
    ensures RealtimeAsWritten(window, last, pos, count)
         == Read(Ok(history[pos..pos + Min(count, last - pos)]), Min(count, last - pos))
  {
    WindowPositions(window, history, last, limit);
    var n := Min(count, last - pos);
    var r := RealtimeAsWritten(window, last, pos, count);
    assert r.result.Ok? && |r.result.value| == n;
    assert forall k :: 0 <= k < n ==> r.result.value[k] == history[pos + k];
    assert r.result.value == history[pos..pos + n];
  }

  /** `has_updates` tells whether a real-time read has anything to
      deliver: for a session inside the window and a positive `count`, the
      read (as written, and as corrected) returns entries exactly when the
      newest index is beyond the session's end position. */
  lemma UpdatesMeanDelivery(window: seq<Item>, history: seq<Item>, last: int, limit: nat, pos: int, count: int)
    requires Indexed(window, history, last, limit)
    requires window != [] && Oldest(window, last) <= pos && count > 0
    ensures var r := RealtimeAsWritten(window, last, pos, count);
      r.result.Ok? && (r.result.value != [] <==> last > pos)
    ensures var r := Realtime(window, last, pos, count);
      r.result.Ok? && (r.result.value != [] <==> last > pos)
  {
    if last > pos {
      RealtimeAsWrittenReads(window, history, last, limit, pos, count);
      RealtimeReadsNext(window, history, last, limit, pos, count);
    }
  }

  /** Concrete runs of the read as written. With three entries read, a
      session at index 0 gets indexes 0 and 1 back: index 0 a second time,
      and index 2 not yet, since the session then stands at the newest
      index and the next read returns nothing; index 2 is delivered only
      once a newer entry arrives, one read late. A session opened on an empty
      file stands at index -1, before the oldest index 0, and its first
      read raises `ValueError` from `islice`. */
  lemma RealtimeAsWrittenCounterexample(a: Item, b: Item, c: Item)
    ensures RealtimeAsWritten([a, b, c], 2, 0, 10) == Read(Ok([a, b]), 2)
    ensures RealtimeAsWritten([a, b, c], 2, 2, 10) == Read(Ok([]), 0)
    ensures RealtimeAsWritten([a, b, c], 2, -1, 10) == Read(Raised(ValueError), 0)
  {
    assert [a, b, c][0..2] == [a, b];
  }

  /** The evidently intended real-time read: the session has seen up to
      index `pos`, so the read starts at window position `pos + 1 - oldest`. */
  function Realtime(window: seq<Item>, last: int, pos: int, count: int): (r: Read)
    ensures window == [] || pos >= last ==> r == Read(Ok([]), 0)
    ensures r.advance >= 0
    ensures r.result.Ok? ==> r.advance == |r.result.value|
    ensures r.result.Raised? ==> r.advance == 0
  {
    if window == [] || pos >= last then Read(Ok([]), 0)
    else
      var oldest := Oldest(window, last);
      var n := Min(Min(count, last - pos), |window| - (pos + 1 - oldest));
      if n <= 0 then Read(Ok([]), 0)
      else
        match ByIndex(window, pos + 1 - oldest, n)
        case Ok(items) => Read(Ok(items), n)
        case Raised(e) => Read(Raised(e), 0)
  }

  /** Window position `k` onwards holds the entries from index
      `oldest + k` onwards. */
  lemma WindowSlice(window: seq<Item>, history: seq<Item>, last: int, limit: nat, i: nat, j: nat)
    requires Indexed(window, history, last, limit)
    requires i <= j <= |window|
    ensures Oldest(window, last) + j <= |history|
    ensures window[i..j] == history[Oldest(window, last) + i..Oldest(window, last) + j]
  {
    WindowPositions(window, history, last, limit);
  }

  /** The corrected read, on the window alone: it returns the window from
      the position after the session's on. */
  lemma RealtimeWindow(window: seq<Item>, last: int, pos: int, count: int)
    requires window != [] && |window| <= last + 1
    requires last - |window| + 1 <= pos + 1 && pos < last && count > 0
    ensures var r := Realtime(window, last, pos, count);
      var start := pos + 1 - (last - |window| + 1);
      && r.result.Ok? && r.advance == Min(count, last - pos)
      && 0 <= start <= start + r.advance <= |window|
      && r.result.value == window[start..start + r.advance]
  {
  }

  /** The corrected read returns exactly the next `min(count, last - pos)`
      entries after the session's position, and advances over exactly
      those; it raises only for a session that has fallen behind the
      window. */
  lemma RealtimeReadsNext(window: seq<Item>, history: seq<Item>, last: int, limit: nat, pos: int, count: int)
    requires Indexed(window, history, last, limit)
    requires window != [] && pos < last && count > 0
    ensures var r := Realtime(window, last, pos, count);
      && (Oldest(window, last) <= pos + 1 ==>
            && r.result.Ok? && r.advance == Min(count, last - pos)
            && pos + 1 + r.advance <= |history|
            && r.result.value == history[pos + 1..pos + 1 + r.advance])
      && (pos + 1 < Oldest(window, last) ==> r == Read(Raised(ValueError), 0))
  {
    OldestExact(window, history, last, limit);
    if Oldest(window, last) <= pos + 1 {
      RealtimeWindow(window, last, pos, count);
      var start := pos + 1 - Oldest(window, last);
      WindowSlice(window, history, last, limit, start, start + Min(count, last - pos));
    }
  }

  lemma JoinSlices<T>(s: seq<T>, a: nat, b: nat, c: nat)
    requires a <= b <= c <= |s|
    ensures s[a..b] + s[b..c] == s[a..c]
  {
  }

  /** Two corrected reads in a row, with nothing read in between, deliver
      adjacent stretches of the window: nothing is repeated, nothing is
      skipped, and together they deliver as much as one read asked for both
      counts would (window position `k` holds index `oldest + k`, see
      `WindowSlice`). */
  lemma RealtimeChain(window: seq<Item>, last: int, pos: int, c1: int, c2: int, r1: Read, r2: Read)
    requires window != [] && |window| <= last + 1
    requires last - |window| + 1 <= pos + 1 && pos < last && c1 > 0 && c2 > 0
    requires r1 == Realtime(window, last, pos, c1)
    requires r2 == Realtime(window, last, pos + r1.advance, c2)
    ensures var start := pos + 1 - (last - |window| + 1);
      && r1.result.Ok? && r2.result.Ok?
      && r1.advance + r2.advance == Min(c1 + c2, last - pos)
      && 0 <= start <= start + r1.advance + r2.advance <= |window|
      && r1.result.value + r2.result.value == window[start..start + r1.advance + r2.advance]
  {
    var start := pos + 1 - (last - |window| + 1);
    RealtimeWindow(window, last, pos, c1);
    if pos + r1.advance < last {
      RealtimeWindow(window, last, pos + r1.advance, c2);
      JoinSlices(window, start, start + r1.advance, start + r1.advance + r2.advance);
    } else {
      assert r2 == Read(Ok([]), 0);
      JoinSlices(window, start, start + r1.advance, start + r1.advance);
    }
  }

  /** A corrected read asked for at least what is new brings the session to
      the newest index with everything after its old position delivered. */
  lemma RealtimeDrains(window: seq<Item>, history: seq<Item>, last: int, limit: nat, pos: int, count: int)
    requires Indexed(window, history, last, limit)
    requires window != [] && Oldest(window, last) <= pos + 1 && pos < last && count >= last - pos
    ensures var r := Realtime(window, last, pos, count);
      r.result == Ok(history[pos + 1..]) && pos + r.advance == last
  {
    RealtimeReadsNext(window, history, last, limit, pos, count);
    assert history[pos + 1..pos + 1 + (last - pos)] == history[pos + 1..];
  }
}
