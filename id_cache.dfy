/** The id-keyed cache of LogFileWrapper.py as values: how a batch of lines
    becomes numbered entries and hierarchy paths, and the read-only queries
    `get_logs`, `get_total_count` and `check_updates` over the resident
    entries. The class in log_file_wrapper.dfy is specified against these. */
module IdCache {
  import opened Common
  import opened ModuleTree

  /** A stored record: the decoded JSON object, or the raw-text fallback
      `{"raw": line, "timestamp": time.time()}`. */
  datatype Record = Structured(fields: map<string, Json>) | Raw(text: string, timestamp: real)

  /** A resident entry: a record together with the `_id` written into it. */
  datatype Entry = Entry(id: int, record: Record)

  /** What the loop of `_append_log_entries` makes of one line: the record to
      number and, when the record names a module, the path `module.name` to
      add to the hierarchy; `Dropped` when Python raises inside the loop body
      and the line is skipped without consuming an id. */
  datatype Admission = Dropped | Admitted(record: Record, path: Option<string>)

  function AdmitLine(line: string, decode: Decoder, now: real): (a: Admission)
    ensures decode(line).None? ==> a == Admitted(Raw(line, now), None)
    ensures decode(line).Some? && !decode(line).value.JObj? ==> a == Dropped
    ensures a.Admitted? && a.record.Structured? ==> decode(line) == Some(JObj(a.record.fields))
    ensures decode(line).Some? && decode(line).value.JObj? ==>
      var moduleName := Get(decode(line).value.fields, "module", JStr(""));
      var name := Get(decode(line).value.fields, "name", JStr(""));
      && (a == Dropped <==> Truthy(moduleName) && !(moduleName.JStr? && name.JStr?))
      && (a.Admitted? ==> a.record == Structured(decode(line).value.fields))
      && (a.Admitted? ==> (a.path.Some? <==> Truthy(moduleName)))
      && (a.Admitted? && a.path.Some? ==> a.path.value == moduleName.s + "." + name.s)
  {
    match decode(line)
    case None => Admitted(Raw(line, now), None)
    case Some(v) =>
      if !v.JObj? then Dropped  // `entry.get` on a list, string, number, bool or null
      else
        var moduleName := Get(v.fields, "module", JStr(""));
        var name := Get(v.fields, "name", JStr(""));
        if !Truthy(moduleName) then Admitted(Structured(v.fields), None)
        else if moduleName.JStr? && name.JStr? then Admitted(Structured(v.fields), Some(moduleName.s + "." + name.s))
        else Dropped  // `module + '.' + name` raises TypeError
  }

  /** The records a batch admits, in line order. */
  function Records(lines: seq<string>, decode: Decoder, now: real): (r: seq<Record>)
    ensures |r| <= |lines|
  {
    if lines == [] then []
    else
      var a := AdmitLine(lines[|lines| - 1], decode, now);
      Records(lines[..|lines| - 1], decode, now) + (if a.Admitted? then [a.record] else [])
  }

  /** The module paths a batch hands to `_update_module_hierarchy`, in line order. */
  function Paths(lines: seq<string>, decode: Decoder, now: real): seq<string> {
    if lines == [] then []
    else
      var a := AdmitLine(lines[|lines| - 1], decode, now);
      Paths(lines[..|lines| - 1], decode, now) + (if a.Admitted? && a.path.Some? then [a.path.value] else [])
  }

  /** Records numbered from `first` on: `entry['_id'] = next_id; next_id += 1`. */
  function Numbered(recs: seq<Record>, first: int): (r: seq<Entry>)
    ensures |r| == |recs|
    ensures forall k :: 0 <= k < |r| ==> r[k] == Entry(first + k, recs[k])
  {
    seq(|recs|, k requires 0 <= k < |recs| => Entry(first + k, recs[k]))
  }

  /** One more line extends a batch's records and paths by what that line admits. */
  lemma BatchStep(lines: seq<string>, i: nat, decode: Decoder, now: real)
    requires i < |lines|
    ensures var a := AdmitLine(lines[i], decode, now);
      && Records(lines[..i + 1], decode, now)
         == Records(lines[..i], decode, now) + (if a.Admitted? then [a.record] else [])
      && Paths(lines[..i + 1], decode, now)
         == Paths(lines[..i], decode, now) + (if a.Admitted? && a.path.Some? then [a.path.value] else [])
  {
    assert lines[..i + 1][..i] == lines[..i];
  }

  lemma NumberedSnoc(recs: seq<Record>, r: Record, first: int)
    ensures Numbered(recs + [r], first) == Numbered(recs, first) + [Entry(first + |recs|, r)]
  {
  }

  /** One more line of a batch: what the numbered entries and the
      hierarchy become, given what the line admits. */
  lemma DecodeStep(lines: seq<string>, i: nat, decode: Decoder, now: real,
                   id0: int, h0: Hierarchy, seen0: set<string>)
    requires i < |lines|
    ensures var a := AdmitLine(lines[i], decode, now);
      var recs := Records(lines[..i], decode, now);
      var prev := UpdateAll(h0, seen0, Paths(lines[..i], decode, now));
      && Numbered(Records(lines[..i + 1], decode, now), id0)
         == Numbered(recs, id0) + (if a.Admitted? then [Entry(id0 + |recs|, a.record)] else [])
      && UpdateAll(h0, seen0, Paths(lines[..i + 1], decode, now))
         == (if a.Admitted? && a.path.Some? then UpdateHierarchy(prev.0, prev.1, a.path.value) else prev)
  {
    BatchStep(lines, i, decode, now);
    var a := AdmitLine(lines[i], decode, now);
    var recs := Records(lines[..i], decode, now);
    var paths := Paths(lines[..i], decode, now);
    if a.Admitted? {
      NumberedSnoc(recs, a.record, id0);
      if a.path.Some? {
        UpdateAllSnoc(h0, seen0, paths, a.path.value);
      } else {
        assert paths + [] == paths;
      }
    } else {
      assert paths + [] == paths;
      assert recs + [] == recs;
    }
  }

  /** The resident ids run without a gap up to `nextId - 1`. */
  ghost predicate Contiguous(s: seq<Entry>, nextId: int) {
    forall k :: 0 <= k < |s| ==> s[k].id == nextId - |s| + k
  }

  /** Appending a numbered batch to a bounded, gap-free window keeps it
      gap-free and ending just below the advanced counter. */
  lemma AppendKeepsContiguous(s: seq<Entry>, nextId: int, recs: seq<Record>, limit: nat)
    requires Contiguous(s, nextId)
    ensures Contiguous(Bounded(s + Numbered(recs, nextId), limit), nextId + |recs|)
  {
    var all := s + Numbered(recs, nextId);
    var r := Bounded(all, limit);
    forall k | 0 <= k < |r| ensures r[k].id == nextId + |recs| - |r| + k {
      var i := |all| - |r| + k;
      assert r[k] == all[i];
      if i < |s| {
        assert all[i] == s[i];
      } else {
        assert all[i] == Numbered(recs, nextId)[i - |s|];
      }
    }
  }

  // ---------------------------------------------------------------- hierarchy

  /** `_update_module_hierarchy`: nothing when the path was seen before,
      otherwise record it and add its prefix edges. */
  function UpdateHierarchy(h: Hierarchy, seen: set<string>, path: string): (r: (Hierarchy, set<string>))
    ensures r.1 == seen + {path}
    ensures forall parent :: Children(h, parent) <= Children(r.0, parent)
  {
    if path in seen then (h, seen) else AddPathExact(h, path); (AddPath(h, path), seen + {path})
  }

  /** The hierarchy and seen-set after a batch's paths, in order. */
  function UpdateAll(h: Hierarchy, seen: set<string>, paths: seq<string>): (r: (Hierarchy, set<string>))
    ensures r.1 == seen + (set p | p in paths)
  {
    if paths == [] then (h, seen)
    else
      var prev := UpdateAll(h, seen, paths[..|paths| - 1]);
      UpdateHierarchy(prev.0, prev.1, paths[|paths| - 1])
  }

  lemma UpdateAllSnoc(h: Hierarchy, seen: set<string>, paths: seq<string>, p: string)
    ensures var prev := UpdateAll(h, seen, paths);
      UpdateAll(h, seen, paths + [p]) == UpdateHierarchy(prev.0, prev.1, p)
  {
    assert (paths + [p])[..|paths|] == paths;
  }

  /** Every seen path already has all its edges in the hierarchy. */
  ghost predicate SeenCovered(h: Hierarchy, seen: set<string>) {
    forall p :: p in seen ==> AddPath(h, p) == h
  }

  /** Two paths can be added in either order. */
  lemma AddPathCommutes(h: Hierarchy, p: string, q: string)
    ensures AddPath(AddPath(h, p), q) == AddPath(AddPath(h, q), p)
  {
    var hp, hq := AddPath(h, p), AddPath(h, q);
    AddPathExact(h, p); AddPathExact(h, q);
    AddPathExact(hp, q); AddPathExact(hq, p);
    HierarchyExt(AddPath(hp, q), AddPath(hq, p));
  }

  /** The seen-set is only a shortcut: with it consistent, updating gives the
      same hierarchy as adding the path's edges unconditionally, and stays
      consistent. */
  lemma UpdateHierarchyIsAddPath(h: Hierarchy, seen: set<string>, path: string)
    requires SeenCovered(h, seen)
    ensures UpdateHierarchy(h, seen, path).0 == AddPath(h, path)
    ensures SeenCovered(UpdateHierarchy(h, seen, path).0, UpdateHierarchy(h, seen, path).1)
  {
    if path !in seen {
      var h' := AddPath(h, path);
      forall p | p in seen + {path} ensures AddPath(h', p) == h' {
        if p == path {
          AddPathIdempotent(h, path);
        } else {
          AddPathCommutes(h, path, p);
        }
      }
    }
  }

  /** The seen-set keeps its meaning across a whole batch, and the tree
      shape is kept. */
  lemma {:induction false} UpdateAllInvariant(h: Hierarchy, seen: set<string>, paths: seq<string>)
    requires SeenCovered(h, seen) && WellFormed(h)
    ensures SeenCovered(UpdateAll(h, seen, paths).0, UpdateAll(h, seen, paths).1)
    ensures WellFormed(UpdateAll(h, seen, paths).0)
    ensures seen <= UpdateAll(h, seen, paths).1
  {
    if paths != [] {
      UpdateAllInvariant(h, seen, paths[..|paths| - 1]);
      var prev := UpdateAll(h, seen, paths[..|paths| - 1]);
      UpdateHierarchyIsAddPath(prev.0, prev.1, paths[|paths| - 1]);
      AddPathWellFormed(prev.0, paths[|paths| - 1]);
    }
  }

  /** Admitting a batch keeps the window gap-free below the advanced
      counter, the seen-set meaningful and the hierarchy tree-shaped. */
  lemma BatchKeepsInvariant(lines: seq<string>, decode: Decoder, now: real, limit: nat,
                            s: seq<Entry>, nextId: int, h: Hierarchy, seen: set<string>)
    requires Contiguous(s, nextId) && SeenCovered(h, seen) && WellFormed(h)
    ensures var recs := Records(lines, decode, now);
      Contiguous(Bounded(s + Numbered(recs, nextId), limit), nextId + |recs|)
    ensures var after := UpdateAll(h, seen, Paths(lines, decode, now));
      SeenCovered(after.0, after.1) && WellFormed(after.0)
  {
    AppendKeepsContiguous(s, nextId, Records(lines, decode, now), limit);
    UpdateAllInvariant(h, seen, Paths(lines, decode, now));
  }

  // ---------------------------------------------------------------- queries

  /** `filter_func`, or `None` for "every entry". */
  type Filter = Option<Entry -> bool>

  predicate Matches(f: Filter, e: Entry) {
    f.None? || f.value(e)
  }

  /** The entries of `s` that satisfy `f`, in order. */
  function Filtered(s: seq<Entry>, f: Filter): (r: seq<Entry>)
    ensures |r| <= |s|
    ensures forall k :: 0 <= k < |r| ==> r[k] in s && Matches(f, r[k])
  {
    if s == [] then [] else (if Matches(f, s[0]) then [s[0]] else []) + Filtered(s[1..], f)
  }

  /** The deque index of the first entry whose `_id >= start_id`, or `|s|`
      when there is none (the `for … else` of `get_logs`). */
  function FirstAtOrAbove(s: seq<Entry>, startId: int): (k: nat)
    ensures k <= |s|
    ensures forall j :: 0 <= j < k ==> s[j].id < startId
    ensures k < |s| ==> s[k].id >= startId
  {
    if s == [] then 0 else if s[0].id >= startId then 0 else 1 + FirstAtOrAbove(s[1..], startId)
  }

  /** The collecting loop of `get_logs`: walk `s`, stop once `count`
      entries are collected, keep those that satisfy `f`. */
  function TakeMatching(s: seq<Entry>, count: int, f: Filter): seq<Entry> {
    if count <= 0 || s == [] then []
    else if Matches(f, s[0]) then [s[0]] + TakeMatching(s[1..], count - 1, f)
    else TakeMatching(s[1..], count, f)
  }

  /** The scan that stops at the first id at or above `startId` (or runs
      off the end) has found `FirstAtOrAbove`. */
  lemma {:induction false} FirstAtOrAboveAt(s: seq<Entry>, startId: int, i: nat)
    requires i <= |s|
    requires forall j :: 0 <= j < i ==> s[j].id < startId
    requires i < |s| ==> s[i].id >= startId
    ensures FirstAtOrAbove(s, startId) == i
  {
    if i > 0 {
      FirstAtOrAboveAt(s[1..], startId, i - 1);
    }
  }

  /** One step of the collecting loop at index `k`. */
  lemma TakeMatchingStep(s: seq<Entry>, k: nat, count: int, f: Filter)
    requires k < |s| && count > 0
    ensures TakeMatching(s[k..], count, f) ==
      if Matches(f, s[k]) then [s[k]] + TakeMatching(s[k + 1..], count - 1, f)
      else TakeMatching(s[k + 1..], count, f)
  {
    assert s[k..][1..] == s[k + 1..];
  }

  /** The second loop of `get_logs`: from index `from` on, collect the
      entries that satisfy `f` until `count` of them are collected. */
  method CollectMatching(s: seq<Entry>, from: nat, count: int, f: Filter) returns (result: seq<Entry>)
    requires from <= |s|
    ensures result == TakeMatching(s[from..], count, f)
  {
    ghost var goal := TakeMatching(s[from..], count, f);
    result := [];
    var k := from;
    while k < |s| && |result| < count
      invariant from <= k <= |s|
      invariant result + TakeMatching(s[k..], count - |result|, f) == goal
    {
      ghost var before := result;
      TakeMatchingStep(s, k, count - |result|, f);
      if Matches(f, s[k]) {
        result := result + [s[k]];
        SnocAppend(before, s[k], TakeMatching(s[k + 1..], count - |result|, f));
      }
      k := k + 1;
    }
    assert TakeMatching(s[k..], count - |result|, f) == [];
    assert result + [] == result;
  }

  lemma SnocAppend<T>(a: seq<T>, x: T, b: seq<T>)
    ensures (a + [x]) + b == a + ([x] + b)
  {
  }

  /** `get_logs(start_id, count, filter_func)` over the resident entries. */
  function LogsFrom(s: seq<Entry>, startId: int, count: int, f: Filter): (r: seq<Entry>)
    ensures forall j :: 0 <= j < |r| ==> r[j] in s[FirstAtOrAbove(s, startId)..] && Matches(f, r[j])
  {
    var k := FirstAtOrAbove(s, startId);
    if k == |s| then []
    else
      TakeMatchingMembers(s[k..], count, f);
      assert var r := TakeMatching(s[k..], count, f);
        forall j :: 0 <= j < |r| ==> r[j] in s[k..] && Matches(f, r[j]);
      TakeMatching(s[k..], count, f)
  }

  /** The collecting loop returns the first `count` matching entries. */
  lemma {:induction false} TakeMatchingIsPrefix(s: seq<Entry>, count: int, f: Filter)
    ensures var all := Filtered(s, f);
      TakeMatching(s, count, f) == all[..if count <= 0 then 0 else if count < |all| then count else |all|]
  {
    if count > 0 && s != [] {
      TakeMatchingIsPrefix(s[1..], if Matches(f, s[0]) then count - 1 else count, f);
    }
  }

  /** Strictly ascending ids. */
  ghost predicate Ascending(s: seq<Entry>) {
    forall i, j :: 0 <= i < j < |s| ==> s[i].id < s[j].id
  }

  /** `get_logs` returns at most `count` entries, none when `count <= 0`
      or when no resident id reaches `start_id`. */
  lemma LogsFromLength(s: seq<Entry>, startId: int, count: int, f: Filter)
    ensures |LogsFrom(s, startId, count, f)| <= (if count <= 0 then 0 else count)
    ensures FirstAtOrAbove(s, startId) == |s| ==> LogsFrom(s, startId, count, f) == []
  {
    var k := FirstAtOrAbove(s, startId);
    if k < |s| {
      TakeMatchingIsPrefix(s[k..], count, f);
    }
  }

  /** The collecting loop keeps only entries of `s` that satisfy the
      filter. */
  lemma {:induction false} TakeMatchingMembers(s: seq<Entry>, count: int, f: Filter)
    ensures var r := TakeMatching(s, count, f);
      forall j :: 0 <= j < |r| ==> r[j] in s && Matches(f, r[j])
  {
    if count > 0 && s != [] {
      var t := s[1..];
      var c := if Matches(f, s[0]) then count - 1 else count;
      var rest := TakeMatching(t, c, f);
      TakeMatchingMembers(t, c, f);
      assert var r := TakeMatching(t, c, f); forall j :: 0 <= j < |r| ==> r[j] in t && Matches(f, r[j]);
      forall j | 0 <= j < |rest| ensures rest[j] in s && Matches(f, rest[j]) {
        assert rest[j] in t;
        var i :| 0 <= i < |t| && t[i] == rest[j];
        assert s[i + 1] == rest[j];
      }
      var r := TakeMatching(s, count, f);
      assert r == if Matches(f, s[0]) then [s[0]] + rest else rest;
    }
  }

  /** On ascending ids the collecting loop keeps ascending ids, none below
      the first id of `s`. */
  lemma {:induction false} TakeMatchingSound(s: seq<Entry>, count: int, f: Filter)
    requires Ascending(s)
    ensures var r := TakeMatching(s, count, f);
      && Ascending(r)
      && (forall j :: 0 <= j < |r| ==> r[j].id >= s[0].id)
  {
    if count > 0 && s != [] {
      var t := s[1..];
      assert Ascending(t) by {
        forall i, j | 0 <= i < j < |t| ensures t[i].id < t[j].id {
          assert t[i] == s[i + 1] && t[j] == s[j + 1];
        }
      }
      var c := if Matches(f, s[0]) then count - 1 else count;
      TakeMatchingSound(t, c, f);
      var rest := TakeMatching(t, c, f);
      if rest != [] {
        assert t[0] == s[1];
      }
      assert forall j :: 0 <= j < |rest| ==> rest[j].id > s[0].id;
      var r := TakeMatching(s, count, f);
      if Matches(f, s[0]) {
        assert r == [s[0]] + rest;
        forall i, j | 0 <= i < j < |r| ensures r[i].id < r[j].id {
          assert r[j] == rest[j - 1];
          if i > 0 {
            assert r[i] == rest[i - 1];
          }
        }
      } else {
        assert r == rest;
      }
    }
  }

  /** On ascending ids, `get_logs` returns resident entries that satisfy the
      filter and have `_id >= start_id`, in ascending id order. */
  lemma LogsFromSound(s: seq<Entry>, startId: int, count: int, f: Filter)
    requires Ascending(s)
    ensures var r := LogsFrom(s, startId, count, f);
      && Ascending(r)
      && (forall j :: 0 <= j < |r| ==> r[j] in s && Matches(f, r[j]) && r[j].id >= startId)
  {
    var k := FirstAtOrAbove(s, startId);
    if k < |s| {
      var t := s[k..];
      assert Ascending(t);
      TakeMatchingSound(t, count, f);
      TakeMatchingMembers(t, count, f);
    }
  }

  /** Asked for at least as many entries as are resident, `get_logs`
      returns every matching entry from the first id at or above
      `start_id` on: nothing is skipped. */
  lemma LogsFromComplete(s: seq<Entry>, startId: int, count: int, f: Filter)
    requires count >= |s|
    ensures LogsFrom(s, startId, count, f) == Filtered(s[FirstAtOrAbove(s, startId)..], f)
  {
    var k := FirstAtOrAbove(s, startId);
    TakeMatchingIsPrefix(s[k..], count, f);
  }

  /** `sum(1 for entry in log_entries if filter_func(entry))`. */
  function Count(s: seq<Entry>, f: Filter): (n: nat)
    ensures n <= |s|
    ensures f.None? ==> n == |s|
  {
    if s == [] then 0 else (if Matches(f, s[0]) then 1 else 0) + Count(s[1..], f)
  }

  /** `get_total_count(f)` is the length of the page `get_logs` returns when
      asked for everything from the oldest resident id on. */
  lemma {:induction false} CountIsFullPage(s: seq<Entry>, f: Filter)
    requires s != []
    ensures Count(s, f) == |LogsFrom(s, s[0].id, |s|, f)|
  {
    CountIsFiltered(s, f);
    TakeMatchingIsPrefix(s, |s|, f);
  }

  lemma {:induction false} CountIsFiltered(s: seq<Entry>, f: Filter)
    ensures Count(s, f) == |Filtered(s, f)|
  {
    if s != [] { CountIsFiltered(s[1..], f); }
  }

  /** The dict `check_updates` returns. */
  datatype Updates = Updates(hasUpdates: bool, newCount: int, minId: int, maxId: int)

  function Max(a: int, b: int): int { if a >= b then a else b }

  /** `check_updates(current_id)`: zeros on an empty window, otherwise the
      resident id range and `max(0, max_id - max(min_id - 1, current_id))`. */
  function UpdatesSince(s: seq<Entry>, currentId: int): (u: Updates)
    ensures s == [] ==> u == Updates(false, 0, 0, 0)
    ensures s != [] ==> u.minId == s[0].id && u.maxId == s[|s| - 1].id
    ensures u.newCount >= 0 && (u.hasUpdates <==> u.newCount > 0)
  {
    if s == [] then Updates(false, 0, 0, 0)
    else
      var minId := s[0].id;
      var maxId := s[|s| - 1].id;
      var newCount := Max(0, maxId - Max(minId - 1, currentId));
      Updates(newCount > 0, newCount, minId, maxId)
  }

  /** The number of resident entries whose id is above `x`. */
  function CountAbove(s: seq<Entry>, x: int): (n: nat)
    ensures n <= |s|
  {
    if s == [] then 0 else (if s[0].id > x then 1 else 0) + CountAbove(s[1..], x)
  }

  lemma {:induction false} CountAboveRun(s: seq<Entry>, x: int)
    requires s != []
    requires forall k :: 0 <= k < |s| ==> s[k].id == s[0].id + k
    ensures CountAbove(s, x) == Max(0, s[0].id + |s| - 1 - Max(s[0].id - 1, x))
  {
    if |s| > 1 {
      CountAboveRun(s[1..], x);
    }
  }

  /** On a gap-free window `check_updates(x)` counts exactly the resident
      entries newer than `x`, reports an update exactly when the newest
      resident id is above `x`, and never counts more than is resident. */
  lemma UpdatesSinceCountsNewer(s: seq<Entry>, nextId: int, x: int)
    requires Contiguous(s, nextId)
    ensures var u := UpdatesSince(s, x);
      && u.newCount == CountAbove(s, x)
      && u.newCount <= |s|
      && (u.hasUpdates <==> s != [] && nextId - 1 > x)
  {
    if s != [] {
      CountAboveRun(s, x);
    }
  }
}
