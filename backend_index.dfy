/** LoggerFileBackend.py, the earliest variant of the engine, as values:
    the per-level and per-module `defaultdict(list)` indexes, the module
    hierarchy and its seen-set, how one cached entry is filed, how the
    indexes are rebuilt from the cache, how a batch of lines is taken in,
    and the page and statistics the web handlers answer with. The class
    that holds this state is in module `LoggerFileBackend`. */
module BackendIndex {
  import opened Common
  import opened ModuleTree

  // ---------------------------------------------------------------- indexes

  /** One key of a `defaultdict(list)` with the entries filed under it. */
  datatype Bucket = Bucket(key: Json, entries: seq<Json>)

  /** A `defaultdict(list)`, its keys in insertion order. */
  type Index = seq<Bucket>

  /** `index[key]` read without inserting: the list under `key`, or empty. */
  function Lookup(ix: Index, key: Json): seq<Json> {
    if ix == [] then [] else if ix[0].key == key then ix[0].entries else Lookup(ix[1..], key)
  }

  /** `index[key].append(entry)`: the key's list grows at its end, and a
      key not seen before is added last. */
  function AppendTo(ix: Index, key: Json, entry: Json): Index {
    if ix == [] then [Bucket(key, [entry])]
    else if ix[0].key == key then [Bucket(key, ix[0].entries + [entry])] + ix[1..]
    else [ix[0]] + AppendTo(ix[1..], key, entry)
  }

  /** `sum(len(v) for v in index.values())`. */
  function TotalLen(ix: Index): nat {
    if ix == [] then 0 else |ix[0].entries| + TotalLen(ix[1..])
  }

  /** Every entry filed in the index is a decoded object. */
  ghost predicate Objects(ix: Index) {
    forall i, j :: 0 <= i < |ix| && 0 <= j < |ix[i].entries| ==> ix[i].entries[j].JObj?
  }

  /** An append touches only the list under its own key, at its end. */
  lemma {:induction false} AppendToLookup(ix: Index, key: Json, entry: Json, k: Json)
    ensures Lookup(AppendTo(ix, key, entry), k) == Lookup(ix, k) + (if k == key then [entry] else [])
  {
    if ix != [] && ix[0].key != key {
      var r := AppendTo(ix, key, entry);
      assert r[0] == ix[0] && r[1..] == AppendTo(ix[1..], key, entry);
      AppendToLookup(ix[1..], key, entry, k);
    }
  }

  /** An append adds exactly one to the index's total length. */
  lemma {:induction false} AppendToTotal(ix: Index, key: Json, entry: Json)
    ensures TotalLen(AppendTo(ix, key, entry)) == TotalLen(ix) + 1
  {
    if ix == [] {
      assert TotalLen([Bucket(key, [entry])]) == 1 + TotalLen([]);
    } else {
      var r := AppendTo(ix, key, entry);
      if ix[0].key == key {
        assert r[1..] == ix[1..];
      } else {
        assert r[0] == ix[0] && r[1..] == AppendTo(ix[1..], key, entry);
        AppendToTotal(ix[1..], key, entry);
      }
    }
  }

  /** Appending an object keeps every filed entry an object. */
  lemma {:induction false} AppendToObjects(ix: Index, key: Json, entry: Json)
    requires Objects(ix) && entry.JObj?
    ensures Objects(AppendTo(ix, key, entry))
  {
    if ix != [] && ix[0].key != key {
      var r := AppendTo(ix, key, entry);
      assert r[0] == ix[0] && r[1..] == AppendTo(ix[1..], key, entry);
      assert Objects(ix[1..]) by {
        forall i, j | 0 <= i < |ix[1..]| && 0 <= j < |ix[1..][i].entries|
          ensures ix[1..][i].entries[j].JObj?
        {
          assert ix[1..][i] == ix[i + 1];
        }
      }
      AppendToObjects(ix[1..], key, entry);
      forall i, j | 0 <= i < |r| && 0 <= j < |r[i].entries|
        ensures r[i].entries[j].JObj?
      {
        if i > 0 {
          assert r[i] == r[1..][i - 1];
        }
      }
    }
  }

  // ---------------------------------------------------------------- filing one entry

  /** What `_process_log_line` and `_rebuild_indexes` do to one entry: it
      was filed, or Python raised part-way through. */
  datatype Outcome = Done | Failed(error: PyError)

  /** The four structures `_rebuild_indexes` clears and refills. */
  datatype Indexes = Indexes(levelIndex: Index, moduleIndex: Index, hierarchy: Hierarchy, seen: set<Json>)

  /** All four structures cleared. */
  const NoIndexes: Indexes := Indexes([], [], map[], {})

  /** `entry.get('levelname', 'UNKNOWN')`. */
  function LevelOf(fields: map<string, Json>): Json {
    Get(fields, "levelname", JStr("UNKNOWN"))
  }

  /** `entry.get('module', '')`. */
  function ModuleOf(fields: map<string, Json>): Json {
    Get(fields, "module", JStr(""))
  }

  /** `_update_module_hierarchy(module_path)`: a module already in the seen-set
      changes nothing; any other is added to the seen-set, and then its
      dotted prefixes are added to the hierarchy. `.split` exists only on
      strings, so any other value raises `AttributeError` after it has
      been marked seen. */
  function NoteModule(h: Hierarchy, seen: set<Json>, name: Json): (r: (Hierarchy, set<Json>, Outcome))
    ensures r.1 == seen + {name}
    ensures r.2.Failed? <==> name !in seen && !name.JStr?
  {
    if name in seen then (h, seen, Done)
    else if name.JStr? then (AddPath(h, name.s), seen + {name}, Done)
    else (h, seen + {name}, Failed(AttributeError))
  }

  /** A module noted once is not noted again: the second call succeeds and
      changes nothing. */
  lemma NoteModuleOnce(h: Hierarchy, seen: set<Json>, name: Json)
    ensures var r := NoteModule(h, seen, name);
      NoteModule(r.0, r.1, name) == (r.0, r.1, Done)
  {
  }

  /** Noting a new dotted module adds exactly its prefix edges. */
  lemma NoteModuleEdges(h: Hierarchy, seen: set<Json>, name: Json, parent: string)
    requires name.JStr?
    ensures Children(NoteModule(h, seen, name).0, parent)
      == Children(h, parent) + (if name in seen then {} else PathEdges(name.s, parent))
  {
    AddPathExact(h, name.s);
  }

  /** Filing one entry: read its level and module, append it under its
      level, and, when its module is truthy, under its module and into the
      hierarchy. A value that is not an object has no `.get`; a level or
      module that is a list or object cannot be a dict key. Python raises
      either before anything is filed, or after the entry is already in the
      level index, where it then stays: each call files the entry under its
      level at most once and under its module at most once. */
  function IndexStep(ix: Indexes, entry: Json): (r: (Indexes, Outcome))
    ensures r.0 == ix <==> !entry.JObj? || !Hashable(LevelOf(entry.fields))
    ensures r.0 != ix ==> TotalLen(r.0.levelIndex) == TotalLen(ix.levelIndex) + 1
    ensures TotalLen(r.0.moduleIndex) <= TotalLen(ix.moduleIndex) + 1
  {
    if !entry.JObj? then (ix, Failed(AttributeError))
    else
      var level := LevelOf(entry.fields);
      var name := ModuleOf(entry.fields);
      if !Hashable(level) then (ix, Failed(TypeError))
      else
        AppendToTotal(ix.levelIndex, level, entry);
        var filed := ix.(levelIndex := AppendTo(ix.levelIndex, level, entry));
        if !Truthy(name) then (filed, Done)
        else if !Hashable(name) then (filed, Failed(TypeError))
        else
          AppendToTotal(ix.moduleIndex, name, entry);
          var noted := NoteModule(ix.hierarchy, ix.seen, name);
          (filed.(moduleIndex := AppendTo(ix.moduleIndex, name, entry), hierarchy := noted.0, seen := noted.1), noted.2)
  }

  /** The key an entry is filed under in the level index (`byModule`
      false) or in the module index, if any. */
  function KeyOf(entry: Json, byModule: bool): Option<Json> {
    if !entry.JObj? then None
    else if !byModule then Some(LevelOf(entry.fields))
    else if Truthy(ModuleOf(entry.fields)) then Some(ModuleOf(entry.fields))
    else None
  }

  /** An entry filing can succeed on, given the modules already seen. */
  predicate Fileable(entry: Json, seen: set<Json>) {
    && entry.JObj?
    && Hashable(LevelOf(entry.fields))
    && (Truthy(ModuleOf(entry.fields)) ==>
          Hashable(ModuleOf(entry.fields)) && (ModuleOf(entry.fields) in seen || ModuleOf(entry.fields).JStr?))
  }

  /** What a successful filing does: the entry is appended under its level
      key and, when it has one, its module key, which joins the seen-set. */
  lemma IndexStepDone(ix: Indexes, entry: Json)
    ensures IndexStep(ix, entry).1 == Done <==> Fileable(entry, ix.seen)
    ensures IndexStep(ix, entry).1 == Done ==>
      var r := IndexStep(ix, entry).0;
      && r.levelIndex == AppendTo(ix.levelIndex, KeyOf(entry, false).value, entry)
      && r.moduleIndex == (if KeyOf(entry, true).Some? then AppendTo(ix.moduleIndex, KeyOf(entry, true).value, entry) else ix.moduleIndex)
      && r.seen == ix.seen + (if KeyOf(entry, true).Some? then {KeyOf(entry, true).value} else {})
  {
  }

  /** Filing keeps every indexed entry an object. */
  lemma IndexStepObjects(ix: Indexes, entry: Json)
    requires Objects(ix.levelIndex) && Objects(ix.moduleIndex)
    ensures Objects(IndexStep(ix, entry).0.levelIndex) && Objects(IndexStep(ix, entry).0.moduleIndex)
  {
    if entry.JObj? {
      var level := LevelOf(entry.fields);
      var name := ModuleOf(entry.fields);
      AppendToObjects(ix.levelIndex, level, entry);
      AppendToObjects(ix.moduleIndex, name, entry);
    }
  }

  // ---------------------------------------------------------------- rebuilding

  /** `_rebuild_indexes`: clear the four structures, then file the cached
      entries oldest first; an exception ends the loop where it is raised.
      No cached entry is filed twice, and when nothing raises every one
      is filed under its level. */
  function Reindex(cache: seq<Json>): (r: (Indexes, Outcome))
    ensures TotalLen(r.0.levelIndex) <= |cache| && TotalLen(r.0.moduleIndex) <= |cache|
    ensures r.1.Done? ==> TotalLen(r.0.levelIndex) == |cache|
  {
    if cache == [] then (NoIndexes, Done)
    else
      var prev := Reindex(cache[..|cache| - 1]);
      if prev.1.Failed? then prev else IndexStep(prev.0, cache[|cache| - 1])
  }

  /** Once the rebuild has raised, the entries after that point are never
      filed. */
  lemma {:induction false} ReindexStops(cache: seq<Json>, i: nat)
    requires i <= |cache| && Reindex(cache[..i]).1.Failed?
    ensures Reindex(cache) == Reindex(cache[..i])
  {
    if i < |cache| {
      assert cache[..|cache| - 1][..i] == cache[..i];
      ReindexStops(cache[..|cache| - 1], i);
    } else {
      assert cache[..i] == cache;
    }
  }

  /** An entry the rebuild can file whatever was seen before it: an object
      whose level can be a key and whose truthy module is a string. */
  predicate Indexable(entry: Json) {
    && entry.JObj?
    && Hashable(LevelOf(entry.fields))
    && (Truthy(ModuleOf(entry.fields)) ==> ModuleOf(entry.fields).JStr?)
  }

  /** The truthy modules of the cached entries. */
  function ResidentModules(cache: seq<Json>): set<Json> {
    if cache == [] then {}
    else
      var key := KeyOf(cache[|cache| - 1], true);
      ResidentModules(cache[..|cache| - 1]) + (if key.Some? then {key.value} else {})
  }

  /** A resident module is the module of some cached entry. */
  lemma {:induction false} ResidentWitness(cache: seq<Json>, name: Json)
    requires name in ResidentModules(cache)
    ensures exists j :: 0 <= j < |cache| && KeyOf(cache[j], true) == Some(name)
  {
    var init := cache[..|cache| - 1];
    if KeyOf(cache[|cache| - 1], true) != Some(name) {
      ResidentWitness(init, name);
      var j :| 0 <= j < |init| && KeyOf(init[j], true) == Some(name);
      assert cache[j] == init[j];
    }
  }

  /** The rebuild succeeds exactly when every cached entry is indexable,
      and then the seen-set is exactly the resident modules. */
  lemma {:induction false} ReindexDone(cache: seq<Json>)
    ensures Reindex(cache).1 == Done <==> forall i :: 0 <= i < |cache| ==> Indexable(cache[i])
    ensures Reindex(cache).1 == Done ==> Reindex(cache).0.seen == ResidentModules(cache)
  {
    if cache != [] {
      var init := cache[..|cache| - 1];
      var e := cache[|cache| - 1];
      ReindexDone(init);
      assert forall i :: 0 <= i < |init| ==> init[i] == cache[i];
      var prev := Reindex(init);
      if prev.1.Done? {
        IndexStepDone(prev.0, e);
        if e.JObj? && Truthy(ModuleOf(e.fields)) && ModuleOf(e.fields) in prev.0.seen {
          ResidentWitness(init, ModuleOf(e.fields));
        }
      }
    }
  }

  /** After a successful rebuild each key's list holds exactly the cached
      entries with that key, in cache order. */
  function Select(cache: seq<Json>, key: Json, byModule: bool): seq<Json> {
    if cache == [] then []
    else
      var e := cache[|cache| - 1];
      Select(cache[..|cache| - 1], key, byModule) + (if KeyOf(e, byModule) == Some(key) then [e] else [])
  }

  /** How many cached entries are filed in the level (`byModule` false) or
      module index. */
  function Filed(cache: seq<Json>, byModule: bool): nat {
    if cache == [] then 0
    else Filed(cache[..|cache| - 1], byModule) + (if KeyOf(cache[|cache| - 1], byModule).Some? then 1 else 0)
  }

  /** After a successful rebuild `level_index[k]` and `module_index[k]`
      list exactly the resident entries with level (name) `k`. */
  lemma {:induction false} ReindexLookup(cache: seq<Json>, k: Json)
    requires Reindex(cache).1 == Done
    ensures Lookup(Reindex(cache).0.levelIndex, k) == Select(cache, k, false)
    ensures Lookup(Reindex(cache).0.moduleIndex, k) == Select(cache, k, true)
  {
    if cache != [] {
      var init := cache[..|cache| - 1];
      var e := cache[|cache| - 1];
      var prev := Reindex(init);
      ReindexLookup(init, k);
      IndexStepDone(prev.0, e);
      AppendToLookup(prev.0.levelIndex, KeyOf(e, false).value, e, k);
      if KeyOf(e, true).Some? {
        AppendToLookup(prev.0.moduleIndex, KeyOf(e, true).value, e, k);
      }
    }
  }

  /** After a successful rebuild the level index holds one entry per cached
      entry, and the module index one per cached entry with a module. */
  lemma {:induction false} ReindexTotals(cache: seq<Json>)
    requires Reindex(cache).1 == Done
    ensures TotalLen(Reindex(cache).0.levelIndex) == |cache|
    ensures TotalLen(Reindex(cache).0.moduleIndex) == Filed(cache, true)
  {
    if cache != [] {
      var init := cache[..|cache| - 1];
      var e := cache[|cache| - 1];
      var prev := Reindex(init);
      ReindexTotals(init);
      IndexStepDone(prev.0, e);
      AppendToTotal(prev.0.levelIndex, KeyOf(e, false).value, e);
      if KeyOf(e, true).Some? {
        AppendToTotal(prev.0.moduleIndex, KeyOf(e, true).value, e);
      }
    }
  }

  /** The edges the cached entries' modules give to `parent`. */
  ghost function ModuleEdges(cache: seq<Json>, parent: string): set<string> {
    if cache == [] then {}
    else
      var key := KeyOf(cache[|cache| - 1], true);
      ModuleEdges(cache[..|cache| - 1], parent)
        + (if key.Some? && key.value.JStr? then PathEdges(key.value.s, parent) else {})
  }

  /** A resident dotted module's edges are among the cache's edges. */
  lemma {:induction false} ResidentEdges(cache: seq<Json>, name: Json, parent: string)
    requires name in ResidentModules(cache) && name.JStr?
    ensures PathEdges(name.s, parent) <= ModuleEdges(cache, parent)
  {
    if KeyOf(cache[|cache| - 1], true) != Some(name) {
      ResidentEdges(cache[..|cache| - 1], name, parent);
    }
  }

  /** After a successful rebuild the hierarchy is recomputed from the
      resident modules alone: the children of each parent are exactly the
      prefix edges of the cached entries' modules. */
  lemma {:induction false} ReindexHierarchy(cache: seq<Json>, parent: string)
    requires Reindex(cache).1 == Done
    ensures Children(Reindex(cache).0.hierarchy, parent) == ModuleEdges(cache, parent)
  {
    if cache != [] {
      var init := cache[..|cache| - 1];
      var e := cache[|cache| - 1];
      var prev := Reindex(init);
      ReindexHierarchy(init, parent);
      ReindexDone(init);
      ReindexDone(cache);
      var key := KeyOf(e, true);
      if key.Some? {
        NoteModuleEdges(prev.0.hierarchy, prev.0.seen, key.value, parent);
        if key.value in prev.0.seen {
          ResidentEdges(init, key.value, parent);
        }
      }
    }
  }

  // ---------------------------------------------------------------- validation

  /** `_validate_cache_consistency`'s test: both index totals equal the
      cache length. */
  predicate Consistent(cache: seq<Json>, ix: Indexes) {
    |cache| == TotalLen(ix.levelIndex) && |cache| == TotalLen(ix.moduleIndex)
  }

  /** `_validate_cache_consistency`: rebuild iff the test fails. Unless the
      rebuild raises, the level index is afterwards in step with the cache
      and the module index holds no more entries than the cache. */
  function Validate(cache: seq<Json>, ix: Indexes): (r: (Indexes, Outcome))
    ensures r.1.Done? ==> TotalLen(r.0.levelIndex) == |cache| && TotalLen(r.0.moduleIndex) <= |cache|
  {
    if Consistent(cache, ix) then (ix, Done) else Reindex(cache)
  }

  /** Every entry is counted at most once in `Filed`, and all of them
      exactly when each one is filed. */
  lemma {:induction false} FiledAll(cache: seq<Json>, byModule: bool)
    ensures Filed(cache, byModule) <= |cache|
    ensures Filed(cache, byModule) == |cache| <==> forall i :: 0 <= i < |cache| ==> KeyOf(cache[i], byModule).Some?
  {
    if cache != [] {
      var init := cache[..|cache| - 1];
      FiledAll(init, byModule);
      assert forall i :: 0 <= i < |init| ==> init[i] == cache[i];
    }
  }

  /** A rebuild leaves the indexes consistent only when every cached entry
      has a module: while one does not, every later validation rebuilds
      again. */
  lemma RebuildSettles(cache: seq<Json>)
    requires Reindex(cache).1 == Done
    ensures Consistent(cache, Reindex(cache).0) <==> forall i :: 0 <= i < |cache| ==> KeyOf(cache[i], true).Some?
  {
    ReindexTotals(cache);
    FiledAll(cache, true);
  }

  // ---------------------------------------------------------------- taking in lines

  /** `log_cache`, `log_revision` and the indexes together. */
  datatype Store = Store(cache: seq<Json>, revision: int, ix: Indexes)

  /** `log_cache.append(entry)` on a deque whose `maxlen` is `maxLen`
      (`None`: unbounded). */
  function Push(cache: seq<Json>, maxLen: Option<nat>, entry: Json): seq<Json> {
    if maxLen.Some? then Bounded(cache + [entry], maxLen.value) else cache + [entry]
  }

  /** `_process_log_line`: a line that does not decode is dropped;
      otherwise the value is appended to the cache and the revision bumped
      before it is filed, so a value filing fails on stays cached. */
  function ProcessLine(st: Store, maxLen: Option<nat>, line: string, decode: Decoder): (r: (Store, Outcome))
    ensures decode(line).None? ==> r == (st, Done)
    ensures decode(line).Some? ==> r.0.revision == st.revision + 1 && r.0.cache == Push(st.cache, maxLen, decode(line).value)
    ensures decode(line).Some? ==> r.1 == IndexStep(st.ix, decode(line).value).1
  {
    match decode(line)
    case None => (st, Done)
    case Some(entry) =>
      var step := IndexStep(st.ix, entry);
      (Store(Push(st.cache, maxLen, entry), st.revision + 1, step.0), step.1)
  }

  /** `for line in lines: self._process_log_line(line)`: the first
      exception ends the batch. */
  function ProcessLines(st: Store, maxLen: Option<nat>, lines: seq<string>, decode: Decoder): (r: (Store, Outcome))
    ensures st.revision <= r.0.revision <= st.revision + |lines|
  {
    if lines == [] then (st, Done)
    else
      var prev := ProcessLines(st, maxLen, lines[..|lines| - 1], decode);
      if prev.1.Failed? then prev else ProcessLine(prev.0, maxLen, lines[|lines| - 1], decode)
  }

  /** Once a line of the batch has raised, the lines after it are never
      taken in. */
  lemma {:induction false} ProcessLinesStop(st: Store, maxLen: Option<nat>, lines: seq<string>, decode: Decoder, i: nat)
    requires i <= |lines| && ProcessLines(st, maxLen, lines[..i], decode).1.Failed?
    ensures ProcessLines(st, maxLen, lines, decode) == ProcessLines(st, maxLen, lines[..i], decode)
  {
    if i < |lines| {
      assert lines[..|lines| - 1][..i] == lines[..i];
      ProcessLinesStop(st, maxLen, lines[..|lines| - 1], decode, i);
    } else {
      assert lines[..i] == lines;
    }
  }

  /** How many of the lines decode. */
  function Decoded(lines: seq<string>, decode: Decoder): nat {
    if lines == [] then 0 else Decoded(lines[..|lines| - 1], decode) + (if decode(lines[|lines| - 1]).Some? then 1 else 0)
  }

  /** A batch taken in without an exception bumps the revision once per
      line that decodes. */
  lemma {:induction false} ProcessLinesRevision(st: Store, maxLen: Option<nat>, lines: seq<string>, decode: Decoder)
    requires ProcessLines(st, maxLen, lines, decode).1 == Done
    ensures ProcessLines(st, maxLen, lines, decode).0.revision == st.revision + Decoded(lines, decode)
  {
    if lines != [] {
      ProcessLinesRevision(st, maxLen, lines[..|lines| - 1], decode);
    }
  }

  /** Between rebuilds the indexes only grow: a filed line is appended
      under its level and, when it has one, its name, and nothing else
      changes. */
  lemma ProcessLineAppends(st: Store, maxLen: Option<nat>, line: string, decode: Decoder, k: Json)
    requires decode(line).Some? && ProcessLine(st, maxLen, line, decode).1 == Done
    ensures var e := decode(line).value;
      var ix := ProcessLine(st, maxLen, line, decode).0.ix;
      && Lookup(ix.levelIndex, k) == Lookup(st.ix.levelIndex, k) + (if KeyOf(e, false) == Some(k) then [e] else [])
      && Lookup(ix.moduleIndex, k) == Lookup(st.ix.moduleIndex, k) + (if KeyOf(e, true) == Some(k) then [e] else [])
  {
    var e := decode(line).value;
    IndexStepDone(st.ix, e);
    AppendToLookup(st.ix.levelIndex, KeyOf(e, false).value, e, k);
    if KeyOf(e, true).Some? {
      AppendToLookup(st.ix.moduleIndex, KeyOf(e, true).value, e, k);
    }
  }

  /** Once a bounded cache is full, each filed line evicts an entry the
      level index still holds, so the level total runs one further ahead
      of the cache; unbounded, the two grow together. */
  lemma ProcessLineDrift(st: Store, maxLen: Option<nat>, line: string, decode: Decoder)
    requires decode(line).Some? && ProcessLine(st, maxLen, line, decode).1 == Done
    requires maxLen.Some? ==> |st.cache| == maxLen.value
    ensures var r := ProcessLine(st, maxLen, line, decode).0;
      TotalLen(r.ix.levelIndex) - |r.cache|
        == TotalLen(st.ix.levelIndex) - |st.cache| + (if maxLen.Some? then 1 else 0)
  {
    var e := decode(line).value;
    IndexStepDone(st.ix, e);
    AppendToTotal(st.ix.levelIndex, KeyOf(e, false).value, e);
  }

  // ---------------------------------------------------------------- get_logs

  /** The JSON body `get_logs` answers with. */
  datatype Page = Page(logs: seq<Json>, total: int, start: int, limit: int, revision: int, hasMore: bool)

  /** `[log for k in keys for log in index[k]]`. */
  function Gather(ix: Index, keys: seq<string>): seq<Json> {
    if keys == [] then [] else Gather(ix, keys[..|keys| - 1]) + Lookup(ix, JStr(keys[|keys| - 1]))
  }

  /** The entries `get_logs` pages through, oldest first. With both filters
      it builds `set`s of the filed entries, which are objects and so
      unhashable: it raises `TypeError` unless every looked-up list is
      empty, when the intersection is empty. */
  function Filtered(cache: seq<Json>, ix: Indexes, levels: seq<string>, modules: seq<string>): (r: Result<seq<Json>>)
    ensures r.Raised? ==> r.error == TypeError && levels != [] && modules != []
    ensures levels != [] && modules != [] && r.Ok? ==> r.value == []
  {
    if levels != [] && modules != [] then
      if Gather(ix.levelIndex, levels) == [] && Gather(ix.moduleIndex, modules) == [] then Ok([]) else Raised(TypeError)
    else if levels != [] then Ok(Gather(ix.levelIndex, levels))
    else if modules != [] then Ok(Gather(ix.moduleIndex, modules))
    else Ok(cache)
  }

  /** The page `get_logs` answers for a client at `revision`. */
  function PageOf(cache: seq<Json>, logRevision: int, ix: Indexes, start: int, limit: int,
                  levels: seq<string>, modules: seq<string>, revision: int): (r: Result<Page>)
    ensures revision >= logRevision ==> r == Ok(Page([], |cache|, start, limit, logRevision, false))
  {
    if revision >= logRevision then Ok(Page([], |cache|, start, limit, logRevision, false))
    else
      match Filtered(cache, ix, levels, modules)
      case Raised(e) => Raised(e)
      case Ok(f) =>
        var total := |f|;
        Ok(Page(PySlice(Reverse(f), start, start + limit), total, start, limit, logRevision, start + limit < total))
  }

  /** A page for a client behind the log is read newest first: it holds
      the filtered entries from the `start`-th newest on, at most `limit`
      of them, as many as there are, and `hasMore` says whether older ones
      remain. */
  lemma PageNewestFirst(cache: seq<Json>, logRevision: int, ix: Indexes, start: int, limit: int,
                        levels: seq<string>, modules: seq<string>, revision: int)
    requires revision < logRevision && Filtered(cache, ix, levels, modules).Ok?
    requires 0 <= start && 0 <= limit
    ensures var f := Filtered(cache, ix, levels, modules).value;
      var r := PageOf(cache, logRevision, ix, start, limit, levels, modules, revision);
      && r.Ok? && r.value.total == |f| && r.value.revision == logRevision
      && |r.value.logs| == (if start + limit <= |f| then limit else if start <= |f| then |f| - start else 0)
      && (forall k :: 0 <= k < |r.value.logs| ==> r.value.logs[k] == f[|f| - 1 - (start + k)])
      && (r.value.hasMore <==> start + |r.value.logs| < |f|)
  {
  }

  /** Two consecutive pages read at the same revision join into the page
      that spans both. */
  lemma PagesAdjoin(cache: seq<Json>, logRevision: int, ix: Indexes, start: int, l1: int, l2: int,
                    levels: seq<string>, modules: seq<string>, revision: int)
    requires revision < logRevision && Filtered(cache, ix, levels, modules).Ok?
    requires 0 <= start && 0 <= l1 && 0 <= l2
    ensures var p1 := PageOf(cache, logRevision, ix, start, l1, levels, modules, revision);
      var p2 := PageOf(cache, logRevision, ix, start + l1, l2, levels, modules, revision);
      var p := PageOf(cache, logRevision, ix, start, l1 + l2, levels, modules, revision);
      p1.Ok? && p2.Ok? && p.Ok? && p1.value.logs + p2.value.logs == p.value.logs
  {
    var f := Filtered(cache, ix, levels, modules).value;
    PagesJoin(Reverse(f), start, l1, l2);
  }

  /** `Select` for each requested key in turn. */
  function SelectAll(cache: seq<Json>, keys: seq<string>, byModule: bool): seq<Json> {
    if keys == [] then [] else SelectAll(cache, keys[..|keys| - 1], byModule) + Select(cache, JStr(keys[|keys| - 1]), byModule)
  }

  /** Against freshly rebuilt indexes a single filter reads the same entries
      as scanning the cache for each requested key in turn. */
  lemma {:induction false} GatherRebuilt(cache: seq<Json>, keys: seq<string>, byModule: bool)
    requires Reindex(cache).1 == Done
    ensures Gather(if byModule then Reindex(cache).0.moduleIndex else Reindex(cache).0.levelIndex, keys)
      == SelectAll(cache, keys, byModule)
  {
    if keys != [] {
      GatherRebuilt(cache, keys[..|keys| - 1], byModule);
      ReindexLookup(cache, JStr(keys[|keys| - 1]));
    }
  }

  // ---------------------------------------------------------------- get_log_stats

  /** The JSON body `get_log_stats` answers with. */
  datatype Stats = Stats(totalEntries: int, levelCounts: seq<(Json, nat)>, moduleCounts: seq<(Json, nat)>, revision: int)

  /** `{key: len(entries) for key, entries in index.items()}`. */
  function Counts(ix: Index): (r: seq<(Json, nat)>)
    ensures |r| == |ix|
    ensures forall i :: 0 <= i < |ix| ==> r[i] == (ix[i].key, |ix[i].entries|)
  {
    if ix == [] then [] else [(ix[0].key, |ix[0].entries|)] + Counts(ix[1..])
  }

  /** The sum of a list of counts. */
  function CountSum(counts: seq<(Json, nat)>): nat {
    if counts == [] then 0 else counts[0].1 + CountSum(counts[1..])
  }

  /** `get_log_stats`: the per-key counts of each index add up to that
      index's total, the figure validation compares with `totalEntries`. */
  function StatsOf(cache: seq<Json>, revision: int, ix: Indexes): (r: Stats)
    ensures r.totalEntries == |cache| && r.revision == revision
    ensures CountSum(r.levelCounts) == TotalLen(ix.levelIndex)
    ensures CountSum(r.moduleCounts) == TotalLen(ix.moduleIndex)
  {
    CountSumTotal(ix.levelIndex);
    CountSumTotal(ix.moduleIndex);
    Stats(|cache|, Counts(ix.levelIndex), Counts(ix.moduleIndex), revision)
  }

  /** The counts of an index add up to its total length. */
  lemma {:induction false} CountSumTotal(ix: Index)
    ensures CountSum(Counts(ix)) == TotalLen(ix)
  {
    if ix != [] {
      assert Counts(ix)[1..] == Counts(ix[1..]);
      CountSumTotal(ix[1..]);
    }
  }

  /** Right after a successful rebuild the level counts add up to the
      number of cached entries, and the module counts to the number of
      cached entries that have a name. */
  lemma StatsAfterRebuild(cache: seq<Json>, revision: int)
    requires Reindex(cache).1 == Done
    ensures var s := StatsOf(cache, revision, Reindex(cache).0);
      CountSum(s.levelCounts) == s.totalEntries && CountSum(s.moduleCounts) == Filed(cache, true)
  {
    ReindexTotals(cache);
    CountSumTotal(Reindex(cache).0.levelIndex);
    CountSumTotal(Reindex(cache).0.moduleIndex);
  }
}
