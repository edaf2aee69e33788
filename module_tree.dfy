/** The dotted module hierarchy kept by LogFileWrapper.py and
    LoggerFileBackend.py: for a path `p1.p2.….pn` the edges `root → p1`,
    `p1 → p1.p2`, …, `p1.….p(n-1) → p1.….pn`, held as a map from a parent
    path to the set of its children (a `defaultdict(set)`). */
module ModuleTree {

  /** `s.split('.')`: at least one part, and no part holds a '.'. */
  function Split(s: string): (parts: seq<string>)
    ensures |parts| >= 1
    ensures forall k :: 0 <= k < |parts| ==> '.' !in parts[k]
  {
    if |s| == 0 then [""]
    else
      var rest := Split(s[1..]);
      if s[0] == '.' then [""] + rest
      else [[s[0]] + rest[0]] + rest[1..]
  }

  /** `'.'.join(parts)`. */
  function Join(parts: seq<string>): string {
    if |parts| == 0 then ""
    else if |parts| == 1 then parts[0]
    else parts[0] + "." + Join(parts[1..])
  }

  /** Splitting on '.' and joining back gives the path unchanged. */
  lemma {:induction false} JoinSplit(s: string)
    ensures Join(Split(s)) == s
  {
    if |s| > 0 {
      var rest := Split(s[1..]);
      JoinSplit(s[1..]);
      if s[0] == '.' {
        assert Split(s) == [""] + rest;
        assert s == "." + s[1..];
      } else if |rest| == 1 {
        assert Split(s) == [[s[0]] + rest[0]];
        assert s == [s[0]] + s[1..];
      } else {
        var parts := Split(s);
        assert parts == [[s[0]] + rest[0]] + rest[1..];
        assert parts[1..] == rest[1..];
        assert Join(rest) == rest[0] + "." + Join(rest[1..]);
        assert s == [s[0]] + s[1..];
      }
    }
  }

  /** Joining one more part appends it after a '.'. */
  lemma {:induction false} JoinSnoc(parts: seq<string>, x: string)
    requires |parts| >= 1
    ensures Join(parts + [x]) == Join(parts) + "." + x
  {
    if |parts| > 1 {
      assert (parts + [x])[1..] == parts[1..] + [x];
      JoinSnoc(parts[1..], x);
    } else {
      assert (parts + [x])[1..] == [x];
    }
  }

  /** The parent key the loop uses at step `i` (1-based): `root` for the first part. */
  function ParentAt(parts: seq<string>, i: nat): string
    requires 1 <= i <= |parts|
  {
    if i > 1 then Join(parts[..i - 1]) else "root"
  }

  /** The child the loop adds at step `i`: the first `i` parts joined. */
  function ChildAt(parts: seq<string>, i: nat): string
    requires 1 <= i <= |parts|
  {
    Join(parts[..i])
  }

  type Hierarchy = map<string, set<string>>

  /** `module_hierarchy[parent]` of a `defaultdict(set)`: empty when absent. */
  function Children(h: Hierarchy, parent: string): set<string> {
    if parent in h then h[parent] else {}
  }

  /** `module_hierarchy[parent].add(child)`. */
  function Insert(h: Hierarchy, parent: string, child: string): (r: Hierarchy)
    ensures r.Keys == h.Keys + {parent}
    ensures Children(r, parent) == Children(h, parent) + {child}
    ensures forall k :: k != parent ==> Children(r, k) == Children(h, k)
  {
    h[parent := Children(h, parent) + {child}]
  }

  /** The hierarchy after the first `i` steps of the loop over `parts`. */
  function AddEdgesUpTo(h: Hierarchy, parts: seq<string>, i: nat): Hierarchy
    requires i <= |parts|
  {
    if i == 0 then h else Insert(AddEdgesUpTo(h, parts, i - 1), ParentAt(parts, i), ChildAt(parts, i))
  }

  /** The hierarchy after every edge of `path` has been added. */
  function AddPath(h: Hierarchy, path: string): Hierarchy {
    var parts := Split(path);
    AddEdgesUpTo(h, parts, |parts|)
  }

  /** The children the first `i` steps of the loop give to `parent`. */
  function EdgesFrom(parts: seq<string>, i: nat, parent: string): set<string>
    requires i <= |parts|
  {
    set j | 1 <= j <= i && ParentAt(parts, j) == parent :: ChildAt(parts, j)
  }

  /** The parents the first `i` steps of the loop touch. */
  function ParentsUpTo(parts: seq<string>, i: nat): set<string>
    requires i <= |parts|
  {
    set j | 1 <= j <= i :: ParentAt(parts, j)
  }

  /** The loop of `_update_module_hierarchy` after the seen-set test: for
      each prefix of the split path, add it under its parent prefix. */
  method AddPathEdges(h: Hierarchy, path: string) returns (r: Hierarchy)
    ensures r == AddPath(h, path)
  {
    var parts := Split(path);
    r := h;
    for i := 1 to |parts| + 1
      invariant r == AddEdgesUpTo(h, parts, i - 1)
    {
      var parent := if i > 1 then Join(parts[..i - 1]) else "root";
      var child := Join(parts[..i]);
      r := r[parent := Children(r, parent) + {child}];
    }
  }

  lemma EdgesFromStep(parts: seq<string>, i: nat, k: string)
    requires 1 <= i <= |parts|
    ensures EdgesFrom(parts, i, k) ==
      EdgesFrom(parts, i - 1, k) + (if k == ParentAt(parts, i) then {ChildAt(parts, i)} else {})
  {
    var extra := if k == ParentAt(parts, i) then {ChildAt(parts, i)} else {};
    forall c | c in EdgesFrom(parts, i, k) ensures c in EdgesFrom(parts, i - 1, k) + extra {
      var j :| 1 <= j <= i && ParentAt(parts, j) == k && ChildAt(parts, j) == c;
      if j < i { assert c in EdgesFrom(parts, i - 1, k); }
    }
  }

  lemma ParentsUpToStep(parts: seq<string>, i: nat)
    requires 1 <= i <= |parts|
    ensures ParentsUpTo(parts, i) == ParentsUpTo(parts, i - 1) + {ParentAt(parts, i)}
  {
    forall p | p in ParentsUpTo(parts, i) ensures p in ParentsUpTo(parts, i - 1) + {ParentAt(parts, i)} {
      var j :| 1 <= j <= i && ParentAt(parts, j) == p;
      if j < i { assert p in ParentsUpTo(parts, i - 1); }
    }
  }

  lemma ChildrenStep(h: Hierarchy, parent: string, child: string, k: string)
    ensures Children(Insert(h, parent, child), k) ==
      Children(h, k) + (if k == parent then {child} else {})
  {
  }

  /** The first `i` steps add exactly the edges they name, and nothing is
      ever removed. */
  lemma AddEdgesUpToExact(h: Hierarchy, parts: seq<string>, i: nat)
    requires i <= |parts|
    ensures AddEdgesUpTo(h, parts, i).Keys == h.Keys + ParentsUpTo(parts, i)
    ensures forall k :: Children(AddEdgesUpTo(h, parts, i), k) == Children(h, k) + EdgesFrom(parts, i, k)
  {
    AddEdgesUpToKeys(h, parts, i);
    forall k ensures Children(AddEdgesUpTo(h, parts, i), k) == Children(h, k) + EdgesFrom(parts, i, k) {
      AddEdgesUpToChildren(h, parts, i, k);
    }
  }

  lemma {:induction false} AddEdgesUpToKeys(h: Hierarchy, parts: seq<string>, i: nat)
    requires i <= |parts|
    ensures AddEdgesUpTo(h, parts, i).Keys == h.Keys + ParentsUpTo(parts, i)
  {
    if i > 0 {
      AddEdgesUpToKeys(h, parts, i - 1);
      ParentsUpToStep(parts, i);
    } else {
      assert ParentsUpTo(parts, 0) == {};
    }
  }

  lemma {:induction false} AddEdgesUpToChildren(h: Hierarchy, parts: seq<string>, i: nat, k: string)
    requires i <= |parts|
    ensures Children(AddEdgesUpTo(h, parts, i), k) == Children(h, k) + EdgesFrom(parts, i, k)
  {
    if i > 0 {
      AddEdgesUpToChildren(h, parts, i - 1, k);
      EdgesFromStep(parts, i, k);
      ChildrenStep(AddEdgesUpTo(h, parts, i - 1), ParentAt(parts, i), ChildAt(parts, i), k);
    } else {
      assert EdgesFrom(parts, 0, k) == {};
    }
  }

  /** The parents a path's edges hang from. */
  function PathParents(path: string): set<string> {
    var parts := Split(path);
    ParentsUpTo(parts, |parts|)
  }

  /** The children a path's edges give to `parent`. */
  function PathEdges(path: string, parent: string): set<string> {
    var parts := Split(path);
    EdgesFrom(parts, |parts|, parent)
  }

  /** `_update_module_hierarchy` only ever adds: after a path is added the
      hierarchy holds the old edges plus exactly the path's prefix edges. */
  lemma AddPathExact(h: Hierarchy, path: string)
    ensures AddPath(h, path).Keys == h.Keys + PathParents(path)
    ensures forall k :: Children(AddPath(h, path), k) == Children(h, k) + PathEdges(path, k)
  {
    var parts := Split(path);
    AddEdgesUpToExact(h, parts, |parts|);
  }

  /** After a path is added, every prefix of it sits under its parent
      prefix, and the full path under the last of them. */
  lemma AddPathCovers(h: Hierarchy, path: string)
    ensures var parts := Split(path);
      && (forall i :: 1 <= i <= |parts| ==> ChildAt(parts, i) in Children(AddPath(h, path), ParentAt(parts, i)))
      && path in Children(AddPath(h, path), ParentAt(parts, |parts|))
  {
    var parts := Split(path);
    AddPathExact(h, path);
    assert parts[..|parts|] == parts;
    JoinSplit(path);
    forall i | 1 <= i <= |parts|
      ensures ChildAt(parts, i) in PathEdges(path, ParentAt(parts, i))
    {
    }
  }

  /** Two hierarchies with the same parents and the same children are equal. */
  lemma HierarchyExt(a: Hierarchy, b: Hierarchy)
    requires a.Keys == b.Keys
    requires forall k :: Children(a, k) == Children(b, k)
    ensures a == b
  {
    forall k | k in a ensures a[k] == b[k] {
      assert Children(a, k) == Children(b, k);
    }
  }

  /** Adding a path a second time changes nothing. */
  lemma AddPathIdempotent(h: Hierarchy, path: string)
    ensures AddPath(AddPath(h, path), path) == AddPath(h, path)
  {
    var r := AddPath(h, path);
    AddPathExact(h, path);
    AddPathExact(r, path);
    HierarchyExt(AddPath(r, path), r);
  }

  // ---------------------------------------------------------------- tree shape

  /** The parent a dotted path belongs under: everything before its last
      '.', or `root` when it has none. */
  function ParentOf(c: string): string {
    if |c| == 0 then "root"
    else if c[|c| - 1] == '.' then c[..|c| - 1]
    else ParentOf(c[..|c| - 1])
  }

  lemma {:induction false} ParentOfNoDot(c: string)
    requires '.' !in c
    ensures ParentOf(c) == "root"
  {
    if |c| > 0 {
      assert c[..|c| - 1] <= c;
      ParentOfNoDot(c[..|c| - 1]);
    }
  }

  lemma {:induction false} ParentOfJoined(x: string, y: string)
    requires '.' !in y
    ensures ParentOf(x + "." + y) == x
  {
    var c := x + "." + y;
    if |y| == 0 {
      assert c[..|c| - 1] == x;
    } else {
      assert c[..|c| - 1] == x + "." + y[..|y| - 1];
      assert y[..|y| - 1] <= y;
      ParentOfJoined(x, y[..|y| - 1]);
    }
  }

  /** Every edge of the hierarchy runs from a path's `ParentOf` to the path,
      so each module sits under exactly one parent. */
  ghost predicate WellFormed(h: Hierarchy) {
    forall p, c :: p in h && c in h[p] ==> ParentOf(c) == p
  }

  /** Each step of the loop adds a child under its own `ParentOf`. */
  lemma ParentAtIsParentOf(parts: seq<string>, i: nat)
    requires 1 <= i <= |parts|
    requires forall k :: 0 <= k < |parts| ==> '.' !in parts[k]
    ensures ParentOf(ChildAt(parts, i)) == ParentAt(parts, i)
  {
    if i == 1 {
      assert parts[..1] == [parts[0]];
      ParentOfNoDot(parts[0]);
    } else {
      assert parts[..i] == parts[..i - 1] + [parts[i - 1]];
      JoinSnoc(parts[..i - 1], parts[i - 1]);
      ParentOfJoined(Join(parts[..i - 1]), parts[i - 1]);
    }
  }

  /** Adding a path keeps the hierarchy a tree of dotted prefixes. */
  lemma AddPathWellFormed(h: Hierarchy, path: string)
    requires WellFormed(h)
    ensures WellFormed(AddPath(h, path))
  {
    var parts := Split(path);
    var r := AddPath(h, path);
    AddPathExact(h, path);
    forall p, c | p in r && c in r[p] ensures ParentOf(c) == p {
      assert c in Children(r, p);
      if c !in Children(h, p) {
        var j :| 1 <= j <= |parts| && ParentAt(parts, j) == p && ChildAt(parts, j) == c;
        ParentAtIsParentOf(parts, j);
      }
    }
  }
}
