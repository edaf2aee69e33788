/** Values and Python built-in behaviour shared by the three versions of the
    log-tailing engine: decoded JSON values, the file-system observation a
    poll step works on, and the bounded `deque`, `deque(f, maxlen)` tail read
    and list slicing that the engine relies on. */
module Common {

  datatype Option<+T> = None | Some(value: T)

  /** The Python exceptions that can escape an engine operation. */
  datatype PyError = ValueError | TypeError | AttributeError

  /** A value, or the exception that Python raises instead of returning. */
  datatype Result<+T> = Ok(value: T) | Raised(error: PyError)

  /** A value produced by `json.loads` (numbers are kept as integers). */
  datatype Json =
    | JNull
    | JBool(b: bool)
    | JNum(n: int)
    | JStr(s: string)
    | JArr(items: seq<Json>)
    | JObj(fields: map<string, Json>)

  /** `json.loads` as seen by the engine: `None` stands for `JSONDecodeError`. */
  type Decoder = string -> Option<Json>

  /** Python truthiness of a decoded value, as in `if module:`. */
  predicate Truthy(v: Json) {
    match v
    case JNull => false
    case JBool(b) => b
    case JNum(n) => n != 0
    case JStr(s) => s != ""
    case JArr(items) => items != []
    case JObj(fields) => fields != map[]
  }

  /** Whether the value may be a dict key or set member (lists and dicts may not). */
  predicate Hashable(v: Json) {
    !v.JArr? && !v.JObj?
  }

  /** `entry.get(key, default)` on a decoded object. */
  function Get(fields: map<string, Json>, key: string, default: Json): Json {
    if key in fields then fields[key] else default
  }

  // ---------------------------------------------------------------- the file

  /** `(st_dev, st_ino)` of the watched file. */
  datatype FileId = FileId(dev: int, ino: int)

  /** What one poll observes of the watched file: whether it exists, its
      identity and size, every line it holds (what a reload reads), the
      lines after the current read position (what `readlines` after `seek`
      returns), and the offset `tell()` reports at end of file. Lines arrive
      with surrounding whitespace stripped. */
  datatype FileObs =
    | Missing
    | Present(id: FileId, size: nat, lines: seq<string>, newLines: seq<string>, end: nat)

  // ---------------------------------------------------------------- polling

  /** Which branch one iteration of a monitor loop took: the file is
      missing, it was replaced, it shrank below the read position, it grew,
      or nothing changed. */
  datatype Poll = Vanished | Rotated | Truncated | Grew | Idle

  /** The poll interval the monitor loops start from and return to. */
  const InitialSleep: real := 0.1

  /** The ceiling of the idle back-off. */
  const MaxSleep: real := 10.0

  /** The pause after the file is found missing (and after any exception). */
  const MissingPause: real := 5.0

  /** `min(sleep * 1.5, 10.0)`: one idle poll's back-off. */
  function Backoff(sleep: real): (r: real)
    ensures r <= MaxSleep
    ensures sleep >= 0.0 ==> r >= 0.0
    ensures r == sleep * 1.5 || r == MaxSleep
  {
    if sleep * 1.5 < MaxSleep then sleep * 1.5 else MaxSleep
  }

  /** The `(_sleep_duration, _no_changes_count)` pair after one monitor
      iteration, as written: the pair is reset at the top of every
      iteration that follows an idle one, and an idle iteration then backs
      off once from whatever the reset left. */
  function PollSleep(sleep: real, quiet: int, idle: bool): (r: (real, int))
    ensures quiet > 0 ==> r.0 == (if idle then Backoff(InitialSleep) else InitialSleep)
    ensures quiet >= 0 ==> r.1 == (if idle then 1 else 0)
  {
    var (s, q) := if quiet > 0 then (InitialSleep, 0) else (sleep, quiet);
    if idle then (Backoff(s), q + 1) else (s, q)
  }

  /** The pair after `n` idle iterations from the initial one. */
  function IdleRunAsWritten(n: nat): (real, int) {
    if n == 0 then (InitialSleep, 0) else var p := IdleRunAsWritten(n - 1); PollSleep(p.0, p.1, true)
  }

  /** As written, however long the file stays idle the loop sleeps 0.15
      seconds: each idle iteration undoes the previous one's back-off. */
  lemma {:induction false} IdleRunAsWrittenStalls(n: nat)
    requires n >= 1
    ensures IdleRunAsWritten(n) == (Backoff(InitialSleep), 1)
  {
    if n > 1 {
      IdleRunAsWrittenStalls(n - 1);
    }
  }

  /** Three idle iterations: the sleep stays at 0.15 where the back-off
      was meant to have reached 0.3375. */
  lemma IdleRunCounterexample()
    ensures IdleRunAsWritten(3).0 == 0.15
    ensures IdleRun(3) == 0.3375
  {
    IdleRunAsWrittenStalls(3);
  }

  /** The evidently intended update: back off on an idle iteration, go
      back to the initial interval as soon as a change is seen. */
  function PollSleepCorrected(sleep: real, idle: bool): (r: real)
    ensures sleep >= 0.0 ==> 0.0 <= r <= MaxSleep
    ensures !idle ==> r == InitialSleep
  {
    if idle then Backoff(sleep) else InitialSleep
  }

  /** The corrected sleep after `n` idle iterations. */
  function IdleRun(n: nat): real {
    if n == 0 then InitialSleep else PollSleepCorrected(IdleRun(n - 1), true)
  }

  /** `0.1 * 1.5 ** n`. */
  function Growth(n: nat): (r: real)
    ensures r > 0.0
  {
    if n == 0 then InitialSleep else Growth(n - 1) * 1.5
  }

  /** Corrected, `n` idle iterations sleep `min(0.1 * 1.5 ** n, 10.0)`:
      the back-off grows geometrically up to its ceiling. */
  lemma {:induction false} IdleRunGrows(n: nat)
    ensures IdleRun(n) == if Growth(n) < MaxSleep then Growth(n) else MaxSleep
  {
    if n > 0 {
      IdleRunGrows(n - 1);
      if Growth(n - 1) >= MaxSleep {
        assert Growth(n) >= MaxSleep;
      }
    }
  }

  // ---------------------------------------------------------------- deques

  /** What a `deque(maxlen=limit)` holds once `s` has been pushed through it:
      the newest `limit` items, the oldest having been evicted first. */
  function Bounded<T>(s: seq<T>, limit: nat): (r: seq<T>)
    ensures |r| <= limit && |r| <= |s|
    ensures |r| == if |s| <= limit then |s| else limit
    ensures forall k :: 0 <= k < |r| ==> r[k] == s[|s| - |r| + k]
  {
    if |s| <= limit then s else s[|s| - limit..]
  }

  /** Extending a bounded deque batch by batch evicts exactly what extending
      it with everything at once would: eviction only depends on the total. */
  lemma BoundedExtend<T>(a: seq<T>, b: seq<T>, limit: nat)
    ensures Bounded(Bounded(a, limit) + b, limit) == Bounded(a + b, limit)
  {
    var a' := Bounded(a, limit);
    var n := |a| + |b|;
    if n > limit {
      var d := |a| - |a'|;
      assert a' == a[d..];
      assert a' + b == (a + b)[d..];
      var m := |a' + b| - limit;
      assert (a + b)[d..][m..] == (a + b)[d + m..];
    }
  }

  /** The lines a reload keeps: `deque(f, maxlen=limit)` when `limit > 0`,
      otherwise `list(f)`, every line of the file. */
  function TailLines(lines: seq<string>, limit: nat): (r: seq<string>)
    ensures |r| <= |lines| && (limit > 0 ==> |r| <= limit)
    ensures limit == 0 ==> r == lines
    ensures limit > 0 ==> |r| == if |lines| <= limit then |lines| else limit
    ensures forall k :: 0 <= k < |r| ==> r[k] == lines[|lines| - |r| + k]
  {
    if limit > 0 then Bounded(lines, limit) else lines
  }

  // ---------------------------------------------------------------- lists

  /** Python's normalisation of one slice bound against a list of length `n`. */
  function ClampIndex(i: int, n: nat): (r: nat)
    ensures r <= n
    ensures 0 <= i <= n ==> r == i
  {
    if i < 0 then (if i + n < 0 then 0 else i + n) else if i > n then n else i
  }

  /** Python's `s[a:b]`: negative bounds count from the end, out-of-range
      bounds are clamped, and an empty range gives `[]`. */
  function PySlice<T>(s: seq<T>, a: int, b: int): (r: seq<T>)
    ensures |r| <= |s|
    ensures 0 <= a && a <= b ==> |r| <= b - a
    ensures 0 <= a ==> forall k :: 0 <= k < |r| ==> a + k < |s| && r[k] == s[a + k]
  {
    var lo := ClampIndex(a, |s|);
    var hi := ClampIndex(b, |s|);
    if lo < hi then s[lo..hi] else []
  }

  /** Consecutive pages of a list, read with non-negative bounds, join up
      without gaps or overlaps. */
  lemma PagesJoin<T>(s: seq<T>, a: int, l: int, m: int)
    requires 0 <= a && 0 <= l && 0 <= m
    ensures PySlice(s, a, a + l) + PySlice(s, a + l, a + l + m) == PySlice(s, a, a + l + m)
  {
  }

  /** `list.reverse()`: the last item first. */
  function Reverse<T>(s: seq<T>): (r: seq<T>)
    ensures |r| == |s|
    ensures forall k :: 0 <= k < |s| ==> r[k] == s[|s| - 1 - k]
  {
    if s == [] then [] else [s[|s| - 1]] + Reverse(s[..|s| - 1])
  }
}
