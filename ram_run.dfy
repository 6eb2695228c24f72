/**
 * 2024 day 18: bytes fall one after another onto a square memory grid, each
 * corrupting the cell it lands on.  Part one walks from the top-left corner
 * to the bottom-right corner after the first `prefix` bytes have fallen and
 * reports the number of steps of the shortest walk; part two reports the
 * byte after which the exit can no longer be reached.  Both search the grid
 * breadth first, moving up, down, left or right onto cells that are not
 * corrupted.
 */
module RamRun {
  import opened Text

  /** A cell.  The input line "a,b" lands at `x == b`, `y == a`. */
  datatype Pos = Pos(x: nat, y: nat)

  // ---------------------------------------------------------------------------
  // Parsing

  /** One line: two numbers around the first comma, or `None` when the line is dropped. */
  function ParseByte(line: string): Option<Pos>
  {
    match SplitOnce(line, ",")
      case None => None
      case Some((a, b)) =>
        match ParseNat(b)
          case None => None
          case Some(x) =>
            match ParseNat(a)
              case None => None
              case Some(y) => Some(Pos(x, y))
  }

  /** The `filter_map` over the lines: the bytes of the lines that parse, in order. */
  function Bytes(lines: seq<string>): (r: seq<Pos>)
    ensures |r| <= |lines|
  {
    if lines == [] then []
    else
      Bytes(lines[..|lines| - 1])
      + match ParseByte(lines[|lines| - 1]) case None => [] case Some(p) => [p]
  }

  function Parse(s: string): seq<Pos>
  {
    Bytes(Lines(s))
  }

  /** The answer of part two: the byte as "y,x", the order of the input. */
  function Format(p: Pos): string
  {
    NatToString(p.y) + "," + NatToString(p.x)
  }

  lemma DigitsNoComma(s: string)
    requires AllDigits(s)
    ensures ',' !in s
  {
  }

  /** A line that parses is a number, a comma and a number: `y` before the comma, `x` after it. */
  lemma ParsedLine(line: string)
    requires ParseByte(line).Some?
    ensures exists a, b :: line == a + "," + b && ',' !in a
                           && ParseNat(a) == Some(ParseByte(line).value.y) && ParseNat(b) == Some(ParseByte(line).value.x)
  {
    var (a, b) := SplitOnce(line, ",").value;
    forall k | 0 <= k < |a|
      ensures a[k] != ','
    {
      assert !OccursAt(a, k, ",");
      assert a[k..k + 1] == [a[k]];
    }
  }

  /** A line without a comma is dropped. */
  lemma NoCommaDropped(line: string)
    requires ',' !in line
    ensures ParseByte(line) == None
  {
    forall j: nat
      ensures !OccursAt(line, j, ",")
    {
      if j + 1 <= |line| {
        assert line[j..j + 1] == [line[j]];
      }
    }
  }

  /** Printing a byte the way part two prints its answer and reading it back gives the same byte. */
  lemma FormatRoundTrip(p: Pos)
    ensures ParseByte(Format(p)) == Some(p)
  {
    var a, b := NatToString(p.y), NatToString(p.x);
    DigitsNoComma(a);
    SplitOnceAt(a, ",", b);
    ParseNatToString(p.y);
    ParseNatToString(p.x);
  }

  /** The lines of a list of bytes, each printed as "y,x". */
  function Written(ps: seq<Pos>): (lines: seq<string>)
  {
    seq(|ps|, k requires 0 <= k < |ps| => Format(ps[k]))
  }

  /** Reading the printed lines gives back every byte, in order. */
  lemma {:induction false} BytesRoundTrip(ps: seq<Pos>)
    ensures Bytes(Written(ps)) == ps
  {
    if ps != [] {
      var init := ps[..|ps| - 1];
      assert Written(ps)[..|ps| - 1] == Written(init);
      BytesRoundTrip(init);
      FormatRoundTrip(ps[|ps| - 1]);
      assert ps == init + [ps[|ps| - 1]];
    }
  }

  /** A line without a comma adds no byte. */
  lemma BytesDropLine(lines: seq<string>, bad: string)
    requires ',' !in bad
    ensures Bytes(lines + [bad]) == Bytes(lines)
  {
    NoCommaDropped(bad);
    assert (lines + [bad])[..|lines|] == lines;
  }

  // ---------------------------------------------------------------------------
  // The grid

  predicate Inside(size: nat, p: Pos)
  {
    p.x < size && p.y < size
  }

  function Grid(size: nat): set<Pos>
  {
    set x: nat, y: nat | x < size && y < size :: Pos(x, y)
  }

  lemma InGrid(size: nat, p: Pos)
    requires Inside(size, p)
    ensures p in Grid(size)
  {
    assert p == Pos(p.x, p.y);
  }

  /** The cells of the first `k` bytes, or of all bytes when there are fewer (`take(k)`). */
  function Fallen(bytes: seq<Pos>, k: nat): set<Pos>
  {
    set i | 0 <= i < |bytes| && i < k :: bytes[i]
  }

  /** Every one of the first `k` bytes lands inside the grid; otherwise marking it is an index panic. */
  predicate Landed(bytes: seq<Pos>, k: nat, size: nat)
  {
    forall i :: 0 <= i < |bytes| && i < k ==> Inside(size, bytes[i])
  }

  lemma FallenNext(bytes: seq<Pos>, i: nat)
    requires i < |bytes|
    ensures Fallen(bytes, i + 1) == Fallen(bytes, i) + {bytes[i]}
  {
  }

  lemma FallenAll(bytes: seq<Pos>, k: nat)
    requires k >= |bytes|
    ensures Fallen(bytes, k) == Fallen(bytes, |bytes|)
  {
  }

  const Start := Pos(0, 0)

  function Exit(size: nat): Pos
    requires size > 0
  {
    Pos(size - 1, size - 1)
  }

  /** `b` is one of the four neighbours of `a`. */
  predicate Adjacent(a: Pos, b: Pos)
  {
    (a.x == b.x && (a.y + 1 == b.y || b.y + 1 == a.y)) || (a.y == b.y && (a.x + 1 == b.x || b.x + 1 == a.x))
  }

  /** One move of a walk: to a neighbour inside the grid that is not corrupted. */
  predicate Step(size: nat, fallen: set<Pos>, a: Pos, b: Pos)
  {
    Adjacent(a, b) && Inside(size, b) && b !in fallen
  }

  /**
   * `c` is at the end of a walk of at most `k` moves from the start.  The
   * start itself is not tested: the search begins there even when a byte has
   * fallen on it.
   */
  ghost predicate Within(size: nat, fallen: set<Pos>, c: Pos, k: nat)
    decreases k
  {
    if k == 0 then c == Start
    else Within(size, fallen, c, k - 1) || exists a :: Within(size, fallen, a, k - 1) && Step(size, fallen, a, c)
  }

  ghost predicate Reachable(size: nat, fallen: set<Pos>, c: Pos)
  {
    exists k :: Within(size, fallen, c, k)
  }

  /** The shortest walk from the start to `c` has `d` moves. */
  ghost predicate Shortest(size: nat, fallen: set<Pos>, c: Pos, d: nat)
  {
    Within(size, fallen, c, d) && forall k: nat :: k < d ==> !Within(size, fallen, c, k)
  }

  /** What the search records for `c`: the length of a shortest walk, or nothing when there is no walk. */
  ghost predicate Distance(size: nat, fallen: set<Pos>, c: Pos, r: Option<nat>)
  {
    (r.Some? <==> Reachable(size, fallen, c)) && (r.Some? ==> Shortest(size, fallen, c, r.value))
  }

  // ---------------------------------------------------------------------------
  // Walks

  lemma WithinStep(size: nat, fallen: set<Pos>, a: Pos, b: Pos, k: nat)
    requires Within(size, fallen, a, k) && Step(size, fallen, a, b)
    ensures Within(size, fallen, b, k + 1)
  {
    InGrid(size, b);
  }

  /** More corrupted cells never make more cells reachable. */
  lemma {:induction false} WithinFewer(size: nat, fallen: set<Pos>, more: set<Pos>, k: nat, b: Pos)
    requires fallen <= more && Within(size, more, b, k)
    ensures Within(size, fallen, b, k)
  {
    if k > 0 {
      if Within(size, more, b, k - 1) {
        WithinFewer(size, fallen, more, k - 1, b);
      } else {
        var a :| Within(size, more, a, k - 1) && Step(size, more, a, b);
        WithinFewer(size, fallen, more, k - 1, a);
        WithinStep(size, fallen, a, b, k - 1);
      }
    }
  }

  lemma ReachableFewer(size: nat, fallen: set<Pos>, more: set<Pos>, c: Pos)
    requires fallen <= more && Reachable(size, more, c)
    ensures Reachable(size, fallen, c)
  {
    var k :| Within(size, more, c, k);
    WithinFewer(size, fallen, more, k, c);
  }

  /** With nothing corrupted, `(x, y)` is reached in `x + y` moves: along the top row, then down. */
  lemma {:induction false} OpenWalk(size: nat, fallen: set<Pos>, x: nat, y: nat, k: nat)
    requires fallen == {} && x < size && y < size && k == x + y
    ensures Within(size, fallen, Pos(x, y), k)
  {
    if y > 0 {
      OpenWalk(size, fallen, x, y - 1, k - 1);
      WithinStep(size, fallen, Pos(x, y - 1), Pos(x, y), k - 1);
    } else if x > 0 {
      OpenWalk(size, fallen, x - 1, 0, k - 1);
      WithinStep(size, fallen, Pos(x - 1, 0), Pos(x, 0), k - 1);
    }
  }

  /**
   * A cell at shortest distance `d > 0` has a neighbour at shortest distance
   * `d - 1` from which it is a step: the distance the search records for a
   * cell is its predecessor's plus one.
   */
  lemma Predecessor(size: nat, fallen: set<Pos>, c: Pos, d: nat)
    requires Shortest(size, fallen, c, d) && d > 0
    ensures exists a :: Step(size, fallen, a, c) && Shortest(size, fallen, a, d - 1)
  {
    assert !Within(size, fallen, c, d - 1);
    var a :| Within(size, fallen, a, d - 1) && Step(size, fallen, a, c);
    forall k: nat | k < d - 1
      ensures !Within(size, fallen, a, k)
    {
      if Within(size, fallen, a, k) {
        WithinStep(size, fallen, a, c, k);
      }
    }
    assert Shortest(size, fallen, a, d - 1);
  }

  /** Before any byte falls the exit is reachable. */
  lemma OpenExit(bytes: seq<Pos>, size: nat)
    requires size > 0
    ensures Reachable(size, Fallen(bytes, 0), Exit(size))
  {
    assert Fallen(bytes, 0) == {};
    OpenWalk(size, Fallen(bytes, 0), size - 1, size - 1, 2 * (size - 1));
  }

  // ---------------------------------------------------------------------------
  // The search's record: every enqueued (distance, cell), in order

  type Entry = (nat, Pos)

  /** The distance recorded for `p`, if `p` was ever enqueued. */
  function Find(log: seq<Entry>, p: Pos): Option<nat>
  {
    if log == [] then None
    else if Find(log[..|log| - 1], p).Some? then Find(log[..|log| - 1], p)
    else if log[|log| - 1].1 == p then Some(log[|log| - 1].0)
    else None
  }

  /** `p` was enqueued with a distance of at most `bound`. */
  predicate Near(log: seq<Entry>, p: Pos, bound: nat)
  {
    Find(log, p).Some? && Find(log, p).value <= bound
  }

  lemma FindSnoc(log: seq<Entry>, x: Entry, p: Pos)
    ensures Find(log + [x], p) == if Find(log, p).Some? then Find(log, p) else if x.1 == p then Some(x.0) else None
  {
    assert (log + [x])[..|log|] == log;
  }

  lemma {:induction false} FindPrefix(log: seq<Entry>, log': seq<Entry>, p: Pos)
    requires log <= log' && Find(log, p).Some?
    ensures Find(log', p) == Find(log, p)
    decreases |log'|
  {
    if |log'| > |log| {
      var init := log'[..|log'| - 1];
      assert log <= init;
      FindPrefix(log, init, p);
    } else {
      assert log' == log;
    }
  }

  /** Where in the log a recorded distance came from. */
  lemma {:induction false} FindIndex(log: seq<Entry>, p: Pos) returns (i: nat)
    requires Find(log, p).Some?
    ensures i < |log| && log[i] == (Find(log, p).value, p)
  {
    var init := log[..|log| - 1];
    if Find(init, p).Some? {
      i := FindIndex(init, p);
    } else {
      i := |log| - 1;
    }
  }

  /** The cells of a log, as a set. */
  function Seen(log: seq<Entry>): set<Pos>
  {
    if log == [] then {} else Seen(log[..|log| - 1]) + {log[|log| - 1].1}
  }

  lemma {:induction false} SeenFind(log: seq<Entry>, p: Pos)
    requires p in Seen(log)
    ensures Find(log, p).Some?
  {
    var init := log[..|log| - 1];
    if p in Seen(init) {
      SeenFind(init, p);
    }
  }

  /** No cell is enqueued twice. */
  predicate Fresh(log: seq<Entry>)
  {
    log == [] || (Fresh(log[..|log| - 1]) && Find(log[..|log| - 1], log[|log| - 1].1).None?)
  }

  /** Distances never decrease along the queue. */
  predicate Sorted(log: seq<Entry>)
  {
    |log| <= 1 || (Sorted(log[..|log| - 1]) && log[|log| - 2].0 <= log[|log| - 1].0)
  }

  /** Every enqueued cell is inside the grid and reached within its recorded distance. */
  ghost predicate Sound(size: nat, fallen: set<Pos>, log: seq<Entry>)
  {
    log == []
    || (Sound(size, fallen, log[..|log| - 1]) && Inside(size, log[|log| - 1].1)
        && Within(size, fallen, log[|log| - 1].1, log[|log| - 1].0))
  }

  /** Every move out of the cell of `x` ends at a cell enqueued at most one further. */
  ghost predicate Closes(size: nat, fallen: set<Pos>, log: seq<Entry>, x: Entry)
  {
    forall b :: Step(size, fallen, x.1, b) ==> Near(log, b, x.0 + 1)
  }

  /** The first `k` entries have had all their moves tried. */
  ghost predicate ClosedUpTo(size: nat, fallen: set<Pos>, log: seq<Entry>, k: nat)
    requires k <= |log|
  {
    k == 0 || (ClosedUpTo(size, fallen, log, k - 1) && Closes(size, fallen, log, log[k - 1]))
  }

  lemma {:induction false} SortedAt(log: seq<Entry>, i: nat, j: nat)
    requires Sorted(log) && i <= j < |log|
    ensures log[i].0 <= log[j].0
  {
    var init := log[..|log| - 1];
    if j < |log| - 1 {
      SortedAt(init, i, j);
    } else if i < j {
      SortedAt(init, i, j - 1);
    }
  }

  lemma FindBelowLast(log: seq<Entry>, p: Pos)
    requires Sorted(log) && Find(log, p).Some?
    ensures Find(log, p).value <= log[|log| - 1].0
  {
    var i := FindIndex(log, p);
    SortedAt(log, i, |log| - 1);
  }

  lemma {:induction false} SoundAt(size: nat, fallen: set<Pos>, log: seq<Entry>, i: nat)
    requires Sound(size, fallen, log) && i < |log|
    ensures Inside(size, log[i].1) && Within(size, fallen, log[i].1, log[i].0)
  {
    if i < |log| - 1 {
      SoundAt(size, fallen, log[..|log| - 1], i);
    }
  }

  lemma ClosesKept(size: nat, fallen: set<Pos>, log: seq<Entry>, x: Entry, y: Entry)
    requires Closes(size, fallen, log, y)
    ensures Closes(size, fallen, log + [x], y)
  {
    forall b | Step(size, fallen, y.1, b)
      ensures Near(log + [x], b, y.0 + 1)
    {
      FindSnoc(log, x, b);
    }
  }

  lemma {:induction false} ClosedKept(size: nat, fallen: set<Pos>, log: seq<Entry>, x: Entry, k: nat)
    requires k <= |log| && ClosedUpTo(size, fallen, log, k)
    ensures ClosedUpTo(size, fallen, log + [x], k)
  {
    if k > 0 {
      ClosedKept(size, fallen, log, x, k - 1);
      ClosesKept(size, fallen, log, x, log[k - 1]);
      assert (log + [x])[k - 1] == log[k - 1];
    }
  }

  lemma {:induction false} ClosedAt(size: nat, fallen: set<Pos>, log: seq<Entry>, k: nat, i: nat)
    requires i < k <= |log| && ClosedUpTo(size, fallen, log, k)
    ensures Closes(size, fallen, log, log[i])
  {
    if i < k - 1 {
      ClosedAt(size, fallen, log, k - 1, i);
    }
  }

  /** A repetition-free log of cells inside the grid is no longer than the grid is large. */
  lemma {:induction false} SeenSize(size: nat, fallen: set<Pos>, log: seq<Entry>)
    requires Fresh(log) && Sound(size, fallen, log)
    ensures |Seen(log)| == |log| && Seen(log) <= Grid(size)
  {
    if log != [] {
      var init, p := log[..|log| - 1], log[|log| - 1].1;
      SeenSize(size, fallen, init);
      if p in Seen(init) {
        SeenFind(init, p);
      }
      InGrid(size, p);
    }
  }

  lemma LogBound(size: nat, fallen: set<Pos>, log: seq<Entry>)
    requires Fresh(log) && Sound(size, fallen, log)
    ensures |log| <= |Grid(size)|
  {
    SeenSize(size, fallen, log);
    SubsetCard(Seen(log), Grid(size));
  }

  /**
   * The search's invariant.  `log` lists every entry ever enqueued; the first
   * `done` have been taken off the queue and the first `closed` of them have
   * had their four moves tried.  Each cell is enqueued once, distances never
   * decrease and the last entry is at most one further than the entry being
   * expanded.
   */
  ghost predicate Searching(size: nat, fallen: set<Pos>, log: seq<Entry>, done: nat, closed: nat)
  {
    closed <= done <= |log| && Find(log, Start) == Some(0) && Fresh(log) && Sound(size, fallen, log) && Sorted(log)
    && (if done > 0 then log[|log| - 1].0 <= log[done - 1].0 + 1 else |log| == 1)
    && ClosedUpTo(size, fallen, log, closed)
  }

  lemma StartSearch(size: nat, fallen: set<Pos>)
    requires size > 0
    ensures Searching(size, fallen, [(0, Start)], 0, 0)
  {
    var log: seq<Entry> := [(0, Start)];
    assert log[..0] == [];
    assert Sound(size, fallen, []);
    assert Within(size, fallen, Start, 0);
    assert Sound(size, fallen, log);
    assert Find(log, Start) == Some(0);
  }

  /** Taking the next entry off the queue; its cell is inside the grid. */
  lemma PopStep(size: nat, fallen: set<Pos>, log: seq<Entry>, done: nat)
    requires Searching(size, fallen, log, done, done) && done < |log|
    ensures Searching(size, fallen, log, done + 1, done) && Inside(size, log[done].1)
  {
    if done > 0 {
      SortedAt(log, done - 1, done);
    }
    SoundAt(size, fallen, log, done);
  }

  /** What appending an entry does to the log's properties. */
  lemma Snoc(size: nat, fallen: set<Pos>, log: seq<Entry>, x: Entry)
    ensures Fresh(log + [x]) <==> Fresh(log) && Find(log, x.1).None?
    ensures Sorted(log + [x]) <==> Sorted(log) && (|log| > 0 ==> log[|log| - 1].0 <= x.0)
    ensures Sound(size, fallen, log + [x]) <==> Sound(size, fallen, log) && Inside(size, x.1) && Within(size, fallen, x.1, x.0)
  {
    assert (log + [x])[..|log|] == log;
  }

  /** A neighbour of a sound entry, one further, is sound too. */
  lemma SoundPush(size: nat, fallen: set<Pos>, log: seq<Entry>, i: nat, b: Pos)
    requires Sound(size, fallen, log) && i < |log| && Step(size, fallen, log[i].1, b)
    ensures Sound(size, fallen, log + [(log[i].0 + 1, b)])
  {
    SoundAt(size, fallen, log, i);
    WithinStep(size, fallen, log[i].1, b, log[i].0);
    Snoc(size, fallen, log, (log[i].0 + 1, b));
  }

  /** Enqueueing a neighbour of the entry being expanded, one further than it. */
  lemma PushStep(size: nat, fallen: set<Pos>, log: seq<Entry>, done: nat, b: Pos)
    requires done > 0 && Searching(size, fallen, log, done, done - 1)
    requires Step(size, fallen, log[done - 1].1, b) && Find(log, b).None?
    ensures Searching(size, fallen, log + [(log[done - 1].0 + 1, b)], done, done - 1)
  {
    var x := (log[done - 1].0 + 1, b);
    SoundPush(size, fallen, log, done - 1, b);
    Snoc(size, fallen, log, x);
    FindSnoc(log, x, Start);
    ClosedKept(size, fallen, log, x, done - 1);
    assert (log + [x])[done - 1] == log[done - 1];
  }

  /** Once every move out of the expanded entry is covered, it is closed. */
  lemma CloseStep(size: nat, fallen: set<Pos>, log: seq<Entry>, done: nat)
    requires done > 0 && Searching(size, fallen, log, done, done - 1)
    requires Closes(size, fallen, log, log[done - 1])
    ensures Searching(size, fallen, log, done, done)
  {
  }

  /** When all entries are closed, every cell within `k` moves was enqueued at most `k` away. */
  lemma {:induction false} Complete(size: nat, fallen: set<Pos>, log: seq<Entry>, k: nat, c: Pos)
    requires Searching(size, fallen, log, |log|, |log|) && Within(size, fallen, c, k)
    ensures Near(log, c, k)
  {
    if k > 0 {
      if Within(size, fallen, c, k - 1) {
        Complete(size, fallen, log, k - 1, c);
      } else {
        var a :| Within(size, fallen, a, k - 1) && Step(size, fallen, a, c);
        Complete(size, fallen, log, k - 1, a);
        var i := FindIndex(log, a);
        ClosedAt(size, fallen, log, |log|, i);
      }
    }
  }

  /** When the queue is empty, the recorded distance of each cell is its shortest walk, if any. */
  lemma DistanceOf(size: nat, fallen: set<Pos>, log: seq<Entry>, c: Pos)
    requires Searching(size, fallen, log, |log|, |log|)
    ensures Distance(size, fallen, c, Find(log, c))
  {
    if Find(log, c).Some? {
      var e := Find(log, c).value;
      var i := FindIndex(log, c);
      SoundAt(size, fallen, log, i);
      forall k: nat | k < e
        ensures !Within(size, fallen, c, k)
      {
        if Within(size, fallen, c, k) {
          Complete(size, fallen, log, k, c);
        }
      }
    } else {
      forall k
        ensures !Within(size, fallen, c, k)
      {
        if Within(size, fallen, c, k) {
          Complete(size, fallen, log, k, c);
        }
      }
    }
  }

  // ---------------------------------------------------------------------------
  // The grids of the program

  /** The field: `true` (full) exactly on the corrupted cells. */
  ghost predicate Marked(field: array2<bool>, fallen: set<Pos>)
    reads field
  {
    forall i, j :: 0 <= i < field.Length0 && 0 <= j < field.Length1 ==> (field[i, j] <==> Pos(i, j) in fallen)
  }

  /** The `dist` grid holds exactly the distances recorded in the log. */
  ghost predicate Painted(dist: array2<Option<nat>>, log: seq<Entry>)
    reads dist
  {
    forall i, j :: 0 <= i < dist.Length0 && 0 <= j < dist.Length1 ==> Agrees(dist, log, i, j)
  }

  /** The cell `(i, j)` of `dist` holds the distance the log records for it. */
  ghost predicate Agrees(dist: array2<Option<nat>>, log: seq<Entry>, i: nat, j: nat)
    reads dist
  {
    i < dist.Length0 && j < dist.Length1 && dist[i, j] == Find(log, Pos(i, j))
  }

  /**
   * `solve` and `check` before the search: a field of empty cells with the
   * first `prefix` bytes marked full.  `ok` is false when a byte lands outside
   * the grid, where the program panics.
   */
  method Fall(bytes: seq<Pos>, prefix: nat, size: nat) returns (field: array2<bool>, ok: bool)
    ensures fresh(field) && field.Length0 == size && field.Length1 == size
    ensures ok <==> Landed(bytes, prefix, size)
    ensures ok ==> Marked(field, Fallen(bytes, prefix))
  {
    field := new bool[size, size]((i, j) => false);
    var count := if prefix < |bytes| then prefix else |bytes|;
    for i := 0 to count
      invariant Landed(bytes, i, size) && Marked(field, Fallen(bytes, i))
    {
      var p := bytes[i];
      if !(p.x < size && p.y < size) {
        return field, false;
      }
      FallenNext(bytes, i);
      field[p.x, p.y] := true;
    }
    if prefix >= |bytes| {
      FallenAll(bytes, prefix);
    }
    ok := true;
  }

  /** Recording a distance for a cell not yet enqueued. */
  method Record(dist: array2<Option<nat>>, ghost log: seq<Entry>, x: Entry)
    requires Painted(dist, log) && x.1.x < dist.Length0 && x.1.y < dist.Length1 && Find(log, x.1).None?
    modifies dist
    ensures Painted(dist, log + [x])
  {
    dist[x.1.x, x.1.y] := Some(x.0);
    forall i, j | 0 <= i < dist.Length0 && 0 <= j < dist.Length1
      ensures Agrees(dist, log + [x], i, j)
    {
      assert old(Agrees(dist, log, i, j));
      FindSnoc(log, x, Pos(i, j));
    }
  }

  /** The four moves, in the order the search tries them. */
  const Deltas: seq<(int, int)> := [(-1, 0), (1, 0), (0, -1), (0, 1)]

  /** The move along `d` out of `a` is covered: when it is a step, its cell is enqueued at most `bound` away. */
  predicate Tried(size: nat, fallen: set<Pos>, log: seq<Entry>, a: Pos, bound: nat, d: (int, int))
  {
    var x, y := a.x + d.0, a.y + d.1;
    x >= 0 && y >= 0 && Step(size, fallen, a, Pos(x, y)) ==> Near(log, Pos(x, y), bound)
  }

  /** Covering the four moves covers every step out of `a`. */
  lemma AllTried(size: nat, fallen: set<Pos>, log: seq<Entry>, a: Pos, bound: nat)
    requires forall e :: 0 <= e < 4 ==> Tried(size, fallen, log, a, bound, Deltas[e])
    ensures forall b :: Step(size, fallen, a, b) ==> Near(log, b, bound)
  {
    forall b | Step(size, fallen, a, b)
      ensures Near(log, b, bound)
    {
      var e := if b.x + 1 == a.x then 0 else if a.x + 1 == b.x then 1 else if b.y + 1 == a.y then 2 else 3;
      assert Tried(size, fallen, log, a, bound, Deltas[e]);
    }
  }

  /** Moves covered before stay covered as the log grows, and the next one joins them. */
  lemma TriedKept(size: nat, fallen: set<Pos>, log: seq<Entry>, log': seq<Entry>, a: Pos, bound: nat, e: nat)
    requires log <= log' && e < 4
    requires forall e' :: 0 <= e' < e ==> Tried(size, fallen, log, a, bound, Deltas[e'])
    requires Tried(size, fallen, log', a, bound, Deltas[e])
    ensures forall e' :: 0 <= e' < e + 1 ==> Tried(size, fallen, log', a, bound, Deltas[e'])
  {
    forall e' | 0 <= e' < e
      ensures Tried(size, fallen, log', a, bound, Deltas[e'])
    {
      var x, y := a.x + Deltas[e'].0, a.y + Deltas[e'].1;
      if x >= 0 && y >= 0 && Step(size, fallen, a, Pos(x, y)) {
        FindPrefix(log, log', Pos(x, y));
      }
    }
  }

  lemma QueueGrows(log: seq<Entry>, done: nat, x: Entry)
    requires done <= |log|
    ensures (log + [x])[done..] == log[done..] + [x]
  {
  }

  /** When the queue is empty, `dist` holds the distance of every cell. */
  lemma Distances(size: nat, fallen: set<Pos>, dist: array2<Option<nat>>, log: seq<Entry>, done: nat)
    requires Frontier(size, fallen, dist, [], log, done)
    ensures forall i, j :: 0 <= i < dist.Length0 && 0 <= j < dist.Length1 ==> Distance(size, fallen, Pos(i, j), dist[i, j])
  {
    forall i, j | 0 <= i < dist.Length0 && 0 <= j < dist.Length1
      ensures Distance(size, fallen, Pos(i, j), dist[i, j])
    {
      assert Agrees(dist, log, i, j);
      DistanceOf(size, fallen, log, Pos(i, j));
    }
  }

  /** The entry taken off the queue is reachable. */
  lemma PoppedReachable(size: nat, fallen: set<Pos>, dist: array2<Option<nat>>, queue: seq<Entry>, log: seq<Entry>, done: nat)
    requires Frontier(size, fallen, dist, queue, log, done) && queue != []
    ensures Reachable(size, fallen, queue[0].1)
  {
    SoundAt(size, fallen, log, done);
  }

  /** One move of the `for` loop: enqueue the neighbour along `delta` if it is inside, not full and unvisited. */
  method TryMove(field: array2<bool>, dist: array2<Option<nat>>, size: nat, ghost fallen: set<Pos>,
                 d: nat, a: Pos, delta: (int, int), queue: seq<Entry>, ghost log: seq<Entry>, ghost done: nat)
    returns (queue': seq<Entry>, ghost log': seq<Entry>)
    requires field.Length0 == size && field.Length1 == size && dist.Length0 == size && dist.Length1 == size
    requires Marked(field, fallen) && Painted(dist, log)
    requires done > 0 && Searching(size, fallen, log, done, done - 1) && log[done - 1] == (d, a)
    requires queue == log[done..] && delta in Deltas
    modifies dist
    ensures Searching(size, fallen, log', done, done - 1) && log <= log'
    ensures queue' == log'[done..] && Painted(dist, log') && Tried(size, fallen, log', a, d + 1, delta)
  {
    var x2, y2 := a.x + delta.0, a.y + delta.1;
    if 0 <= x2 < size && 0 <= y2 < size {
      assert Agrees(dist, log, x2, y2);
    }
    if 0 <= x2 < size && 0 <= y2 < size && !field[x2, y2] && dist[x2, y2].None? {
      queue', log' := Push(dist, size, fallen, d, a, Pos(x2, y2), queue, log, done);
    } else {
      queue', log' := queue, log;
      if 0 <= x2 < size && 0 <= y2 < size && !field[x2, y2] {
        FindBelowLast(log, Pos(x2, y2));
      }
    }
  }

  /** Enqueueing `b`, a step away from the expanded cell `a`, one further than `a`. */
  method Push(dist: array2<Option<nat>>, size: nat, ghost fallen: set<Pos>,
              d: nat, a: Pos, b: Pos, queue: seq<Entry>, ghost log: seq<Entry>, ghost done: nat)
    returns (queue': seq<Entry>, ghost log': seq<Entry>)
    requires dist.Length0 == size && dist.Length1 == size && Painted(dist, log)
    requires done > 0 && Searching(size, fallen, log, done, done - 1) && log[done - 1] == (d, a)
    requires queue == log[done..] && Step(size, fallen, a, b) && Find(log, b).None?
    modifies dist
    ensures Searching(size, fallen, log', done, done - 1) && log <= log'
    ensures queue' == log'[done..] && Painted(dist, log') && Near(log', b, d + 1)
  {
    PushStep(size, fallen, log, done, b);
    Record(dist, log, (d + 1, b));
    QueueGrows(log, done, (d + 1, b));
    FindSnoc(log, (d + 1, b), b);
    queue' := queue + [(d + 1, b)];
    log' := log + [(d + 1, b)];
  }

  /** The `for` loop over the four moves, in order. */
  method Expand(field: array2<bool>, dist: array2<Option<nat>>, size: nat, ghost fallen: set<Pos>,
                d: nat, a: Pos, queue: seq<Entry>, ghost log: seq<Entry>, ghost done: nat)
    returns (queue': seq<Entry>, ghost log': seq<Entry>)
    requires field.Length0 == size && field.Length1 == size && dist.Length0 == size && dist.Length1 == size
    requires Marked(field, fallen) && Painted(dist, log)
    requires done > 0 && Searching(size, fallen, log, done, done - 1) && log[done - 1] == (d, a)
    requires queue == log[done..]
    modifies dist
    ensures Searching(size, fallen, log', done, done) && log <= log'
    ensures queue' == log'[done..] && Painted(dist, log')
  {
    queue', log' := queue, log;
    for e := 0 to 4
      invariant Searching(size, fallen, log', done, done - 1) && log <= log' && log'[done - 1] == (d, a)
      invariant queue' == log'[done..] && Painted(dist, log')
      invariant forall e' :: 0 <= e' < e ==> Tried(size, fallen, log', a, d + 1, Deltas[e'])
    {
      ghost var before := log';
      queue', log' := TryMove(field, dist, size, fallen, d, a, Deltas[e], queue', log', done);
      TriedKept(size, fallen, before, log', a, d + 1, e);
    }
    AllTried(size, fallen, log', a, d + 1);
    CloseStep(size, fallen, log', done);
  }

  /** The state of a `while let` loop between rounds: the queue is the log's unpopped part and `dist` mirrors the log. */
  ghost predicate Frontier(size: nat, fallen: set<Pos>, dist: array2<Option<nat>>, queue: seq<Entry>, log: seq<Entry>, done: nat)
    reads dist
  {
    Searching(size, fallen, log, done, done) && queue == log[done..] && Painted(dist, log)
  }

  /** The grid `dist` and the queue before the `while let` loop: only the start, at distance 0. */
  method Begin(size: nat, ghost fallen: set<Pos>) returns (dist: array2<Option<nat>>, queue: seq<Entry>, ghost log: seq<Entry>)
    requires size > 0
    ensures fresh(dist) && dist.Length0 == size && dist.Length1 == size
    ensures Frontier(size, fallen, dist, queue, log, 0)
  {
    dist := new Option<nat>[size, size]((i, j) => None);
    dist[0, 0] := Some(0);
    queue := [(0, Start)];
    log := queue;
    StartSearch(size, fallen);
    forall i, j | 0 <= i < size && 0 <= j < size
      ensures Agrees(dist, log, i, j)
    {
      FindSnoc([], (0, Start), Pos(i, j));
      assert [] + [(0, Start)] == log;
    }
  }

  /** One round of the `while let` loop after the front entry is taken: pop it and expand it. */
  method Advance(field: array2<bool>, dist: array2<Option<nat>>, size: nat, ghost fallen: set<Pos>,
                 queue: seq<Entry>, ghost log: seq<Entry>, ghost done: nat, ghost target: Pos)
    returns (queue': seq<Entry>, ghost log': seq<Entry>)
    requires field.Length0 == size && field.Length1 == size && dist.Length0 == size && dist.Length1 == size
    requires Marked(field, fallen) && Frontier(size, fallen, dist, queue, log, done) && queue != []
    modifies dist
    ensures Frontier(size, fallen, dist, queue', log', done + 1) && done < |Grid(size)|
    ensures Unpopped(log, done, target) && queue[0].1 != target ==> Unpopped(log', done + 1, target)
  {
    LogBound(size, fallen, log);
    var (d, a) := queue[0];
    PopStep(size, fallen, log, done);
    queue', log' := Expand(field, dist, size, fallen, d, a, queue[1..], log, done + 1);
    if Unpopped(log, done, target) && a != target {
      UnpoppedKept(log, log', done, target);
      assert log'[done] == log[done];
    }
  }

  /**
   * The `while let` loop of part one: the breadth-first search from the
   * start.  Afterwards `dist` holds the length of a shortest walk to every
   * reachable cell and nothing for the others.
   */
  method Search(field: array2<bool>, size: nat, ghost fallen: set<Pos>) returns (dist: array2<Option<nat>>)
    requires size > 0 && field.Length0 == size && field.Length1 == size && Marked(field, fallen)
    ensures fresh(dist) && dist.Length0 == size && dist.Length1 == size
    ensures forall i, j :: 0 <= i < size && 0 <= j < size ==> Distance(size, fallen, Pos(i, j), dist[i, j])
  {
    var queue;
    ghost var log;
    dist, queue, log := Begin(size, fallen);
    ghost var done: nat := 0;
    while queue != []
      invariant Frontier(size, fallen, dist, queue, log, done)
      decreases |Grid(size)| - done
    {
      queue, log := Advance(field, dist, size, fallen, queue, log, done, Start);
      done := done + 1;
    }
    Distances(size, fallen, dist, log, done);
  }

  /**
   * Part one: the number of moves of a shortest walk from the start to the
   * exit after the first `prefix` bytes have fallen.  `None` is a panic: a
   * byte outside the grid, or no walk at all (`unwrap` on an empty distance).
   */
  method SolvePartOne(bytes: seq<Pos>, size: nat, prefix: nat) returns (r: Option<nat>)
    requires size > 0
    ensures r.Some? <==> Landed(bytes, prefix, size) && Reachable(size, Fallen(bytes, prefix), Exit(size))
    ensures r.Some? ==> Shortest(size, Fallen(bytes, prefix), Exit(size), r.value)
  {
    var field, ok := Fall(bytes, prefix, size);
    if !ok {
      return None;
    }
    var dist := Search(field, size, Fallen(bytes, prefix));
    r := dist[size - 1, size - 1];
  }

  /** The cell `target` was not among the first `done` entries taken off the queue. */
  ghost predicate Unpopped(log: seq<Entry>, done: nat, target: Pos)
    requires done <= |log|
  {
    done == 0 || (Unpopped(log, done - 1, target) && log[done - 1].1 != target)
  }

  lemma {:induction false} UnpoppedKept(log: seq<Entry>, log': seq<Entry>, done: nat, target: Pos)
    requires done <= |log| && log <= log' && Unpopped(log, done, target)
    ensures Unpopped(log', done, target)
  {
    if done > 0 {
      UnpoppedKept(log, log', done - 1, target);
      assert log'[done - 1] == log[done - 1];
    }
  }

  lemma {:induction false} UnpoppedAt(log: seq<Entry>, done: nat, i: nat, target: Pos)
    requires i < done <= |log| && Unpopped(log, done, target)
    ensures log[i].1 != target
  {
    if i < done - 1 {
      UnpoppedAt(log, done - 1, i, target);
    }
  }

  lemma NeverPopped(size: nat, fallen: set<Pos>, dist: array2<Option<nat>>, log: seq<Entry>, done: nat, target: Pos)
    requires Frontier(size, fallen, dist, [], log, done) && Unpopped(log, done, target)
    ensures !Reachable(size, fallen, target)
  {
    if Find(log, target).Some? {
      var i := FindIndex(log, target);
      UnpoppedAt(log, done, i, target);
    }
    DistanceOf(size, fallen, log, target);
  }

  /**
   * `check` of part two: whether the exit is still reachable after the first
   * `prefix` bytes have fallen.  The search stops as soon as the exit comes
   * off the queue.  `None` is the panic of a byte outside the grid.
   */
  method Check(bytes: seq<Pos>, size: nat, prefix: nat) returns (r: Option<bool>)
    requires size > 0
    ensures r.Some? <==> Landed(bytes, prefix, size)
    ensures r.Some? ==> (r.value <==> Reachable(size, Fallen(bytes, prefix), Exit(size)))
  {
    var field, ok := Fall(bytes, prefix, size);
    if !ok {
      return None;
    }
    var found := Reaches(field, size, Fallen(bytes, prefix));
    return Some(found);
  }

  /** The search of `check`: it stops as soon as the exit comes off the queue. */
  method Reaches(field: array2<bool>, size: nat, ghost fallen: set<Pos>) returns (found: bool)
    requires size > 0 && field.Length0 == size && field.Length1 == size && Marked(field, fallen)
    ensures found <==> Reachable(size, fallen, Exit(size))
  {
    var dist, queue;
    ghost var log;
    dist, queue, log := Begin(size, fallen);
    ghost var done: nat := 0;
    while queue != [] && queue[0].1 != Exit(size)
      invariant Frontier(size, fallen, dist, queue, log, done) && Unpopped(log, done, Exit(size))
      decreases |Grid(size)| - done
    {
      queue, log := Advance(field, dist, size, fallen, queue, log, done, Exit(size));
      done := done + 1;
    }
    Outcome(size, fallen, dist, queue, log, done);
    return queue != [];
  }

  /** The search of `check` stops with the exit at the front of the queue exactly when the exit is reachable. */
  lemma Outcome(size: nat, fallen: set<Pos>, dist: array2<Option<nat>>, queue: seq<Entry>, log: seq<Entry>, done: nat)
    requires size > 0 && Frontier(size, fallen, dist, queue, log, done) && Unpopped(log, done, Exit(size))
    requires queue == [] || queue[0].1 == Exit(size)
    ensures queue != [] <==> Reachable(size, fallen, Exit(size))
  {
    if queue != [] {
      PoppedReachable(size, fallen, dist, queue, log, done);
    } else {
      NeverPopped(size, fallen, dist, log, done, Exit(size));
    }
  }

  // ---------------------------------------------------------------------------
  // Part two

  /** The largest `i < k` such that the exit is reachable after the first `i` bytes. */
  ghost function LastOpen(bytes: seq<Pos>, size: nat, k: nat): (r: Option<nat>)
    requires size > 0
    ensures r.Some? ==> r.value < k
  {
    if k == 0 then None
    else if Reachable(size, Fallen(bytes, k - 1), Exit(size)) then Some(k - 1)
    else LastOpen(bytes, size, k - 1)
  }

  lemma {:induction false} LastOpenSome(bytes: seq<Pos>, size: nat, k: nat)
    requires size > 0 && k > 0
    ensures LastOpen(bytes, size, k).Some? && LastOpen(bytes, size, k).value < k
  {
    if k > 1 && !Reachable(size, Fallen(bytes, k - 1), Exit(size)) {
      LastOpenSome(bytes, size, k - 1);
    } else if k == 1 {
      OpenExit(bytes, size);
    }
  }

  lemma {:induction false} LastOpenLargest(bytes: seq<Pos>, size: nat, k: nat, j: nat)
    requires size > 0 && LastOpen(bytes, size, k).Some? && LastOpen(bytes, size, k).value < j < k
    ensures !Reachable(size, Fallen(bytes, j), Exit(size))
  {
    if j < k - 1 {
      LastOpenLargest(bytes, size, k - 1, j);
    }
  }

  /**
   * The scan finds the threshold: among the first `|bytes|` prefixes the exit
   * is reachable after exactly the first `i + 1` of them, `i` being the
   * answer's index.  So unless it is the last byte, byte `i` is the one that
   * cuts the exit off.
   */
  lemma Threshold(bytes: seq<Pos>, size: nat)
    requires size > 0 && |bytes| > 0
    ensures LastOpen(bytes, size, |bytes|).Some?
    ensures forall j :: 0 <= j < |bytes| ==>
      (Reachable(size, Fallen(bytes, j), Exit(size)) <==> j <= LastOpen(bytes, size, |bytes|).value)
  {
    LastOpenSome(bytes, size, |bytes|);
    var i := LastOpen(bytes, size, |bytes|).value;
    assert Reachable(size, Fallen(bytes, i), Exit(size)) by {
      LastOpenReachable(bytes, size, |bytes|);
    }
    forall j | 0 <= j < |bytes|
      ensures Reachable(size, Fallen(bytes, j), Exit(size)) <==> j <= i
    {
      if j <= i {
        ReachableFewer(size, Fallen(bytes, j), Fallen(bytes, i), Exit(size));
      } else {
        LastOpenLargest(bytes, size, |bytes|, j);
      }
    }
  }

  lemma {:induction false} LastOpenReachable(bytes: seq<Pos>, size: nat, k: nat)
    requires size > 0 && LastOpen(bytes, size, k).Some?
    ensures Reachable(size, Fallen(bytes, LastOpen(bytes, size, k).value), Exit(size))
  {
    if !Reachable(size, Fallen(bytes, k - 1), Exit(size)) {
      LastOpenReachable(bytes, size, k - 1);
    }
  }

  /**
   * Part two: try `check` on the prefixes from the longest down and print the
   * byte at the first index where the exit is reachable.  `None` is a panic:
   * a byte outside the grid, or no bytes at all (`unreachable!`).
   */
  method SolvePartTwo(bytes: seq<Pos>, size: nat) returns (r: Option<string>)
    requires size > 0
    ensures r.Some? <==> |bytes| > 0 && Landed(bytes, |bytes| - 1, size)
    ensures r.Some? ==> LastOpen(bytes, size, |bytes|).Some? && r.value == Format(bytes[LastOpen(bytes, size, |bytes|).value])
  {
    var i: nat := |bytes|;
    while i > 0
      invariant i <= |bytes| && LastOpen(bytes, size, i) == LastOpen(bytes, size, |bytes|)
      invariant i < |bytes| ==> Landed(bytes, |bytes| - 1, size)
    {
      i := i - 1;
      var c := Check(bytes, size, i);
      if c.None? {
        return None;
      }
      if c.value {
        return Some(Format(bytes[i]));
      }
    }
    if |bytes| > 0 {
      LastOpenSome(bytes, size, |bytes|);
      assert false;
    }
    return None;
  }
}
