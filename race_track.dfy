/**
 * 2024 day 20: a race track on a grid of open cells and walls.  Two breadth
 * first searches give every cell's distance from the start and from the
 * finish.  A cheat jumps from a cell two cells away in a straight line,
 * through whatever lies between; it saves the difference between the
 * shortest race and the race through the jump.  The answer counts the cheats
 * that save at least 100 moves.
 */
module RaceTrack {
  import opened Text

  datatype Cell = Empty | Wall

  /** A cell: row `x`, column `y`. */
  datatype Pos = Pos(x: nat, y: nat)

  datatype Input = Input(field: seq<seq<Cell>>, start: Pos, finish: Pos)

  // ---------------------------------------------------------------------------
  // Parsing

  /** One character of the map; `S` and `E` are open cells. */
  function ParseCell(c: char): (r: Option<Cell>)
    ensures r.Some? <==> c in ".#SE"
    ensures r == Some(Wall) <==> c == '#'
  {
    match c
      case '.' => Some(Empty)
      case '#' => Some(Wall)
      case 'S' => Some(Empty)
      case 'E' => Some(Empty)
      case _ => None
  }

  function ParseRow(line: string): (r: Option<seq<Cell>>)
    ensures r.Some? <==> forall j :: 0 <= j < |line| ==> line[j] in ".#SE"
    ensures r.Some? ==> |r.value| == |line| && forall j :: 0 <= j < |line| ==> Some(r.value[j]) == ParseCell(line[j])
  {
    if line == [] then Some([])
    else
      match ParseRow(line[..|line| - 1])
        case None => None
        case Some(cells) =>
          match ParseCell(line[|line| - 1])
            case None => None
            case Some(c) => Some(cells + [c])
  }

  function ParseRows(lines: seq<string>): (r: Option<seq<seq<Cell>>>)
    ensures r.Some? <==> forall i :: 0 <= i < |lines| ==> ParseRow(lines[i]).Some?
    ensures r.Some? ==> |r.value| == |lines| && forall i :: 0 <= i < |lines| ==> Some(r.value[i]) == ParseRow(lines[i])
  {
    if lines == [] then Some([])
    else
      match ParseRows(lines[..|lines| - 1])
        case None => None
        case Some(rows) =>
          match ParseRow(lines[|lines| - 1])
            case None => None
            case Some(row) => Some(rows + [row])
  }

  /** The last column holding `ch` in a line. */
  function LastIn(line: string, ch: char): (r: Option<nat>)
    ensures r.Some? ==> r.value < |line| && line[r.value] == ch && forall j :: r.value < j < |line| ==> line[j] != ch
    ensures r.None? <==> ch !in line
  {
    if line == [] then None
    else if line[|line| - 1] == ch then Some(|line| - 1)
    else LastIn(line[..|line| - 1], ch)
  }

  /**
   * The cell of the last `ch` in reading order: each `S` or `E` met while
   * reading overwrites the one recorded before (`Option::insert`).
   */
  function LastMark(lines: seq<string>, ch: char): (r: Option<Pos>)
    ensures r.Some? ==> r.value.x < |lines| && r.value.y < |lines[r.value.x]| && lines[r.value.x][r.value.y] == ch
    ensures r.None? <==> forall i :: 0 <= i < |lines| ==> ch !in lines[i]
  {
    if lines == [] then None
    else
      match LastIn(lines[|lines| - 1], ch)
        case Some(j) => Some(Pos(|lines| - 1, j))
        case None => LastMark(lines[..|lines| - 1], ch)
  }

  /**
   * The non-empty lines, numbered after empty ones are dropped.  Parsing
   * fails on a character outside `.#SE` and when there is no `S` or no `E`.
   */
  function Parse(s: string): (r: Option<Input>)
    ensures r.Some? <==>
      (forall i, j :: 0 <= i < |NonEmptyLines(s)| && 0 <= j < |NonEmptyLines(s)[i]| ==> NonEmptyLines(s)[i][j] in ".#SE")
      && (exists i :: 0 <= i < |NonEmptyLines(s)| && 'S' in NonEmptyLines(s)[i])
      && (exists i :: 0 <= i < |NonEmptyLines(s)| && 'E' in NonEmptyLines(s)[i])
  {
    var lines := NonEmptyLines(s);
    match ParseRows(lines)
      case None => None
      case Some(field) =>
        match (LastMark(lines, 'S'), LastMark(lines, 'E'))
          case (Some(start), Some(finish)) => Some(Input(field, start, finish))
          case _ => None
  }

  /** A marked cell of a parsed map is an open cell of the field. */
  lemma MarkOpen(lines: seq<string>, field: seq<seq<Cell>>, ch: char)
    requires ParseRows(lines) == Some(field) && ch in "SE" && LastMark(lines, ch).Some?
    ensures Open(field, LastMark(lines, ch).value)
  {
    var p := LastMark(lines, ch).value;
    assert Some(field[p.x]) == ParseRow(lines[p.x]);
    assert Some(field[p.x][p.y]) == ParseCell(ch);
  }

  /** The start and the finish of a parsed map are open cells of the field. */
  lemma ParsedEnds(s: string)
    requires Parse(s).Some?
    ensures Open(Parse(s).value.field, Parse(s).value.start)
    ensures Open(Parse(s).value.field, Parse(s).value.finish)
  {
    var lines := NonEmptyLines(s);
    MarkOpen(lines, Parse(s).value.field, 'S');
    MarkOpen(lines, Parse(s).value.field, 'E');
  }

  // ---------------------------------------------------------------------------
  // The grid

  /** Every row is as long as the first, which `inside` measures. */
  predicate Rectangular(field: seq<seq<Cell>>)
  {
    |field| > 0 && forall i :: 0 <= i < |field| ==> |field[i]| == |field[0]|
  }

  predicate Inside(field: seq<seq<Cell>>, p: Pos)
  {
    |field| > 0 && p.x < |field| && p.y < |field[0]|
  }

  /** `inside`: the signed coordinates lie within the first row's width and the number of rows. */
  function InsideAt(field: seq<seq<Cell>>, x: int, y: int): (r: bool)
    requires |field| > 0
    ensures r <==> 0 <= x && 0 <= y && Inside(field, Pos(x, y))
  {
    0 <= x < |field| && 0 <= y < |field[0]|
  }

  /** An open (not wall) cell of the field. */
  predicate Open(field: seq<seq<Cell>>, p: Pos)
  {
    p.x < |field| && p.y < |field[p.x]| && field[p.x][p.y] == Empty
  }

  function Grid(field: seq<seq<Cell>>): set<Pos>
  {
    if field == [] then {} else set x: nat, y: nat | x < |field| && y < |field[0]| :: Pos(x, y)
  }

  lemma InGrid(field: seq<seq<Cell>>, p: Pos)
    requires Inside(field, p)
    ensures p in Grid(field)
  {
    assert p == Pos(p.x, p.y);
  }

  /** `b` is one of the four neighbours of `a`. */
  predicate Adjacent(a: Pos, b: Pos)
  {
    (a.x == b.x && (a.y + 1 == b.y || b.y + 1 == a.y)) || (a.y == b.y && (a.x + 1 == b.x || b.x + 1 == a.x))
  }

  /** One move of the race: to a neighbouring open cell within the first row's width. */
  predicate Step(field: seq<seq<Cell>>, a: Pos, b: Pos)
  {
    Adjacent(a, b) && Inside(field, b) && Open(field, b)
  }

  /** `c` ends a walk of at most `k` moves from `from`. */
  ghost predicate Within(field: seq<seq<Cell>>, from: Pos, c: Pos, k: nat)
    decreases k
  {
    if k == 0 then c == from
    else Within(field, from, c, k - 1) || exists a :: Within(field, from, a, k - 1) && Step(field, a, c)
  }

  ghost predicate Reachable(field: seq<seq<Cell>>, from: Pos, c: Pos)
  {
    exists k :: Within(field, from, c, k)
  }

  /** The shortest walk from `from` to `c` has `d` moves. */
  ghost predicate Shortest(field: seq<seq<Cell>>, from: Pos, c: Pos, d: nat)
  {
    Within(field, from, c, d) && forall k: nat :: k < d ==> !Within(field, from, c, k)
  }

  /** What the search records for `c`: the length of a shortest walk, or nothing when there is no walk. */
  ghost predicate Distance(field: seq<seq<Cell>>, from: Pos, c: Pos, r: Option<nat>)
  {
    (r.Some? <==> Reachable(field, from, c)) && (r.Some? ==> Shortest(field, from, c, r.value))
  }

  // ---------------------------------------------------------------------------
  // Walks

  lemma WithinStep(field: seq<seq<Cell>>, from: Pos, a: Pos, b: Pos, k: nat)
    requires Within(field, from, a, k) && Step(field, a, b)
    ensures Within(field, from, b, k + 1)
  {
  }

  /** Only the start and open cells are ever reached: walls other than the start stay without a distance. */
  lemma {:induction false} ReachedOpen(field: seq<seq<Cell>>, from: Pos, c: Pos, k: nat)
    requires Within(field, from, c, k)
    ensures c == from || Open(field, c)
  {
    if k > 0 && Within(field, from, c, k - 1) {
      ReachedOpen(field, from, c, k - 1);
    }
  }

  /** A cell at shortest distance `d > 0` is one move from a cell at shortest distance `d - 1`. */
  lemma Predecessor(field: seq<seq<Cell>>, from: Pos, c: Pos, d: nat)
    requires Shortest(field, from, c, d) && d > 0
    ensures exists a :: Step(field, a, c) && Shortest(field, from, a, d - 1)
  {
    assert !Within(field, from, c, d - 1);
    var a :| Within(field, from, a, d - 1) && Step(field, a, c);
    forall k: nat | k < d - 1
      ensures !Within(field, from, a, k)
    {
      if Within(field, from, a, k) {
        WithinStep(field, from, a, c, k);
      }
    }
    assert Shortest(field, from, a, d - 1);
  }

  /** A shortest distance is unique. */
  lemma ShortestUnique(field: seq<seq<Cell>>, from: Pos, c: Pos, d: nat, e: nat)
    requires Shortest(field, from, c, d) && Shortest(field, from, c, e)
    ensures d == e
  {
  }

  /** The length of a shortest walk from `from` to `c`, if there is a walk. */
  ghost function Dist(field: seq<seq<Cell>>, from: Pos, c: Pos): (r: Option<nat>)
    ensures Distance(field, from, c, r)
  {
    if exists d :: Shortest(field, from, c, d) then
      var d :| Shortest(field, from, c, d); Some(d)
    else
      assert !Reachable(field, from, c) by {
        if Reachable(field, from, c) {
          var k :| Within(field, from, c, k);
          var d := Least(field, from, c, k);
        }
      }
      None
  }

  /** A reachable cell has a shortest walk. */
  lemma {:induction false} Least(field: seq<seq<Cell>>, from: Pos, c: Pos, k: nat) returns (d: nat)
    requires Within(field, from, c, k)
    ensures Shortest(field, from, c, d)
  {
    if k > 0 && Within(field, from, c, k - 1) {
      d := Least(field, from, c, k - 1);
    } else {
      d := k;
      forall j: nat | j < k
        ensures !Within(field, from, c, j)
      {
        if Within(field, from, c, j) {
          WithinMore(field, from, c, j, k - 1);
        }
      }
    }
  }

  /** A walk of at most `j` moves is a walk of at most `k >= j` moves. */
  lemma {:induction false} WithinMore(field: seq<seq<Cell>>, from: Pos, c: Pos, j: nat, k: nat)
    requires j <= k && Within(field, from, c, j)
    ensures Within(field, from, c, k)
    decreases k - j
  {
    if j < k {
      WithinMore(field, from, c, j + 1, k);
    }
  }

  /** What a search records is the shortest distance. */
  lemma DistanceIsDist(field: seq<seq<Cell>>, from: Pos, c: Pos, r: Option<nat>)
    requires Distance(field, from, c, r)
    ensures r == Dist(field, from, c)
  {
    var s := Dist(field, from, c);
    if r.Some? {
      ShortestUnique(field, from, c, r.value, s.value);
    }
  }

  // ---------------------------------------------------------------------------
  // The search's record: every enqueued (distance, cell), in order

  type Entry = (nat, Pos)

  /** The distance recorded for `p`, if `p` was ever enqueued. */
  function Find(log: seq<Entry>, p: Pos): Option<nat>
  {
    if log == [] then None
    else if Find(log[..|log| - 1], p).Some? then Find(log[..|log| - 1], p)
    else if log[|log| - 1].1 == p then Some(log[|log| - 1].0)
    else None
  }

  /** `p` was enqueued with a distance of at most `bound`. */
  predicate Near(log: seq<Entry>, p: Pos, bound: nat)
  {
    Find(log, p).Some? && Find(log, p).value <= bound
  }

  lemma FindSnoc(log: seq<Entry>, x: Entry, p: Pos)
    ensures Find(log + [x], p) == if Find(log, p).Some? then Find(log, p) else if x.1 == p then Some(x.0) else None
  {
    assert (log + [x])[..|log|] == log;
  }

  lemma {:induction false} FindPrefix(log: seq<Entry>, log': seq<Entry>, p: Pos)
    requires log <= log' && Find(log, p).Some?
    ensures Find(log', p) == Find(log, p)
    decreases |log'|
  {
    if |log'| > |log| {
      var init := log'[..|log'| - 1];
      assert log <= init;
      FindPrefix(log, init, p);
    } else {
      assert log' == log;
    }
  }

  /** Where in the log a recorded distance came from. */
  lemma {:induction false} FindIndex(log: seq<Entry>, p: Pos) returns (i: nat)
    requires Find(log, p).Some?
    ensures i < |log| && log[i] == (Find(log, p).value, p)
  {
    var init := log[..|log| - 1];
    if Find(init, p).Some? {
      i := FindIndex(init, p);
    } else {
      i := |log| - 1;
    }
  }

  /** The cells of a log, as a set. */
  function Seen(log: seq<Entry>): set<Pos>
  {
    if log == [] then {} else Seen(log[..|log| - 1]) + {log[|log| - 1].1}
  }

  lemma {:induction false} SeenFind(log: seq<Entry>, p: Pos)
    requires p in Seen(log)
    ensures Find(log, p).Some?
  {
    var init := log[..|log| - 1];
    if p in Seen(init) {
      SeenFind(init, p);
    }
  }

  /** No cell is enqueued twice. */
  predicate Fresh(log: seq<Entry>)
  {
    log == [] || (Fresh(log[..|log| - 1]) && Find(log[..|log| - 1], log[|log| - 1].1).None?)
  }

  /** Distances never decrease along the queue. */
  predicate Sorted(log: seq<Entry>)
  {
    |log| <= 1 || (Sorted(log[..|log| - 1]) && log[|log| - 2].0 <= log[|log| - 1].0)
  }

  /** Every enqueued cell is inside the grid and reached within its recorded distance. */
  ghost predicate Sound(field: seq<seq<Cell>>, from: Pos, log: seq<Entry>)
  {
    log == []
    || (Sound(field, from, log[..|log| - 1]) && Inside(field, log[|log| - 1].1)
        && Within(field, from, log[|log| - 1].1, log[|log| - 1].0))
  }

  /** Every move out of the cell of `x` ends at a cell enqueued at most one further. */
  ghost predicate Closes(field: seq<seq<Cell>>, from: Pos, log: seq<Entry>, x: Entry)
  {
    forall b :: Step(field, x.1, b) ==> Near(log, b, x.0 + 1)
  }

  /** The first `k` entries have had all their moves tried. */
  ghost predicate ClosedUpTo(field: seq<seq<Cell>>, from: Pos, log: seq<Entry>, k: nat)
    requires k <= |log|
  {
    k == 0 || (ClosedUpTo(field, from, log, k - 1) && Closes(field, from, log, log[k - 1]))
  }

  lemma {:induction false} SortedAt(log: seq<Entry>, i: nat, j: nat)
    requires Sorted(log) && i <= j < |log|
    ensures log[i].0 <= log[j].0
  {
    var init := log[..|log| - 1];
    if j < |log| - 1 {
      SortedAt(init, i, j);
    } else if i < j {
      SortedAt(init, i, j - 1);
    }
  }

  lemma FindBelowLast(log: seq<Entry>, p: Pos)
    requires Sorted(log) && Find(log, p).Some?
    ensures Find(log, p).value <= log[|log| - 1].0
  {
    var i := FindIndex(log, p);
    SortedAt(log, i, |log| - 1);
  }

  lemma {:induction false} SoundAt(field: seq<seq<Cell>>, from: Pos, log: seq<Entry>, i: nat)
    requires Sound(field, from, log) && i < |log|
    ensures Inside(field, log[i].1) && Within(field, from, log[i].1, log[i].0)
  {
    if i < |log| - 1 {
      SoundAt(field, from, log[..|log| - 1], i);
    }
  }

  lemma ClosesKept(field: seq<seq<Cell>>, from: Pos, log: seq<Entry>, x: Entry, y: Entry)
    requires Closes(field, from, log, y)
    ensures Closes(field, from, log + [x], y)
  {
    forall b | Step(field, y.1, b)
      ensures Near(log + [x], b, y.0 + 1)
    {
      FindSnoc(log, x, b);
    }
  }

  lemma {:induction false} ClosedKept(field: seq<seq<Cell>>, from: Pos, log: seq<Entry>, x: Entry, k: nat)
    requires k <= |log| && ClosedUpTo(field, from, log, k)
    ensures ClosedUpTo(field, from, log + [x], k)
  {
    if k > 0 {
      ClosedKept(field, from, log, x, k - 1);
      ClosesKept(field, from, log, x, log[k - 1]);
      assert (log + [x])[k - 1] == log[k - 1];
    }
  }

  lemma {:induction false} ClosedAt(field: seq<seq<Cell>>, from: Pos, log: seq<Entry>, k: nat, i: nat)
    requires i < k <= |log| && ClosedUpTo(field, from, log, k)
    ensures Closes(field, from, log, log[i])
  {
    if i < k - 1 {
      ClosedAt(field, from, log, k - 1, i);
    }
  }

  /** A repetition-free log of cells inside the grid is no longer than the grid is large. */
  lemma {:induction false} SeenSize(field: seq<seq<Cell>>, from: Pos, log: seq<Entry>)
    requires Fresh(log) && Sound(field, from, log)
    ensures |Seen(log)| == |log| && Seen(log) <= Grid(field)
  {
    if log != [] {
      var init, p := log[..|log| - 1], log[|log| - 1].1;
      SeenSize(field, from, init);
      if p in Seen(init) {
        SeenFind(init, p);
      }
      InGrid(field, p);
    }
  }

  lemma LogBound(field: seq<seq<Cell>>, from: Pos, log: seq<Entry>)
    requires Fresh(log) && Sound(field, from, log)
    ensures |log| <= |Grid(field)|
  {
    SeenSize(field, from, log);
    SubsetCard(Seen(log), Grid(field));
  }

  /**
   * The search's invariant.  `log` lists every entry ever enqueued; the first
   * `done` have been taken off the queue and the first `closed` of them have
   * had their four moves tried.  Each cell is enqueued once, distances never
   * decrease and the last entry is at most one further than the entry being
   * expanded.
   */
  ghost predicate Searching(field: seq<seq<Cell>>, from: Pos, log: seq<Entry>, done: nat, closed: nat)
  {
    closed <= done <= |log| && Find(log, from) == Some(0) && Fresh(log) && Sound(field, from, log) && Sorted(log)
    && (if done > 0 then log[|log| - 1].0 <= log[done - 1].0 + 1 else |log| == 1)
    && ClosedUpTo(field, from, log, closed)
  }

  lemma StartSearch(field: seq<seq<Cell>>, from: Pos)
    requires Inside(field, from)
    ensures Searching(field, from, [(0, from)], 0, 0)
  {
    var log: seq<Entry> := [(0, from)];
    assert log[..0] == [];
    assert Sound(field, from, []);
    assert Within(field, from, from, 0);
    assert Sound(field, from, log);
    assert Find(log, from) == Some(0);
  }

  /** Taking the next entry off the queue; its cell is inside the grid. */
  lemma PopStep(field: seq<seq<Cell>>, from: Pos, log: seq<Entry>, done: nat)
    requires Searching(field, from, log, done, done) && done < |log|
    ensures Searching(field, from, log, done + 1, done) && Inside(field, log[done].1)
  {
    if done > 0 {
      SortedAt(log, done - 1, done);
    }
    SoundAt(field, from, log, done);
  }

  /** What appending an entry does to the log's properties. */
  lemma Snoc(field: seq<seq<Cell>>, from: Pos, log: seq<Entry>, x: Entry)
    ensures Fresh(log + [x]) <==> Fresh(log) && Find(log, x.1).None?
    ensures Sorted(log + [x]) <==> Sorted(log) && (|log| > 0 ==> log[|log| - 1].0 <= x.0)
    ensures Sound(field, from, log + [x]) <==> Sound(field, from, log) && Inside(field, x.1) && Within(field, from, x.1, x.0)
  {
    assert (log + [x])[..|log|] == log;
  }

  /** A neighbour of a sound entry, one further, is sound too. */
  lemma SoundPush(field: seq<seq<Cell>>, from: Pos, log: seq<Entry>, i: nat, b: Pos)
    requires Sound(field, from, log) && i < |log| && Step(field, log[i].1, b)
    ensures Sound(field, from, log + [(log[i].0 + 1, b)])
  {
    SoundAt(field, from, log, i);
    WithinStep(field, from, log[i].1, b, log[i].0);
    Snoc(field, from, log, (log[i].0 + 1, b));
  }

  /** Enqueueing a neighbour of the entry being expanded, one further than it. */
  lemma PushStep(field: seq<seq<Cell>>, from: Pos, log: seq<Entry>, done: nat, b: Pos)
    requires done > 0 && Searching(field, from, log, done, done - 1)
    requires Step(field, log[done - 1].1, b) && Find(log, b).None?
    ensures Searching(field, from, log + [(log[done - 1].0 + 1, b)], done, done - 1)
  {
    var x := (log[done - 1].0 + 1, b);
    SoundPush(field, from, log, done - 1, b);
    Snoc(field, from, log, x);
    FindSnoc(log, x, from);
    ClosedKept(field, from, log, x, done - 1);
    assert (log + [x])[done - 1] == log[done - 1];
  }

  /** Once every move out of the expanded entry is covered, it is closed. */
  lemma CloseStep(field: seq<seq<Cell>>, from: Pos, log: seq<Entry>, done: nat)
    requires done > 0 && Searching(field, from, log, done, done - 1)
    requires Closes(field, from, log, log[done - 1])
    ensures Searching(field, from, log, done, done)
  {
  }

  /** When all entries are closed, every cell within `k` moves was enqueued at most `k` away. */
  lemma {:induction false} Complete(field: seq<seq<Cell>>, from: Pos, log: seq<Entry>, k: nat, c: Pos)
    requires Searching(field, from, log, |log|, |log|) && Within(field, from, c, k)
    ensures Near(log, c, k)
  {
    if k > 0 {
      if Within(field, from, c, k - 1) {
        Complete(field, from, log, k - 1, c);
      } else {
        var a :| Within(field, from, a, k - 1) && Step(field, a, c);
        Complete(field, from, log, k - 1, a);
        var i := FindIndex(log, a);
        ClosedAt(field, from, log, |log|, i);
      }
    }
  }

  /** When the queue is empty, the recorded distance of each cell is its shortest walk, if any. */
  lemma DistanceOf(field: seq<seq<Cell>>, from: Pos, log: seq<Entry>, c: Pos)
    requires Searching(field, from, log, |log|, |log|)
    ensures Distance(field, from, c, Find(log, c))
  {
    if Find(log, c).Some? {
      var e := Find(log, c).value;
      var i := FindIndex(log, c);
      SoundAt(field, from, log, i);
      forall k: nat | k < e
        ensures !Within(field, from, c, k)
      {
        if Within(field, from, c, k) {
          Complete(field, from, log, k, c);
        }
      }
    } else {
      forall k
        ensures !Within(field, from, c, k)
      {
        if Within(field, from, c, k) {
          Complete(field, from, log, k, c);
        }
      }
    }
  }

  // ---------------------------------------------------------------------------
  // The grids of the program

  /** A recorded entry is what the log finds for its cell. */
  lemma {:induction false} FreshFind(log: seq<Entry>, i: nat)
    requires Fresh(log) && i < |log|
    ensures Find(log, log[i].1) == Some(log[i].0)
  {
    var init := log[..|log| - 1];
    if i < |log| - 1 {
      FreshFind(init, i);
      FindSnoc(init, log[|log| - 1], log[i].1);
      assert init + [log[|log| - 1]] == log;
    } else {
      FindSnoc(init, log[i], log[i].1);
      assert init + [log[i]] == log;
    }
  }

  // ---------------------------------------------------------------------------
  // `bfs`

  /** The `dist` grid holds exactly the distances recorded in the log. */
  ghost predicate Painted(dist: array2<Option<nat>>, log: seq<Entry>)
    reads dist
  {
    forall i, j :: 0 <= i < dist.Length0 && 0 <= j < dist.Length1 ==> Agrees(dist, log, i, j)
  }

  /** The cell `(i, j)` of `dist` holds the distance the log records for it. */
  ghost predicate Agrees(dist: array2<Option<nat>>, log: seq<Entry>, i: nat, j: nat)
    reads dist
  {
    i < dist.Length0 && j < dist.Length1 && dist[i, j] == Find(log, Pos(i, j))
  }

  /** The `dist` grid spans the field: a row per line, a column per cell of the first line. */
  predicate Spans(dist: array2<Option<nat>>, field: seq<seq<Cell>>)
  {
    |field| > 0 && dist.Length0 == |field| && dist.Length1 == |field[0]|
  }

  /** Recording a distance for a cell not yet enqueued. */
  method Record(dist: array2<Option<nat>>, ghost log: seq<Entry>, x: Entry)
    requires Painted(dist, log) && x.1.x < dist.Length0 && x.1.y < dist.Length1 && Find(log, x.1).None?
    modifies dist
    ensures Painted(dist, log + [x])
  {
    dist[x.1.x, x.1.y] := Some(x.0);
    forall i, j | 0 <= i < dist.Length0 && 0 <= j < dist.Length1
      ensures Agrees(dist, log + [x], i, j)
    {
      assert old(Agrees(dist, log, i, j));
      FindSnoc(log, x, Pos(i, j));
    }
  }

  /** The four moves, in the order the search tries them. */
  const Deltas: seq<(int, int)> := [(-1, 0), (1, 0), (0, -1), (0, 1)]

  /** The move along `d` out of `a` is covered: when it is a step, its cell is enqueued at most `bound` away. */
  predicate Tried(field: seq<seq<Cell>>, log: seq<Entry>, a: Pos, bound: nat, d: (int, int))
  {
    var x, y := a.x + d.0, a.y + d.1;
    x >= 0 && y >= 0 && Step(field, a, Pos(x, y)) ==> Near(log, Pos(x, y), bound)
  }

  /** Covering the four moves covers every step out of `a`. */
  lemma AllTried(field: seq<seq<Cell>>, log: seq<Entry>, a: Pos, bound: nat)
    requires forall e :: 0 <= e < 4 ==> Tried(field, log, a, bound, Deltas[e])
    ensures forall b :: Step(field, a, b) ==> Near(log, b, bound)
  {
    forall b | Step(field, a, b)
      ensures Near(log, b, bound)
    {
      var e := if b.x + 1 == a.x then 0 else if a.x + 1 == b.x then 1 else if b.y + 1 == a.y then 2 else 3;
      assert Tried(field, log, a, bound, Deltas[e]);
    }
  }

  /** Moves covered before stay covered as the log grows, and the next one joins them. */
  lemma TriedKept(field: seq<seq<Cell>>, log: seq<Entry>, log': seq<Entry>, a: Pos, bound: nat, e: nat)
    requires log <= log' && e < 4
    requires forall e' :: 0 <= e' < e ==> Tried(field, log, a, bound, Deltas[e'])
    requires Tried(field, log', a, bound, Deltas[e])
    ensures forall e' :: 0 <= e' < e + 1 ==> Tried(field, log', a, bound, Deltas[e'])
  {
    forall e' | 0 <= e' < e
      ensures Tried(field, log', a, bound, Deltas[e'])
    {
      var x, y := a.x + Deltas[e'].0, a.y + Deltas[e'].1;
      if x >= 0 && y >= 0 && Step(field, a, Pos(x, y)) {
        FindPrefix(log, log', Pos(x, y));
      }
    }
  }

  /** The cells of a stretch of the log: the queue holds cells only. */
  function Cells(log: seq<Entry>): (r: seq<Pos>)
    ensures |r| == |log| && forall i :: 0 <= i < |log| ==> r[i] == log[i].1
  {
    seq(|log|, i requires 0 <= i < |log| => log[i].1)
  }

  lemma QueueGrows(log: seq<Entry>, done: nat, x: Entry)
    requires done <= |log|
    ensures Cells((log + [x])[done..]) == Cells(log[done..]) + [x.1]
  {
  }

  lemma QueuePops(log: seq<Entry>, done: nat)
    requires done < |log|
    ensures Cells(log[done..])[0] == log[done].1 && Cells(log[done..])[1..] == Cells(log[done + 1..])
  {
  }

  /** When the queue is empty, `dist` holds the shortest distance of every cell. */
  lemma Distances(field: seq<seq<Cell>>, from: Pos, dist: array2<Option<nat>>, log: seq<Entry>, done: nat)
    requires Frontier(field, from, dist, [], log, done)
    ensures Filled(dist, field, from)
  {
    forall i, j | 0 <= i < dist.Length0 && 0 <= j < dist.Length1
      ensures Holds(dist, field, from, i, j)
    {
      assert Agrees(dist, log, i, j);
      DistanceOf(field, from, log, Pos(i, j));
      DistanceIsDist(field, from, Pos(i, j), dist[i, j]);
    }
  }

  /** Every cell of `dist` holds its shortest distance from `from`, or nothing when it cannot be reached. */
  ghost predicate Filled(dist: array2<Option<nat>>, field: seq<seq<Cell>>, from: Pos)
    reads dist
  {
    forall i, j :: 0 <= i < dist.Length0 && 0 <= j < dist.Length1 ==> Holds(dist, field, from, i, j)
  }

  ghost predicate Holds(dist: array2<Option<nat>>, field: seq<seq<Cell>>, from: Pos, i: nat, j: nat)
    reads dist
  {
    i < dist.Length0 && j < dist.Length1 && dist[i, j] == Dist(field, from, Pos(i, j))
  }

  /**
   * One move of the `for` loop: skip it when the neighbour along `delta` is
   * outside or a wall; enqueue the neighbour with the expanded cell's
   * distance plus one when it has none yet.
   */
  method TryMove(field: seq<seq<Cell>>, dist: array2<Option<nat>>, ghost from: Pos,
                 ghost d: nat, a: Pos, delta: (int, int), queue: seq<Pos>, ghost log: seq<Entry>, ghost done: nat)
    returns (queue': seq<Pos>, ghost log': seq<Entry>)
    requires Rectangular(field) && Spans(dist, field) && Painted(dist, log)
    requires done > 0 && Searching(field, from, log, done, done - 1) && log[done - 1] == (d, a)
    requires queue == Cells(log[done..]) && delta in Deltas
    modifies dist
    ensures Searching(field, from, log', done, done - 1) && log <= log'
    ensures queue' == Cells(log'[done..]) && Painted(dist, log') && Tried(field, log', a, d + 1, delta)
  {
    queue', log' := queue, log;
    var x2, y2 := a.x + delta.0, a.y + delta.1;
    if !InsideAt(field, x2, y2) {
      return;
    }
    if field[x2][y2] == Wall {
      return;
    }
    assert Agrees(dist, log, x2, y2);
    if dist[x2, y2].None? {
      SoundAt(field, from, log, done - 1);
      assert Agrees(dist, log, a.x, a.y);
      FreshFind(log, done - 1);
      var cur := dist[a.x, a.y];
      PushStep(field, from, log, done, Pos(x2, y2));
      FindSnoc(log, (d + 1, Pos(x2, y2)), Pos(x2, y2));
      queue', log' := Push(dist, cur.value, Pos(x2, y2), queue, log, done);
    } else {
      FindBelowLast(log, Pos(x2, y2));
    }
  }

  /** Recording distance `d + 1` for `b` and enqueueing it. */
  method Push(dist: array2<Option<nat>>, d: nat, b: Pos, queue: seq<Pos>, ghost log: seq<Entry>, ghost done: nat)
    returns (queue': seq<Pos>, ghost log': seq<Entry>)
    requires Painted(dist, log) && b.x < dist.Length0 && b.y < dist.Length1
    requires done <= |log| && queue == Cells(log[done..]) && Find(log, b).None?
    modifies dist
    ensures Painted(dist, log') && log' == log + [(d + 1, b)]
    ensures queue' == Cells(log'[done..])
  {
    Record(dist, log, (d + 1, b));
    QueueGrows(log, done, (d + 1, b));
    queue' := queue + [b];
    log' := log + [(d + 1, b)];
  }

  /** The `for` loop over the four moves, in order. */
  method Expand(field: seq<seq<Cell>>, dist: array2<Option<nat>>, ghost from: Pos,
                ghost d: nat, a: Pos, queue: seq<Pos>, ghost log: seq<Entry>, ghost done: nat)
    returns (queue': seq<Pos>, ghost log': seq<Entry>)
    requires Rectangular(field) && Spans(dist, field) && Painted(dist, log)
    requires done > 0 && Searching(field, from, log, done, done - 1) && log[done - 1] == (d, a)
    requires queue == Cells(log[done..])
    modifies dist
    ensures Searching(field, from, log', done, done) && log <= log'
    ensures queue' == Cells(log'[done..]) && Painted(dist, log')
  {
    queue', log' := queue, log;
    for e := 0 to 4
      invariant Searching(field, from, log', done, done - 1) && log <= log' && log'[done - 1] == (d, a)
      invariant queue' == Cells(log'[done..]) && Painted(dist, log')
      invariant forall e' :: 0 <= e' < e ==> Tried(field, log', a, d + 1, Deltas[e'])
    {
      ghost var before := log';
      queue', log' := TryMove(field, dist, from, d, a, Deltas[e], queue', log', done);
      TriedKept(field, before, log', a, d + 1, e);
    }
    AllTried(field, log', a, d + 1);
    CloseStep(field, from, log', done);
  }

  /** The state of the `while let` loop between rounds: the queue is the log's unpopped part and `dist` mirrors the log. */
  ghost predicate Frontier(field: seq<seq<Cell>>, from: Pos, dist: array2<Option<nat>>, queue: seq<Pos>, log: seq<Entry>, done: nat)
    reads dist
  {
    Searching(field, from, log, done, done) && queue == Cells(log[done..]) && Painted(dist, log)
  }

  /** `dist` and the queue before the `while let` loop: only `from`, at distance 0. */
  method Begin(field: seq<seq<Cell>>, from: Pos) returns (dist: array2<Option<nat>>, queue: seq<Pos>, ghost log: seq<Entry>)
    requires Rectangular(field) && Inside(field, from)
    ensures fresh(dist) && Spans(dist, field)
    ensures Frontier(field, from, dist, queue, log, 0)
  {
    dist := new Option<nat>[|field|, |field[0]|]((i, j) => None);
    dist[from.x, from.y] := Some(0);
    queue := [from];
    log := [(0, from)];
    StartSearch(field, from);
    forall i, j | 0 <= i < dist.Length0 && 0 <= j < dist.Length1
      ensures Agrees(dist, log, i, j)
    {
      FindSnoc([], (0, from), Pos(i, j));
      assert [] + [(0, from)] == log;
    }
  }

  /** One round of the `while let` loop: pop the front cell and expand it. */
  method Advance(field: seq<seq<Cell>>, dist: array2<Option<nat>>, ghost from: Pos,
                 queue: seq<Pos>, ghost log: seq<Entry>, ghost done: nat)
    returns (queue': seq<Pos>, ghost log': seq<Entry>)
    requires Rectangular(field) && Spans(dist, field)
    requires Frontier(field, from, dist, queue, log, done) && queue != []
    modifies dist
    ensures Frontier(field, from, dist, queue', log', done + 1) && done < |Grid(field)|
  {
    LogBound(field, from, log);
    QueuePops(log, done);
    var a := queue[0];
    PopStep(field, from, log, done);
    queue', log' := Expand(field, dist, from, log[done].0, a, queue[1..], log, done + 1);
  }

  /**
   * `bfs`: the breadth-first search from `from`.  Afterwards every cell of
   * `dist` holds the length of a shortest walk from `from`, or nothing when
   * there is no walk.
   */
  method Bfs(field: seq<seq<Cell>>, from: Pos) returns (dist: array2<Option<nat>>)
    requires Rectangular(field) && Inside(field, from)
    ensures fresh(dist) && Spans(dist, field) && Filled(dist, field, from)
  {
    var queue;
    ghost var log;
    dist, queue, log := Begin(field, from);
    ghost var done: nat := 0;
    while queue != []
      invariant Spans(dist, field) && Frontier(field, from, dist, queue, log, done)
      decreases |Grid(field)| - done
    {
      queue, log := Advance(field, dist, from, queue, log, done);
      done := done + 1;
    }
    Distances(field, from, dist, log, done);
  }

  /** A wall other than the search's own start never gets a distance. */
  lemma WallUnreached(field: seq<seq<Cell>>, from: Pos, c: Pos)
    requires c != from && !Open(field, c)
    ensures Dist(field, from, c).None?
  {
    if Dist(field, from, c).Some? {
      ReachedOpen(field, from, c, Dist(field, from, c).value);
    }
  }

  /** The start has distance 0; any other reached cell has the distance of a neighbour it is a step from, plus one. */
  lemma DistOfStep(field: seq<seq<Cell>>, from: Pos, c: Pos)
    requires Dist(field, from, c).Some?
    ensures c == from <==> Dist(field, from, c) == Some(0)
    ensures c != from ==> exists a :: Step(field, a, c) && Dist(field, from, a) == Some(Dist(field, from, c).value - 1)
  {
    var d := Dist(field, from, c).value;
    if d > 0 {
      Predecessor(field, from, c, d);
      var a :| Step(field, a, c) && Shortest(field, from, a, d - 1);
      DistanceIsDist(field, from, a, Some(d - 1));
      assert c != from by {
        assert Within(field, from, from, 0);
      }
    }
  }

  // ---------------------------------------------------------------------------
  // `solve`: the cheats

  /** The four jumps of a cheat, in the order `solve` tries them. */
  const Jumps: seq<(int, int)> := [(-2, 0), (2, 0), (0, -2), (0, 2)]

  /** The least saving the answer counts. */
  const Threshold: nat := 100

  /**
   * What the cheat out of `a` along `Jumps[e]` saves against a race of
   * `total` moves.  It counts when it lands inside the grid, both ends have a
   * distance (from the start to `a`, from the finish to where it lands) and
   * the race through it, two moves for the jump, is shorter than `total`.
   */
  ghost function Saving(input: Input, total: nat, a: Pos, e: nat): (r: Option<nat>)
    requires Rectangular(input.field) && e < 4
    ensures r.Some? ==> 0 < r.value && r.value + 2 <= total
  {
    var x2, y2 := a.x + Jumps[e].0, a.y + Jumps[e].1;
    if !InsideAt(input.field, x2, y2) then None
    else
      match (Dist(input.field, input.start, a), Dist(input.field, input.finish, Pos(x2, y2)))
        case (Some(d), Some(d2)) => if d + d2 + 2 < total then Some(total - (d + d2 + 2)) else None
        case _ => None
  }

  /** A counted cheat leaves from the start or an open cell and lands on the finish or an open cell. */
  lemma CheatOnTrack(input: Input, total: nat, a: Pos, e: nat)
    requires Rectangular(input.field) && e < 4 && Saving(input, total, a, e).Some?
    ensures a == input.start || Open(input.field, a)
    ensures var b := Pos(a.x + Jumps[e].0, a.y + Jumps[e].1); b == input.finish || Open(input.field, b)
  {
    var b := Pos(a.x + Jumps[e].0, a.y + Jumps[e].1);
    if a != input.start && !Open(input.field, a) {
      WallUnreached(input.field, input.start, a);
    }
    if b != input.finish && !Open(input.field, b) {
      WallUnreached(input.field, input.finish, b);
    }
  }

  /** The saving of every cheat, as one function of its cell and its jump. */
  ghost function Savings(input: Input, total: nat): (Pos, nat) -> Option<nat>
  {
    (a: Pos, e: nat) => if Rectangular(input.field) && e < 4 then Saving(input, total, a, e) else None
  }

  function Listed(o: Option<nat>): seq<nat>
  {
    if o.Some? then [o.value] else []
  }

  /** The savings of the cheats out of `a` along the first `e` jumps, in the order `solve` meets them. */
  ghost function CellSavings(saving: (Pos, nat) -> Option<nat>, a: Pos, e: nat): seq<nat>
  {
    if e == 0 then [] else CellSavings(saving, a, e - 1) + Listed(saving(a, e - 1))
  }

  /** The savings of the cheats out of the first `j` cells of row `i`. */
  ghost function RowSavings(saving: (Pos, nat) -> Option<nat>, i: nat, j: nat): seq<nat>
  {
    if j == 0 then [] else RowSavings(saving, i, j - 1) + CellSavings(saving, Pos(i, j - 1), 4)
  }

  /** The savings of the cheats out of the first `i` rows of a grid `m` wide. */
  ghost function AllSavings(saving: (Pos, nat) -> Option<nat>, m: nat, i: nat): seq<nat>
  {
    if i == 0 then [] else AllSavings(saving, m, i - 1) + RowSavings(saving, i - 1, m)
  }

  /** How many savings reach the threshold. */
  function AtLeast(xs: seq<nat>): (r: nat)
    ensures r <= |xs|
  {
    if xs == [] then 0 else AtLeast(xs[..|xs| - 1]) + (if xs[|xs| - 1] >= Threshold then 1 else 0)
  }

  lemma {:induction false} AtLeastAppend(xs: seq<nat>, ys: seq<nat>)
    ensures AtLeast(xs + ys) == AtLeast(xs) + AtLeast(ys)
    decreases |ys|
  {
    if ys == [] {
      assert xs + ys == xs;
    } else {
      var init := ys[..|ys| - 1];
      AtLeastAppend(xs, init);
      assert (xs + ys)[..|xs + ys| - 1] == xs + init;
    }
  }

  // ---------------------------------------------------------------------------
  // The cheats as a set

  /** A saving the answer counts. */
  predicate Counts(o: Option<nat>)
  {
    o.Some? && o.value >= Threshold
  }

  /** The counted cheats out of `a` along the first `e` jumps, each as its cell and its jump. */
  ghost function CellCheats(saving: (Pos, nat) -> Option<nat>, a: Pos, e: nat): set<(Pos, nat)>
  {
    if e == 0 then {}
    else if Counts(saving(a, e - 1)) then CellCheats(saving, a, e - 1) + {(a, e - 1)}
    else CellCheats(saving, a, e - 1)
  }

  /** The counted cheats out of the first `j` cells of row `i`. */
  ghost function RowCheats(saving: (Pos, nat) -> Option<nat>, i: nat, j: nat): set<(Pos, nat)>
  {
    if j == 0 then {} else RowCheats(saving, i, j - 1) + CellCheats(saving, Pos(i, j - 1), 4)
  }

  /** The counted cheats out of the first `i` rows of a grid `m` wide. */
  ghost function Cheats(saving: (Pos, nat) -> Option<nat>, m: nat, i: nat): set<(Pos, nat)>
  {
    if i == 0 then {} else Cheats(saving, m, i - 1) + RowCheats(saving, i - 1, m)
  }

  /** Every cell, with each of the four jumps, whose cheat saves at least the threshold. */
  ghost function CheatSet(saving: (Pos, nat) -> Option<nat>, n: nat, m: nat): set<(Pos, nat)>
  {
    set x: nat, y: nat, e: nat | x < n && y < m && e < 4 && Counts(saving(Pos(x, y), e)) :: (Pos(x, y), e)
  }

  lemma {:induction false} CellIn(saving: (Pos, nat) -> Option<nat>, a: Pos, e: nat, c: (Pos, nat))
    ensures c in CellCheats(saving, a, e) <==> c.0 == a && c.1 < e && Counts(saving(a, c.1))
  {
    if e > 0 {
      CellIn(saving, a, e - 1, c);
    }
  }

  lemma {:induction false} RowIn(saving: (Pos, nat) -> Option<nat>, i: nat, j: nat, c: (Pos, nat))
    ensures c in RowCheats(saving, i, j) <==> c.0.x == i && c.0.y < j && c.1 < 4 && Counts(saving(c.0, c.1))
  {
    if j > 0 {
      RowIn(saving, i, j - 1, c);
      CellIn(saving, Pos(i, j - 1), 4, c);
    }
  }

  lemma {:induction false} CheatsIn(saving: (Pos, nat) -> Option<nat>, m: nat, i: nat, c: (Pos, nat))
    ensures c in Cheats(saving, m, i) <==> c.0.x < i && c.0.y < m && c.1 < 4 && Counts(saving(c.0, c.1))
  {
    if i > 0 {
      CheatsIn(saving, m, i - 1, c);
      RowIn(saving, i - 1, m, c);
    }
  }

  /** The cheats collected row by row are exactly the cheats of the whole grid. */
  lemma CheatsAll(saving: (Pos, nat) -> Option<nat>, n: nat, m: nat)
    ensures Cheats(saving, m, n) == CheatSet(saving, n, m)
  {
    forall c | c in Cheats(saving, m, n)
      ensures c in CheatSet(saving, n, m)
    {
      CheatsIn(saving, m, n, c);
      assert c == (Pos(c.0.x, c.0.y), c.1);
    }
    forall c | c in CheatSet(saving, n, m)
      ensures c in Cheats(saving, m, n)
    {
      CheatsIn(saving, m, n, c);
    }
  }

  lemma RowApart(saving: (Pos, nat) -> Option<nat>, i: nat, j: nat)
    requires j > 0
    ensures RowCheats(saving, i, j - 1) !! CellCheats(saving, Pos(i, j - 1), 4)
  {
    var k: nat := j - 1;
    forall c | c in RowCheats(saving, i, k)
      ensures c !in CellCheats(saving, Pos(i, k), 4)
    {
      RowIn(saving, i, k, c);
      CellIn(saving, Pos(i, k), 4, c);
    }
  }

  lemma CheatsApart(saving: (Pos, nat) -> Option<nat>, m: nat, i: nat)
    requires i > 0
    ensures Cheats(saving, m, i - 1) !! RowCheats(saving, i - 1, m)
  {
    var k: nat := i - 1;
    forall c | c in Cheats(saving, m, k)
      ensures c !in RowCheats(saving, k, m)
    {
      CheatsIn(saving, m, k, c);
      RowIn(saving, k, m, c);
    }
  }

  lemma UnionCard(a: set<(Pos, nat)>, b: set<(Pos, nat)>)
    requires a !! b
    ensures |a + b| == |a| + |b|
  {
  }

  /** A saving is counted once when it reaches the threshold and not at all otherwise. */
  lemma ListedCount(o: Option<nat>)
    ensures AtLeast(Listed(o)) == if Counts(o) then 1 else 0
  {
    if o.Some? {
      assert Listed(o)[..0] == [];
    }
  }

  lemma {:induction false} CellCount(saving: (Pos, nat) -> Option<nat>, a: Pos, e: nat)
    ensures AtLeast(CellSavings(saving, a, e)) == |CellCheats(saving, a, e)|
  {
    if e > 0 {
      var k: nat := e - 1;
      var o, before := saving(a, k), CellSavings(saving, a, k);
      assert CellSavings(saving, a, e) == before + Listed(o);
      if Counts(o) {
        CellIn(saving, a, k, (a, k));
        assert CellCheats(saving, a, e) == CellCheats(saving, a, k) + {(a, k)};
      }
      AtLeastAppend(before, Listed(o));
      ListedCount(o);
      CellCount(saving, a, k);
    }
  }

  lemma {:induction false} RowCount(saving: (Pos, nat) -> Option<nat>, i: nat, j: nat)
    ensures AtLeast(RowSavings(saving, i, j)) == |RowCheats(saving, i, j)|
  {
    if j > 0 {
      var k: nat := j - 1;
      var before, cell := RowSavings(saving, i, k), CellSavings(saving, Pos(i, k), 4);
      var seen, added := RowCheats(saving, i, k), CellCheats(saving, Pos(i, k), 4);
      assert RowSavings(saving, i, j) == before + cell;
      assert RowCheats(saving, i, j) == seen + added;
      RowApart(saving, i, j);
      UnionCard(seen, added);
      AtLeastAppend(before, cell);
      RowCount(saving, i, k);
      CellCount(saving, Pos(i, k), 4);
    }
  }

  /** Counting the listed savings that reach the threshold counts the cheats that save that much. */
  lemma {:induction false} AllCount(saving: (Pos, nat) -> Option<nat>, m: nat, i: nat)
    ensures AtLeast(AllSavings(saving, m, i)) == |Cheats(saving, m, i)|
  {
    if i > 0 {
      var k: nat := i - 1;
      var before, row := AllSavings(saving, m, k), RowSavings(saving, k, m);
      var seen, added := Cheats(saving, m, k), RowCheats(saving, k, m);
      assert AllSavings(saving, m, i) == before + row;
      assert Cheats(saving, m, i) == seen + added;
      CheatsApart(saving, m, i);
      UnionCard(seen, added);
      AtLeastAppend(before, row);
      AllCount(saving, m, k);
      RowCount(saving, k, m);
    }
  }

  // ---------------------------------------------------------------------------
  // `solve`: the histogram of savings

  /** `shortcuts` maps each saving met so far to how often it was met. */
  ghost predicate Histogram(shortcuts: map<nat, nat>, saves: seq<nat>)
  {
    forall k: nat :: (k in shortcuts <==> k in multiset(saves)) && (k in shortcuts ==> shortcuts[k] == multiset(saves)[k])
  }

  /** `*shortcuts.entry(k).or_insert(0) += 1`. */
  function Bump(shortcuts: map<nat, nat>, k: nat): (r: map<nat, nat>)
    ensures r.Keys == shortcuts.Keys + {k}
    ensures forall k' :: k' in shortcuts && k' != k ==> r[k'] == shortcuts[k']
    ensures r[k] == (if k in shortcuts then shortcuts[k] else 0) + 1
  {
    shortcuts[k := (if k in shortcuts then shortcuts[k] else 0) + 1]
  }

  lemma HistogramBump(shortcuts: map<nat, nat>, saves: seq<nat>, k: nat)
    requires Histogram(shortcuts, saves)
    ensures Histogram(Bump(shortcuts, k), saves + [k])
  {
    assert multiset(saves + [k]) == multiset(saves) + multiset{k};
  }

  /** The two searches of `solve`: from the start and from the finish. */
  ghost predicate Searched(input: Input, forward: array2<Option<nat>>, backward: array2<Option<nat>>)
    reads forward, backward
  {
    Rectangular(input.field) && Spans(forward, input.field) && Spans(backward, input.field)
    && Filled(forward, input.field, input.start) && Filled(backward, input.field, input.finish)
  }

  /**
   * The body of the innermost `for` loop: the cheat out of `(i, j)` along
   * `Jumps[e]`, counted under its saving when it saves anything.
   */
  method TryCheat(input: Input, forward: array2<Option<nat>>, backward: array2<Option<nat>>, total: nat,
                  i: nat, j: nat, e: nat, shortcuts: map<nat, nat>, ghost saves: seq<nat>)
    returns (shortcuts': map<nat, nat>, ghost saves': seq<nat>)
    requires Searched(input, forward, backward)
    requires i < |input.field| && j < |input.field[0]| && e < 4 && Histogram(shortcuts, saves)
    ensures saves' == saves + Listed(Savings(input, total)(Pos(i, j), e)) && Histogram(shortcuts', saves')
  {
    shortcuts', saves' := shortcuts, saves;
    ghost var o := Saving(input, total, Pos(i, j), e);
    var x2, y2 := i + Jumps[e].0, j + Jumps[e].1;
    if !InsideAt(input.field, x2, y2) {
      return;
    }
    assert Holds(forward, input.field, input.start, i, j);
    assert Holds(backward, input.field, input.finish, x2, y2);
    if forward[i, j].Some? && backward[x2, y2].Some? {
      var short := forward[i, j].value + backward[x2, y2].value + 2;
      if short < total {
        var k: nat := total - short;
        assert o == Some(k);
        HistogramBump(shortcuts, saves, k);
        shortcuts' := Bump(shortcuts, k);
        saves' := saves + [k];
      }
    }
  }

  /** The innermost `for` loop: the four cheats out of `(i, j)`. */
  method CheatsFrom(input: Input, forward: array2<Option<nat>>, backward: array2<Option<nat>>, total: nat,
                    i: nat, j: nat, shortcuts: map<nat, nat>, ghost saves: seq<nat>)
    returns (shortcuts': map<nat, nat>, ghost saves': seq<nat>)
    requires Searched(input, forward, backward)
    requires i < |input.field| && j < |input.field[0]| && Histogram(shortcuts, saves)
    ensures saves' == saves + CellSavings(Savings(input, total), Pos(i, j), 4) && Histogram(shortcuts', saves')
  {
    shortcuts', saves' := shortcuts, saves;
    for e := 0 to 4
      invariant saves' == saves + CellSavings(Savings(input, total), Pos(i, j), e) && Histogram(shortcuts', saves')
    {
      shortcuts', saves' := TryCheat(input, forward, backward, total, i, j, e, shortcuts', saves');
    }
  }

  /** The middle `for` loop: the cheats out of row `i`. */
  method CheatsInRow(input: Input, forward: array2<Option<nat>>, backward: array2<Option<nat>>, total: nat,
                     i: nat, shortcuts: map<nat, nat>, ghost saves: seq<nat>)
    returns (shortcuts': map<nat, nat>, ghost saves': seq<nat>)
    requires Searched(input, forward, backward)
    requires i < |input.field| && Histogram(shortcuts, saves)
    ensures saves' == saves + RowSavings(Savings(input, total), i, |input.field[0]|) && Histogram(shortcuts', saves')
  {
    shortcuts', saves' := shortcuts, saves;
    for j := 0 to |input.field[0]|
      invariant saves' == saves + RowSavings(Savings(input, total), i, j) && Histogram(shortcuts', saves')
    {
      shortcuts', saves' := CheatsFrom(input, forward, backward, total, i, j, shortcuts', saves');
    }
  }

  /** The outer `for` loop: the histogram of the savings of all cheats. */
  method Shortcuts(input: Input, forward: array2<Option<nat>>, backward: array2<Option<nat>>, total: nat)
    returns (shortcuts: map<nat, nat>, ghost saves: seq<nat>)
    requires Searched(input, forward, backward)
    ensures saves == AllSavings(Savings(input, total), |input.field[0]|, |input.field|) && Histogram(shortcuts, saves)
  {
    shortcuts, saves := map[], [];
    for i := 0 to |input.field|
      invariant saves == AllSavings(Savings(input, total), |input.field[0]|, i) && Histogram(shortcuts, saves)
    {
      shortcuts, saves := CheatsInRow(input, forward, backward, total, i, shortcuts, saves);
    }
  }

  /** What an entry adds to the final sum: its count when its saving reaches the threshold. */
  ghost function Large(shortcuts: map<nat, nat>): nat -> int
  {
    k => if k in shortcuts && k >= Threshold then shortcuts[k] else 0
  }

  /** The final `filter_map` and `sum`, over the entries in whatever order the map yields them. */
  method SumLarge(shortcuts: map<nat, nat>) returns (r: nat)
    ensures r == SetSum(shortcuts.Keys, Large(shortcuts))
  {
    r := 0;
    var rest := shortcuts.Keys;
    ghost var f := Large(shortcuts);
    SetSumEmpty(shortcuts.Keys, f);
    while rest != {}
      invariant rest <= shortcuts.Keys && r == SetSum(shortcuts.Keys - rest, f)
      decreases |rest|
    {
      var k: nat :| k in rest;
      AddOne(shortcuts.Keys, rest, k, f);
      if k >= Threshold {
        r := r + shortcuts[k];
      }
      rest := rest - {k};
    }
    assert shortcuts.Keys - rest == shortcuts.Keys;
  }

  lemma SetSumEmpty(keys: set<nat>, f: nat -> int)
    ensures SetSum(keys - keys, f) == 0
  {
    assert keys - keys == {};
  }

  /** Taking `k` out of the entries still to add adds its value to the sum of those added. */
  lemma AddOne(keys: set<nat>, rest: set<nat>, k: nat, f: nat -> int)
    requires k in rest && rest <= keys
    ensures SetSum(keys - (rest - {k}), f) == f(k) + SetSum(keys - rest, f)
  {
    var seen := keys - rest;
    assert keys - (rest - {k}) == seen + {k};
    SetSumPick(seen + {k}, f, k);
    assert seen + {k} - {k} == seen;
  }

  /** The count of a saving, when it reaches the threshold. */
  ghost function Big(saves: seq<nat>): nat -> int
  {
    k => if k >= Threshold then multiset(saves)[k] else 0
  }

  lemma {:induction false} BigSum(keys: set<nat>, saves: seq<nat>)
    requires forall i :: 0 <= i < |saves| ==> saves[i] in keys
    ensures SetSum(keys, Big(saves)) == AtLeast(saves)
    decreases |saves|
  {
    if saves == [] {
      SetSumZero(keys, Big(saves));
    } else {
      var init, s := saves[..|saves| - 1], saves[|saves| - 1];
      assert saves == init + [s];
      assert multiset(saves) == multiset(init) + multiset{s};
      BigSum(keys, init);
      SetSumPick(keys, Big(saves), s);
      SetSumPick(keys, Big(init), s);
      SetSumSame(keys - {s}, Big(saves), Big(init));
    }
  }

  /** Summing the entries of a histogram at or above the threshold counts the savings that reach it. */
  lemma LargeSum(shortcuts: map<nat, nat>, saves: seq<nat>)
    requires Histogram(shortcuts, saves)
    ensures SetSum(shortcuts.Keys, Large(shortcuts)) == AtLeast(saves)
  {
    forall i | 0 <= i < |saves|
      ensures saves[i] in shortcuts.Keys
    {
      assert saves[i] in multiset(saves);
    }
    SetSumSame(shortcuts.Keys, Large(shortcuts), Big(saves));
    BigSum(shortcuts.Keys, saves);
  }

  /**
   * `solve`: the number of cheats, each a cell and one of the four jumps out
   * of it, that save at least 100 moves over the shortest race.  `None` is
   * the panic of `unwrap` when the finish cannot be reached.
   */
  method Solve(input: Input) returns (r: Option<nat>)
    requires Rectangular(input.field) && Inside(input.field, input.start) && Inside(input.field, input.finish)
    ensures r.None? <==> !Reachable(input.field, input.start, input.finish)
    ensures r.Some? ==> r.value == |CheatSet(Savings(input, Dist(input.field, input.start, input.finish).value), |input.field|, |input.field[0]|)|
  {
    var forward := Bfs(input.field, input.start);
    var backward := Bfs(input.field, input.finish);
    assert Holds(forward, input.field, input.start, input.finish.x, input.finish.y);
    if forward[input.finish.x, input.finish.y].None? {
      return None;
    }
    var total := forward[input.finish.x, input.finish.y].value;
    var shortcuts, saves := Shortcuts(input, forward, backward, total);
    var sum := SumLarge(shortcuts);
    LargeSum(shortcuts, saves);
    AllCount(Savings(input, total), |input.field[0]|, |input.field|);
    CheatsAll(Savings(input, total), |input.field|, |input.field[0]|);
    r := Some(sum);
  }
}
