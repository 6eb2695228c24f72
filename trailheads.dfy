/**
 * 2024 day 10: a topographic map of heights 0 to 9.  A hiking trail climbs
 * exactly one unit with every step up, down, left or right.  A trailhead is a
 * cell of height 0; its score is the number of distinct height-9 cells it can
 * reach.  The solver runs a breadth-first search from every trailhead and
 * sums the scores.
 */
module Trailheads {
  import opened Text

  type Field = seq<seq<int>>
  type Pos = (int, int)

  /** At least one row, and every row as long as the first. */
  predicate Rectangular(field: Field)
  {
    |field| > 0 && forall r :: 0 <= r < |field| ==> |field[r]| == |field[0]|
  }

  /** The bounds test of the search: rows by the map's length, columns by the first row's. */
  predicate Inside(field: Field, c: Pos)
    requires |field| > 0
  {
    0 <= c.0 < |field| && 0 <= c.1 < |field[0]|
  }

  function Height(field: Field, c: Pos): int
    requires Rectangular(field) && Inside(field, c)
  {
    field[c.0][c.1]
  }

  function Cells(field: Field): (r: set<Pos>)
    requires |field| > 0
    ensures forall c :: c in r <==> Inside(field, c)
  {
    set i, j | 0 <= i < |field| && 0 <= j < |field[0]| :: (i, j)
  }

  /** The four moves, in the order the search tries them. */
  const Deltas: seq<Pos> := [(-1, 0), (1, 0), (0, -1), (0, 1)]

  function Add(c: Pos, d: Pos): Pos
  {
    (c.0 + d.0, c.1 + d.1)
  }

  /** One step of a trail: to a neighbour inside the map, exactly one unit higher. */
  predicate Step(field: Field, a: Pos, b: Pos)
    requires Rectangular(field)
  {
    Inside(field, a) && Inside(field, b) && (b.0 - a.0, b.1 - a.1) in Deltas
    && Height(field, b) == Height(field, a) + 1
  }

  /** The cells at the end of a trail of exactly `k` steps from `s`. */
  function Layer(field: Field, s: Pos, k: nat): set<Pos>
    requires Rectangular(field)
  {
    if k == 0 then (if Inside(field, s) then {s} else {})
    else set b | b in Cells(field) && exists a :: a in Layer(field, s, k - 1) && Step(field, a, b)
  }

  /**
   * `c` is at the end of a trail from `s`.  A trail climbs one unit per step,
   * so it reaches `c` in exactly as many steps as `c` is higher than `s`.
   */
  predicate Reachable(field: Field, s: Pos, c: Pos)
    requires Rectangular(field)
  {
    Inside(field, s) && Inside(field, c) && Height(field, c) >= Height(field, s)
    && c in Layer(field, s, Height(field, c) - Height(field, s))
  }

  /** The distinct height-9 cells reachable from `s`. */
  function Ends(field: Field, s: Pos): set<Pos>
    requires Rectangular(field)
  {
    set c | c in Cells(field) && Reachable(field, s, c) && Height(field, c) == 9
  }

  function Score(field: Field, s: Pos): nat
    requires Rectangular(field)
  {
    |Ends(field, s)|
  }

  // ---------------------------------------------------------------------------
  // Trails

  /** Every cell of layer `k` lies on the map, `k` units above the start. */
  lemma {:induction false} LayerHeight(field: Field, s: Pos, k: nat, c: Pos)
    requires Rectangular(field) && c in Layer(field, s, k)
    ensures Inside(field, s) && Inside(field, c) && Height(field, c) == Height(field, s) + k
  {
    if k > 0 {
      var a :| a in Layer(field, s, k - 1) && Step(field, a, c);
      LayerHeight(field, s, k - 1, a);
    }
  }

  /** Reachability is exactly membership in some layer. */
  lemma LayerReachable(field: Field, s: Pos, k: nat, c: Pos)
    requires Rectangular(field)
    ensures c in Layer(field, s, k) <==> Reachable(field, s, c) && Height(field, c) == Height(field, s) + k
  {
    if c in Layer(field, s, k) {
      LayerHeight(field, s, k, c);
    }
  }

  /** A step from a reachable cell reaches another cell. */
  lemma StepReachable(field: Field, s: Pos, a: Pos, b: Pos)
    requires Rectangular(field) && Reachable(field, s, a) && Step(field, a, b)
    ensures Reachable(field, s, b)
  {
    var k := Height(field, a) - Height(field, s);
    assert b in Cells(field);
    assert b in Layer(field, s, k + 1);
  }

  /** Every step out of a member of `S` stays in `S`. */
  ghost predicate Closed(field: Field, S: set<Pos>)
    requires Rectangular(field)
  {
    forall a, b :: a in S && Step(field, a, b) ==> b in S
  }

  /** A set that holds the start and is closed under steps holds every layer. */
  lemma {:induction false} ClosedHoldsLayer(field: Field, s: Pos, S: set<Pos>, k: nat)
    requires Rectangular(field) && s in S && Closed(field, S)
    ensures Layer(field, s, k) <= S
  {
    if k > 0 {
      ClosedHoldsLayer(field, s, S, k - 1);
      forall b | b in Layer(field, s, k)
        ensures b in S
      {
        var a :| a in Layer(field, s, k - 1) && Step(field, a, b);
      }
    }
  }

  /** ... and so every reachable cell. */
  lemma ClosedHoldsReachable(field: Field, s: Pos, S: set<Pos>)
    requires Rectangular(field) && s in S && Closed(field, S)
    ensures forall c :: Reachable(field, s, c) ==> c in S
  {
    forall c | Reachable(field, s, c)
      ensures c in S
    {
      ClosedHoldsLayer(field, s, S, Height(field, c) - Height(field, s));
    }
  }

  /** From a trailhead, the score counts the ends of trails of nine steps. */
  lemma TrailheadEnds(field: Field, s: Pos)
    requires Rectangular(field) && Inside(field, s) && Height(field, s) == 0
    ensures Ends(field, s) == Layer(field, s, 9)
  {
    forall c
      ensures c in Ends(field, s) <==> c in Layer(field, s, 9)
    {
      LayerReachable(field, s, 9, c);
    }
  }

  /** A score is at most the number of height-9 cells on the map. */
  lemma ScoreBound(field: Field, s: Pos)
    requires Rectangular(field)
    ensures Score(field, s) <= |set c | c in Cells(field) && Height(field, c) == 9|
  {
    SubsetCard(Ends(field, s), set c | c in Cells(field) && Height(field, c) == 9);
  }

  // ---------------------------------------------------------------------------
  // The search from one cell

  /** The height-9 cells among `xs`, counted with repetition. */
  function CountNines(field: Field, xs: seq<Pos>): nat
    requires Rectangular(field)
  {
    if xs == [] then 0
    else CountNines(field, xs[..|xs| - 1]) + (if Nine(field, xs[|xs| - 1]) then 1 else 0)
  }

  predicate Nine(field: Field, c: Pos)
    requires Rectangular(field)
  {
    Inside(field, c) && Height(field, c) == 9
  }

  /** Without repetition the count is the number of distinct height-9 cells. */
  lemma {:induction false} DistinctCount(field: Field, xs: seq<Pos>)
    requires Rectangular(field) && Distinct(xs)
    ensures CountNines(field, xs) == |set c | c in xs && Nine(field, c)|
  {
    if xs != [] {
      var ys, x := xs[..|xs| - 1], xs[|xs| - 1];
      DistinctCount(field, ys);
      var before := set c | c in ys && Nine(field, c);
      var after := set c | c in xs && Nine(field, c);
      assert xs == ys + [x];
      if Nine(field, x) {
        assert after == before + {x};
      } else {
        assert after == before;
      }
    }
  }

  /** Every cell of `log` is reachable from `s`. */
  ghost predicate AllReachable(field: Field, s: Pos, log: seq<Pos>)
    requires Rectangular(field)
  {
    log == [] || (AllReachable(field, s, log[..|log| - 1]) && Reachable(field, s, log[|log| - 1]))
  }

  lemma {:induction false} ReachableIn(field: Field, s: Pos, log: seq<Pos>, c: Pos)
    requires Rectangular(field) && AllReachable(field, s, log) && c in log
    ensures Reachable(field, s, c)
  {
    if c != log[|log| - 1] {
      assert c in log[..|log| - 1] by {
        var k :| 0 <= k < |log| && log[k] == c;
        assert log[..|log| - 1][k] == c;
      }
      ReachableIn(field, s, log[..|log| - 1], c);
    }
  }

  /** The first `k` cells of `log` have every step out of them in `log`. */
  ghost predicate ClosedUpTo(field: Field, log: seq<Pos>, k: nat)
    requires Rectangular(field) && k <= |log|
  {
    k == 0 || (ClosedUpTo(field, log, k - 1) && forall b :: Step(field, log[k - 1], b) ==> b in log)
  }

  lemma {:induction false} ClosedKept(field: Field, log: seq<Pos>, b: Pos, k: nat)
    requires Rectangular(field) && k <= |log| && ClosedUpTo(field, log, k)
    ensures ClosedUpTo(field, log + [b], k)
  {
    if k > 0 {
      ClosedKept(field, log, b, k - 1);
      assert (log + [b])[k - 1] == log[k - 1];
    }
  }

  lemma {:induction false} ClosedAt(field: Field, log: seq<Pos>, k: nat, i: nat, b: Pos)
    requires Rectangular(field) && i < k <= |log| && ClosedUpTo(field, log, k) && Step(field, log[i], b)
    ensures b in log
  {
    if i < k - 1 {
      ClosedAt(field, log, k - 1, i, b);
    }
  }

  /**
   * The search's invariant.  `log` lists every cell ever enqueued, in order;
   * the first `done` have been taken off the queue and the first `closed` of
   * them have had all their steps tried.  Every enqueued cell is reachable and
   * enqueued once, and `nines` counts the height-9 cells taken off.
   */
  ghost predicate Searching(field: Field, s: Pos, log: seq<Pos>, done: nat, closed: nat, nines: int)
    requires Rectangular(field)
  {
    closed <= done <= |log| && s in log && Distinct(log) && AllReachable(field, s, log)
    && ClosedUpTo(field, log, closed) && nines == CountNines(field, log[..done])
  }

  /** The `visited` grid is true exactly on the enqueued cells. */
  ghost predicate Painted(visited: array2<bool>, log: seq<Pos>)
    reads visited
  {
    forall i, j :: 0 <= i < visited.Length0 && 0 <= j < visited.Length1 ==> (visited[i, j] <==> (i, j) in log)
  }

  /** Marking a cell as visited enqueues it in the log. */
  method Visit(visited: array2<bool>, ghost log: seq<Pos>, c: Pos)
    requires Painted(visited, log) && 0 <= c.0 < visited.Length0 && 0 <= c.1 < visited.Length1
    modifies visited
    ensures Painted(visited, log + [c])
  {
    visited[c.0, c.1] := true;
  }

  lemma StartSearch(field: Field, s: Pos)
    requires Rectangular(field) && Inside(field, s)
    ensures Searching(field, s, [s], 0, 0, 0)
  {
    assert s in Layer(field, s, 0);
    assert [s][..0] == [];
  }

  /** Taking the next cell off the queue and counting it if it is a 9; the cell is on the map. */
  lemma PopStep(field: Field, s: Pos, log: seq<Pos>, done: nat, nines: int)
    requires Rectangular(field) && Searching(field, s, log, done, done, nines) && done < |log|
    ensures Searching(field, s, log, done + 1, done, nines + if Nine(field, log[done]) then 1 else 0)
    ensures Inside(field, log[done])
  {
    assert log[..done + 1][..done] == log[..done];
    ReachableIn(field, s, log, log[done]);
  }

  /** Enqueueing a cell one step up from the cell being expanded. */
  lemma PushStep(field: Field, s: Pos, log: seq<Pos>, done: nat, nines: int, b: Pos)
    requires Rectangular(field) && done > 0 && Searching(field, s, log, done, done - 1, nines)
    requires Step(field, log[done - 1], b) && b !in log
    ensures Searching(field, s, log + [b], done, done - 1, nines)
  {
    ReachableIn(field, s, log, log[done - 1]);
    StepReachable(field, s, log[done - 1], b);
    assert (log + [b])[..done] == log[..done];
    assert (log + [b])[..|log|] == log;
    ClosedKept(field, log, b, done - 1);
  }

  /** The step along `d` from `a` is tried: when it is a trail step, its cell is enqueued. */
  predicate Tried(field: Field, log: seq<Pos>, a: Pos, d: Pos)
    requires Rectangular(field)
  {
    Step(field, a, Add(a, d)) ==> Add(a, d) in log
  }

  /** Trying all four moves covers every step out of `a`. */
  lemma AllTried(field: Field, log: seq<Pos>, a: Pos)
    requires Rectangular(field) && forall e :: 0 <= e < 4 ==> Tried(field, log, a, Deltas[e])
    ensures forall b :: Step(field, a, b) ==> b in log
  {
    forall b | Step(field, a, b)
      ensures b in log
    {
      var e :| 0 <= e < 4 && Deltas[e] == (b.0 - a.0, b.1 - a.1);
      assert Add(a, Deltas[e]) == b;
    }
  }

  /** Once all four moves are tried, the expanded cell is closed. */
  lemma CloseStep(field: Field, s: Pos, log: seq<Pos>, done: nat, nines: int)
    requires Rectangular(field) && done > 0 && Searching(field, s, log, done, done - 1, nines)
    requires forall b :: Step(field, log[done - 1], b) ==> b in log
    ensures Searching(field, s, log, done, done, nines)
  {
  }

  /** When the queue is empty, the enqueued cells are exactly the reachable ones and `nines` is the score. */
  lemma EndSearch(field: Field, s: Pos, log: seq<Pos>, nines: int)
    requires Rectangular(field) && Searching(field, s, log, |log|, |log|, nines)
    ensures forall c :: c in log <==> Reachable(field, s, c)
    ensures nines == Score(field, s)
  {
    var S := set c | c in log;
    forall a, b | a in S && Step(field, a, b)
      ensures b in S
    {
      var k :| 0 <= k < |log| && log[k] == a;
      ClosedAt(field, log, |log|, k, b);
    }
    ClosedHoldsReachable(field, s, S);
    forall c | c in log
      ensures Reachable(field, s, c)
    {
      ReachableIn(field, s, log, c);
    }
    assert log[..|log|] == log;
    DistinctCount(field, log);
    assert (set c | c in log && Nine(field, c)) == Ends(field, s);
  }

  /** One move of the `for` loop: enqueue the neighbour along `d` if it is unvisited and one unit higher than `a`. */
  method TryMove(field: Field, ghost s: Pos, visited: array2<bool>, a: Pos, d: Pos, queue: seq<Pos>,
                 ghost log: seq<Pos>, ghost done: nat, ghost nines: int)
    returns (queue': seq<Pos>, ghost log': seq<Pos>)
    requires Rectangular(field) && |field[0]| == |field| && visited.Length0 == visited.Length1 == |field|
    requires done > 0 && Searching(field, s, log, done, done - 1, nines) && a == log[done - 1] && Inside(field, a)
    requires queue == log[done..] && Painted(visited, log) && d in Deltas
    modifies visited
    ensures Searching(field, s, log', done, done - 1, nines) && log <= log'
    ensures queue' == log'[done..] && Painted(visited, log') && Tried(field, log', a, d)
  {
    var n, m := |field|, |field[0]|;
    var b := Add(a, d);
    if 0 <= b.0 < n && 0 <= b.1 < m && !visited[b.0, b.1] && field[a.0][a.1] + 1 == field[b.0][b.1] {
      assert b !in log;
      MoveStep(field, a, d);
      PushStep(field, s, log, done, nines, b);
      Visit(visited, log, b);
      QueueGrows(log, done, b);
      queue' := queue + [b];
      log' := log + [b];
    } else {
      queue', log' := queue, log;
    }
  }

  /** A move to a cell inside the map one unit higher is a step of a trail. */
  lemma MoveStep(field: Field, a: Pos, d: Pos)
    requires Rectangular(field) && d in Deltas && Inside(field, a) && Inside(field, Add(a, d))
    requires Height(field, Add(a, d)) == Height(field, a) + 1
    ensures Step(field, a, Add(a, d))
  {
    assert (Add(a, d).0 - a.0, Add(a, d).1 - a.1) == d;
  }

  lemma QueueGrows(log: seq<Pos>, done: nat, b: Pos)
    requires done <= |log|
    ensures (log + [b])[done..] == log[done..] + [b]
  {
  }

  /** Moves tried before stay tried as the log grows, and the next one joins them. */
  lemma TriedKept(field: Field, log: seq<Pos>, log': seq<Pos>, a: Pos, e: nat)
    requires Rectangular(field) && log <= log' && e < 4
    requires forall e' :: 0 <= e' < e ==> Tried(field, log, a, Deltas[e'])
    requires Tried(field, log', a, Deltas[e])
    ensures forall e' :: 0 <= e' < e + 1 ==> Tried(field, log', a, Deltas[e'])
  {
    assert forall c :: c in log ==> c in log';
  }

  /** The `for` loop over the four moves, in order. */
  method Expand(field: Field, ghost s: Pos, visited: array2<bool>, a: Pos, queue: seq<Pos>,
                ghost log: seq<Pos>, ghost done: nat, ghost nines: int)
    returns (queue': seq<Pos>, ghost log': seq<Pos>)
    requires Rectangular(field) && |field[0]| == |field| && visited.Length0 == visited.Length1 == |field|
    requires done > 0 && Searching(field, s, log, done, done - 1, nines) && a == log[done - 1] && Inside(field, a)
    requires queue == log[done..] && Painted(visited, log)
    modifies visited
    ensures Searching(field, s, log', done, done, nines) && queue' == log'[done..] && Painted(visited, log')
  {
    queue', log' := queue, log;
    for e := 0 to 4
      invariant Searching(field, s, log', done, done - 1, nines) && a == log'[done - 1]
      invariant queue' == log'[done..] && Painted(visited, log')
      invariant forall e' :: 0 <= e' < e ==> Tried(field, log', a, Deltas[e'])
    {
      ghost var before := log';
      queue', log' := TryMove(field, s, visited, a, Deltas[e], queue', log', done, nines);
      TriedKept(field, before, log', a, e);
    }
    AllTried(field, log', a);
    CloseStep(field, s, log', done, nines);
  }

  /**
   * The breadth-first search from `s` in `solve`: pop a cell, count it when
   * it is a 9, and expand it.  The ghost `log` records every enqueued cell:
   * each at most once, and exactly the cells reachable from `s`.
   */
  method Search(field: Field, s: Pos) returns (nines: int, ghost log: seq<Pos>)
    requires Rectangular(field) && |field[0]| == |field| && Inside(field, s)
    ensures (forall i, j :: 0 <= i < j < |log| ==> log[i] != log[j]) && forall c :: c in log <==> Reachable(field, s, c)
    ensures nines == Score(field, s)
  {
    var n, m := |field|, |field[0]|;
    var visited := new bool[m, n]((i, j) => false);
    nines := 0;
    var queue := [s];
    visited[s.0, s.1] := true;
    log := [s];
    ghost var done: nat := 0;
    StartSearch(field, s);
    while queue != []
      invariant Searching(field, s, log, done, done, nines) && queue == log[done..]
      invariant visited.Length0 == m && visited.Length1 == n && Painted(visited, log)
      decreases |Cells(field)| - done
    {
      forall c | c in log
        ensures c in Cells(field)
      {
        ReachableIn(field, s, log, c);
      }
      DistinctLength(log, Cells(field));
      var a := queue[0];
      PopStep(field, s, log, done, nines);
      if field[a.0][a.1] == 9 {
        nines := nines + 1;
      }
      done := done + 1;
      queue, log := Expand(field, s, visited, a, queue[1..], log, done, nines);
    }
    EndSearch(field, s, log, nines);
    DistinctPairs(log);
  }

  // ---------------------------------------------------------------------------
  // The answer

  /** The scores of the trailheads among the first `j` cells of row `i`. */
  function RowTotal(field: Field, i: nat, j: nat): nat
    requires Rectangular(field) && i < |field| && j <= |field[0]|
  {
    if j == 0 then 0
    else RowTotal(field, i, j - 1) + if Height(field, (i, j - 1)) == 0 then Score(field, (i, j - 1)) else 0
  }

  /** The scores of the trailheads in the first `i` rows. */
  function Total(field: Field, i: nat): nat
    requires Rectangular(field) && i <= |field|
  {
    if i == 0 then 0 else Total(field, i - 1) + RowTotal(field, i - 1, |field[0]|)
  }

  /** One row of the double loop of `solve`: a search from each height-0 cell. */
  method SolveRow(field: Field, i: nat) returns (sum: int)
    requires Rectangular(field) && |field[0]| == |field| && i < |field|
    ensures sum == RowTotal(field, i, |field[0]|)
  {
    sum := 0;
    for j := 0 to |field[0]|
      invariant sum == RowTotal(field, i, j)
    {
      if field[i][j] != 0 {
        continue;
      }
      var nines, _ := Search(field, (i, j));
      sum := sum + nines;
    }
  }

  /** `PartOne::solve`: the sum of the trailheads' scores. */
  method Solve(field: Field) returns (sum: int)
    requires Rectangular(field) && |field[0]| == |field|
    ensures sum == Total(field, |field|)
  {
    sum := 0;
    for i := 0 to |field|
      invariant sum == Total(field, i)
    {
      var row := SolveRow(field, i);
      sum := sum + row;
    }
  }

  /** Only trailheads contribute: a map without a height-0 cell scores nothing. */
  lemma {:induction false} NoTrailheads(field: Field, i: nat)
    requires Rectangular(field) && i <= |field|
    requires forall c :: c in Cells(field) ==> Height(field, c) != 0
    ensures Total(field, i) == 0
  {
    if i > 0 {
      NoTrailheads(field, i - 1);
      RowNoTrailheads(field, i - 1, |field[0]|);
    }
  }

  lemma {:induction false} RowNoTrailheads(field: Field, i: nat, j: nat)
    requires Rectangular(field) && i < |field| && j <= |field[0]|
    requires forall c :: c in Cells(field) ==> Height(field, c) != 0
    ensures RowTotal(field, i, j) == 0
  {
    if j > 0 {
      RowNoTrailheads(field, i, j - 1);
      assert (i, j - 1) in Cells(field);
    }
  }

  // ---------------------------------------------------------------------------
  // Parsing

  /** A line's heights, or `None` where `to_digit(10).unwrap()` panics. */
  function Row(line: string): (r: Option<seq<int>>)
    ensures r.Some? <==> AllDigits(line)
    ensures r.Some? ==> |r.value| == |line| && forall j :: 0 <= j < |line| ==> r.value[j] == DigitValue(line[j])
  {
    if AllDigits(line) then Some(seq(|line|, j requires 0 <= j < |line| => DigitValue(line[j] ))) else None
  }

  /** `parse_from`: the non-empty lines, one row of heights each. */
  function Parse(s: string): (r: Option<Field>)
    ensures r.Some? <==> forall k :: 0 <= k < |NonEmptyLines(s)| ==> AllDigits(NonEmptyLines(s)[k])
    ensures r.Some? ==> |r.value| == |NonEmptyLines(s)|
    ensures r.Some? ==> forall k, j :: 0 <= k < |r.value| && 0 <= j < |r.value[k]| ==> 0 <= r.value[k][j] <= 9
  {
    ParseEach(NonEmptyLines(s), Row)
  }
}
