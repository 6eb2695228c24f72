/**
 * 2024 day 12: a garden map of plant letters.  A region is a maximal set of
 * cells with the same plant that are connected through steps up, down, left
 * and right.  Its price is its area times its perimeter, the number of cell
 * sides that face the edge of the map or a different plant.  The solver scans
 * the map row by row; at every cell not yet visited it floods the cell's
 * region breadth-first, marking it visited, and adds the region's price.
 */
module GardenRegions {
  import opened Text

  type Field = seq<seq<char>>
  type Pos = (int, int)

  /** At least one row (the solver reads the first), and no row shorter than the first. */
  predicate Wide(field: Field)
  {
    |field| > 0 && forall r :: 0 <= r < |field| ==> |field[r]| >= |field[0]|
  }

  /** The bounds test of the flood fill: rows by the map's length, columns by the first row's. */
  predicate Inside(field: Field, c: Pos)
  {
    0 <= c.0 < |field| && 0 <= c.1 < |field[0]|
  }

  /** The plant at `c`; on a wide map every cell inside has one. */
  function Plant(field: Field, c: Pos): char
  {
    if 0 <= c.0 < |field| && 0 <= c.1 < |field[c.0]| then field[c.0][c.1] else ' '
  }

  function Cells(field: Field): (r: set<Pos>)
    ensures forall c :: c in r <==> Inside(field, c)
  {
    if field == [] then {} else set i, j | 0 <= i < |field| && 0 <= j < |field[0]| :: (i, j)
  }

  /** The four moves, in the order the flood fill tries them. */
  const Deltas: seq<Pos> := [(-1, 0), (1, 0), (0, -1), (0, 1)]

  function Add(c: Pos, d: Pos): Pos
  {
    (c.0 + d.0, c.1 + d.1)
  }

  /** `a` and `b` share a side. */
  predicate Adjacent(a: Pos, b: Pos)
  {
    (a.0 == b.0 && (a.1 + 1 == b.1 || b.1 + 1 == a.1)) || (a.1 == b.1 && (a.0 + 1 == b.0 || b.0 + 1 == a.0))
  }

  /** One step inside a region: to an adjacent cell of the map holding the same plant. */
  predicate Link(field: Field, a: Pos, b: Pos)
  {
    Inside(field, a) && Inside(field, b) && Adjacent(a, b) && Plant(field, a) == Plant(field, b)
  }

  // ---------------------------------------------------------------------------
  // Regions

  /** A walk over the map that never changes plant. */
  ghost predicate Walk(field: Field, p: seq<Pos>)
  {
    |p| > 0 && Inside(field, p[0]) && forall i :: 0 <= i < |p| - 1 ==> Link(field, p[i], p[i + 1])
  }

  ghost predicate Connected(field: Field, a: Pos, b: Pos)
  {
    exists p :: Walk(field, p) && p[0] == a && p[|p| - 1] == b
  }

  /** The region of `c`: every cell a same-plant walk from `c` reaches. */
  ghost function Region(field: Field, c: Pos): set<Pos>
  {
    set d | d in Cells(field) && Connected(field, c, d)
  }

  /** A cell of the map lies in its own region. */
  lemma RegionSelf(field: Field, c: Pos)
    requires Inside(field, c)
    ensures c in Region(field, c)
  {
    assert Walk(field, [c]);
  }

  /** A region is closed under steps to an adjacent cell with the same plant. */
  lemma RegionStep(field: Field, c: Pos, d: Pos, e: Pos)
    requires d in Region(field, c) && Link(field, d, e)
    ensures e in Region(field, c)
  {
    var p :| Walk(field, p) && p[0] == c && p[|p| - 1] == d;
    var q := p + [e];
    forall i | 0 <= i < |q| - 1
      ensures Link(field, q[i], q[i + 1])
    {
      if i < |p| - 1 {
        assert q[i] == p[i] && q[i + 1] == p[i + 1];
      }
    }
    assert Walk(field, q);
  }

  /** Being in the same region is symmetric. */
  lemma RegionSym(field: Field, c: Pos, d: Pos)
    requires d in Region(field, c)
    ensures c in Region(field, d)
  {
    var p :| Walk(field, p) && p[0] == c && p[|p| - 1] == d;
    var q := seq(|p|, i requires 0 <= i < |p| => p[|p| - 1 - i]);
    forall i | 0 <= i < |q| - 1
      ensures Link(field, q[i], q[i + 1])
    {
      assert Link(field, p[|p| - 2 - i], p[|p| - 1 - i]);
    }
    assert Walk(field, q);
  }

  /** ... and transitive. */
  lemma RegionTrans(field: Field, c: Pos, d: Pos, e: Pos)
    requires d in Region(field, c) && e in Region(field, d)
    ensures e in Region(field, c)
  {
    var p :| Walk(field, p) && p[0] == c && p[|p| - 1] == d;
    var q :| Walk(field, q) && q[0] == d && q[|q| - 1] == e;
    var r := p + q[1..];
    forall i | 0 <= i < |r| - 1
      ensures Link(field, r[i], r[i + 1])
    {
      if i < |p| - 1 {
        assert r[i] == p[i] && r[i + 1] == p[i + 1];
      } else {
        assert r[i] == q[i - |p| + 1] && r[i + 1] == q[i - |p| + 2];
      }
    }
    assert Walk(field, r);
    assert r[|r| - 1] == e;
  }

  /** Any cell of a region has that same region. */
  lemma RegionsMeet(field: Field, c: Pos, d: Pos)
    requires d in Region(field, c)
    ensures Region(field, d) == Region(field, c)
  {
    RegionSym(field, c, d);
    forall e | e in Region(field, d)
      ensures e in Region(field, c)
    {
      RegionTrans(field, c, d, e);
    }
    forall e | e in Region(field, c)
      ensures e in Region(field, d)
    {
      RegionTrans(field, d, c, e);
    }
  }

  /** Every cell of a region holds the plant of its seed. */
  lemma RegionPlant(field: Field, c: Pos, d: Pos)
    requires d in Region(field, c)
    ensures Inside(field, c) && Inside(field, d) && Plant(field, d) == Plant(field, c)
  {
    var p :| Walk(field, p) && p[0] == c && p[|p| - 1] == d;
    WalkPlant(field, p, |p| - 1);
  }

  lemma {:induction false} WalkPlant(field: Field, p: seq<Pos>, k: nat)
    requires Walk(field, p) && k < |p|
    ensures Inside(field, p[k]) && Plant(field, p[k]) == Plant(field, p[0])
  {
    if k > 0 {
      WalkPlant(field, p, k - 1);
      assert Link(field, p[k - 1], p[k]);
    }
  }

  /** Every step out of a member of `S` stays in `S`. */
  ghost predicate Closed(field: Field, S: set<Pos>)
  {
    forall a, b :: a in S && Link(field, a, b) ==> b in S
  }

  /** A region is the least closed set holding its seed. */
  lemma ClosedHoldsRegion(field: Field, c: Pos, S: set<Pos>)
    requires c in S && Closed(field, S)
    ensures Region(field, c) <= S
  {
    forall d | d in Region(field, c)
      ensures d in S
    {
      var p :| Walk(field, p) && p[0] == c && p[|p| - 1] == d;
      WalkStays(field, p, S, |p| - 1);
    }
  }

  lemma {:induction false} WalkStays(field: Field, p: seq<Pos>, S: set<Pos>, k: nat)
    requires Walk(field, p) && p[0] in S && Closed(field, S) && k < |p|
    ensures p[k] in S
  {
    if k > 0 {
      WalkStays(field, p, S, k - 1);
      assert Link(field, p[k - 1], p[k]);
    }
  }

  // ---------------------------------------------------------------------------
  // Fences

  /** A fence runs along the side of `c` facing `d`: the cell there is off the map or holds another plant. */
  predicate Fence(field: Field, c: Pos, d: Pos)
    requires Inside(field, c)
  {
    !Inside(field, Add(c, d)) || Plant(field, c) != Plant(field, Add(c, d))
  }

  /** The fenced sides of `c` among the first `e` moves. */
  function FencesBefore(field: Field, c: Pos, e: nat): (r: nat)
    requires Inside(field, c) && e <= 4
    ensures r <= e
  {
    if e == 0 then 0 else FencesBefore(field, c, e - 1) + if Fence(field, c, Deltas[e - 1]) then 1 else 0
  }

  /** The fenced sides of a cell; a cell off the map has none. */
  function Fences(field: Field, c: Pos): (r: nat)
    ensures r <= 4
  {
    if Inside(field, c) then FencesBefore(field, c, 4) else 0
  }

  /** A side of a region's cell is fenced exactly when the cell beyond it is outside the region. */
  lemma FenceLeavesRegion(field: Field, s: Pos, c: Pos, d: Pos)
    requires c in Region(field, s) && d in Deltas
    ensures Inside(field, c) && (Fence(field, c, d) <==> Add(c, d) !in Region(field, s))
  {
    RegionPlant(field, s, c);
    var b := Add(c, d);
    if b in Region(field, s) {
      RegionPlant(field, s, b);
    } else if !Fence(field, c, d) {
      assert Link(field, c, b);
      RegionStep(field, s, c, b);
    }
  }

  /** The perimeter of a set of cells: its fenced sides, cell by cell. */
  ghost function Perimeter(field: Field, R: set<Pos>): int
  {
    SetSum(R, c => Fences(field, c))
  }

  lemma PerimeterPick(field: Field, R: set<Pos>, c: Pos)
    requires c in R
    ensures Perimeter(field, R) == Fences(field, c) + Perimeter(field, R - {c})
  {
    SetSumPick(R, c => Fences(field, c), c);
  }

  /** The fenced sides of a list of cells, counted cell by cell with repetition. */
  function FenceSum(field: Field, xs: seq<Pos>): int
  {
    if xs == [] then 0 else FenceSum(field, xs[..|xs| - 1]) + Fences(field, xs[|xs| - 1])
  }

  /** Without repetition the count is the perimeter of the set of the listed cells. */
  lemma {:induction false} FenceSumSet(field: Field, xs: seq<Pos>)
    requires Distinct(xs)
    ensures FenceSum(field, xs) == Perimeter(field, set c | c in xs)
  {
    if xs != [] {
      var ys, x := xs[..|xs| - 1], xs[|xs| - 1];
      FenceSumSet(field, ys);
      assert xs == ys + [x];
      var S := set c | c in xs;
      PerimeterPick(field, S, x);
      assert S - {x} == set c | c in ys;
    }
  }

  // ---------------------------------------------------------------------------
  // The scan order and the answer

  /** `e` comes before `p` in the scan: row by row, left to right. */
  predicate Before(e: Pos, p: Pos)
  {
    e.0 < p.0 || (e.0 == p.0 && e.1 < p.1)
  }

  /** The region of `d` has a cell scanned before `p`, so by then the scan has flooded it. */
  ghost predicate Earlier(field: Field, d: Pos, p: Pos)
  {
    exists e :: e in Region(field, d) && Before(e, p)
  }

  /** The cells flooded before the scan reaches `p`. */
  ghost function EarlierSet(field: Field, p: Pos): set<Pos>
  {
    set d | d in Cells(field) && Earlier(field, d, p)
  }

  /** The scan finds `c` unvisited: no cell of its region comes before it. */
  ghost predicate Leader(field: Field, c: Pos)
  {
    !Earlier(field, c, c)
  }

  /** What the scan adds at `c`: the price of its region when `c` leads it, else nothing. */
  ghost function Price(field: Field, c: Pos): int
  {
    if Inside(field, c) && Leader(field, c) then |Region(field, c)| * Perimeter(field, Region(field, c)) else 0
  }

  /** The prices added at the first `j` cells of row `i`. */
  ghost function RowPrice(field: Field, i: nat, j: nat): int
    requires i < |field| && j <= |field[0]|
  {
    if j == 0 then 0 else RowPrice(field, i, j - 1) + Price(field, (i, j - 1))
  }

  /** The prices added in the first `i` rows. */
  ghost function Total(field: Field, i: nat): int
    requires i <= |field|
  {
    if i == 0 then 0 else Total(field, i - 1) + RowPrice(field, i - 1, |field[0]|)
  }

  /** A cell leads its region exactly when it is the region's first cell in scan order. */
  lemma LeaderFirst(field: Field, c: Pos)
    requires Inside(field, c)
    ensures Leader(field, c) <==> forall d :: d in Region(field, c) && d != c ==> Before(c, d)
  {
  }

  /** A region has at most one leader ... */
  lemma OneLeader(field: Field, c: Pos, d: Pos)
    requires Leader(field, c) && Leader(field, d) && d in Region(field, c)
    ensures c == d
  {
    RegionSym(field, c, d);
  }

  /** ... and at least one, so the scan prices every region exactly once. */
  lemma SomeLeader(field: Field, c: Pos)
    requires Inside(field, c)
    ensures exists l :: l in Region(field, c) && Leader(field, l)
  {
    RegionSelf(field, c);
    var l := First(Region(field, c));
    RegionsMeet(field, c, l);
    LeaderFirst(field, l);
  }

  /** The first cell of a non-empty set of cells in scan order. */
  lemma {:induction false} First(S: set<Pos>) returns (l: Pos)
    requires S != {}
    ensures l in S && forall d :: d in S && d != l ==> Before(l, d)
    decreases |S|
  {
    var x :| x in S;
    if S - {x} == {} {
      l := x;
      assert S == {x};
    } else {
      var rest := First(S - {x});
      if Before(x, rest) {
        l := x;
        forall d | d in S && d != x
          ensures Before(x, d)
        {
          assert d in S - {x};
        }
      } else {
        l := rest;
        forall d | d in S && d != rest
          ensures Before(rest, d)
        {
          if d != x {
            assert d in S - {x};
          }
        }
      }
    }
  }

  // ---------------------------------------------------------------------------
  // Flooding one region

  /** Every cell of `log` lies in the region of `s`. */
  ghost predicate AllIn(field: Field, s: Pos, log: seq<Pos>)
  {
    log == [] || (AllIn(field, s, log[..|log| - 1]) && log[|log| - 1] in Region(field, s))
  }

  lemma {:induction false} InRegion(field: Field, s: Pos, log: seq<Pos>, c: Pos)
    requires AllIn(field, s, log) && c in log
    ensures c in Region(field, s)
  {
    if c != log[|log| - 1] {
      assert c in log[..|log| - 1] by {
        var k :| 0 <= k < |log| && log[k] == c;
        assert log[..|log| - 1][k] == c;
      }
      InRegion(field, s, log[..|log| - 1], c);
    }
  }

  /** The first `k` cells of `log` have every step out of them in `log`. */
  ghost predicate ClosedUpTo(field: Field, log: seq<Pos>, k: nat)
    requires k <= |log|
  {
    k == 0 || (ClosedUpTo(field, log, k - 1) && forall b :: Link(field, log[k - 1], b) ==> b in log)
  }

  lemma {:induction false} ClosedKept(field: Field, log: seq<Pos>, b: Pos, k: nat)
    requires k <= |log| && ClosedUpTo(field, log, k)
    ensures ClosedUpTo(field, log + [b], k)
  {
    if k > 0 {
      ClosedKept(field, log, b, k - 1);
      assert (log + [b])[k - 1] == log[k - 1];
    }
  }

  lemma {:induction false} ClosedAt(field: Field, log: seq<Pos>, k: nat, i: nat, b: Pos)
    requires i < k <= |log| && ClosedUpTo(field, log, k) && Link(field, log[i], b)
    ensures b in log
  {
    if i < k - 1 {
      ClosedAt(field, log, k - 1, i, b);
    }
  }

  /**
   * The flood fill's invariant.  `log` lists every cell ever enqueued, in
   * order; the first `done` have been taken off the queue and the first
   * `closed` of them have had all their moves tried.  Every enqueued cell is
   * in the region of `s` and enqueued once, and the cells visited by earlier
   * floods lie outside the region.
   */
  ghost predicate Flooding(field: Field, s: Pos, before: set<Pos>, log: seq<Pos>, done: nat, closed: nat)
  {
    closed <= done <= |log| && s in log && Distinct(log) && AllIn(field, s, log)
    && ClosedUpTo(field, log, closed) && before !! Region(field, s)
  }

  /** The `visited` grid is true exactly on the earlier floods' cells and the enqueued ones. */
  ghost predicate Painted(visited: array2<bool>, before: set<Pos>, log: seq<Pos>)
    reads visited
  {
    forall i, j :: 0 <= i < visited.Length0 && 0 <= j < visited.Length1 ==>
      (visited[i, j] <==> (i, j) in before || (i, j) in log)
  }

  /** Marking a cell as visited enqueues it in the log. */
  method Visit(visited: array2<bool>, ghost before: set<Pos>, ghost log: seq<Pos>, c: Pos)
    requires Painted(visited, before, log) && 0 <= c.0 < visited.Length0 && 0 <= c.1 < visited.Length1
    modifies visited
    ensures Painted(visited, before, log + [c])
  {
    visited[c.0, c.1] := true;
  }

  lemma StartFlood(field: Field, s: Pos, before: set<Pos>)
    requires Inside(field, s) && before !! Region(field, s)
    ensures Flooding(field, s, before, [s], 0, 0)
  {
    RegionSelf(field, s);
    assert [s][..0] == [];
  }

  /** The enqueued cells are cells of the map, so there are no more of them than cells. */
  lemma LogBound(field: Field, s: Pos, before: set<Pos>, log: seq<Pos>, done: nat, closed: nat)
    requires Flooding(field, s, before, log, done, closed)
    ensures |log| <= |Cells(field)|
  {
    forall c | c in log
      ensures c in Cells(field)
    {
      InRegion(field, s, log, c);
    }
    DistinctLength(log, Cells(field));
  }

  /** Taking the next cell off the queue adds its fences to the count; the cell is on the map. */
  lemma PopStep(field: Field, s: Pos, before: set<Pos>, log: seq<Pos>, done: nat)
    requires Flooding(field, s, before, log, done, done) && done < |log|
    ensures Flooding(field, s, before, log, done + 1, done) && Inside(field, log[done])
    ensures FenceSum(field, log[..done + 1]) == FenceSum(field, log[..done]) + Fences(field, log[done])
  {
    assert log[..done + 1][..done] == log[..done];
    InRegion(field, s, log, log[done]);
  }

  /** Enqueueing a cell one step from the cell being expanded. */
  lemma PushStep(field: Field, s: Pos, before: set<Pos>, log: seq<Pos>, done: nat, b: Pos)
    requires done > 0 && Flooding(field, s, before, log, done, done - 1)
    requires Link(field, log[done - 1], b) && b !in log
    ensures Flooding(field, s, before, log + [b], done, done - 1)
  {
    InRegion(field, s, log, log[done - 1]);
    RegionStep(field, s, log[done - 1], b);
    assert (log + [b])[..|log|] == log;
    ClosedKept(field, log, b, done - 1);
  }

  /** A visited neighbour with the same plant was enqueued by this flood, not an earlier one. */
  lemma SeenStep(field: Field, s: Pos, before: set<Pos>, log: seq<Pos>, done: nat, b: Pos)
    requires done > 0 && Flooding(field, s, before, log, done, done - 1)
    requires Link(field, log[done - 1], b) && (b in before || b in log)
    ensures b in log
  {
    InRegion(field, s, log, log[done - 1]);
    RegionStep(field, s, log[done - 1], b);
  }

  /** The move along `d` from `a` is tried: when it stays in the region, its cell is enqueued. */
  predicate Tried(field: Field, log: seq<Pos>, a: Pos, d: Pos)
  {
    Link(field, a, Add(a, d)) ==> Add(a, d) in log
  }

  /** Trying all four moves covers every step out of `a`. */
  lemma AllTried(field: Field, log: seq<Pos>, a: Pos)
    requires forall e :: 0 <= e < 4 ==> Tried(field, log, a, Deltas[e])
    ensures forall b :: Link(field, a, b) ==> b in log
  {
    forall b | Link(field, a, b)
      ensures b in log
    {
      var e := if b.0 < a.0 then 0 else if b.0 > a.0 then 1 else if b.1 < a.1 then 2 else 3;
      assert Add(a, Deltas[e]) == b;
    }
  }

  /** Moves tried before stay tried as the log grows, and the next one joins them. */
  lemma TriedKept(field: Field, log: seq<Pos>, log': seq<Pos>, a: Pos, e: nat)
    requires log <= log' && e < 4
    requires forall e' :: 0 <= e' < e ==> Tried(field, log, a, Deltas[e'])
    requires Tried(field, log', a, Deltas[e])
    ensures forall e' :: 0 <= e' < e + 1 ==> Tried(field, log', a, Deltas[e'])
  {
    assert forall c :: c in log ==> c in log';
  }

  lemma QueueGrows(log: seq<Pos>, done: nat, b: Pos)
    requires done <= |log|
    ensures (log + [b])[done..] == log[done..] + [b] && (log + [b])[..done] == log[..done]
  {
  }

  /**
   * One move of the `for` loop over the four directions: count a fence, or
   * enqueue the neighbour when it is unvisited.
   */
  method TryMove(field: Field, ghost s: Pos, ghost before: set<Pos>, visited: array2<bool>, a: Pos, d: Pos,
                 queue: seq<Pos>, ghost log: seq<Pos>, ghost done: nat)
    returns (queue': seq<Pos>, ghost log': seq<Pos>, fenced: bool)
    requires Wide(field) && visited.Length0 == |field| && visited.Length1 == |field[0]|
    requires done > 0 && Flooding(field, s, before, log, done, done - 1) && a == log[done - 1] && Inside(field, a)
    requires queue == log[done..] && Painted(visited, before, log) && d in Deltas
    modifies visited
    ensures Flooding(field, s, before, log', done, done - 1) && log <= log' && log'[..done] == log[..done]
    ensures queue' == log'[done..] && Painted(visited, before, log') && Tried(field, log', a, d)
    ensures fenced == Fence(field, a, d)
  {
    var n, m := |field|, |field[0]|;
    var b := Add(a, d);
    if !(0 <= b.0 < n && 0 <= b.1 < m) || field[a.0][a.1] != field[b.0][b.1] {
      return queue, log, true;
    }
    fenced := false;
    assert Link(field, a, b);
    if !visited[b.0, b.1] {
      PushStep(field, s, before, log, done, b);
      Visit(visited, before, log, b);
      QueueGrows(log, done, b);
      queue', log' := queue + [b], log + [b];
    } else {
      SeenStep(field, s, before, log, done, b);
      queue', log' := queue, log;
    }
  }

  /**
   * The invariant of the `for` loop expanding `a`, the last cell taken off the
   * queue: the first `e` moves are tried and `fences` counts their fenced sides.
   */
  ghost predicate Expanding(field: Field, s: Pos, before: set<Pos>, log0: seq<Pos>, log: seq<Pos>, done: nat,
                            a: Pos, queue: seq<Pos>, e: nat, fences: int)
  {
    done > 0 && Flooding(field, s, before, log, done, done - 1) && done <= |log0| && log[..done] == log0[..done]
    && a == log[done - 1] && Inside(field, a) && queue == log[done..] && e <= 4
    && (forall e' :: 0 <= e' < e ==> Tried(field, log, a, Deltas[e']))
    && fences == FencesBefore(field, a, e)
  }

  /** The `for` loop's step, from what `TryMove` promises. */
  lemma ExpandStep(field: Field, s: Pos, before: set<Pos>, log0: seq<Pos>, log: seq<Pos>, log': seq<Pos>,
                   done: nat, a: Pos, queue': seq<Pos>, e: nat, fences: int, fenced: bool)
    requires e < 4 && done <= |log|
    requires Expanding(field, s, before, log0, log, done, a, log[done..], e, fences)
    requires Flooding(field, s, before, log', done, done - 1) && log <= log' && log'[..done] == log[..done]
    requires queue' == log'[done..] && Tried(field, log', a, Deltas[e]) && fenced == Fence(field, a, Deltas[e])
    ensures Expanding(field, s, before, log0, log', done, a, queue', e + 1, fences + if fenced then 1 else 0)
  {
    TriedKept(field, log, log', a, e);
  }

  /** The `for` loop over the four moves, in order; `fences` counts the fenced sides. */
  method Expand(field: Field, ghost s: Pos, ghost before: set<Pos>, visited: array2<bool>, a: Pos,
                queue: seq<Pos>, ghost log: seq<Pos>, ghost done: nat)
    returns (queue': seq<Pos>, ghost log': seq<Pos>, fences: int)
    requires Wide(field) && visited.Length0 == |field| && visited.Length1 == |field[0]|
    requires done > 0 && Flooding(field, s, before, log, done, done - 1) && a == log[done - 1] && Inside(field, a)
    requires queue == log[done..] && Painted(visited, before, log)
    modifies visited
    ensures Flooding(field, s, before, log', done, done) && log'[..done] == log[..done]
    ensures queue' == log'[done..] && Painted(visited, before, log') && fences == Fences(field, a)
  {
    queue', log', fences := queue, log, 0;
    for e := 0 to 4
      invariant Expanding(field, s, before, log, log', done, a, queue', e, fences) && Painted(visited, before, log')
    {
      ghost var prev := log';
      var fenced;
      queue', log', fenced := TryMove(field, s, before, visited, a, Deltas[e], queue', log', done);
      ExpandStep(field, s, before, log, prev, log', done, a, queue', e, fences, fenced);
      if fenced {
        fences := fences + 1;
      }
    }
    AllTried(field, log', a);
  }

  /** When the queue is empty, the enqueued cells are exactly the region, each once. */
  lemma EndFlood(field: Field, s: Pos, before: set<Pos>, log: seq<Pos>)
    requires Flooding(field, s, before, log, |log|, |log|)
    ensures (set c | c in log) == Region(field, s) && |log| == |Region(field, s)|
    ensures FenceSum(field, log) == Perimeter(field, Region(field, s))
  {
    var S := set c | c in log;
    forall a, b | a in S && Link(field, a, b)
      ensures b in S
    {
      var k :| 0 <= k < |log| && log[k] == a;
      ClosedAt(field, log, |log|, k, b);
    }
    ClosedHoldsRegion(field, s, S);
    forall c | c in log
      ensures c in Region(field, s)
    {
      InRegion(field, s, log, c);
    }
    DistinctCard(log);
    FenceSumSet(field, log);
  }

  /** Once the log is known as a set, the grid is painted with it. */
  lemma Repaint(visited: array2<bool>, before: set<Pos>, log: seq<Pos>, R: set<Pos>, after: set<Pos>)
    requires Painted(visited, before, log) && (set c | c in log) == R && after == before + R
    ensures Painted(visited, after, [])
  {
  }

  /** The flood fill's counters: `area` counts the cells taken off the queue and `perimeter` their fences. */
  ghost predicate Counted(field: Field, s: Pos, before: set<Pos>, log: seq<Pos>, done: nat, queue: seq<Pos>,
                          area: int, perimeter: int)
  {
    Flooding(field, s, before, log, done, done) && queue == log[done..]
    && area == done && perimeter == FenceSum(field, log[..done])
  }

  /** One round of the `while let` loop: pop a cell, count it, and expand it. */
  method FloodStep(field: Field, ghost s: Pos, ghost before: set<Pos>, visited: array2<bool>, queue: seq<Pos>,
                   ghost log: seq<Pos>, ghost done: nat, area: int, perimeter: int)
    returns (queue': seq<Pos>, ghost log': seq<Pos>, ghost done': nat, area': int, perimeter': int)
    requires Wide(field) && visited.Length0 == |field| && visited.Length1 == |field[0]|
    requires queue != [] && Counted(field, s, before, log, done, queue, area, perimeter)
    requires Painted(visited, before, log)
    modifies visited
    ensures Counted(field, s, before, log', done', queue', area', perimeter') && Painted(visited, before, log')
    ensures done' == done + 1
  {
    var a := queue[0];
    PopStep(field, s, before, log, done);
    area' := area + 1;
    done' := done + 1;
    var fences;
    queue', log', fences := Expand(field, s, before, visited, a, queue[1..], log, done');
    perimeter' := perimeter + fences;
  }

  /**
   * The breadth-first flood from `s` inside `solve`: mark `s`, then pop
   * cells, counting the area and the fenced sides and enqueueing unvisited
   * neighbours with the same plant.  It visits exactly the region of `s`,
   * none of whose cells an earlier flood visited.
   */
  method Flood(field: Field, visited: array2<bool>, s: Pos, ghost before: set<Pos>, ghost after: set<Pos>)
    returns (area: int, perimeter: int)
    requires Wide(field) && visited.Length0 == |field| && visited.Length1 == |field[0]|
    requires Inside(field, s) && before !! Region(field, s) && Painted(visited, before, [])
    requires after == before + Region(field, s)
    modifies visited
    ensures Painted(visited, after, [])
    ensures area == |Region(field, s)| && perimeter == Perimeter(field, Region(field, s))
  {
    Visit(visited, before, [], s);
    area, perimeter := 0, 0;
    var queue := [s];
    ghost var log := [s];
    ghost var done: nat := 0;
    StartFlood(field, s, before);
    while queue != []
      invariant Counted(field, s, before, log, done, queue, area, perimeter) && Painted(visited, before, log)
      decreases |Cells(field)| - done
    {
      LogBound(field, s, before, log, done, done);
      queue, log, done, area, perimeter := FloodStep(field, s, before, visited, queue, log, done, area, perimeter);
    }
    assert log[..done] == log;
    EndFlood(field, s, before, log);
    Repaint(visited, before, log, Region(field, s), after);
  }

  // ---------------------------------------------------------------------------
  // The scan

  /** Nothing is flooded before the first cell. */
  lemma ScanStart(field: Field)
    ensures EarlierSet(field, (0, 0)) == {}
  {
  }

  /** Past the last row everything is flooded. */
  lemma ScanEnd(field: Field)
    ensures EarlierSet(field, (|field|, 0)) == Cells(field)
  {
    forall d | d in Cells(field)
      ensures Earlier(field, d, (|field|, 0))
    {
      RegionSelf(field, d);
    }
  }

  /** The end of one row is the start of the next. */
  lemma RowEnd(field: Field, i: int)
    requires field != []
    ensures EarlierSet(field, (i, |field[0]|)) == EarlierSet(field, (i + 1, 0))
  {
    forall d | d in Cells(field)
      ensures Earlier(field, d, (i, |field[0]|)) <==> Earlier(field, d, (i + 1, 0))
    {
      if Earlier(field, d, (i + 1, 0)) {
        var e :| e in Region(field, d) && Before(e, (i + 1, 0));
        RegionPlant(field, d, e);
      }
      if Earlier(field, d, (i, |field[0]|)) {
        var e :| e in Region(field, d) && Before(e, (i, |field[0]|));
        RegionPlant(field, d, e);
      }
    }
  }

  /** A visited cell is not a leader, and passing it floods nothing new. */
  lemma PassVisited(field: Field, i: int, j: int)
    requires Inside(field, (i, j)) && (i, j) in EarlierSet(field, (i, j))
    ensures !Leader(field, (i, j)) && Price(field, (i, j)) == 0
    ensures EarlierSet(field, (i, j + 1)) == EarlierSet(field, (i, j))
  {
    var e :| e in Region(field, (i, j)) && Before(e, (i, j));
    forall d | d in Cells(field) && Earlier(field, d, (i, j + 1))
      ensures Earlier(field, d, (i, j))
    {
      var f :| f in Region(field, d) && Before(f, (i, j + 1));
      if f == (i, j) {
        RegionTrans(field, d, (i, j), e);
      }
    }
  }

  /** An unvisited cell leads its region, which no earlier flood touched; passing it floods the region. */
  lemma PassLeader(field: Field, i: int, j: int)
    requires Inside(field, (i, j)) && (i, j) !in EarlierSet(field, (i, j))
    ensures Leader(field, (i, j)) && EarlierSet(field, (i, j)) !! Region(field, (i, j))
    ensures Price(field, (i, j)) == |Region(field, (i, j))| * Perimeter(field, Region(field, (i, j)))
    ensures EarlierSet(field, (i, j + 1)) == EarlierSet(field, (i, j)) + Region(field, (i, j))
  {
    forall d | d in EarlierSet(field, (i, j)) && d in Region(field, (i, j))
      ensures false
    {
      var e :| e in Region(field, d) && Before(e, (i, j));
      RegionTrans(field, (i, j), d, e);
    }
    forall d | d in Region(field, (i, j))
      ensures d in EarlierSet(field, (i, j + 1))
    {
      RegionSym(field, (i, j), d);
    }
    forall d | d in EarlierSet(field, (i, j + 1)) && d !in EarlierSet(field, (i, j))
      ensures d in Region(field, (i, j))
    {
      var f :| f in Region(field, d) && Before(f, (i, j + 1));
      assert f == (i, j);
      RegionSym(field, d, (i, j));
    }
  }

  /** The scan has passed the first `j` cells of row `i`: their regions are flooded and `sum` holds their prices. */
  ghost predicate RowScanned(field: Field, visited: array2<bool>, i: nat, j: nat, sum: int)
    requires i < |field| && j <= |field[0]|
    reads visited
  {
    Painted(visited, EarlierSet(field, (i, j)), []) && sum == RowPrice(field, i, j)
  }

  /** One cell of the double loop: skip it when visited, else flood its region and add its price. */
  method PriceAt(field: Field, visited: array2<bool>, i: nat, j: nat, sum: int) returns (sum': int)
    requires Wide(field) && visited.Length0 == |field| && visited.Length1 == |field[0]|
    requires i < |field| && j < |field[0]| && RowScanned(field, visited, i, j, sum)
    modifies visited
    ensures RowScanned(field, visited, i, j + 1, sum')
  {
    if visited[i, j] {
      PassVisited(field, i, j);
      RowStep(field, visited, i, j, sum, 0);
      return sum;
    }
    sum' := FloodAt(field, visited, i, j, sum);
  }

  /** The scan reaches an unvisited cell: it leads its region, which is flooded and priced. */
  method FloodAt(field: Field, visited: array2<bool>, i: nat, j: nat, sum: int) returns (sum': int)
    requires Wide(field) && visited.Length0 == |field| && visited.Length1 == |field[0]|
    requires i < |field| && j < |field[0]| && RowScanned(field, visited, i, j, sum) && !visited[i, j]
    modifies visited
    ensures RowScanned(field, visited, i, j + 1, sum')
  {
    PassLeader(field, i, j);
    var area, perimeter := Flood(field, visited, (i, j), EarlierSet(field, (i, j)), EarlierSet(field, (i, j + 1)));
    RowStep(field, visited, i, j, sum, area * perimeter);
    sum' := sum + area * perimeter;
  }

  lemma RowStep(field: Field, visited: array2<bool>, i: nat, j: nat, sum: int, price: int)
    requires i < |field| && j < |field[0]|
    requires Painted(visited, EarlierSet(field, (i, j + 1)), []) && sum == RowPrice(field, i, j)
    requires price == Price(field, (i, j))
    ensures RowScanned(field, visited, i, j + 1, sum + price)
  {
  }

  /** One row of the double loop. */
  method ScanRow(field: Field, visited: array2<bool>, i: nat) returns (sum: int)
    requires Wide(field) && visited.Length0 == |field| && visited.Length1 == |field[0]| && i < |field|
    requires Painted(visited, EarlierSet(field, (i, 0)), [])
    modifies visited
    ensures Painted(visited, EarlierSet(field, (i + 1, 0)), []) && sum == RowPrice(field, i, |field[0]|)
  {
    sum := 0;
    for j := 0 to |field[0]|
      invariant RowScanned(field, visited, i, j, sum)
    {
      sum := PriceAt(field, visited, i, j, sum);
    }
    RowEnd(field, i);
  }

  /**
   * The double loop of `PartOne::solve` over a `visited` grid that starts
   * all false: it adds the price of every region once, and leaves every
   * cell visited.
   */
  method Scan(field: Field, visited: array2<bool>) returns (total: int)
    requires Wide(field) && visited.Length0 == |field| && visited.Length1 == |field[0]|
    requires forall i, j :: 0 <= i < |field| && 0 <= j < |field[0]| ==> !visited[i, j]
    modifies visited
    ensures total == Total(field, |field|)
    ensures forall i, j :: 0 <= i < |field| && 0 <= j < |field[0]| ==> visited[i, j]
  {
    ScanStart(field);
    total := 0;
    for i := 0 to |field|
      invariant Painted(visited, EarlierSet(field, (i, 0)), []) && total == Total(field, i)
    {
      var row := ScanRow(field, visited, i);
      total := total + row;
    }
    ScanEnd(field);
  }

  /** `PartOne::solve`: the total price of all regions. */
  method Solve(field: Field) returns (total: int)
    requires Wide(field)
    ensures total == Total(field, |field|)
  {
    var visited := new bool[|field|, |field[0]|]((i, j) => false);
    total := Scan(field, visited);
  }

  // ---------------------------------------------------------------------------
  // Parsing

  /** `parse_from`: the non-empty lines of the input, as rows of plants. */
  function Parse(s: string): (r: Field)
    ensures forall k :: 0 <= k < |r| ==> r[k] != []
  {
    NonEmptyLines(s)
  }
}
