/**
 * 2024 day 16: a reindeer walks a maze.  A state is a cell and a facing;
 * turning a quarter in place costs 1000 points and a step forward into an
 * empty cell costs 1.  The search is Dijkstra's algorithm over an ordered
 * set of (distance, state) pairs with lazy deletion.  Part one answers the
 * cheapest score from the start (facing right) to the end cell in any
 * facing; part two counts the cells that lie on some cheapest walk, by
 * adding the distances from the start and the distances back from the end.
 */
module ReindeerMaze {
  import opened Text

  // ---------------------------------------------------------------------------
  // Directions

  datatype Direction = Left | Up | Right | Down

  /** `offset`: (row, column) change of one step. */
  function Offset(d: Direction): (int, int)
  {
    match d
    case Left => (0, -1)
    case Up => (-1, 0)
    case Right => (0, 1)
    case Down => (1, 0)
  }

  function Clockwise(d: Direction): Direction
  {
    match d
    case Left => Up
    case Up => Right
    case Right => Down
    case Down => Left
  }

  /** Three clockwise quarter turns. */
  function Counterclockwise(d: Direction): Direction
  {
    Clockwise(Clockwise(Clockwise(d)))
  }

  /** `Direction::any`, in the order of the derived `Ord`. */
  const AllDirections: seq<Direction> := [Left, Up, Right, Down]

  /** Four clockwise turns come back to the start; a counter-clockwise turn undoes a clockwise one. */
  lemma Turns(d: Direction)
    ensures Clockwise(Clockwise(Clockwise(Clockwise(d)))) == d
    ensures Counterclockwise(Clockwise(d)) == d && Clockwise(Counterclockwise(d)) == d
    ensures Clockwise(d) != d && Counterclockwise(d) != d && Clockwise(d) != Counterclockwise(d)
  {
  }

  /** `Direction::any` lists every direction exactly once. */
  lemma AllDirectionsComplete(d: Direction)
    ensures d in AllDirections
    ensures forall i, j :: 0 <= i < j < |AllDirections| ==> AllDirections[i] != AllDirections[j]
  {
  }

  // ---------------------------------------------------------------------------
  // The maze as a graph of states

  datatype Pos = Pos(x: int, y: int, direction: Direction)

  datatype Cell = Empty | Wall

  type Field = seq<seq<Cell>>

  predicate InBounds(field: Field, x: int, y: int)
  {
    0 <= x < |field| && 0 <= y < |field[x]|
  }

  predicate Open(field: Field, x: int, y: int)
  {
    InBounds(field, x, y) && field[x][y] == Empty
  }

  /** Every empty cell has all four neighbours inside the map (the maze is walled in). */
  ghost predicate Enclosed(field: Field)
  {
    forall x, y :: Open(field, x, y) ==>
      InBounds(field, x - 1, y) && InBounds(field, x + 1, y) && InBounds(field, x, y - 1) && InBounds(field, x, y + 1)
  }

  /** The state one step ahead; `mult` is -1 when the search runs backwards. */
  function Ahead(p: Pos, mult: int): Pos
  {
    Pos(p.x + Offset(p.direction).0 * mult, p.y + Offset(p.direction).1 * mult, p.direction)
  }

  function TurnCw(p: Pos): Pos
  {
    Pos(p.x, p.y, Clockwise(p.direction))
  }

  function TurnCcw(p: Pos): Pos
  {
    Pos(p.x, p.y, Counterclockwise(p.direction))
  }

  /** One move: a quarter turn either way, or a step (ahead, or back when `mult` is -1) onto an empty cell. */
  predicate Edge(field: Field, mult: int, p: Pos, q: Pos)
  {
    q == TurnCw(p) || q == TurnCcw(p) || (q == Ahead(p, mult) && Open(field, q.x, q.y))
  }

  /** A turn in place costs 1000, a step costs 1. */
  function EdgeCost(p: Pos, q: Pos): nat
  {
    if p.x == q.x && p.y == q.y then 1000 else 1
  }

  /** `candidates`: the moves out of `p` with the distances they give, when `p` is at distance `d`. */
  function Candidates(field: Field, mult: int, p: Pos, d: nat): (cs: seq<(nat, Pos)>)
    requires mult == 1 || mult == -1
    ensures forall k :: 0 <= k < |cs| ==> Edge(field, mult, p, cs[k].1) && cs[k].0 == d + EdgeCost(p, cs[k].1) && cs[k].1 != p
  {
    var a := Ahead(p, mult);
    [(d + 1000, TurnCw(p)), (d + 1000, TurnCcw(p))]
      + if Open(field, a.x, a.y) then [(d + 1, a)] else []
  }

  /** Every move out of `p` is one of the candidates. */
  lemma EdgeIsCandidate(field: Field, mult: int, p: Pos, d: nat, q: Pos) returns (k: nat)
    requires mult == 1 || mult == -1
    requires Edge(field, mult, p, q)
    ensures k < |Candidates(field, mult, p, d)| && Candidates(field, mult, p, d)[k].1 == q
  {
    if q == TurnCw(p) {
      k := 0;
    } else if q == TurnCcw(p) {
      k := 1;
    } else {
      k := 2;
    }
  }

  /** A walk through the maze from one of the seed states. */
  ghost predicate Walk(field: Field, mult: int, seeds: set<Pos>, w: seq<Pos>)
    decreases |w|
  {
    |w| > 0 &&
    if |w| == 1 then w[0] in seeds
    else Walk(field, mult, seeds, w[..|w| - 1]) && Edge(field, mult, w[|w| - 2], w[|w| - 1])
  }

  /** The score of a walk: its moves' costs added up. */
  function Cost(w: seq<Pos>): nat
    decreases |w|
  {
    if |w| <= 1 then 0 else Cost(w[..|w| - 1]) + EdgeCost(w[|w| - 2], w[|w| - 1])
  }

  /** Some walk from a seed ends at `s` with score `c`. */
  ghost predicate Reaches(field: Field, mult: int, seeds: set<Pos>, s: Pos, c: nat)
  {
    exists w :: Walk(field, mult, seeds, w) && w[|w| - 1] == s && Cost(w) == c
  }

  lemma ReachesSeed(field: Field, mult: int, seeds: set<Pos>, s: Pos)
    requires s in seeds
    ensures Reaches(field, mult, seeds, s, 0)
  {
    assert Walk(field, mult, seeds, [s]);
  }

  /** A move extends a walk, adding its cost. */
  lemma ReachesStep(field: Field, mult: int, seeds: set<Pos>, p: Pos, c: nat, q: Pos)
    requires Reaches(field, mult, seeds, p, c) && Edge(field, mult, p, q)
    ensures Reaches(field, mult, seeds, q, c + EdgeCost(p, q))
  {
    var w :| Walk(field, mult, seeds, w) && w[|w| - 1] == p && Cost(w) == c;
    var w' := w + [q];
    assert w'[..|w'| - 1] == w;
    assert Walk(field, mult, seeds, w');
  }

  /** All states of a map: every in-bounds cell in every facing. */
  ghost function States(field: Field): set<Pos>
  {
    set x, y, d | 0 <= x < |field| && 0 <= y < |field[x]| && d in {Left, Up, Right, Down} :: Pos(x, y, d)
  }

  // ---------------------------------------------------------------------------
  // The search state

  /** `q` is known at distance at most `c`. */
  predicate Below(dist: map<Pos, nat>, q: Pos, c: nat)
  {
    q in dist && dist[q] <= c
  }

  /** Every move out of `s` has been offered at `s`'s distance. */
  predicate Relaxed(field: Field, mult: int, dist: map<Pos, nat>, s: Pos)
    requires mult == 1 || mult == -1
  {
    s in dist &&
    var cs := Candidates(field, mult, s, dist[s]);
    forall k :: 0 <= k < |cs| ==> Below(dist, cs[k].1, cs[k].0)
  }

  /** `dist` only ever gains keys and lowers values. */
  predicate Improves(dist: map<Pos, nat>, dist': map<Pos, nat>)
  {
    forall s :: s in dist ==> s in dist' && dist'[s] <= dist[s]
  }

  /**
   * What holds between pops, with `floor` the key popped last: seeds stay at
   * 0; every distance is the score of a walk to an empty cell; queue entries
   * are walk scores at or above `floor` and their state's distance; every
   * state is queued at its distance unless settled; settled states are at or
   * below `floor`, out of the queue.
   */
  ghost predicate Base(field: Field, mult: int, seeds: set<Pos>, dist: map<Pos, nat>, queue: set<(nat, Pos)>,
                       settled: set<Pos>, floor: nat)
  {
    && (forall s :: s in seeds ==> s in dist && dist[s] == 0)
    && (forall s :: s in dist ==> Open(field, s.x, s.y) && Reaches(field, mult, seeds, s, dist[s]))
    && (forall e :: e in queue ==> e.1 in dist && floor <= e.0 && dist[e.1] <= e.0 && Reaches(field, mult, seeds, e.1, e.0))
    && (forall s :: s in dist ==> (dist[s], s) in queue || s in settled)
    && (forall s :: s in settled ==> s in dist && dist[s] <= floor && (dist[s], s) !in queue)
  }

  /** `Base`, and every settled state has had its moves relaxed. */
  ghost predicate Searching(field: Field, mult: int, seeds: set<Pos>, dist: map<Pos, nat>, queue: set<(nat, Pos)>,
                            settled: set<Pos>, floor: nat)
    requires mult == 1 || mult == -1
  {
    Base(field, mult, seeds, dist, queue, settled, floor)
    && forall s :: s in settled ==> Relaxed(field, mult, dist, s)
  }

  /** Relaxing along a move gives the next state a distance no larger than the move's score. */
  lemma RelaxedEdge(field: Field, mult: int, dist: map<Pos, nat>, s: Pos, q: Pos)
    requires mult == 1 || mult == -1
    requires Relaxed(field, mult, dist, s) && Edge(field, mult, s, q)
    ensures Below(dist, q, dist[s] + EdgeCost(s, q))
  {
    var k := EdgeIsCandidate(field, mult, s, dist[s], q);
  }

  /** Relaxation survives improvements that leave the relaxed state's own distance alone. */
  lemma RelaxedKept(field: Field, mult: int, dist: map<Pos, nat>, dist': map<Pos, nat>, s: Pos)
    requires mult == 1 || mult == -1
    requires Relaxed(field, mult, dist, s) && Improves(dist, dist') && dist'[s] == dist[s]
    ensures Relaxed(field, mult, dist', s)
  {
    var cs := Candidates(field, mult, s, dist[s]);
    forall k | 0 <= k < |cs|
      ensures Below(dist', cs[k].1, cs[k].0)
    {
      assert Below(dist, cs[k].1, cs[k].0);
    }
  }

  /**
   * The frontier argument: follow a walk from its seed.  Either all its
   * states are settled and the last one's distance is at most the walk's
   * score, or some state on it is unsettled with a distance at most the
   * walk's score.
   */
  lemma {:induction false} Frontier(field: Field, mult: int, seeds: set<Pos>, dist: map<Pos, nat>,
                                    queue: set<(nat, Pos)>, settled: set<Pos>, floor: nat, w: seq<Pos>)
    returns (i: int)
    requires mult == 1 || mult == -1
    requires Searching(field, mult, seeds, dist, queue, settled, floor) && Walk(field, mult, seeds, w)
    ensures -1 <= i < |w|
    ensures i == -1 ==> w[|w| - 1] in settled && dist[w[|w| - 1]] <= Cost(w)
    ensures i >= 0 ==> w[i] in dist && w[i] !in settled && dist[w[i]] <= Cost(w) && (dist[w[i]], w[i]) in queue
    decreases |w|
  {
    var q := w[|w| - 1];
    if |w| == 1 {
      i := if q in settled then -1 else 0;
    } else {
      var w' := w[..|w| - 1];
      var i' := Frontier(field, mult, seeds, dist, queue, settled, floor, w');
      if i' >= 0 {
        i := i';
      } else {
        var p := w'[|w'| - 1];
        RelaxedEdge(field, mult, dist, p, q);
        i := if q in settled then -1 else |w| - 1;
      }
    }
  }

  /** With an empty queue, every walk ends at a settled state at its best score or below. */
  lemma Finished(field: Field, mult: int, seeds: set<Pos>, dist: map<Pos, nat>, settled: set<Pos>, floor: nat,
                 w: seq<Pos>)
    requires mult == 1 || mult == -1
    requires Searching(field, mult, seeds, dist, {}, settled, floor) && Walk(field, mult, seeds, w)
    ensures w[|w| - 1] in settled && dist[w[|w| - 1]] <= Cost(w)
  {
    var i := Frontier(field, mult, seeds, dist, {}, settled, floor, w);
  }

  /** A popped minimum bounds every walk whose frontier state is still queued. */
  lemma PoppedBelow(field: Field, mult: int, seeds: set<Pos>, dist: map<Pos, nat>, queue: set<(nat, Pos)>,
                    settled: set<Pos>, floor: nat, d: nat, p: Pos, w: seq<Pos>)
    requires mult == 1 || mult == -1
    requires Searching(field, mult, seeds, dist, queue, settled, floor) && Walk(field, mult, seeds, w)
    requires (d, p) in queue && forall f :: f in queue ==> d <= f.0
    requires w[|w| - 1] !in settled
    ensures d <= Cost(w)
  {
    var i := Frontier(field, mult, seeds, dist, queue, settled, floor, w);
  }

  // ---------------------------------------------------------------------------
  // The queue

  /** The order of the derived `Ord` on `Pos`: row, then column, then facing. */
  function DirIndex(d: Direction): nat
  {
    match d
    case Left => 0
    case Up => 1
    case Right => 2
    case Down => 3
  }

  predicate PosLe(a: Pos, b: Pos)
  {
    a.x < b.x || (a.x == b.x && (a.y < b.y || (a.y == b.y && DirIndex(a.direction) <= DirIndex(b.direction))))
  }

  /** The order of the queue's pairs: distance first, then state. */
  predicate KeyLe(e: (nat, Pos), f: (nat, Pos))
  {
    e.0 < f.0 || (e.0 == f.0 && PosLe(e.1, f.1))
  }

  lemma {:induction false} MinExists(queue: set<(nat, Pos)>)
    requires queue != {}
    ensures exists e :: e in queue && forall f :: f in queue ==> KeyLe(e, f)
    decreases |queue|
  {
    var x :| x in queue;
    if queue == {x} {
      assert forall f :: f in queue ==> KeyLe(x, f);
    } else {
      MinExists(queue - {x});
      var e :| e in queue - {x} && forall f :: f in queue - {x} ==> KeyLe(e, f);
      if KeyLe(e, x) {
        assert forall f :: f in queue ==> KeyLe(e, f);
      } else {
        assert KeyLe(x, e);
        forall f | f in queue
          ensures KeyLe(x, f)
        {
          if f != x {
            assert KeyLe(e, f);
          }
        }
      }
    }
  }

  /** `pop_first`: the least pair of the ordered set. */
  method PopFirst(queue: set<(nat, Pos)>) returns (e: (nat, Pos), rest: set<(nat, Pos)>)
    requires queue != {}
    ensures e in queue && (forall f :: f in queue ==> KeyLe(e, f)) && rest == queue - {e}
  {
    MinExists(queue);
    e :| e in queue && forall f :: f in queue ==> KeyLe(e, f);
    rest := queue - {e};
  }

  // ---------------------------------------------------------------------------
  // Dijkstra's algorithm

  lemma InStates(field: Field, p: Pos)
    requires InBounds(field, p.x, p.y)
    ensures p in States(field)
  {
    var x, y, d := p.x, p.y, p.direction;
    assert d in {Left, Up, Right, Down} by {
      match d
      case Left =>
      case Up =>
      case Right =>
      case Down =>
    }
    assert 0 <= x < |field| && 0 <= y < |field[x]| && p == Pos(x, y, d);
  }

  /** A state popped again later than its distance: every candidate is already known at least as cheaply. */
  lemma StaleRelaxed(field: Field, mult: int, dist: map<Pos, nat>, p: Pos, d: nat)
    requires mult == 1 || mult == -1
    requires Relaxed(field, mult, dist, p) && dist[p] <= d
    ensures var cs := Candidates(field, mult, p, d);
      forall j :: 0 <= j < |cs| ==> Below(dist, cs[j].1, cs[j].0)
  {
    var cs := Candidates(field, mult, p, d);
    var cs0 := Candidates(field, mult, p, dist[p]);
    forall j | 0 <= j < |cs|
      ensures Below(dist, cs[j].1, cs[j].0)
    {
      assert cs[j] == (cs0[j].0 + (d - dist[p]), cs0[j].1);
      assert Below(dist, cs0[j].1, cs0[j].0);
    }
  }

  /** What holds while the candidates of `p`, popped at `d`, are offered one by one. */
  ghost predicate Relaxing(field: Field, mult: int, seeds: set<Pos>, dist: map<Pos, nat>, queue: set<(nat, Pos)>,
                           settled: set<Pos>, d: nat, p: Pos, k: nat)
    requires mult == 1 || mult == -1
  {
    var cs := Candidates(field, mult, p, d);
    && Base(field, mult, seeds, dist, queue, settled, d)
    && p in settled && dist[p] <= d && Reaches(field, mult, seeds, p, d)
    && OthersRelaxed(field, mult, dist, settled, p)
    && k <= |cs|
    && (dist[p] < d ==> forall j :: 0 <= j < |cs| ==> Below(dist, cs[j].1, cs[j].0))
    && forall j :: 0 <= j < k ==> Below(dist, cs[j].1, cs[j].0)
  }

  /** A strictly better distance for an unsettled state: recorded and queued, `Base` still holds. */
  lemma BaseInsert(field: Field, mult: int, seeds: set<Pos>, dist: map<Pos, nat>, queue: set<(nat, Pos)>,
                   settled: set<Pos>, d: nat, q: Pos, c: nat)
    requires Base(field, mult, seeds, dist, queue, settled, d)
    requires !Below(dist, q, c) && d <= c && Open(field, q.x, q.y) && Reaches(field, mult, seeds, q, c)
    ensures Base(field, mult, seeds, dist[q := c], queue + {(c, q)}, settled, d)
    ensures Improves(dist, dist[q := c])
  {
  }

  /** A candidate that is no better than what is known is skipped. */
  lemma RelaxingSkip(field: Field, mult: int, seeds: set<Pos>, dist: map<Pos, nat>, queue: set<(nat, Pos)>,
                     settled: set<Pos>, d: nat, p: Pos, k: nat, c: nat, q: Pos)
    requires mult == 1 || mult == -1
    requires Relaxing(field, mult, seeds, dist, queue, settled, d, p, k) && k < |Candidates(field, mult, p, d)|
    requires Candidates(field, mult, p, d)[k] == (c, q) && Below(dist, q, c)
    ensures Relaxing(field, mult, seeds, dist, queue, settled, d, p, k + 1)
  {
  }

  /** A strictly better candidate is written into `dist` and queued; that never happens on a stale pop. */
  lemma RelaxingInsert(field: Field, mult: int, seeds: set<Pos>, dist: map<Pos, nat>, queue: set<(nat, Pos)>,
                       settled: set<Pos>, d: nat, p: Pos, k: nat, c: nat, q: Pos)
    requires mult == 1 || mult == -1
    requires Relaxing(field, mult, seeds, dist, queue, settled, d, p, k) && k < |Candidates(field, mult, p, d)|
    requires Candidates(field, mult, p, d)[k] == (c, q) && !Below(dist, q, c)
    ensures dist[p] == d && Improves(dist, dist[q := c])
    ensures Relaxing(field, mult, seeds, dist[q := c], queue + {(c, q)}, settled, d, p, k + 1)
  {
    ReachesStep(field, mult, seeds, p, d, q);
    BaseInsert(field, mult, seeds, dist, queue, settled, d, q, c);
    OthersKept(field, mult, dist, settled, p, q, c);
  }

  /** Every settled state but `p` has been relaxed. */
  predicate OthersRelaxed(field: Field, mult: int, dist: map<Pos, nat>, settled: set<Pos>, p: Pos)
    requires mult == 1 || mult == -1
  {
    forall s :: s in settled && s != p ==> Relaxed(field, mult, dist, s)
  }

  /** Lowering an unsettled state's distance keeps the settled states relaxed. */
  lemma OthersKept(field: Field, mult: int, dist: map<Pos, nat>, settled: set<Pos>, p: Pos, q: Pos, c: nat)
    requires mult == 1 || mult == -1
    requires OthersRelaxed(field, mult, dist, settled, p) && q !in settled && !Below(dist, q, c)
    ensures OthersRelaxed(field, mult, dist[q := c], settled, p)
  {
    forall s | s in settled && s != p
      ensures Relaxed(field, mult, dist[q := c], s)
    {
      RelaxedKept(field, mult, dist, dist[q := c], s);
    }
  }

  /** The state ahead (behind, searching backwards) of an empty cell's state is inside the map. */
  lemma AheadInBounds(field: Field, mult: int, p: Pos)
    requires mult == 1 || mult == -1
    requires Enclosed(field) && Open(field, p.x, p.y)
    ensures InBounds(field, Ahead(p, mult).x, Ahead(p, mult).y)
  {
    var x, y := p.x, p.y;
    assert InBounds(field, x - 1, y) && InBounds(field, x + 1, y) && InBounds(field, x, y - 1) && InBounds(field, x, y + 1);
  }

  /**
   * The loop body after `(d, p)` is popped: both quarter turns and, when the
   * cell ahead (behind, searching backwards) is empty, the step are offered;
   * each is written into `dist` and queued only when strictly better than
   * what is known.  A stale pop changes nothing.
   */
  method Relax(field: Field, mult: int, dist: map<Pos, nat>, queue: set<(nat, Pos)>, d: nat, p: Pos,
               ghost seeds: set<Pos>, ghost settled: set<Pos>)
    returns (dist': map<Pos, nat>, queue': set<(nat, Pos)>)
    requires mult == 1 || mult == -1
    requires Enclosed(field)
    requires Offered(field, mult, seeds, dist, queue, dist, queue, settled, d, p, 0)
    requires dist[p] < d ==> Relaxed(field, mult, dist, p)
    ensures Searching(field, mult, seeds, dist', queue', settled, d)
    ensures Improves(dist, dist')
    ensures dist[p] < d ==> dist' == dist && queue' == queue
  {
    var a := Ahead(p, mult);
    AheadInBounds(field, mult, p);
    var cands: seq<(nat, Pos)> := [(d + 1000, TurnCw(p)), (d + 1000, TurnCcw(p))];
    if field[a.x][a.y] == Empty {
      cands := cands + [(d + 1, a)];
    }
    assert cands == Candidates(field, mult, p, d);
    dist', queue' := dist, queue;
    for k := 0 to |cands|
      invariant Offered(field, mult, seeds, dist, queue, dist', queue', settled, d, p, k)
    {
      var (c, q) := cands[k];
      OfferedStep(field, mult, seeds, dist, queue, dist', queue', settled, d, p, k, c, q);
      if q in dist' && dist'[q] <= c {
        continue;
      }
      dist' := dist'[q := c];
      queue' := queue' + {(c, q)};
    }
    OfferedAll(field, mult, seeds, dist, queue, dist', queue', settled, d, p);
  }

  /** The loop invariant of `Relax`: `Relaxing`, started from `dist0` and `queue0`. */
  ghost predicate Offered(field: Field, mult: int, seeds: set<Pos>, dist0: map<Pos, nat>, queue0: set<(nat, Pos)>,
                          dist: map<Pos, nat>, queue: set<(nat, Pos)>, settled: set<Pos>, d: nat, p: Pos, k: nat)
    requires mult == 1 || mult == -1
  {
    && Relaxing(field, mult, seeds, dist, queue, settled, d, p, k)
    && Improves(dist0, dist) && p in dist0 && dist[p] == dist0[p]
    && (dist0[p] < d ==> dist == dist0 && queue == queue0)
  }

  lemma OfferedStep(field: Field, mult: int, seeds: set<Pos>, dist0: map<Pos, nat>, queue0: set<(nat, Pos)>,
                    dist: map<Pos, nat>, queue: set<(nat, Pos)>, settled: set<Pos>, d: nat, p: Pos, k: nat,
                    c: nat, q: Pos)
    requires mult == 1 || mult == -1
    requires Offered(field, mult, seeds, dist0, queue0, dist, queue, settled, d, p, k)
    requires k < |Candidates(field, mult, p, d)| && Candidates(field, mult, p, d)[k] == (c, q)
    ensures Below(dist, q, c) ==> Offered(field, mult, seeds, dist0, queue0, dist, queue, settled, d, p, k + 1)
    ensures !Below(dist, q, c) ==>
      Offered(field, mult, seeds, dist0, queue0, dist[q := c], queue + {(c, q)}, settled, d, p, k + 1)
  {
    if Below(dist, q, c) {
      RelaxingSkip(field, mult, seeds, dist, queue, settled, d, p, k, c, q);
    } else {
      RelaxingInsert(field, mult, seeds, dist, queue, settled, d, p, k, c, q);
    }
  }

  lemma OfferedAll(field: Field, mult: int, seeds: set<Pos>, dist0: map<Pos, nat>, queue0: set<(nat, Pos)>,
                   dist: map<Pos, nat>, queue: set<(nat, Pos)>, settled: set<Pos>, d: nat, p: Pos)
    requires mult == 1 || mult == -1
    requires Offered(field, mult, seeds, dist0, queue0, dist, queue, settled, d, p, |Candidates(field, mult, p, d)|)
    requires dist0[p] < d ==> Relaxed(field, mult, dist0, p)
    ensures Searching(field, mult, seeds, dist, queue, settled, d)
  {
  }

  /** A popped least entry at its state's distance: the state was not settled and is settled now. */
  lemma PoppedFresh(field: Field, mult: int, seeds: set<Pos>, dist: map<Pos, nat>, queue: set<(nat, Pos)>,
                    settled: set<Pos>, floor: nat, d: nat, p: Pos, rest: set<(nat, Pos)>)
    requires mult == 1 || mult == -1
    requires Searching(field, mult, seeds, dist, queue, settled, floor)
    requires (d, p) in queue && (forall f :: f in queue ==> KeyLe((d, p), f)) && rest == queue - {(d, p)}
    requires p in dist && dist[p] == d
    ensures p !in settled
    ensures Offered(field, mult, seeds, dist, rest, dist, rest, settled + {p}, d, p, 0)
  {
  }

  /** A popped least entry above its state's distance: the state was settled, and its moves relaxed, already. */
  lemma PoppedStale(field: Field, mult: int, seeds: set<Pos>, dist: map<Pos, nat>, queue: set<(nat, Pos)>,
                    settled: set<Pos>, floor: nat, d: nat, p: Pos, rest: set<(nat, Pos)>)
    requires mult == 1 || mult == -1
    requires Searching(field, mult, seeds, dist, queue, settled, floor)
    requires (d, p) in queue && (forall f :: f in queue ==> KeyLe((d, p), f)) && rest == queue - {(d, p)}
    requires p in dist && dist[p] < d
    ensures p in settled && Relaxed(field, mult, dist, p)
    ensures Offered(field, mult, seeds, dist, rest, dist, rest, settled, d, p, 0)
  {
    assert (dist[p], p) !in queue;
    StaleRelaxed(field, mult, dist, p, d);
  }

  /** The seed states, as the set the walks start from. */
  ghost function SeedSet(seeds: seq<Pos>): set<Pos>
  {
    set s | s in seeds
  }

  /**
   * `dist` is exact: every entry is the score of some walk, and every walk
   * ends at a state whose entry is at most the walk's score.
   */
  ghost predicate Shortest(field: Field, mult: int, seeds: set<Pos>, dist: map<Pos, nat>)
  {
    && (forall s :: s in dist ==> Reaches(field, mult, seeds, s, dist[s]))
    && forall w :: Walk(field, mult, seeds, w) ==> Below(dist, w[|w| - 1], Cost(w))
  }

  /** `dist[s]` is the least score of a walk to `s`, and states no walk reaches have no entry. */
  lemma ShortestLeast(field: Field, mult: int, seeds: set<Pos>, dist: map<Pos, nat>, s: Pos, c: nat)
    requires Shortest(field, mult, seeds, dist)
    ensures Reaches(field, mult, seeds, s, c) ==> s in dist && dist[s] <= c
    ensures s in dist ==> Reaches(field, mult, seeds, s, dist[s])
  {
    if Reaches(field, mult, seeds, s, c) {
      var w :| Walk(field, mult, seeds, w) && w[|w| - 1] == s && Cost(w) == c;
    }
  }

  /**
   * One round of the search loop after `(d, p)` is popped: `p` is settled
   * (or was already, when the entry is stale) and its moves relaxed.  Either
   * one more state is settled, or the queue shrinks.
   */
  method Expand(field: Field, mult: int, dist: map<Pos, nat>, queue: set<(nat, Pos)>, d: nat, p: Pos,
                rest: set<(nat, Pos)>, ghost seeds: set<Pos>, ghost settled: set<Pos>, ghost floor: nat)
    returns (dist': map<Pos, nat>, queue': set<(nat, Pos)>, ghost settled': set<Pos>)
    requires mult == 1 || mult == -1
    requires Enclosed(field)
    requires Searching(field, mult, seeds, dist, queue, settled, floor) && settled <= States(field)
    requires (d, p) in queue && (forall f :: f in queue ==> KeyLe((d, p), f)) && rest == queue - {(d, p)}
    ensures Searching(field, mult, seeds, dist', queue', settled', d) && settled' <= States(field)
    ensures p in settled' && settled' <= settled + {p}
    ensures |States(field) - settled'| < |States(field) - settled| || (settled' == settled && |queue'| < |queue|)
  {
    assert p in dist && dist[p] <= d;
    if dist[p] < d {
      PoppedStale(field, mult, seeds, dist, queue, settled, floor, d, p, rest);
      settled' := settled;
      Fewer(queue, (d, p));
    } else {
      PoppedFresh(field, mult, seeds, dist, queue, settled, floor, d, p, rest);
      SettleOne(field, settled, p);
      settled' := settled + {p};
    }
    dist', queue' := Relax(field, mult, dist, rest, d, p, seeds, settled');
  }

  lemma Fewer<T>(a: set<T>, x: T)
    requires x in a
    ensures |a - {x}| < |a|
  {
  }

  /** Settling one more state of the map leaves fewer unsettled. */
  lemma SettleOne(field: Field, settled: set<Pos>, p: Pos)
    requires settled <= States(field) && p !in settled && InBounds(field, p.x, p.y)
    ensures settled + {p} <= States(field) && |States(field) - (settled + {p})| < |States(field) - settled|
  {
    InStates(field, p);
    Fewer(States(field) - settled, p);
    assert States(field) - (settled + {p}) == (States(field) - settled) - {p};
  }

  /** The seed loop of `dijkstra`: every seed at distance 0, queued. */
  method Plant(field: Field, seeds: seq<Pos>, mult: int) returns (dist: map<Pos, nat>, queue: set<(nat, Pos)>)
    requires mult == 1 || mult == -1
    requires forall k :: 0 <= k < |seeds| ==> Open(field, seeds[k].x, seeds[k].y)
    ensures Searching(field, mult, SeedSet(seeds), dist, queue, {}, 0)
  {
    queue := {};
    dist := map[];
    for k := 0 to |seeds|
      invariant forall s :: s in dist <==> s in seeds[..k]
      invariant forall s :: s in dist ==> dist[s] == 0
      invariant forall e :: e in queue <==> e.0 == 0 && e.1 in seeds[..k]
    {
      assert seeds[..k + 1] == seeds[..k] + [seeds[k]];
      queue := queue + {(0, seeds[k])};
      dist := dist[seeds[k] := 0];
    }
    assert seeds[..|seeds|] == seeds;
    forall s | s in dist
      ensures Reaches(field, mult, SeedSet(seeds), s, 0)
    {
      ReachesSeed(field, mult, SeedSet(seeds), s);
    }
  }

  /** `dijkstra`: the least score of a walk from any seed to every state, seeds at 0. */
  method Dijkstra(field: Field, seeds: seq<Pos>, mult: int) returns (dist: map<Pos, nat>)
    requires mult == 1 || mult == -1
    requires Enclosed(field)
    requires forall k :: 0 <= k < |seeds| ==> Open(field, seeds[k].x, seeds[k].y)
    ensures forall k :: 0 <= k < |seeds| ==> seeds[k] in dist && dist[seeds[k]] == 0
    ensures Shortest(field, mult, SeedSet(seeds), dist)
  {
    var queue;
    dist, queue := Plant(field, seeds, mult);
    ghost var start := SeedSet(seeds);
    ghost var settled: set<Pos> := {};
    ghost var floor: nat := 0;
    while queue != {}
      invariant Searching(field, mult, start, dist, queue, settled, floor)
      invariant settled <= States(field)
      decreases |States(field) - settled|, |queue|
    {
      var e, rest := PopFirst(queue);
      var (d, p) := e;
      dist, queue, settled := Expand(field, mult, dist, queue, d, p, rest, start, settled, floor);
      floor := d;
    }
    forall w | Walk(field, mult, start, w)
      ensures Below(dist, w[|w| - 1], Cost(w))
    {
      Finished(field, mult, start, dist, settled, floor, w);
    }
    forall k | 0 <= k < |seeds|
      ensures seeds[k] in dist && dist[seeds[k]] == 0
    {
      assert seeds[k] in start;
    }
  }

  // ---------------------------------------------------------------------------
  // Part one

  /** A parsed maze: the map, the start state (facing right) and the four states at the end cell. */
  datatype Input = Input(field: Field, start: Pos, finish: seq<Pos>)

  /** `c` is the least score of a walk from the seeds to any target. */
  ghost predicate Optimal(field: Field, mult: int, seeds: set<Pos>, targets: set<Pos>, c: nat)
  {
    && (exists w :: Walk(field, mult, seeds, w) && w[|w| - 1] in targets && Cost(w) == c)
    && forall w :: Walk(field, mult, seeds, w) && w[|w| - 1] in targets ==> c <= Cost(w)
  }

  /** No walk from the seeds ends at a target. */
  ghost predicate Unreachable(field: Field, mult: int, seeds: set<Pos>, targets: set<Pos>)
  {
    forall w :: Walk(field, mult, seeds, w) ==> w[|w| - 1] !in targets
  }

  /** There is at most one least score. */
  lemma OptimalUnique(field: Field, mult: int, seeds: set<Pos>, targets: set<Pos>, c: nat, c': nat)
    requires Optimal(field, mult, seeds, targets, c) && Optimal(field, mult, seeds, targets, c')
    ensures c == c'
  {
    var w :| Walk(field, mult, seeds, w) && w[|w| - 1] in targets && Cost(w) == c;
    var w' :| Walk(field, mult, seeds, w') && w'[|w'| - 1] in targets && Cost(w') == c';
  }

  /** A least score and unreachability exclude each other. */
  lemma OptimalReachable(field: Field, mult: int, seeds: set<Pos>, targets: set<Pos>, c: nat)
    requires Optimal(field, mult, seeds, targets, c)
    ensures !Unreachable(field, mult, seeds, targets)
  {
    var w :| Walk(field, mult, seeds, w) && w[|w| - 1] in targets && Cost(w) == c;
  }

  /** The search state right after the start state is queued at distance 0. */
  lemma Begun(field: Field, mult: int, s: Pos)
    requires mult == 1 || mult == -1
    requires Open(field, s.x, s.y)
    ensures Searching(field, mult, {s}, map[s := 0], {(0, s)}, {}, 0)
  {
    ReachesSeed(field, mult, {s}, s);
  }

  /** The first target popped, while no target is settled, is popped at the least score. */
  lemma Arrived(field: Field, mult: int, seeds: set<Pos>, dist: map<Pos, nat>, queue: set<(nat, Pos)>,
                settled: set<Pos>, floor: nat, targets: set<Pos>, d: nat, p: Pos)
    requires mult == 1 || mult == -1
    requires Searching(field, mult, seeds, dist, queue, settled, floor) && settled !! targets
    requires (d, p) in queue && (forall f :: f in queue ==> KeyLe((d, p), f)) && p in targets
    ensures Optimal(field, mult, seeds, targets, d)
  {
    assert Reaches(field, mult, seeds, p, d);
    forall w | Walk(field, mult, seeds, w) && w[|w| - 1] in targets
      ensures d <= Cost(w)
    {
      PoppedBelow(field, mult, seeds, dist, queue, settled, floor, d, p, w);
    }
  }

  /** The queue ran dry with no target settled: no walk reaches a target. */
  lemma Exhausted(field: Field, mult: int, seeds: set<Pos>, dist: map<Pos, nat>, settled: set<Pos>, floor: nat,
                  targets: set<Pos>)
    requires mult == 1 || mult == -1
    requires Searching(field, mult, seeds, dist, {}, settled, floor) && settled !! targets
    ensures Unreachable(field, mult, seeds, targets)
  {
    forall w | Walk(field, mult, seeds, w)
      ensures w[|w| - 1] !in targets
    {
      Finished(field, mult, seeds, dist, settled, floor, w);
    }
  }

  /**
   * `PartOne::solve`: the same search from the start state alone, stopping at
   * the first popped state at the end cell.  `None` is the panic when the
   * queue runs dry first.
   */
  method SolvePartOne(input: Input) returns (r: Option<nat>)
    requires Enclosed(input.field) && Open(input.field, input.start.x, input.start.y)
    ensures r.None? <==> Unreachable(input.field, 1, {input.start}, SeedSet(input.finish))
    ensures r.Some? ==> Optimal(input.field, 1, {input.start}, SeedSet(input.finish), r.value)
  {
    var field := input.field;
    ghost var targets := SeedSet(input.finish);
    var queue: set<(nat, Pos)> := {(0, input.start)};
    var dist: map<Pos, nat> := map[input.start := 0];
    Begun(field, 1, input.start);
    ghost var settled: set<Pos> := {};
    ghost var floor: nat := 0;
    while queue != {}
      invariant Searching(field, 1, {input.start}, dist, queue, settled, floor)
      invariant settled <= States(field) && settled !! targets
      decreases |States(field) - settled|, |queue|
    {
      var e, rest := PopFirst(queue);
      var (d, p) := e;
      if p in input.finish {
        Arrived(field, 1, {input.start}, dist, queue, settled, floor, targets, d, p);
        OptimalReachable(field, 1, {input.start}, targets, d);
        return Some(d);
      }
      dist, queue, settled := Expand(field, 1, dist, queue, d, p, rest, {input.start}, settled, floor);
      floor := d;
    }
    Exhausted(field, 1, {input.start}, dist, settled, floor, targets);
    return None;
  }

  // ---------------------------------------------------------------------------
  // Walks forwards and backwards

  /** Every two consecutive states are one move apart. */
  ghost predicate Path(field: Field, mult: int, w: seq<Pos>)
  {
    forall i :: 0 <= i < |w| - 1 ==> Edge(field, mult, w[i], w[i + 1])
  }

  lemma {:induction false} WalkPath(field: Field, mult: int, seeds: set<Pos>, w: seq<Pos>)
    ensures Walk(field, mult, seeds, w) <==> |w| > 0 && w[0] in seeds && Path(field, mult, w)
    decreases |w|
  {
    if |w| > 1 {
      var w' := w[..|w| - 1];
      WalkPath(field, mult, seeds, w');
      assert w'[0] == w[0];
      if Path(field, mult, w) {
        assert Path(field, mult, w') by {
          forall i | 0 <= i < |w'| - 1
            ensures Edge(field, mult, w'[i], w'[i + 1])
          {
            assert w'[i] == w[i] && w'[i + 1] == w[i + 1];
          }
        }
      }
      if Walk(field, mult, seeds, w) {
        forall i | 0 <= i < |w| - 1
          ensures Edge(field, mult, w[i], w[i + 1])
        {
          if i < |w| - 2 {
            assert w'[i] == w[i] && w'[i + 1] == w[i + 1];
          }
        }
      }
    }
  }

  /** A walk's score splits at any state on it. */
  lemma {:induction false} CostSplit(w: seq<Pos>, i: nat)
    requires i < |w|
    ensures Cost(w) == Cost(w[..i + 1]) + Cost(w[i..])
    decreases |w|
  {
    if i < |w| - 1 {
      var w' := w[..|w| - 1];
      var v := w[i..];
      CostSplit(w', i);
      assert w'[..i + 1] == w[..i + 1];
      assert v[..|v| - 1] == w'[i..];
      assert v[|v| - 2] == w[|w| - 2] && v[|v| - 1] == w[|w| - 1];
      assert Cost(v) == Cost(w'[i..]) + EdgeCost(w[|w| - 2], w[|w| - 1]);
      assert Cost(w) == Cost(w') + EdgeCost(w[|w| - 2], w[|w| - 1]);
    } else {
      assert w[..i + 1] == w;
    }
  }

  function Reverse(w: seq<Pos>): (r: seq<Pos>)
    ensures |r| == |w| && forall i :: 0 <= i < |w| ==> r[i] == w[|w| - 1 - i]
  {
    seq(|w|, i requires 0 <= i < |w| => w[|w| - 1 - i])
  }

  /** A walk read backwards has the same score: a turn and a step cost the same either way. */
  lemma {:induction false} CostReverse(w: seq<Pos>)
    ensures Cost(Reverse(w)) == Cost(w)
    decreases |w|
  {
    if |w| > 1 {
      var w' := w[..|w| - 1];
      var r := Reverse(w);
      CostReverse(w');
      CostSplit(r, 1);
      assert r[1..] == Reverse(w');
      assert r[..2] == [w[|w| - 1], w[|w| - 2]];
      assert Cost(r[..2]) == EdgeCost(w[|w| - 2], w[|w| - 1]);
    }
  }

  /** A move from an empty cell, taken the other way round, is a move of the search in the other direction. */
  lemma EdgeFlip(field: Field, mult: int, p: Pos, q: Pos)
    requires mult == 1 || mult == -1
    requires Edge(field, mult, p, q) && Open(field, p.x, p.y)
    ensures Edge(field, -mult, q, p) && Open(field, q.x, q.y)
  {
    Turns(p.direction);
  }

  /** Every state on a walk from empty cells is on an empty cell. */
  lemma {:induction false} PathOpen(field: Field, mult: int, w: seq<Pos>, i: nat)
    requires mult == 1 || mult == -1
    requires Path(field, mult, w) && |w| > 0 && Open(field, w[0].x, w[0].y) && i < |w|
    ensures Open(field, w[i].x, w[i].y)
  {
    if i > 0 {
      PathOpen(field, mult, w, i - 1);
      EdgeFlip(field, mult, w[i - 1], w[i]);
    }
  }

  /** A walk from empty cells read backwards is a walk of the search in the other direction. */
  lemma PathReverse(field: Field, mult: int, w: seq<Pos>)
    requires mult == 1 || mult == -1
    requires Path(field, mult, w) && |w| > 0 && Open(field, w[0].x, w[0].y)
    ensures Path(field, -mult, Reverse(w))
  {
    var r := Reverse(w);
    forall i | 0 <= i < |r| - 1
      ensures Edge(field, -mult, r[i], r[i + 1])
    {
      var j := |w| - 2 - i;
      PathOpen(field, mult, w, j);
      EdgeFlip(field, mult, w[j], w[j + 1]);
    }
  }

  /** Two walks meeting at a state make one walk, with the scores added. */
  lemma Join(field: Field, mult: int, u: seq<Pos>, v: seq<Pos>)
    requires Path(field, mult, u) && Path(field, mult, v) && |u| > 0 && |v| > 0 && u[|u| - 1] == v[0]
    ensures Path(field, mult, u + v[1..]) && Cost(u + v[1..]) == Cost(u) + Cost(v)
  {
    var w := u + v[1..];
    forall i | 0 <= i < |w| - 1
      ensures Edge(field, mult, w[i], w[i + 1])
    {
      JoinAt(u, v, i);
    }
    JoinCost(u, v);
  }

  lemma JoinAt(u: seq<Pos>, v: seq<Pos>, i: nat)
    requires |u| > 0 && |v| > 0 && u[|u| - 1] == v[0] && i < |u| + |v| - 2
    ensures var w := u + v[1..];
      if i < |u| - 1 then w[i] == u[i] && w[i + 1] == u[i + 1]
      else w[i] == v[i - (|u| - 1)] && w[i + 1] == v[i - (|u| - 1) + 1]
  {
  }

  lemma JoinCost(u: seq<Pos>, v: seq<Pos>)
    requires |u| > 0 && |v| > 0 && u[|u| - 1] == v[0]
    ensures Cost(u + v[1..]) == Cost(u) + Cost(v)
  {
    var w := u + v[1..];
    CostSplit(w, |u| - 1);
    assert w[..|u|] == u;
    assert w[|u| - 1..] == v;
  }

  /** A stretch of a walk is a walk. */
  lemma PathSlice(field: Field, mult: int, w: seq<Pos>, a: nat, b: nat)
    requires Path(field, mult, w) && a <= b <= |w|
    ensures Path(field, mult, w[a..b])
  {
    var v := w[a..b];
    forall i | 0 <= i < |v| - 1
      ensures Edge(field, mult, v[i], v[i + 1])
    {
      assert v[i] == w[a + i] && v[i + 1] == w[a + i + 1];
    }
  }

  /** Every seed sits on an empty cell. */
  ghost predicate AllOpen(field: Field, seeds: set<Pos>)
  {
    forall s :: s in seeds ==> Open(field, s.x, s.y)
  }

  /**
   * A walk from the start to `s` and a backward walk from the end to `s`
   * join into a walk from the start to the end through `s`.
   */
  lemma Through(field: Field, seeds: set<Pos>, targets: set<Pos>, dist: map<Pos, nat>, rdist: map<Pos, nat>, s: Pos)
    returns (w: seq<Pos>, i: nat)
    requires Shortest(field, 1, seeds, dist) && Shortest(field, -1, targets, rdist) && AllOpen(field, targets)
    requires s in dist && s in rdist
    ensures Walk(field, 1, seeds, w) && w[|w| - 1] in targets && Cost(w) == dist[s] + rdist[s]
    ensures i < |w| && w[i] == s
  {
    ShortestLeast(field, 1, seeds, dist, s, dist[s]);
    ShortestLeast(field, -1, targets, rdist, s, rdist[s]);
    var u :| Walk(field, 1, seeds, u) && u[|u| - 1] == s && Cost(u) == dist[s];
    var t :| Walk(field, -1, targets, t) && t[|t| - 1] == s && Cost(t) == rdist[s];
    WalkPath(field, 1, seeds, u);
    WalkPath(field, -1, targets, t);
    PathReverse(field, -1, t);
    CostReverse(t);
    var v := Reverse(t);
    Join(field, 1, u, v);
    w := u + v[1..];
    i := |u| - 1;
    assert w[0] == u[0];
    WalkPath(field, 1, seeds, w);
    if |v| > 1 {
      assert w[|w| - 1] == v[|v| - 1];
    } else {
      assert w == u;
    }
  }

  /** The stretch of a walk up to a state bounds that state's distance. */
  lemma Before(field: Field, seeds: set<Pos>, dist: map<Pos, nat>, w: seq<Pos>, i: nat)
    requires Shortest(field, 1, seeds, dist) && Walk(field, 1, seeds, w) && i < |w|
    ensures Below(dist, w[i], Cost(w[..i + 1]))
  {
    WalkPath(field, 1, seeds, w);
    var u := w[..i + 1];
    PathSlice(field, 1, w, 0, i + 1);
    assert u[0] == w[0];
    WalkPath(field, 1, seeds, u);
  }

  /** The stretch of a walk from a state to the end bounds that state's backward distance. */
  lemma After(field: Field, seeds: set<Pos>, targets: set<Pos>, rdist: map<Pos, nat>, w: seq<Pos>, i: nat)
    requires Shortest(field, -1, targets, rdist) && AllOpen(field, seeds)
    requires Walk(field, 1, seeds, w) && w[|w| - 1] in targets && i < |w|
    ensures Below(rdist, w[i], Cost(w[i..]))
  {
    WalkPath(field, 1, seeds, w);
    var t := w[i..];
    PathSlice(field, 1, w, i, |w|);
    PathOpen(field, 1, w, i);
    PathReverse(field, 1, t);
    CostReverse(t);
    var r := Reverse(t);
    WalkPath(field, -1, targets, r);
    assert r[|r| - 1] == w[i];
  }

  /** Every state on a walk from the start to the end is reached from both sides within the walk's score. */
  lemma Around(field: Field, seeds: set<Pos>, targets: set<Pos>, dist: map<Pos, nat>, rdist: map<Pos, nat>,
               w: seq<Pos>, i: nat)
    requires Shortest(field, 1, seeds, dist) && Shortest(field, -1, targets, rdist) && AllOpen(field, seeds)
    requires Walk(field, 1, seeds, w) && w[|w| - 1] in targets && i < |w|
    ensures w[i] in dist && w[i] in rdist && dist[w[i]] + rdist[w[i]] <= Cost(w)
  {
    Before(field, seeds, dist, w, i);
    After(field, seeds, targets, rdist, w, i);
    CostSplit(w, i);
  }

  // ---------------------------------------------------------------------------
  // Part two

  /** State `s` is reached from both sides with scores adding up to `answer`. */
  predicate Hit(dist: map<Pos, nat>, rdist: map<Pos, nat>, answer: nat, s: Pos)
  {
    s in dist && s in rdist && dist[s] + rdist[s] == answer
  }

  /** `on_optimal_path`: some facing on cell (x, y) is hit. */
  predicate OnOptimalPath(dist: map<Pos, nat>, rdist: map<Pos, nat>, answer: nat, x: int, y: int)
  {
    exists d :: d in AllDirections && Hit(dist, rdist, answer, Pos(x, y, d))
  }

  /** The cells the final count adds up. */
  function OptimalCells(field: Field, dist: map<Pos, nat>, rdist: map<Pos, nat>, answer: nat): set<(int, int)>
  {
    set x, y | 0 <= x < |field| && 0 <= y < |field[x]| && OnOptimalPath(dist, rdist, answer, x, y) :: (x, y)
  }

  /** Cell (x, y) lies on a walk from the start to the end scoring `c`. */
  ghost predicate OnBestWalk(field: Field, seeds: set<Pos>, targets: set<Pos>, c: nat, x: int, y: int)
  {
    exists w: seq<Pos>, i: int :: Walk(field, 1, seeds, w) && w[|w| - 1] in targets && Cost(w) == c && 0 <= i < |w|
      && w[i].x == x && w[i].y == y
  }

  /** The cells on some walk from the start to the end scoring `c`. */
  ghost function BestCells(field: Field, seeds: set<Pos>, targets: set<Pos>, c: nat): set<(int, int)>
  {
    set x, y | 0 <= x < |field| && 0 <= y < |field[x]| && OnBestWalk(field, seeds, targets, c, x, y) :: (x, y)
  }

  /** A cell that passes the test of the count lies on a cheapest walk. */
  lemma HitOnBestWalk(field: Field, seeds: set<Pos>, targets: set<Pos>, dist: map<Pos, nat>, rdist: map<Pos, nat>,
                      answer: nat, x: int, y: int)
    requires Shortest(field, 1, seeds, dist) && Shortest(field, -1, targets, rdist) && AllOpen(field, targets)
    requires OnOptimalPath(dist, rdist, answer, x, y)
    ensures OnBestWalk(field, seeds, targets, answer, x, y)
  {
    var d :| d in AllDirections && Hit(dist, rdist, answer, Pos(x, y, d));
    var w, i := Through(field, seeds, targets, dist, rdist, Pos(x, y, d));
  }

  /** A cell on a cheapest walk passes the test of the count, in the facing the walk has there. */
  lemma BestWalkHit(field: Field, seeds: set<Pos>, targets: set<Pos>, dist: map<Pos, nat>, rdist: map<Pos, nat>,
                    answer: nat, x: int, y: int)
    requires Shortest(field, 1, seeds, dist) && Shortest(field, -1, targets, rdist)
    requires AllOpen(field, seeds) && AllOpen(field, targets) && Optimal(field, 1, seeds, targets, answer)
    requires OnBestWalk(field, seeds, targets, answer, x, y)
    ensures OnOptimalPath(dist, rdist, answer, x, y)
  {
    var w: seq<Pos>, i: int :| Walk(field, 1, seeds, w) && w[|w| - 1] in targets && Cost(w) == answer && 0 <= i < |w|
      && w[i].x == x && w[i].y == y;
    var s := w[i];
    Around(field, seeds, targets, dist, rdist, w, i);
    var w', i' := Through(field, seeds, targets, dist, rdist, s);
    AllDirectionsComplete(s.direction);
    assert Hit(dist, rdist, answer, Pos(x, y, s.direction));
  }

  /** The count is the number of cells on some cheapest walk. */
  lemma OptimalCellsAreBest(field: Field, seeds: set<Pos>, targets: set<Pos>, dist: map<Pos, nat>,
                            rdist: map<Pos, nat>, answer: nat)
    requires Shortest(field, 1, seeds, dist) && Shortest(field, -1, targets, rdist)
    requires AllOpen(field, seeds) && AllOpen(field, targets) && Optimal(field, 1, seeds, targets, answer)
    ensures OptimalCells(field, dist, rdist, answer) == BestCells(field, seeds, targets, answer)
  {
    forall x, y
      ensures OnOptimalPath(dist, rdist, answer, x, y) <==> OnBestWalk(field, seeds, targets, answer, x, y)
    {
      if OnOptimalPath(dist, rdist, answer, x, y) {
        HitOnBestWalk(field, seeds, targets, dist, rdist, answer, x, y);
      }
      if OnBestWalk(field, seeds, targets, answer, x, y) {
        BestWalkHit(field, seeds, targets, dist, rdist, answer, x, y);
      }
    }
  }

  /** `min().unwrap()` over the end states' distances, each `unwrap`ped: `None` is a panic. */
  function MinDist(dist: map<Pos, nat>, fs: seq<Pos>): (r: Option<nat>)
    ensures r.None? <==> |fs| == 0 || exists k :: 0 <= k < |fs| && fs[k] !in dist
    ensures r.Some? ==> exists k :: 0 <= k < |fs| && fs[k] in dist && dist[fs[k]] == r.value
    ensures r.Some? ==> forall k :: 0 <= k < |fs| ==> fs[k] in dist && r.value <= dist[fs[k]]
    decreases |fs|
  {
    if |fs| == 0 || fs[0] !in dist then None
    else if |fs| == 1 then Some(dist[fs[0]])
    else match MinDist(dist, fs[1..])
      case None => None
      case Some(m) => Some(if dist[fs[0]] <= m then dist[fs[0]] else m)
  }

  /** With exact distances, the least end-state distance is the least score of a walk to the end. */
  lemma MinDistOptimal(field: Field, seeds: set<Pos>, dist: map<Pos, nat>, fs: seq<Pos>, a: nat)
    requires Shortest(field, 1, seeds, dist) && MinDist(dist, fs) == Some(a)
    ensures Optimal(field, 1, seeds, SeedSet(fs), a)
  {
    var k :| 0 <= k < |fs| && fs[k] in dist && dist[fs[k]] == a;
    ShortestLeast(field, 1, seeds, dist, fs[k], a);
    forall w | Walk(field, 1, seeds, w) && w[|w| - 1] in SeedSet(fs)
      ensures a <= Cost(w)
    {
      var j :| 0 <= j < |fs| && fs[j] == w[|w| - 1];
    }
  }

  /** With exact distances, an end state is missing exactly when no walk reaches it. */
  lemma MissingUnreachable(field: Field, seeds: set<Pos>, dist: map<Pos, nat>, s: Pos)
    requires Shortest(field, 1, seeds, dist)
    ensures s !in dist <==> Unreachable(field, 1, seeds, {s})
  {
    if s in dist {
      ShortestLeast(field, 1, seeds, dist, s, dist[s]);
    }
  }

  /**
   * `PartTwo::solve`: distances from the start, the least of them over the
   * end states, distances backwards from all end states, and the number of
   * cells where some facing adds up to that least score.  `None` is a panic
   * in `unwrap`, when an end state cannot be reached.
   */
  method SolvePartTwo(input: Input) returns (r: Option<nat>)
    requires Enclosed(input.field) && Open(input.field, input.start.x, input.start.y)
    requires forall k :: 0 <= k < |input.finish| ==> Open(input.field, input.finish[k].x, input.finish[k].y)
    ensures r.None? <==> (|input.finish| == 0 ||
      exists k :: 0 <= k < |input.finish| && Unreachable(input.field, 1, {input.start}, {input.finish[k]}))
    ensures r.Some? ==> exists c :: (Optimal(input.field, 1, {input.start}, SeedSet(input.finish), c) &&
      r.value == |BestCells(input.field, {input.start}, SeedSet(input.finish), c)|)
  {
    var dist := Dijkstra(input.field, [input.start], 1);
    ghost var start := {input.start};
    assert SeedSet([input.start]) == start;
    forall k | 0 <= k < |input.finish|
      ensures input.finish[k] !in dist <==> Unreachable(input.field, 1, start, {input.finish[k]})
    {
      MissingUnreachable(input.field, start, dist, input.finish[k]);
    }
    var answer := MinDist(dist, input.finish);
    if answer.None? {
      return None;
    }
    var rdist := Dijkstra(input.field, input.finish, -1);
    ghost var targets := SeedSet(input.finish);
    MinDistOptimal(input.field, start, dist, input.finish, answer.value);
    OptimalCellsAreBest(input.field, start, targets, dist, rdist, answer.value);
    r := Some(|OptimalCells(input.field, dist, rdist, answer.value)|);
  }

  // ---------------------------------------------------------------------------
  // Parsing

  /** `#` is a wall; `.`, `S` and `E` are empty; anything else panics. */
  function CellOf(c: char): Option<Cell>
  {
    if c == '#' then Some(Wall)
    else if c == '.' || c == 'S' || c == 'E' then Some(Empty)
    else None
  }

  predicate Known(line: string)
  {
    forall j :: 0 <= j < |line| ==> CellOf(line[j]).Some?
  }

  function Row(line: string): (row: seq<Cell>)
    requires Known(line)
    ensures |row| == |line| && forall j :: 0 <= j < |line| ==> row[j] == CellOf(line[j]).value
  {
    seq(|line|, j requires 0 <= j < |line| => CellOf(line[j]).value)
  }

  /** The column of the last `c` on a line. */
  function LastIn(line: string, c: char): (r: Option<nat>)
    ensures r.Some? ==> r.value < |line| && line[r.value] == c
    ensures r.Some? ==> forall j :: r.value < j < |line| ==> line[j] != c
    ensures r.None? ==> forall j :: 0 <= j < |line| ==> line[j] != c
  {
    if line == [] then None
    else if line[|line| - 1] == c then Some(|line| - 1)
    else LastIn(line[..|line| - 1], c)
  }

  /** Cell (i', j') comes after cell (i, j) in reading order. */
  predicate Later(i: int, j: int, i': int, j': int)
  {
    i < i' || (i == i' && j < j')
  }

  /** The last `c` in reading order: each one found overwrites the remembered cell. */
  function LastOf(lines: seq<string>, c: char): (r: Option<(nat, nat)>)
    ensures r.Some? ==> r.value.0 < |lines| && r.value.1 < |lines[r.value.0]| && lines[r.value.0][r.value.1] == c
    ensures r.Some? ==> forall i, j :: 0 <= i < |lines| && 0 <= j < |lines[i]| && Later(r.value.0, r.value.1, i, j) ==>
      lines[i][j] != c
    ensures r.None? <==> forall i, j :: 0 <= i < |lines| && 0 <= j < |lines[i]| ==> lines[i][j] != c
  {
    if lines == [] then None
    else
      var last := lines[|lines| - 1];
      match LastIn(last, c)
      case Some(j) => Some((|lines| - 1, j))
      case None =>
        var r := LastOf(lines[..|lines| - 1], c);
        assert forall i :: 0 <= i < |lines| - 1 ==> lines[..|lines| - 1][i] == lines[i];
        r
  }

  /** The four states on a cell, in the order of `Direction::any`. */
  function AllFacings(x: int, y: int): seq<Pos>
  {
    seq(|AllDirections|, k requires 0 <= k < |AllDirections| => Pos(x, y, AllDirections[k]))
  }

  /** The end states are exactly the states on the end cell. */
  lemma AllFacingsExactly(x: int, y: int, s: Pos)
    ensures s in AllFacings(x, y) <==> s.x == x && s.y == y
  {
    var r := AllFacings(x, y);
    if s.x == x && s.y == y {
      match s.direction
      case Left => assert r[0] == s;
      case Up => assert r[1] == s;
      case Right => assert r[2] == s;
      case Down => assert r[3] == s;
    }
  }

  /**
   * `parse_from`: `None` is both the panic on an unknown character and the
   * error when there is no `S` or no `E`.  The start faces right; the end
   * is every facing on the `E` cell.  Later `S` and `E` overwrite earlier ones.
   */
  function Parse(s: string): (r: Option<Input>)
  {
    var lines := NonEmptyLines(s);
    if exists i :: 0 <= i < |lines| && !Known(lines[i]) then None
    else
      var field := seq(|lines|, i requires 0 <= i < |lines| => Row(lines[i]));
      match (LastOf(lines, 'S'), LastOf(lines, 'E'))
      case (Some(st), Some(en)) => Some(Input(field, Pos(st.0, st.1, Right), AllFacings(en.0, en.1)))
      case _ => None
  }

  /**
   * A parsed maze has one row per non-empty line and one cell per character;
   * the start is the last `S` facing right, the end states are the four
   * facings on the last `E`, and all of them are on empty cells.
   */
  lemma Parsed(s: string)
    requires Parse(s).Some?
    ensures var input := Parse(s).value;
      var lines := NonEmptyLines(s);
      && |input.field| == |lines|
      && (forall i :: 0 <= i < |lines| ==> (|input.field[i]| == |lines[i]| &&
            forall j :: 0 <= j < |lines[i]| ==> (input.field[i][j] == Wall <==> lines[i][j] == '#')))
      && input.start.direction == Right
      && LastOf(lines, 'S') == Some((input.start.x as nat, input.start.y as nat))
      && (exists e: (nat, nat) :: LastOf(lines, 'E') == Some(e) && input.finish == AllFacings(e.0, e.1))
      && Open(input.field, input.start.x, input.start.y)
      && forall k :: 0 <= k < |input.finish| ==> Open(input.field, input.finish[k].x, input.finish[k].y)
  {
    var lines := NonEmptyLines(s);
    var input := Parse(s).value;
    var e := LastOf(lines, 'E').value;
    assert input.finish == AllFacings(e.0, e.1);
  }

  /** Parsing fails exactly on an unknown character, a missing `S` or a missing `E`. */
  lemma ParseFails(s: string)
    ensures Parse(s).None? <==>
      var lines := NonEmptyLines(s);
      || (exists i, j :: 0 <= i < |lines| && 0 <= j < |lines[i]| && CellOf(lines[i][j]).None?)
      || (forall i, j :: 0 <= i < |lines| && 0 <= j < |lines[i]| ==> lines[i][j] != 'S')
      || (forall i, j :: 0 <= i < |lines| && 0 <= j < |lines[i]| ==> lines[i][j] != 'E')
  {
  }
}
