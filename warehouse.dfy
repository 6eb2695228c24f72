/**
 * A robot pushing boxes around a warehouse (aoc2024 problem 15).
 *
 * Part one: the robot walks on a grid of empty cells, boxes and walls; a move
 * pushes the whole run of boxes in front of it, unless a wall is behind that
 * run, in which case nothing happens.  Part two widens every cell to two; a
 * box then covers two cells and a vertical push can fan out over a tree of
 * boxes.  The answer of both parts is the sum of `100 * row + column` over the
 * boxes (their left halves in part two).
 *
 * Grids are `seq<seq<_>>` indexed `[row][column]`; a position is `(row, column)`.
 * The source indexes with machine integers and panics out of bounds; here every
 * grid the robot walks on is surrounded by walls, which keeps all reads inside.
 */
module Warehouse {
  import opened Text

  // ---------------------------------------------------------------------------
  // Directions and grids

  datatype Direction = Left | Up | Right | Down

  /** `Direction::offset`: the (row, column) change of one step. */
  function Offset(d: Direction): (r: (int, int))
    ensures (r.0 == 0) != (r.1 == 0)
    ensures -1 <= r.0 <= 1 && -1 <= r.1 <= 1
  {
    match d
    case Left => (0, -1)
    case Up => (-1, 0)
    case Right => (0, 1)
    case Down => (1, 0)
  }

  /** `Direction::is_horizontal`. */
  predicate IsHorizontal(d: Direction) { d == Left || d == Right }

  /** A horizontal direction keeps the row and a vertical one keeps the column. */
  lemma HorizontalKeepsRow(d: Direction)
    ensures IsHorizontal(d) <==> Offset(d).0 == 0
    ensures !IsHorizontal(d) <==> Offset(d).1 == 0
  {
  }

  type Pos = (int, int)

  function Add(p: Pos, d: Direction): Pos { (p.0 + Offset(d).0, p.1 + Offset(d).1) }

  function Back(p: Pos, d: Direction): Pos { (p.0 - Offset(d).0, p.1 - Offset(d).1) }

  predicate Inside<T>(g: seq<seq<T>>, p: Pos) { 0 <= p.0 < |g| && 0 <= p.1 < |g[p.0]| }

  function At<T>(g: seq<seq<T>>, p: Pos): T
    requires Inside(g, p)
  {
    g[p.0][p.1]
  }

  /** The grid with cell `p` replaced by `v`. */
  function Put<T>(g: seq<seq<T>>, p: Pos, v: T): seq<seq<T>>
    requires Inside(g, p)
  {
    g[p.0 := g[p.0][p.1 := v]]
  }

  predicate SameShape<T, U>(g: seq<seq<T>>, h: seq<seq<U>>)
  {
    |g| == |h| && forall i :: 0 <= i < |g| ==> |g[i]| == |h[i]|
  }

  /** `Put` changes cell `p` and nothing else. */
  lemma PutAt<T>(g: seq<seq<T>>, p: Pos, v: T)
    requires Inside(g, p)
    ensures SameShape(g, Put(g, p, v))
    ensures At(Put(g, p, v), p) == v
    ensures forall q :: Inside(g, q) && q != p ==> At(Put(g, p, v), q) == At(g, q)
  {
  }

  /** A rectangular grid whose outermost rows and columns hold `wall`. */
  predicate Bordered<T(==)>(g: seq<seq<T>>, wall: T)
  {
    && |g| > 0
    && (forall i :: 0 <= i < |g| ==> |g[i]| == |g[0]|)
    && (forall i, j :: 0 <= i < |g| && 0 <= j < |g[i]| && (i == 0 || i == |g| - 1 || j == 0 || j == |g[i]| - 1) ==> g[i][j] == wall)
  }

  /** Off the border every neighbour is inside the grid. */
  lemma NeighbourInside<T>(g: seq<seq<T>>, wall: T, p: Pos, d: Direction)
    requires Bordered(g, wall) && Inside(g, p) && At(g, p) != wall
    ensures Inside(g, Add(p, d))
  {
    assert |g[Add(p, d).0]| == |g[0]| == |g[p.0]|;
  }

  /** `h` has the shape of `g` and its walls exactly where `g` has them. */
  predicate SameWalls<T(==)>(g: seq<seq<T>>, h: seq<seq<T>>, wall: T)
  {
    SameShape(g, h) && forall i, j :: 0 <= i < |g| && 0 <= j < |g[i]| ==> (h[i][j] == wall <==> g[i][j] == wall)
  }

  /** Writing a non-wall over a non-wall keeps the walls, and so the border, intact. */
  lemma PutKeepsWalls<T>(g: seq<seq<T>>, wall: T, p: Pos, v: T)
    requires Bordered(g, wall) && Inside(g, p) && At(g, p) != wall && v != wall
    ensures Bordered(Put(g, p, v), wall) && SameWalls(g, Put(g, p, v), wall)
  {
  }

  lemma SameWallsTrans<T>(g: seq<seq<T>>, h: seq<seq<T>>, k: seq<seq<T>>, wall: T)
    requires SameWalls(g, h, wall) && SameWalls(h, k, wall)
    ensures SameWalls(g, k, wall)
  {
  }

  /** All cells of a grid, counted with multiplicity. */
  function Cells<T>(g: seq<seq<T>>): multiset<T>
  {
    if g == [] then multiset{} else Cells(g[..|g| - 1]) + multiset(g[|g| - 1])
  }

  /** Writing one cell trades its old value for the new one in the multiset of cells. */
  lemma {:induction false} CellsPut<T>(g: seq<seq<T>>, p: Pos, v: T)
    requires Inside(g, p)
    ensures Cells(Put(g, p, v)) + multiset{At(g, p)} == Cells(g) + multiset{v}
    decreases |g|
  {
    var h := Put(g, p, v);
    var last := |g| - 1;
    assert Cells(h) == Cells(h[..last]) + multiset(h[last]);
    assert Cells(g) == Cells(g[..last]) + multiset(g[last]);
    var a := At(g, p);
    if p.0 == last {
      assert h[..last] == g[..last];
      assert h[last] == g[last][p.1 := v];
      RowPut(g[last], p.1, v);
      assert multiset(h[last]) + multiset{a} == multiset(g[last]) + multiset{v};
      calc {
        Cells(h) + multiset{a};
        Cells(g[..last]) + (multiset(h[last]) + multiset{a});
        Cells(g[..last]) + (multiset(g[last]) + multiset{v});
        Cells(g) + multiset{v};
      }
    } else {
      assert h[..last] == Put(g[..last], p, v);
      assert h[last] == g[last];
      CellsPut(g[..last], p, v);
      assert At(g[..last], p) == a;
      assert Cells(h[..last]) + multiset{a} == Cells(g[..last]) + multiset{v};
      calc {
        Cells(h) + multiset{a};
        Cells(h[..last]) + multiset{a} + multiset(g[last]);
        Cells(g[..last]) + multiset{v} + multiset(g[last]);
        Cells(g) + multiset{v};
      }
    }
  }

  lemma RowPut<T>(row: seq<T>, j: nat, v: T)
    requires j < |row|
    ensures multiset(row[j := v]) + multiset{row[j]} == multiset(row) + multiset{v}
  {
  }

  /** Exchanging two cells keeps the multiset of cells. */
  lemma CellsSwap<T>(g: seq<seq<T>>, a: Pos, b: Pos)
    requires Inside(g, a) && Inside(g, b)
    ensures Inside(Put(g, a, At(g, b)), b)
    ensures Cells(Put(Put(g, a, At(g, b)), b, At(g, a))) == Cells(g)
  {
    var va, vb := At(g, a), At(g, b);
    var h := Put(g, a, vb);
    PutAt(g, a, vb);
    CellsPut(g, a, vb);
    CellsPut(h, b, va);
    if a == b {
      assert g[a.0][a.1 := va] == g[a.0];
      assert h == g;
      assert g[a.0 := g[a.0]] == g;
    } else {
      assert At(h, b) == vb;
      var h2 := Put(h, b, va);
      assert Cells(h2) + multiset{vb} == Cells(h) + multiset{va};
      assert Cells(h) + multiset{va} == Cells(g) + multiset{vb};
      assert Cells(h2) + multiset{vb} == Cells(g) + multiset{vb};
      MultisetCancel(Cells(h2), Cells(g), vb);
    }
  }

  lemma MultisetCancel<T>(a: multiset<T>, b: multiset<T>, x: T)
    requires a + multiset{x} == b + multiset{x}
    ensures a == b
  {
    assert forall e :: a[e] == (a + multiset{x})[e] - (if e == x then 1 else 0);
    assert forall e :: b[e] == (b + multiset{x})[e] - (if e == x then 1 else 0);
  }

  // ---------------------------------------------------------------------------
  // Parsing

  datatype Cell = Empty | Box | Wall

  /** `Input`: the map, the robot's moves and its start (row, column). */
  datatype Input = Input(field: seq<seq<Cell>>, instructions: seq<Direction>, start: Pos)

  /** The robot `@` stands on an empty cell. */
  function ParseCell(c: char): (r: Option<Cell>)
    ensures r.Some? <==> c in ".#O@"
  {
    match c
    case '.' => Some(Empty)
    case '#' => Some(Wall)
    case 'O' => Some(Box)
    case '@' => Some(Empty)
    case _ => None
  }

  function ParseRow(line: string): (r: Option<seq<Cell>>)
    ensures r.Some? <==> forall j :: 0 <= j < |line| ==> line[j] in ".#O@"
    ensures r.Some? ==> |r.value| == |line| && forall j :: 0 <= j < |line| ==> Some(r.value[j]) == ParseCell(line[j])
  {
    if line == [] then Some([])
    else match (ParseRow(line[..|line| - 1]), ParseCell(line[|line| - 1]))
      case (Some(row), Some(c)) => Some(row + [c])
      case _ => None
  }

  function ParseRows(lines: seq<string>): (r: Option<seq<seq<Cell>>>)
    ensures r.Some? <==> forall i :: 0 <= i < |lines| ==> ParseRow(lines[i]).Some?
    ensures r.Some? ==> |r.value| == |lines| && forall i :: 0 <= i < |lines| ==> Some(r.value[i]) == ParseRow(lines[i])
  {
    if lines == [] then Some([])
    else match (ParseRows(lines[..|lines| - 1]), ParseRow(lines[|lines| - 1]))
      case (Some(rows), Some(row)) => Some(rows + [row])
      case _ => None
  }

  /** Position of the last `@` in row-major order, if any: a later `@` overrides an earlier one. */
  function FindStart(lines: seq<string>): (r: Option<Pos>)
    ensures r.Some? ==> 0 <= r.value.0 < |lines| && 0 <= r.value.1 < |lines[r.value.0]| && lines[r.value.0][r.value.1] == '@'
    ensures r.Some? ==> forall i, j :: 0 <= i < |lines| && 0 <= j < |lines[i]| && (i, j) != r.value && lines[i][j] == '@' ==>
                          i < r.value.0 || (i == r.value.0 && j < r.value.1)
    ensures r.None? <==> forall i, j :: 0 <= i < |lines| && 0 <= j < |lines[i]| ==> lines[i][j] != '@'
  {
    if lines == [] then None
    else
      var last := |lines| - 1;
      match LastIndex(lines[last], '@')
      case Some(j) => Some((last, j))
      case None =>
        var r := FindStart(lines[..last]);
        assert forall i :: 0 <= i < last ==> lines[..last][i] == lines[i];
        r
  }

  function LastIndex(s: string, c: char): (r: Option<nat>)
    ensures r.Some? ==> r.value < |s| && s[r.value] == c && forall j :: r.value < j < |s| ==> s[j] != c
    ensures r.None? <==> forall j :: 0 <= j < |s| ==> s[j] != c
  {
    if s == [] then None
    else if s[|s| - 1] == c then Some(|s| - 1)
    else LastIndex(s[..|s| - 1], c)
  }

  function ParseMove(c: char): (r: Option<Direction>)
    ensures r.Some? <==> c in "v^<>"
  {
    match c
    case 'v' => Some(Down)
    case '^' => Some(Up)
    case '<' => Some(Left)
    case '>' => Some(Right)
    case _ => None
  }

  /** The moves of all lines, in reading order. */
  function ParseMoves(lines: seq<string>): (r: Option<seq<Direction>>)
    ensures r.Some? <==> forall i, j :: 0 <= i < |lines| && 0 <= j < |lines[i]| ==> lines[i][j] in "v^<>"
  {
    if lines == [] then Some([])
    else match (ParseMoves(lines[..|lines| - 1]), ParseLineMoves(lines[|lines| - 1]))
      case (Some(ms), Some(m)) =>
        assert forall i :: 0 <= i < |lines| - 1 ==> lines[..|lines| - 1][i] == lines[i];
        Some(ms + m)
      case (None, _) =>
        assert forall i :: 0 <= i < |lines| - 1 ==> lines[..|lines| - 1][i] == lines[i];
        None
      case _ => None
  }

  function ParseLineMoves(line: string): (r: Option<seq<Direction>>)
    ensures r.Some? <==> forall j :: 0 <= j < |line| ==> line[j] in "v^<>"
    ensures r.Some? ==> |r.value| == |line| && forall j :: 0 <= j < |line| ==> Some(r.value[j]) == ParseMove(line[j])
  {
    if line == [] then Some([])
    else match (ParseLineMoves(line[..|line| - 1]), ParseMove(line[|line| - 1]))
      case (Some(ms), Some(m)) => Some(ms + [m])
      case _ => None
  }

  /**
   * `Input::parse_from`: the map is the non-empty lines before the first blank
   * line, the moves are every character of the lines after it.  An input
   * without a blank line is a panic in the source and a failure here.
   */
  function ParseInput(s: string): (r: Option<Input>)
    ensures |Split(s, "\n\n")| < 2 ==> r.None?
    ensures |Split(s, "\n\n")| >= 2 ==>
              r == ParseSections(NonEmpty(Lines(Split(s, "\n\n")[0])), Lines(Split(s, "\n\n")[1]))
  {
    var pieces := Split(s, "\n\n");
    if |pieces| < 2 then None else ParseSections(NonEmpty(Lines(pieces[0])), Lines(pieces[1]))
  }

  /**
   * The map and the moves.  Fails exactly on a foreign map character, a
   * foreign move character, or a map without `@`; the robot then stands on an
   * empty cell at the last `@`.
   */
  function ParseSections(rows: seq<string>, moveLines: seq<string>): (r: Option<Input>)
    ensures r.None? <==> ParseRows(rows).None? || ParseMoves(moveLines).None? || FindStart(rows).None?
    ensures r.Some? ==> FindStart(rows) == Some(r.value.start)
    ensures r.Some? ==> Inside(r.value.field, r.value.start) && At(r.value.field, r.value.start) == Empty
  {
    match (ParseRows(rows), ParseMoves(moveLines), FindStart(rows))
    case (Some(field), Some(instructions), Some(start)) =>
      assert Some(field[start.0]) == ParseRow(rows[start.0]);
      assert Some(field[start.0][start.1]) == ParseCell('@');
      Some(Input(field, instructions, start))
    case _ => None
  }

  // ---------------------------------------------------------------------------
  // Part one

  /** The robot's world in part one: walled, with the robot on an empty cell. */
  predicate Valid1(g: seq<seq<Cell>>, p: Pos)
  {
    Bordered(g, Wall) && Inside(g, p) && At(g, p) == Empty
  }

  /** Room left before the border when walking from `p` along `d`. */
  function Room<T>(g: seq<seq<T>>, p: Pos, d: Direction): nat
    requires Inside(g, p)
  {
    match d
    case Down => |g| - p.0
    case Up => p.0 + 1
    case Right => |g[p.0]| - p.1
    case Left => p.1 + 1
  }

  /** The position `k` steps from `p` along `d`. */
  function Ahead(p: Pos, d: Direction, k: int): Pos
  {
    match d
    case Left => (p.0, p.1 - k)
    case Up => (p.0 - k, p.1)
    case Right => (p.0, p.1 + k)
    case Down => (p.0 + k, p.1)
  }

  /** `k` steps along `d` add `k` times the offset. */
  lemma AheadIsMultiple(p: Pos, d: Direction, k: int)
    ensures Ahead(p, d, k) == (p.0 + k * Offset(d).0, p.1 + k * Offset(d).1)
  {
  }

  /** The `b` cells in front of `p` along `d` hold boxes and the next one does not. */
  predicate RunOfBoxes(g: seq<seq<Cell>>, p: Pos, d: Direction, b: nat)
  {
    && (forall k :: 1 <= k <= b + 1 ==> Inside(g, Ahead(p, d, k)))
    && (forall k :: 1 <= k <= b ==> At(g, Ahead(p, d, k)) == Box)
    && At(g, Ahead(p, d, b + 1)) != Box
  }

  /** A box in front of a run makes the run one longer. */
  lemma RunExtends(g: seq<seq<Cell>>, p: Pos, d: Direction, b: nat)
    requires Inside(g, Add(p, d)) && At(g, Add(p, d)) == Box && RunOfBoxes(g, Add(p, d), d, b)
    ensures RunOfBoxes(g, p, d, b + 1)
  {
    var q := Add(p, d);
    AheadOne(p, d);
    forall k | 2 <= k <= b + 2
      ensures Ahead(p, d, k) == Ahead(q, d, k - 1)
    {
    }
  }

  /** Length of the run of boxes directly in front of `p`, looking along `d`. */
  function Boxes(g: seq<seq<Cell>>, p: Pos, d: Direction): (b: nat)
    requires Bordered(g, Wall) && Inside(g, p) && At(g, p) != Wall
    ensures Inside(g, Ahead(p, d, b + 1)) && At(g, Ahead(p, d, b + 1)) != Box
    decreases Room(g, p, d)
  {
    NeighbourInside(g, Wall, p, d);
    var q := Add(p, d);
    if At(g, q) == Box then
      var b := Boxes(g, q, d);
      assert |g[q.0]| == |g[p.0]|;
      assert Ahead(q, d, b + 1) == Ahead(p, d, b + 2);
      1 + b
    else
      AheadOne(p, d);
      0
  }

  /** `Boxes` counts exactly the run of boxes in front of `p`. */
  lemma {:induction false} BoxesRun(g: seq<seq<Cell>>, p: Pos, d: Direction)
    requires Bordered(g, Wall) && Inside(g, p) && At(g, p) != Wall
    ensures RunOfBoxes(g, p, d, Boxes(g, p, d))
    decreases Room(g, p, d)
  {
    NeighbourInside(g, Wall, p, d);
    var q := Add(p, d);
    AheadOne(p, d);
    if At(g, q) == Box {
      assert |g[q.0]| == |g[p.0]|;
      BoxesRun(g, q, d);
      RunExtends(g, p, d, Boxes(g, q, d));
    }
  }

  /** One move of part one, as a function of the map and the robot. */
  function Step(g: seq<seq<Cell>>, p: Pos, d: Direction): (r: (seq<seq<Cell>>, Pos))
    requires Valid1(g, p)
  {
    var b := Boxes(g, p, d);
    var target := Ahead(p, d, b + 1);
    if At(g, target) == Wall then (g, p)
    else
      AheadOne(p, d);
      (Put(Put(g, target, Box), Add(p, d), Empty), Add(p, d))
  }

  /** A move keeps the walls in place and the robot on an empty cell. */
  lemma StepKeepsWalls(g: seq<seq<Cell>>, p: Pos, d: Direction)
    requires Valid1(g, p)
    ensures Valid1(Step(g, p, d).0, Step(g, p, d).1) && SameWalls(g, Step(g, p, d).0, Wall)
  {
    var b := Boxes(g, p, d);
    var target := Ahead(p, d, b + 1);
    AheadOne(p, d);
    if At(g, target) != Wall {
      var q := Add(p, d);
      var h := Put(g, target, Box);
      PutAt(g, target, Box);
      PutAt(h, q, Empty);
      assert At(g, q) != Wall;
      assert At(h, q) != Wall;
      PutKeepsWalls(g, Wall, target, Box);
      PutKeepsWalls(h, Wall, q, Empty);
      SameWallsTrans(g, h, Put(h, q, Empty), Wall);
    }
  }

  /** A move keeps the number of boxes, walls and empty cells. */
  lemma StepKeepsCells(g: seq<seq<Cell>>, p: Pos, d: Direction)
    requires Valid1(g, p)
    ensures Cells(Step(g, p, d).0) == Cells(g)
  {
    var b := Boxes(g, p, d);
    var target := Ahead(p, d, b + 1);
    AheadOne(p, d);
    if At(g, target) != Wall {
      BoxesRun(g, p, d);
      MoveBoxKeepsCells(g, target, Add(p, d));
      assert Step(g, p, d).0 == Put(Put(g, target, Box), Add(p, d), Empty);
    } else {
      assert Step(g, p, d).0 == g;
    }
  }

  /** Filling an empty cell with a box and emptying a box cell keeps the multiset of cells. */
  lemma MoveBoxKeepsCells(g: seq<seq<Cell>>, target: Pos, q: Pos)
    requires Inside(g, target) && Inside(g, q) && At(g, target) == Empty
    requires target == q || At(g, q) == Box
    ensures Inside(Put(g, target, Box), q)
    ensures Cells(Put(Put(g, target, Box), q, Empty)) == Cells(g)
  {
    var h := Put(g, target, Box);
    PutAt(g, target, Box);
    CellsPut(g, target, Box);
    CellsPut(h, q, Empty);
    assert At(h, q) == Box;
    MultisetCancel(Cells(Put(h, q, Empty)), Cells(g), Box);
  }

  /** A move that is not blocked shifts the whole run of boxes one cell along `d`. */
  lemma StepShiftsRun(g: seq<seq<Cell>>, p: Pos, d: Direction, k: int)
    requires Valid1(g, p)
    requires At(g, Ahead(p, d, Boxes(g, p, d) + 1)) != Wall && 1 <= k <= Boxes(g, p, d) + 1
    ensures Step(g, p, d).1 == Add(p, d)
    ensures Inside(Step(g, p, d).0, Ahead(p, d, k))
    ensures At(Step(g, p, d).0, Ahead(p, d, k)) == if k == 1 then Empty else Box
  {
    var target := Ahead(p, d, Boxes(g, p, d) + 1);
    BoxesRun(g, p, d);
    AheadOne(p, d);
    PutTwice(g, target, Box, Add(p, d), Empty, Ahead(p, d, k));
    if k != 1 {
      AheadInjective(p, d, k, 1);
    }
    if k != Boxes(g, p, d) + 1 {
      AheadInjective(p, d, k, Boxes(g, p, d) + 1);
    }
  }

  /** The cell `c` after writing `va` at `a` and then `vb` at `b`. */
  lemma PutTwice<T>(g: seq<seq<T>>, a: Pos, va: T, b: Pos, vb: T, c: Pos)
    requires Inside(g, a) && Inside(g, b) && Inside(g, c)
    ensures Inside(Put(g, a, va), b) && Inside(Put(Put(g, a, va), b, vb), c)
    ensures At(Put(Put(g, a, va), b, vb), c) == if c == b then vb else if c == a then va else At(g, c)
  {
  }

  lemma AheadOne(p: Pos, d: Direction)
    ensures Ahead(p, d, 1) == Add(p, d)
  {
  }

  lemma AheadInjective(p: Pos, d: Direction, k: int, j: int)
    requires k != j
    ensures Ahead(p, d, k) != Ahead(p, d, j)
  {
  }

  /** A move into a run of boxes backed by a wall changes nothing. */
  lemma StepBlocked(g: seq<seq<Cell>>, p: Pos, d: Direction)
    requires Valid1(g, p) && At(g, Ahead(p, d, Boxes(g, p, d) + 1)) == Wall
    ensures Step(g, p, d) == (g, p)
  {
  }

  /** All moves in order. */
  function Walk(g: seq<seq<Cell>>, p: Pos, moves: seq<Direction>): (r: (seq<seq<Cell>>, Pos))
    requires Valid1(g, p)
    ensures Valid1(r.0, r.1) && SameWalls(g, r.0, Wall) && Cells(r.0) == Cells(g)
    decreases |moves|
  {
    if moves == [] then (g, p)
    else
      StepKeepsWalls(g, p, moves[0]);
      StepKeepsCells(g, p, moves[0]);
      var (g', p') := Step(g, p, moves[0]);
      var r := Walk(g', p', moves[1..]);
      SameWallsTrans(g, g', r.0, Wall);
      r
  }

  /** GPS coordinate sum: `100 * row + column` over the cells holding `box`. */
  function Gps<T(==)>(g: seq<seq<T>>, box: T): int
  {
    if g == [] then 0 else Gps(g[..|g| - 1], box) + RowGps(g[|g| - 1], |g| - 1, box)
  }

  function RowGps<T(==)>(row: seq<T>, x: int, box: T): int
  {
    if row == [] then 0
    else RowGps(row[..|row| - 1], x, box) + (if row[|row| - 1] == box then 100 * x + |row| - 1 else 0)
  }

  /** Each box adds at least its row's share: the score is non-negative. */
  lemma {:induction false} GpsNonNegative<T>(g: seq<seq<T>>, box: T)
    ensures Gps(g, box) >= 0
  {
    if g != [] {
      GpsNonNegative(g[..|g| - 1], box);
      RowGpsNonNegative(g[|g| - 1], |g| - 1, box);
    }
  }

  lemma {:induction false} RowGpsNonNegative<T>(row: seq<T>, x: nat, box: T)
    ensures RowGps(row, x, box) >= 0
  {
    if row != [] {
      RowGpsNonNegative(row[..|row| - 1], x, box);
    }
  }

  /**
   * One iteration of `PartOne::solve`: count the run of boxes in front of the
   * robot, then push it unless a wall is behind it.
   */
  method Move(field: seq<seq<Cell>>, pos: Pos, d: Direction) returns (field': seq<seq<Cell>>, pos': Pos)
    requires Valid1(field, pos)
    ensures (field', pos') == Step(field, pos, d)
  {
    BoxesRun(field, pos, d);
    var boxes := 0;
    while At(field, Ahead(pos, d, boxes + 1)) == Box
      invariant boxes <= Boxes(field, pos, d)
      decreases Boxes(field, pos, d) - boxes
    {
      boxes := boxes + 1;
    }
    var target := Ahead(pos, d, boxes + 1);
    if At(field, target) == Wall {
      field', pos' := field, pos;
    } else {
      AheadOne(pos, d);
      field' := Put(Put(field, target, Box), Add(pos, d), Empty);
      pos' := Add(pos, d);
    }
  }

  /**
   * `PartOne::solve`: make every move in turn, then score the final map.
   */
  method SolvePartOne(input: Input) returns (score: int)
    requires Valid1(input.field, input.start)
    ensures score == Gps(Walk(input.field, input.start, input.instructions).0, Box)
  {
    var field := input.field;
    var pos := input.start;
    var i := 0;
    while i < |input.instructions|
      invariant 0 <= i <= |input.instructions|
      invariant Valid1(field, pos)
      invariant Walk(field, pos, input.instructions[i..]) == Walk(input.field, input.start, input.instructions)
    {
      StepKeepsWalls(field, pos, input.instructions[i]);
      assert input.instructions[i..][1..] == input.instructions[i + 1..];
      field, pos := Move(field, pos, input.instructions[i]);
      i := i + 1;
    }
    score := Gps(field, Box);
  }

  // ---------------------------------------------------------------------------
  // Part two: the widened warehouse

  datatype Cell2 = Wall2 | Empty2 | BoxLeft | BoxRight

  predicate IsBox(c: Cell2) { c == BoxLeft || c == BoxRight }

  /** `Input2`: the widened map, the robot (its column doubled) and the same moves. */
  datatype Input2 = Input2(field: seq<seq<Cell2>>, start: Pos, instructions: seq<Direction>)

  /** The two cells a part-one cell widens into. */
  function Widen(c: Cell): seq<Cell2>
  {
    match c
    case Empty => [Empty2, Empty2]
    case Box => [BoxLeft, BoxRight]
    case Wall => [Wall2, Wall2]
  }

  function WidenRow(row: seq<Cell>): (r: seq<Cell2>)
    ensures |r| == 2 * |row|
    ensures forall y :: 0 <= y < |row| ==> r[2 * y] == Widen(row[y])[0] && r[2 * y + 1] == Widen(row[y])[1]
  {
    if row == [] then [] else WidenRow(row[..|row| - 1]) + Widen(row[|row| - 1])
  }

  /** `Input2::from`: every row widened, the start column doubled. */
  function WidenInput(input: Input): (r: Input2)
    ensures |r.field| == |input.field| && r.instructions == input.instructions
    ensures forall x :: 0 <= x < |input.field| ==> r.field[x] == WidenRow(input.field[x])
    ensures r.start == (input.start.0, 2 * input.start.1)
  {
    Input2(seq(|input.field|, x requires 0 <= x < |input.field| => WidenRow(input.field[x])),
           (input.start.0, 2 * input.start.1), input.instructions)
  }

  /** Every box half in `row` sits next to its partner. */
  predicate RowPaired(row: seq<Cell2>)
  {
    forall y {:trigger row[y]} :: 0 <= y < |row| ==>
      && (row[y] == BoxLeft ==> y + 1 < |row| && row[y + 1] == BoxRight)
      && (row[y] == BoxRight ==> 1 <= y && row[y - 1] == BoxLeft)
  }

  predicate Paired(g: seq<seq<Cell2>>)
  {
    forall x :: 0 <= x < |g| ==> RowPaired(g[x])
  }

  /** The robot's world in part two: walled, boxes paired, robot on an empty cell. */
  predicate Valid2(g: seq<seq<Cell2>>, p: Pos)
  {
    Bordered(g, Wall2) && Paired(g) && Inside(g, p) && At(g, p) == Empty2
  }

  /** A widened row has its boxes paired, and a row of walls widens to walls. */
  lemma {:induction false} WidenRowFacts(row: seq<Cell>)
    ensures RowPaired(WidenRow(row))
    ensures (forall y :: 0 <= y < |row| ==> row[y] == Wall) ==> forall y :: 0 <= y < |WidenRow(row)| ==> WidenRow(row)[y] == Wall2
  {
    if row != [] {
      var init := row[..|row| - 1];
      WidenRowFacts(init);
      var a := WidenRow(init);
      var b := Widen(row[|row| - 1]);
      var r := WidenRow(row);
      assert r == a + b;
      assert b == [Empty2, Empty2] || b == [BoxLeft, BoxRight] || b == [Wall2, Wall2];
      RowPairedConcat(a, b);
      if forall y :: 0 <= y < |row| ==> row[y] == Wall {
        assert forall y :: 0 <= y < |init| ==> init[y] == Wall;
        assert forall y :: 0 <= y < |r| ==> r[y] == (if y < |a| then a[y] else b[y - |a|]);
      }
    }
  }

  lemma RowPairedConcat(a: seq<Cell2>, b: seq<Cell2>)
    requires RowPaired(a) && RowPaired(b)
    ensures RowPaired(a + b)
  {
    var r := a + b;
    forall y | 0 <= y < |r|
      ensures r[y] == BoxLeft ==> y + 1 < |r| && r[y + 1] == BoxRight
      ensures r[y] == BoxRight ==> 1 <= y && r[y - 1] == BoxLeft
    {
      if y < |a| {
        assert r[y] == a[y];
        if y + 1 < |a| { assert r[y + 1] == a[y + 1]; }
        if 1 <= y { assert r[y - 1] == a[y - 1]; }
      } else {
        assert r[y] == b[y - |a|];
        if y + 1 < |r| { assert r[y + 1] == b[y + 1 - |a|]; }
        if y - 1 >= |a| { assert r[y - 1] == b[y - 1 - |a|]; }
      }
    }
  }

  /** Widening a walled map with the robot on an empty cell gives a valid part-two world. */
  lemma WidenValid(input: Input)
    requires Valid1(input.field, input.start)
    ensures Valid2(WidenInput(input).field, WidenInput(input).start)
  {
    var w := WidenInput(input).field;
    var g := input.field;
    var n := |g|;
    forall x | 0 <= x < n
      ensures RowPaired(w[x]) && |w[x]| == |w[0]|
      ensures x == 0 || x == n - 1 ==> forall y :: 0 <= y < |w[x]| ==> w[x][y] == Wall2
      ensures w[x][0] == Wall2 && w[x][|w[x]| - 1] == Wall2
    {
      WidenRowFacts(g[x]);
      assert w[x][2 * 0] == Widen(g[x][0])[0];
      assert w[x][2 * (|g[x]| - 1) + 1] == Widen(g[x][|g[x]| - 1])[1];
      if x == 0 || x == n - 1 {
        assert forall y :: 0 <= y < |g[x]| ==> g[x][y] == Wall;
      }
    }
    var p := input.start;
    assert w[p.0][2 * p.1] == Widen(Cell.Empty)[0];
  }

  /** `PartTwoMut::dual`: the other half of the box at `p`, if `p` holds a box half. */
  function Dual(g: seq<seq<Cell2>>, p: Pos): (r: Option<Pos>)
    requires Inside(g, p)
    ensures r.Some? <==> IsBox(At(g, p))
    ensures r.Some? ==> r.value.0 == p.0
  {
    match At(g, p)
    case BoxLeft => Some((p.0, p.1 + 1))
    case BoxRight => Some((p.0, p.1 - 1))
    case _ => None
  }

  /** On a paired map the other half is the opposite half, and its other half is `p` again. */
  lemma DualFacts(g: seq<seq<Cell2>>, p: Pos)
    requires Paired(g) && Inside(g, p) && IsBox(At(g, p))
    ensures Inside(g, Dual(g, p).value) && IsBox(At(g, Dual(g, p).value))
    ensures At(g, Dual(g, p).value) != At(g, p)
    ensures Dual(g, Dual(g, p).value) == Some(p)
  {
    var row := g[p.0];
    assert row[p.1] == BoxLeft ==> p.1 + 1 < |row| && row[p.1 + 1] == BoxRight;
    assert row[p.1] == BoxRight ==> 1 <= p.1 && row[p.1 - 1] == BoxLeft;
    if row[p.1] == BoxLeft {
      assert row[p.1 + 1] == BoxRight;
    } else {
      assert row[p.1 - 1] == BoxLeft;
    }
  }

  /** A position the robot, or a box it pushes, may push from along `d`. */
  predicate Pusher(g: seq<seq<Cell2>>, p: Pos, d: Direction)
  {
    && Inside(g, p) && At(g, p) != Wall2
    && !(d == Right && At(g, p) == BoxLeft)
    && !(d == Left && At(g, p) == BoxRight)
  }

  /** Pushing horizontally into a box meets its near half; its far half is next. */
  lemma FarHalf(g: seq<seq<Cell2>>, p: Pos, d: Direction)
    requires Bordered(g, Wall2) && Paired(g) && Pusher(g, p, d) && IsHorizontal(d)
    requires Inside(g, Add(p, d)) && IsBox(At(g, Add(p, d)))
    ensures Dual(g, Add(p, d)) == Some(Add(Add(p, d), d))
    ensures Pusher(g, Add(Add(p, d), d), d)
  {
  }

  /**
   * `PartTwoMut::can_shift`: whether pushing from `p` along `d` moves every box
   * in the way without any of them meeting a wall.
   */
  function CanShift(g: seq<seq<Cell2>>, p: Pos, d: Direction): bool
    requires Bordered(g, Wall2) && Paired(g) && Pusher(g, p, d)
    decreases Room(g, p, d)
  {
    NeighbourInside(g, Wall2, p, d);
    var q := Add(p, d);
    match At(g, q)
    case Wall2 => false
    case Empty2 => true
    case _ =>
      NeighbourInside(g, Wall2, q, d);
      if IsHorizontal(d) then
        FarHalf(g, p, d);
        CanShift(g, Add(q, d), d)
      else
        DualFacts(g, q);
        var qd := Dual(g, q).value;
        CanShift(g, q, d) && CanShift(g, qd, d)
  }

  predicate SameRows<T>(g: seq<seq<T>>, n: nat, m: nat)
  {
    |g| == n && forall i :: 0 <= i < |g| ==> |g[i]| == m
  }

  /**
   * `PartTwoMut::shift` as a function of the map: `None` where the source
   * panics, on meeting a wall or indexing outside the map.
   */
  function ShiftF(g: seq<seq<Cell2>>, p: Pos, d: Direction): (r: Option<seq<seq<Cell2>>>)
    requires Inside(g, p)
    ensures r.Some? ==> SameShape(g, r.value)
    decreases Room(g, p, d), 1
  {
    var q := Add(p, d);
    if !Inside(g, q) || At(g, q) == Wall2 then None
    else if At(g, q) == Empty2 then Some(g)
    else if IsHorizontal(d) then ShiftAcross(g, p, d)
    else ShiftAlong(g, p, d)
  }

  /** The horizontal arm of `shift`: make room beyond the far half, then slide both halves. */
  function ShiftAcross(g: seq<seq<Cell2>>, p: Pos, d: Direction): (r: Option<seq<seq<Cell2>>>)
    requires Inside(g, p) && Inside(g, Add(p, d))
    ensures r.Some? ==> SameShape(g, r.value)
    decreases Room(g, p, d), 0
  {
    var q := Add(p, d);
    var r := Add(q, d);
    var s := Add(r, d);
    if !Inside(g, r) || !Inside(g, s) then None
    else match ShiftF(g, r, d)
      case None => None
      case Some(g1) => Some(Slide(g1, q, r, s))
  }

  /** `s` takes the cell at `r`, `r` the cell at `q`, and `q` is emptied. */
  function Slide(g: seq<seq<Cell2>>, q: Pos, r: Pos, s: Pos): (h: seq<seq<Cell2>>)
    requires Inside(g, q) && Inside(g, r) && Inside(g, s)
    ensures SameShape(g, h)
  {
    PutAt(g, s, At(g, r));
    var g2 := Put(g, s, At(g, r));
    PutAt(g2, r, At(g2, q));
    var g3 := Put(g2, r, At(g2, q));
    PutAt(g3, q, Empty2);
    Put(g3, q, Empty2)
  }

  /**
   * The vertical arm of `shift`: make room ahead of the box's half at `q`,
   * then ahead of its other half, then move both halves one row on.
   */
  function ShiftAlong(g: seq<seq<Cell2>>, p: Pos, d: Direction): (r: Option<seq<seq<Cell2>>>)
    requires Inside(g, p) && Inside(g, Add(p, d)) && IsBox(At(g, Add(p, d))) && !IsHorizontal(d)
    ensures r.Some? ==> SameShape(g, r.value)
    decreases Room(g, p, d), 0
  {
    var q := Add(p, d);
    var qd := Dual(g, q).value;
    if !Inside(g, qd) || !Inside(g, Add(q, d)) || !Inside(g, Add(qd, d)) then None
    else match ShiftF(g, q, d)
      case None => None
      case Some(g1) =>
        match ShiftF(g1, qd, d)
        case None => None
        case Some(g2) => Some(Lift(g2, q, qd, d))
  }

  /** Both halves at `q` and `qd` move one step along `d`, leaving empty cells behind. */
  function Lift(g: seq<seq<Cell2>>, q: Pos, qd: Pos, d: Direction): (h: seq<seq<Cell2>>)
    requires Inside(g, q) && Inside(g, qd) && Inside(g, Add(q, d)) && Inside(g, Add(qd, d))
    ensures SameShape(g, h)
  {
    PutAt(g, Add(q, d), At(g, q));
    var g3 := Put(g, Add(q, d), At(g, q));
    PutAt(g3, Add(qd, d), At(g3, qd));
    var g4 := Put(g3, Add(qd, d), At(g3, qd));
    PutAt(g4, q, Empty2);
    var g5 := Put(g4, q, Empty2);
    PutAt(g5, qd, Empty2);
    Put(g5, qd, Empty2)
  }

  /** The box cells a successful `ShiftF` moves, following its recursion. */
  ghost function Cone(g: seq<seq<Cell2>>, p: Pos, d: Direction): set<Pos>
    requires Inside(g, p)
    decreases Room(g, p, d)
  {
    var q := Add(p, d);
    if !Inside(g, q) || !IsBox(At(g, q)) then {}
    else if IsHorizontal(d) then
      var r := Add(q, d);
      if !Inside(g, r) then {} else {q, r} + Cone(g, r, d)
    else
      var qd := Dual(g, q).value;
      if !Inside(g, qd) then {}
      else match ShiftF(g, q, d)
        case None => {}
        case Some(g1) => {q, qd} + Cone(g, q, d) + Cone(g1, qd, d)
  }

  // ---------------------------------------------------------------------------
  // What a successful shift does: every box half of the cone moves one step

  /** `c` lies strictly ahead of `p` along `d` (same row when `d` is horizontal). */
  predicate Beyond(p: Pos, c: Pos, d: Direction)
  {
    match d
    case Down => c.0 > p.0
    case Up => c.0 < p.0
    case Right => c.0 == p.0 && c.1 > p.1
    case Left => c.0 == p.0 && c.1 < p.1
  }

  /** Every member of `C` lies beyond `p` along `d`. */
  ghost predicate AllBeyond(p: Pos, C: set<Pos>, d: Direction)
  {
    forall c {:trigger Beyond(p, c, d)} :: c in C ==> Beyond(p, c, d)
  }

  /** The cell at `c` once every box half in `Z` has moved one step along `d`. */
  ghost function MovedCell(g0: seq<seq<Cell2>>, Z: set<Pos>, d: Direction, c: Pos): Cell2
    requires Inside(g0, c)
  {
    var b := Back(c, d);
    if b in Z && Inside(g0, b) then At(g0, b) else if c in Z then Empty2 else At(g0, c)
  }

  /** `h` is `g0` with the box halves in `Z` moved one step along `d`. */
  ghost predicate MovedFrom(g0: seq<seq<Cell2>>, Z: set<Pos>, d: Direction, h: seq<seq<Cell2>>)
  {
    SameShape(g0, h) &&
    forall c {:trigger MovedCell(g0, Z, d, c)} :: Inside(g0, c) ==> At(h, c) == MovedCell(g0, Z, d, c)
  }

  /**
   * `Z` is a set of box halves that can move together along `d`: each has its
   * other half in `Z`, and the cell ahead of it is in `Z` too or empty.
   */
  ghost predicate Closed(g0: seq<seq<Cell2>>, Z: set<Pos>, d: Direction)
  {
    forall c {:trigger ClosedAt(g0, Z, d, c)} :: c in Z ==> ClosedAt(g0, Z, d, c)
  }

  /** What `Closed` asks of one member `c`. */
  ghost predicate ClosedAt(g0: seq<seq<Cell2>>, Z: set<Pos>, d: Direction, c: Pos)
  {
    && Inside(g0, c) && IsBox(At(g0, c)) && Dual(g0, c).value in Z
    && Inside(g0, Add(c, d)) && (Add(c, d) in Z || At(g0, Add(c, d)) == Empty2)
  }

  /** One step along `d` and one step back cancel, and a step always moves. */
  lemma StepApart(c: Pos, d: Direction)
    ensures Back(Add(c, d), d) == c && Add(Back(c, d), d) == c
    ensures Add(c, d) != c && Back(c, d) != c && Add(Add(c, d), d) != c && Back(c, d) != Add(c, d)
  {
  }

  lemma SlideAt(g: seq<seq<Cell2>>, q: Pos, r: Pos, s: Pos, c: Pos)
    requires Inside(g, q) && Inside(g, r) && Inside(g, s) && Inside(g, c)
    requires q != r && r != s && q != s
    ensures At(Slide(g, q, r, s), c) ==
      (if c == q then Empty2 else if c == r then At(g, q) else if c == s then At(g, r) else At(g, c))
  {
    PutAt(g, s, At(g, r));
    var g2 := Put(g, s, At(g, r));
    PutAt(g2, r, At(g2, q));
    var g3 := Put(g2, r, At(g2, q));
    PutAt(g3, q, Empty2);
  }

  lemma MovedAt(g0: seq<seq<Cell2>>, Z: set<Pos>, d: Direction, h: seq<seq<Cell2>>, c: Pos)
    requires MovedFrom(g0, Z, d, h) && Inside(g0, c)
    ensures Inside(h, c) && At(h, c) == MovedCell(g0, Z, d, c)
  {
  }

  /** The horizontal slide extends a move by the two halves at `q` and `r`. */
  lemma SlideMoved(g0: seq<seq<Cell2>>, Z: set<Pos>, d: Direction, g1: seq<seq<Cell2>>, q: Pos)
    requires MovedFrom(g0, Z, d, g1)
    requires Inside(g0, q) && Inside(g0, Add(q, d)) && Inside(g0, Add(Add(q, d), d))
    requires q !in Z && Add(q, d) !in Z && Back(q, d) !in Z
    ensures MovedFrom(g0, Z + {q, Add(q, d)}, d, Slide(g1, q, Add(q, d), Add(Add(q, d), d)))
  {
    var r := Add(q, d);
    var s := Add(r, d);
    StepApart(q, d);
    MovedAt(g0, Z, d, g1, q);
    MovedAt(g0, Z, d, g1, r);
    MovedAt(g0, Z, d, g1, s);
    var h := Slide(g1, q, r, s);
    forall c | Inside(g0, c)
      ensures At(h, c) == MovedCell(g0, Z + {q, r}, d, c)
    {
      MovedAt(g0, Z, d, g1, c);
      SlideMovedAt(g0, Z, d, g1, q, c);
    }
  }

  lemma SlideMovedAt(g0: seq<seq<Cell2>>, Z: set<Pos>, d: Direction, g1: seq<seq<Cell2>>, q: Pos, c: Pos)
    requires Inside(g0, q) && Inside(g0, Add(q, d)) && Inside(g0, Add(Add(q, d), d)) && Inside(g0, c)
    requires Inside(g1, q) && Inside(g1, Add(q, d)) && Inside(g1, Add(Add(q, d), d)) && Inside(g1, c)
    requires q !in Z && Add(q, d) !in Z && Back(q, d) !in Z
    requires At(g1, q) == At(g0, q) && At(g1, Add(q, d)) == At(g0, Add(q, d))
    requires At(g1, c) == MovedCell(g0, Z, d, c)
    ensures At(Slide(g1, q, Add(q, d), Add(Add(q, d), d)), c) == MovedCell(g0, Z + {q, Add(q, d)}, d, c)
  {
    var r := Add(q, d);
    var s := Add(r, d);
    StepApart(q, d);
    StepApart(r, d);
    StepApart(c, d);
    SlideAt(g1, q, r, s, c);
    if c != q && c != r && c != s {
      assert Back(c, d) != q && Back(c, d) != r;
    }
  }

  lemma LiftAt(g: seq<seq<Cell2>>, q: Pos, qd: Pos, d: Direction, c: Pos)
    requires Inside(g, q) && Inside(g, qd) && Inside(g, Add(q, d)) && Inside(g, Add(qd, d)) && Inside(g, c)
    requires !IsHorizontal(d) && q.0 == qd.0 && q != qd
    ensures At(Lift(g, q, qd, d), c) ==
      (if c == q || c == qd then Empty2
       else if c == Add(q, d) then At(g, q)
       else if c == Add(qd, d) then At(g, qd)
       else At(g, c))
  {
    PutAt(g, Add(q, d), At(g, q));
    var g3 := Put(g, Add(q, d), At(g, q));
    PutAt(g3, Add(qd, d), At(g3, qd));
    var g4 := Put(g3, Add(qd, d), At(g3, qd));
    PutAt(g4, q, Empty2);
    var g5 := Put(g4, q, Empty2);
    PutAt(g5, qd, Empty2);
  }

  /** The vertical lift extends a move by the two halves at `q` and `qd`. */
  lemma LiftMoved(g0: seq<seq<Cell2>>, Z: set<Pos>, d: Direction, g2: seq<seq<Cell2>>, q: Pos, qd: Pos)
    requires MovedFrom(g0, Z, d, g2)
    requires Inside(g0, q) && Inside(g0, qd) && Inside(g0, Add(q, d)) && Inside(g0, Add(qd, d))
    requires !IsHorizontal(d) && q.0 == qd.0 && q != qd
    requires q !in Z && qd !in Z && Back(q, d) !in Z && Back(qd, d) !in Z
    ensures MovedFrom(g0, Z + {q, qd}, d, Lift(g2, q, qd, d))
  {
    StepApart(q, d);
    StepApart(qd, d);
    MovedAt(g0, Z, d, g2, q);
    MovedAt(g0, Z, d, g2, qd);
    MovedAt(g0, Z, d, g2, Add(q, d));
    MovedAt(g0, Z, d, g2, Add(qd, d));
    var h := Lift(g2, q, qd, d);
    forall c | Inside(g0, c)
      ensures At(h, c) == MovedCell(g0, Z + {q, qd}, d, c)
    {
      MovedAt(g0, Z, d, g2, c);
      LiftMovedAt(g0, Z, d, g2, q, qd, c);
    }
  }

  lemma LiftMovedAt(g0: seq<seq<Cell2>>, Z: set<Pos>, d: Direction, g2: seq<seq<Cell2>>, q: Pos, qd: Pos, c: Pos)
    requires Inside(g0, q) && Inside(g0, qd) && Inside(g0, Add(q, d)) && Inside(g0, Add(qd, d)) && Inside(g0, c)
    requires Inside(g2, q) && Inside(g2, qd) && Inside(g2, Add(q, d)) && Inside(g2, Add(qd, d)) && Inside(g2, c)
    requires !IsHorizontal(d) && q.0 == qd.0 && q != qd
    requires q !in Z && qd !in Z && Back(q, d) !in Z && Back(qd, d) !in Z
    requires At(g2, q) == At(g0, q) && At(g2, qd) == At(g0, qd)
    requires At(g2, c) == MovedCell(g0, Z, d, c)
    ensures At(Lift(g2, q, qd, d), c) == MovedCell(g0, Z + {q, qd}, d, c)
  {
    StepApart(q, d);
    StepApart(qd, d);
    StepApart(c, d);
    LiftAt(g2, q, qd, d, c);
    if c != q && c != qd && c != Add(q, d) && c != Add(qd, d) {
      assert Back(c, d) != q && Back(c, d) != qd;
    }
  }

  /** Moving a closed set of box halves creates or destroys no wall. */
  lemma MovedWallAt(g0: seq<seq<Cell2>>, Z: set<Pos>, d: Direction, c: Pos)
    requires Closed(g0, Z, d) && Inside(g0, c)
    ensures MovedCell(g0, Z, d, c) == Wall2 <==> At(g0, c) == Wall2
  {
    StepApart(c, d);
    assert c in Z ==> ClosedAt(g0, Z, d, c);
    assert Back(c, d) in Z ==> ClosedAt(g0, Z, d, Back(c, d));
  }

  /** After moving a closed set of box halves, every box half still has its partner beside it. */
  lemma MovedPairedAt(g0: seq<seq<Cell2>>, Z: set<Pos>, d: Direction, c: Pos)
    requires Paired(g0) && Closed(g0, Z, d) && Inside(g0, c)
    ensures MovedCell(g0, Z, d, c) == BoxLeft ==>
      Inside(g0, (c.0, c.1 + 1)) && MovedCell(g0, Z, d, (c.0, c.1 + 1)) == BoxRight
    ensures MovedCell(g0, Z, d, c) == BoxRight ==>
      Inside(g0, (c.0, c.1 - 1)) && MovedCell(g0, Z, d, (c.0, c.1 - 1)) == BoxLeft
  {
    var b := Back(c, d);
    if b in Z && Inside(g0, b) {
      MovedPartnerCarried(g0, Z, d, c);
    } else if IsBox(MovedCell(g0, Z, d, c)) {
      MovedPartnerStill(g0, Z, d, c);
    }
  }

  /** A half carried from `Back(c, d)` arrives next to its partner, carried along with it. */
  lemma MovedPartnerCarried(g0: seq<seq<Cell2>>, Z: set<Pos>, d: Direction, c: Pos)
    requires Paired(g0) && Closed(g0, Z, d) && Inside(g0, c) && Back(c, d) in Z && Inside(g0, Back(c, d))
    ensures MovedCell(g0, Z, d, c) == BoxLeft ==>
      Inside(g0, (c.0, c.1 + 1)) && MovedCell(g0, Z, d, (c.0, c.1 + 1)) == BoxRight
    ensures MovedCell(g0, Z, d, c) == BoxRight ==>
      Inside(g0, (c.0, c.1 - 1)) && MovedCell(g0, Z, d, (c.0, c.1 - 1)) == BoxLeft
  {
    var b := Back(c, d);
    assert ClosedAt(g0, Z, d, b);
    DualFacts(g0, b);
    var e := if At(g0, b) == BoxLeft then (c.0, c.1 + 1) else (c.0, c.1 - 1);
    StepApart(e, d);
    assert Dual(g0, b).value == Back(e, d);
    assert ClosedAt(g0, Z, d, Back(e, d));
  }

  /** A half left in place still has its partner in place beside it. */
  lemma MovedPartnerStill(g0: seq<seq<Cell2>>, Z: set<Pos>, d: Direction, c: Pos)
    requires Paired(g0) && Closed(g0, Z, d) && Inside(g0, c) && !(Back(c, d) in Z && Inside(g0, Back(c, d)))
    requires IsBox(MovedCell(g0, Z, d, c))
    ensures MovedCell(g0, Z, d, c) == BoxLeft ==>
      Inside(g0, (c.0, c.1 + 1)) && MovedCell(g0, Z, d, (c.0, c.1 + 1)) == BoxRight
    ensures MovedCell(g0, Z, d, c) == BoxRight ==>
      Inside(g0, (c.0, c.1 - 1)) && MovedCell(g0, Z, d, (c.0, c.1 - 1)) == BoxLeft
  {
    assert c !in Z && MovedCell(g0, Z, d, c) == At(g0, c);
    DualFacts(g0, c);
    var e := Dual(g0, c).value;
    assert e in Z ==> ClosedAt(g0, Z, d, e);
    StaysPut(g0, Z, d, e);
  }

  /** A box half outside a closed set is not pushed onto by any member of it. */
  lemma StaysPut(g0: seq<seq<Cell2>>, Z: set<Pos>, d: Direction, e: Pos)
    requires Closed(g0, Z, d) && Inside(g0, e) && e !in Z && IsBox(At(g0, e))
    ensures MovedCell(g0, Z, d, e) == At(g0, e)
  {
    StepApart(e, d);
    assert Back(e, d) in Z ==> ClosedAt(g0, Z, d, Back(e, d));
  }

  /** Moving a closed set of box halves keeps the map walled and every box whole. */
  lemma MovedValid(g0: seq<seq<Cell2>>, Z: set<Pos>, d: Direction, h: seq<seq<Cell2>>)
    requires Bordered(g0, Wall2) && Paired(g0) && Closed(g0, Z, d) && MovedFrom(g0, Z, d, h)
    ensures Bordered(h, Wall2) && Paired(h) && SameWalls(g0, h, Wall2)
  {
    MovedWalls(g0, Z, d, h);
    forall x | 0 <= x < |h|
      ensures RowPaired(h[x])
    {
      MovedRowPaired(g0, Z, d, h, x);
    }
  }

  lemma MovedWalls(g0: seq<seq<Cell2>>, Z: set<Pos>, d: Direction, h: seq<seq<Cell2>>)
    requires Bordered(g0, Wall2) && Closed(g0, Z, d) && MovedFrom(g0, Z, d, h)
    ensures Bordered(h, Wall2) && SameWalls(g0, h, Wall2)
  {
    forall x, y | 0 <= x < |g0| && 0 <= y < |g0[x]|
      ensures h[x][y] == Wall2 <==> g0[x][y] == Wall2
    {
      MovedAt(g0, Z, d, h, (x, y));
      MovedWallAt(g0, Z, d, (x, y));
    }
  }

  lemma MovedRowPaired(g0: seq<seq<Cell2>>, Z: set<Pos>, d: Direction, h: seq<seq<Cell2>>, x: int)
    requires Paired(g0) && Closed(g0, Z, d) && MovedFrom(g0, Z, d, h) && 0 <= x < |h|
    ensures RowPaired(h[x])
  {
    var row := h[x];
    forall y {:trigger row[y]} | 0 <= y < |row|
      ensures row[y] == BoxLeft ==> y + 1 < |row| && row[y + 1] == BoxRight
      ensures row[y] == BoxRight ==> 1 <= y && row[y - 1] == BoxLeft
    {
      MovedPairedCell(g0, Z, d, h, (x, y));
    }
  }

  lemma MovedPairedCell(g0: seq<seq<Cell2>>, Z: set<Pos>, d: Direction, h: seq<seq<Cell2>>, c: Pos)
    requires Paired(g0) && Closed(g0, Z, d) && MovedFrom(g0, Z, d, h) && Inside(h, c)
    ensures At(h, c) == BoxLeft ==> c.1 + 1 < |h[c.0]| && h[c.0][c.1 + 1] == BoxRight
    ensures At(h, c) == BoxRight ==> 1 <= c.1 && h[c.0][c.1 - 1] == BoxLeft
  {
    MovedAt(g0, Z, d, h, c);
    MovedPairedAt(g0, Z, d, c);
    if At(h, c) == BoxLeft {
      MovedAt(g0, Z, d, h, (c.0, c.1 + 1));
    } else if At(h, c) == BoxRight {
      MovedAt(g0, Z, d, h, (c.0, c.1 - 1));
    }
  }

  // ---------------------------------------------------------------------------
  // can_shift guarantees that shift succeeds

  /**
   * Shifting from `p` on a map `g` in which the closed set `X` has already
   * moved: when `can_shift` holds on the original map `g0`, the shift never
   * panics, and the result is `g0` with `X` and the shift's cone moved.
   */
  lemma {:induction false} ShiftSound(g0: seq<seq<Cell2>>, X: set<Pos>, g: seq<seq<Cell2>>, p: Pos, d: Direction)
    requires Bordered(g0, Wall2) && Paired(g0) && Closed(g0, X, d) && MovedFrom(g0, X, d, g)
    requires Pusher(g0, p, d) && p !in X && CanShift(g0, p, d)
    ensures Inside(g, p) && ShiftF(g, p, d).Some?
    ensures MovedFrom(g0, X + Cone(g, p, d), d, ShiftF(g, p, d).value)
    ensures Closed(g0, X + Cone(g, p, d), d)
    ensures Add(p, d) in X + Cone(g, p, d) || At(g0, Add(p, d)) == Empty2
    ensures AllBeyond(p, Cone(g, p, d), d)
    decreases Room(g0, p, d), 1
  {
    NeighbourInside(g0, Wall2, p, d);
    var q := Add(p, d);
    StepApart(p, d);
    MovedAt(g0, X, d, g, p);
    MovedAt(g0, X, d, g, q);
    if q in X || At(g0, q) == Empty2 {
      assert ShiftF(g, p, d) == Some(g);
      assert Cone(g, p, d) == {};
      assert X + {} == X;
    } else if IsHorizontal(d) {
      ShiftAcrossSound(g0, X, g, p, d);
    } else {
      ShiftAlongSound(g0, X, g, p, d);
    }
  }

  /** `ShiftSound` for a horizontal push into a box. */
  lemma {:induction false} ShiftAcrossSound(g0: seq<seq<Cell2>>, X: set<Pos>, g: seq<seq<Cell2>>, p: Pos, d: Direction)
    requires Bordered(g0, Wall2) && Paired(g0) && Closed(g0, X, d) && MovedFrom(g0, X, d, g)
    requires Pusher(g0, p, d) && p !in X && CanShift(g0, p, d) && IsHorizontal(d)
    requires Inside(g0, Add(p, d)) && Add(p, d) !in X && IsBox(At(g0, Add(p, d)))
    ensures Inside(g, p) && ShiftF(g, p, d).Some?
    ensures MovedFrom(g0, X + Cone(g, p, d), d, ShiftF(g, p, d).value)
    ensures Closed(g0, X + Cone(g, p, d), d)
    ensures Add(p, d) in X + Cone(g, p, d) || At(g0, Add(p, d)) == Empty2
    ensures AllBeyond(p, Cone(g, p, d), d)
    decreases Room(g0, p, d), 0
  {
    var q := Add(p, d);
    StepApart(p, d);
    MovedAt(g0, X, d, g, p);
    MovedAt(g0, X, d, g, q);
    FarHalf(g0, p, d);
    var r := Add(q, d);
    StepApart(q, d);
    NeighbourInside(g0, Wall2, r, d);
    DualFacts(g0, q);
    assert r in X ==> ClosedAt(g0, X, d, r);
    ShiftSound(g0, X, g, r, d);
    AcrossFinish(g0, X, g, p, d);
  }

  /** The last step of `ShiftAcrossSound`: slide the box once the cells beyond it have moved. */
  lemma AcrossFinish(g0: seq<seq<Cell2>>, X: set<Pos>, g: seq<seq<Cell2>>, p: Pos, d: Direction)
    requires SameShape(g0, g) && IsHorizontal(d) && Inside(g0, p)
    requires Inside(g0, Add(p, d)) && Inside(g0, Add(Add(p, d), d)) && Inside(g0, Add(Add(Add(p, d), d), d))
    requires At(g, Add(p, d)) == At(g0, Add(p, d)) && IsBox(At(g0, Add(p, d)))
    requires Dual(g0, Add(p, d)) == Some(Add(Add(p, d), d)) && Dual(g0, Add(Add(p, d), d)) == Some(Add(p, d))
    requires p !in X && Add(p, d) !in X && Add(Add(p, d), d) !in X
    requires ShiftF(g, Add(Add(p, d), d), d).Some?
    requires Closed(g0, X + Cone(g, Add(Add(p, d), d), d), d)
    requires MovedFrom(g0, X + Cone(g, Add(Add(p, d), d), d), d, ShiftF(g, Add(Add(p, d), d), d).value)
    requires Add(Add(Add(p, d), d), d) in X + Cone(g, Add(Add(p, d), d), d) || At(g0, Add(Add(Add(p, d), d), d)) == Empty2
    requires AllBeyond(Add(Add(p, d), d), Cone(g, Add(Add(p, d), d), d), d)
    ensures Inside(g, p) && ShiftF(g, p, d).Some?
    ensures MovedFrom(g0, X + Cone(g, p, d), d, ShiftF(g, p, d).value)
    ensures Closed(g0, X + Cone(g, p, d), d)
    ensures Add(p, d) in X + Cone(g, p, d) || At(g0, Add(p, d)) == Empty2
    ensures AllBeyond(p, Cone(g, p, d), d)
  {
    var q := Add(p, d);
    var r := Add(q, d);
    var s := Add(r, d);
    var g1 := ShiftF(g, r, d).value;
    var C1 := Cone(g, r, d);
    AcrossUnfold(g, p, d);
    BeyondAcross(p, d, C1);
    StepApart(p, d);
    SlideMoved(g0, X + C1, d, g1, q);
    assert X + Cone(g, p, d) == (X + C1) + {q, r};
    ClosedExtend(g0, X + C1, d, q, r);
  }

  /** One unfolding of `ShiftF` and `Cone` for a horizontal push into a box. */
  lemma AcrossUnfold(g: seq<seq<Cell2>>, p: Pos, d: Direction)
    requires IsHorizontal(d) && Inside(g, p) && Inside(g, Add(p, d)) && IsBox(At(g, Add(p, d)))
    requires Inside(g, Add(Add(p, d), d)) && Inside(g, Add(Add(Add(p, d), d), d))
    requires ShiftF(g, Add(Add(p, d), d), d).Some?
    ensures ShiftF(g, p, d) == Some(Slide(ShiftF(g, Add(Add(p, d), d), d).value, Add(p, d), Add(Add(p, d), d), Add(Add(Add(p, d), d), d)))
    ensures Cone(g, p, d) == {Add(p, d), Add(Add(p, d), d)} + Cone(g, Add(Add(p, d), d), d)
  {
    assert ShiftF(g, p, d) == ShiftAcross(g, p, d);
  }

  /** The cone beyond the far half `r` lies beyond `p` and misses `p`, `q` and `r`. */
  lemma BeyondAcross(p: Pos, d: Direction, C1: set<Pos>)
    requires IsHorizontal(d)
    requires AllBeyond(Add(Add(p, d), d), C1, d)
    ensures p !in C1 && Add(p, d) !in C1 && Add(Add(p, d), d) !in C1
    ensures AllBeyond(p, {Add(p, d), Add(Add(p, d), d)} + C1, d)
  {
    var r := Add(Add(p, d), d);
    assert Beyond(r, p, d) == false && Beyond(r, Add(p, d), d) == false && Beyond(r, r, d) == false;
    forall c | c in {Add(p, d), r} + C1
      ensures Beyond(p, c, d)
    {
      if c in C1 {
        assert Beyond(r, c, d);
      }
    }
  }

  /** Adding two members that meet `Closed`'s conditions keeps a set closed. */
  lemma ClosedExtend(g0: seq<seq<Cell2>>, Z: set<Pos>, d: Direction, a: Pos, b: Pos)
    requires Closed(g0, Z, d)
    requires ClosedAt(g0, Z + {a, b}, d, a) && ClosedAt(g0, Z + {a, b}, d, b)
    ensures Closed(g0, Z + {a, b}, d)
  {
    forall c | c in Z + {a, b}
      ensures ClosedAt(g0, Z + {a, b}, d, c)
    {
      if c != a && c != b {
        assert ClosedAt(g0, Z, d, c);
      }
    }
  }

  /** `ShiftSound` for a vertical push into a box. */
  lemma {:induction false} ShiftAlongSound(g0: seq<seq<Cell2>>, X: set<Pos>, g: seq<seq<Cell2>>, p: Pos, d: Direction)
    requires Bordered(g0, Wall2) && Paired(g0) && Closed(g0, X, d) && MovedFrom(g0, X, d, g)
    requires Pusher(g0, p, d) && p !in X && CanShift(g0, p, d) && !IsHorizontal(d)
    requires Inside(g0, Add(p, d)) && Add(p, d) !in X && IsBox(At(g0, Add(p, d)))
    ensures Inside(g, p) && ShiftF(g, p, d).Some?
    ensures MovedFrom(g0, X + Cone(g, p, d), d, ShiftF(g, p, d).value)
    ensures Closed(g0, X + Cone(g, p, d), d)
    ensures Add(p, d) in X + Cone(g, p, d) || At(g0, Add(p, d)) == Empty2
    ensures AllBeyond(p, Cone(g, p, d), d)
    decreases Room(g0, p, d), 0
  {
    var q := Add(p, d);
    StepApart(p, d);
    MovedAt(g0, X, d, g, p);
    MovedAt(g0, X, d, g, q);
    DualFacts(g0, q);
    var qd := Dual(g0, q).value;
    StepApart(qd, d);
    NeighbourInside(g0, Wall2, q, d);
    NeighbourInside(g0, Wall2, qd, d);
    assert CanShift(g0, q, d) && CanShift(g0, qd, d);
    ShiftSound(g0, X, g, q, d);
    var g1 := ShiftF(g, q, d).value;
    var C1 := Cone(g, q, d);
    assert qd in X ==> ClosedAt(g0, X, d, qd);
    assert !Beyond(q, qd, d);
    assert qd !in C1;
    ShiftSound(g0, X + C1, g1, qd, d);
    assert Back(qd, d) in X ==> ClosedAt(g0, X, d, Back(qd, d));
    AlongFinish(g0, X, g, p, d, qd, g1, C1, ShiftF(g1, qd, d).value, Cone(g1, qd, d));
  }

  /** The last step of `ShiftAlongSound`: lift both halves once the cells ahead of them have moved. */
  lemma AlongFinish(g0: seq<seq<Cell2>>, X: set<Pos>, g: seq<seq<Cell2>>, p: Pos, d: Direction,
                    qd: Pos, g1: seq<seq<Cell2>>, C1: set<Pos>, g2: seq<seq<Cell2>>, C2: set<Pos>)
    requires SameShape(g0, g) && !IsHorizontal(d) && Inside(g0, p) && Inside(g0, qd)
    requires Inside(g0, Add(p, d)) && At(g, Add(p, d)) == At(g0, Add(p, d)) && IsBox(At(g0, Add(p, d)))
    requires Dual(g0, Add(p, d)) == Some(qd) && Dual(g0, qd) == Some(Add(p, d))
    requires Inside(g0, Add(Add(p, d), d)) && Inside(g0, Add(qd, d))
    requires p !in X && Add(p, d) !in X && qd !in X && Back(qd, d) !in X
    requires ShiftF(g, Add(p, d), d) == Some(g1) && Cone(g, Add(p, d), d) == C1
    requires ShiftF(g1, qd, d) == Some(g2) && Cone(g1, qd, d) == C2
    requires AllBeyond(Add(p, d), C1, d)
    requires AllBeyond(qd, C2, d)
    requires Closed(g0, X + C1 + C2, d) && MovedFrom(g0, X + C1 + C2, d, g2)
    requires Add(Add(p, d), d) in X + C1 || At(g0, Add(Add(p, d), d)) == Empty2
    requires Add(qd, d) in X + C1 + C2 || At(g0, Add(qd, d)) == Empty2
    ensures Inside(g, p) && ShiftF(g, p, d).Some?
    ensures MovedFrom(g0, X + Cone(g, p, d), d, ShiftF(g, p, d).value)
    ensures Closed(g0, X + Cone(g, p, d), d)
    ensures Add(p, d) in X + Cone(g, p, d) || At(g0, Add(p, d)) == Empty2
    ensures AllBeyond(p, Cone(g, p, d), d)
  {
    var q := Add(p, d);
    AlongUnfold(g, p, d);
    AlongCore(g0, X, C1, C2, g2, p, qd, d);
    assert X + Cone(g, p, d) == X + C1 + C2 + {q, qd};
  }

  /** `AlongFinish` on the sets and maps alone. */
  lemma AlongCore(g0: seq<seq<Cell2>>, X: set<Pos>, C1: set<Pos>, C2: set<Pos>, g2: seq<seq<Cell2>>, p: Pos, qd: Pos, d: Direction)
    requires !IsHorizontal(d) && Inside(g0, p) && Inside(g0, Add(p, d)) && Inside(g0, qd)
    requires Inside(g0, Add(Add(p, d), d)) && Inside(g0, Add(qd, d))
    requires IsBox(At(g0, Add(p, d))) && Dual(g0, Add(p, d)) == Some(qd) && Dual(g0, qd) == Some(Add(p, d))
    requires p !in X && Add(p, d) !in X && qd !in X && Back(qd, d) !in X
    requires AllBeyond(Add(p, d), C1, d)
    requires AllBeyond(qd, C2, d)
    requires Closed(g0, X + C1 + C2, d) && MovedFrom(g0, X + C1 + C2, d, g2)
    requires Add(Add(p, d), d) in X + C1 || At(g0, Add(Add(p, d), d)) == Empty2
    requires Add(qd, d) in X + C1 + C2 || At(g0, Add(qd, d)) == Empty2
    ensures MovedFrom(g0, X + C1 + C2 + {Add(p, d), qd}, d, Lift(g2, Add(p, d), qd, d))
    ensures Closed(g0, X + C1 + C2 + {Add(p, d), qd}, d)
    ensures AllBeyond(p, {Add(p, d), qd} + C1 + C2, d)
  {
    var q := Add(p, d);
    var Z := X + C1 + C2;
    BeyondAlong(p, qd, d, C1, C2);
    StepApart(p, d);
    StepApart(qd, d);
    LiftMoved(g0, Z, d, g2, q, qd);
    ClosedExtend(g0, Z, d, q, qd);
  }

  /** One unfolding of `ShiftF` and `Cone` for a vertical push into a box. */
  lemma AlongUnfold(g: seq<seq<Cell2>>, p: Pos, d: Direction)
    requires !IsHorizontal(d) && Inside(g, p) && Inside(g, Add(p, d)) && IsBox(At(g, Add(p, d)))
    requires Inside(g, Dual(g, Add(p, d)).value)
    requires Inside(g, Add(Add(p, d), d)) && Inside(g, Add(Dual(g, Add(p, d)).value, d))
    requires ShiftF(g, Add(p, d), d).Some?
    requires ShiftF(ShiftF(g, Add(p, d), d).value, Dual(g, Add(p, d)).value, d).Some?
    ensures ShiftF(g, p, d) == Some(Lift(ShiftF(ShiftF(g, Add(p, d), d).value, Dual(g, Add(p, d)).value, d).value,
                                         Add(p, d), Dual(g, Add(p, d)).value, d))
    ensures Cone(g, p, d) == {Add(p, d), Dual(g, Add(p, d)).value} + Cone(g, Add(p, d), d)
                             + Cone(ShiftF(g, Add(p, d), d).value, Dual(g, Add(p, d)).value, d)
  {
    assert ShiftF(g, p, d) == ShiftAlong(g, p, d);
  }

  /** The two cones ahead of a box pushed vertically lie beyond `p` and miss both halves. */
  lemma BeyondAlong(p: Pos, qd: Pos, d: Direction, C1: set<Pos>, C2: set<Pos>)
    requires !IsHorizontal(d) && qd.0 == Add(p, d).0
    requires AllBeyond(Add(p, d), C1, d)
    requires AllBeyond(qd, C2, d)
    ensures p !in C1 + C2 && Add(p, d) !in C1 + C2 && qd !in C1 + C2 && Back(qd, d) !in C1 + C2
    ensures AllBeyond(p, {Add(p, d), qd} + C1 + C2, d)
  {
    var q := Add(p, d);
    assert !Beyond(q, p, d) && !Beyond(q, q, d) && !Beyond(q, qd, d) && !Beyond(q, Back(qd, d), d);
    assert !Beyond(qd, p, d) && !Beyond(qd, q, d) && !Beyond(qd, qd, d) && !Beyond(qd, Back(qd, d), d);
    forall c | c in {q, qd} + C1 + C2
      ensures Beyond(p, c, d)
    {
      if c in C1 {
        assert Beyond(q, c, d);
      } else if c in C2 {
        assert Beyond(qd, c, d);
      }
    }
  }

  // ---------------------------------------------------------------------------
  // A successful shift keeps every cell: walls stay, boxes move, none is lost

  /** A slide into an empty cell keeps the cells. */
  lemma SlideCells(g: seq<seq<Cell2>>, q: Pos, r: Pos, s: Pos)
    requires Inside(g, q) && Inside(g, r) && Inside(g, s) && q != r && r != s && q != s
    requires At(g, s) == Empty2
    ensures Cells(Slide(g, q, r, s)) == Cells(g)
  {
    var vq, vr := At(g, q), At(g, r);
    var k1 := Put(g, s, vr);
    PutAt(g, s, vr);
    var k2 := Put(k1, r, vq);
    PutAt(k1, r, vq);
    var k3 := Put(k2, q, Empty2);
    assert k3 == Slide(g, q, r, s);
    CellsPut(g, s, vr);
    CellsPut(k1, r, vq);
    CellsPut(k2, q, Empty2);
    forall e
      ensures Cells(k3)[e] == Cells(g)[e]
    {
      assert (Cells(k1) + multiset{Empty2})[e] == (Cells(g) + multiset{vr})[e];
      assert (Cells(k2) + multiset{vr})[e] == (Cells(k1) + multiset{vq})[e];
      assert (Cells(k3) + multiset{vq})[e] == (Cells(k2) + multiset{Empty2})[e];
    }
  }

  /** A lift of both halves into two empty cells keeps the cells. */
  lemma LiftCells(g: seq<seq<Cell2>>, q: Pos, qd: Pos, d: Direction)
    requires Inside(g, q) && Inside(g, qd) && Inside(g, Add(q, d)) && Inside(g, Add(qd, d))
    requires !IsHorizontal(d) && q.0 == qd.0 && q != qd
    requires At(g, Add(q, d)) == Empty2 && At(g, Add(qd, d)) == Empty2
    ensures Cells(Lift(g, q, qd, d)) == Cells(g)
  {
    StepApart(q, d);
    StepApart(qd, d);
    var a, b := Add(q, d), Add(qd, d);
    var vq, vqd := At(g, q), At(g, qd);
    var k2 := Put(Put(g, a, vq), b, vqd);
    PutTwice(g, a, vq, b, vqd, q);
    PutTwice(g, a, vq, b, vqd, qd);
    CellsPutTwo(g, a, vq, b, vqd);
    CellsPutTwo(k2, q, Empty2, qd, Empty2);
    assert Put(Put(k2, q, Empty2), qd, Empty2) == Lift(g, q, qd, d);
    var m := multiset{vq, vqd};
    assert Cells(Lift(g, q, qd, d)) + m == Cells(g) + m;
    forall e
      ensures Cells(Lift(g, q, qd, d))[e] == Cells(g)[e]
    {
      assert (Cells(Lift(g, q, qd, d)) + m)[e] == (Cells(g) + m)[e];
    }
  }

  /** Two writes to distinct cells trade both old values for the new ones. */
  lemma CellsPutTwo<T>(g: seq<seq<T>>, a: Pos, va: T, b: Pos, vb: T)
    requires Inside(g, a) && Inside(g, b) && a != b
    ensures Inside(Put(g, a, va), b)
    ensures Cells(Put(Put(g, a, va), b, vb)) + multiset{At(g, a), At(g, b)} == Cells(g) + multiset{va, vb}
  {
    var k1 := Put(g, a, va);
    PutAt(g, a, va);
    CellsPut(g, a, va);
    CellsPut(k1, b, vb);
    assert At(k1, b) == At(g, b);
    SwapTwo(Cells(Put(k1, b, vb)), Cells(k1), Cells(g), At(g, a), At(g, b), va, vb);
  }

  /** Two single-element exchanges of a multiset, done one after the other. */
  lemma SwapTwo<T>(m2: multiset<T>, m1: multiset<T>, m0: multiset<T>, x: T, y: T, u: T, v: T)
    requires m2 + multiset{y} == m1 + multiset{v}
    requires m1 + multiset{x} == m0 + multiset{u}
    ensures m2 + multiset{x, y} == m0 + multiset{u, v}
  {
    calc {
      m2 + multiset{x, y};
      (m2 + multiset{y}) + multiset{x};
      (m1 + multiset{v}) + multiset{x};
      (m1 + multiset{x}) + multiset{v};
      (m0 + multiset{u}) + multiset{v};
    }
  }

  /** A shift that `can_shift` allows keeps the multiset of cells of the map it works on. */
  lemma {:induction false} ShiftCells(g0: seq<seq<Cell2>>, X: set<Pos>, g: seq<seq<Cell2>>, p: Pos, d: Direction)
    requires Bordered(g0, Wall2) && Paired(g0) && Closed(g0, X, d) && MovedFrom(g0, X, d, g)
    requires Pusher(g0, p, d) && p !in X && CanShift(g0, p, d)
    ensures Inside(g, p) && ShiftF(g, p, d).Some? && Cells(ShiftF(g, p, d).value) == Cells(g)
    decreases Room(g0, p, d), 1
  {
    NeighbourInside(g0, Wall2, p, d);
    var q := Add(p, d);
    StepApart(p, d);
    MovedAt(g0, X, d, g, p);
    MovedAt(g0, X, d, g, q);
    if q in X || At(g0, q) == Empty2 {
      assert ShiftF(g, p, d) == Some(g);
    } else if IsHorizontal(d) {
      AcrossCells(g0, X, g, p, d);
    } else {
      AlongCells(g0, X, g, p, d);
    }
  }

  /** `ShiftCells` for a horizontal push into a box. */
  lemma {:induction false} AcrossCells(g0: seq<seq<Cell2>>, X: set<Pos>, g: seq<seq<Cell2>>, p: Pos, d: Direction)
    requires Bordered(g0, Wall2) && Paired(g0) && Closed(g0, X, d) && MovedFrom(g0, X, d, g)
    requires Pusher(g0, p, d) && p !in X && CanShift(g0, p, d) && IsHorizontal(d)
    requires Inside(g0, Add(p, d)) && Add(p, d) !in X && IsBox(At(g0, Add(p, d)))
    ensures Inside(g, p) && ShiftF(g, p, d).Some? && Cells(ShiftF(g, p, d).value) == Cells(g)
    decreases Room(g0, p, d), 0
  {
    var q := Add(p, d);
    StepApart(p, d);
    MovedAt(g0, X, d, g, p);
    MovedAt(g0, X, d, g, q);
    FarHalf(g0, p, d);
    var r := Add(q, d);
    var s := Add(r, d);
    StepApart(q, d);
    StepApart(r, d);
    NeighbourInside(g0, Wall2, r, d);
    DualFacts(g0, q);
    assert r in X ==> ClosedAt(g0, X, d, r);
    ShiftSound(g0, X, g, r, d);
    ShiftCells(g0, X, g, r, d);
    var g1 := ShiftF(g, r, d).value;
    var C1 := Cone(g, r, d);
    BeyondAcross(p, d, C1);
    MovedAt(g0, X + C1, d, g1, s);
    AcrossUnfold(g, p, d);
    SlideCells(g1, q, r, s);
  }

  /** `ShiftCells` for a vertical push into a box. */
  lemma {:induction false} AlongCells(g0: seq<seq<Cell2>>, X: set<Pos>, g: seq<seq<Cell2>>, p: Pos, d: Direction)
    requires Bordered(g0, Wall2) && Paired(g0) && Closed(g0, X, d) && MovedFrom(g0, X, d, g)
    requires Pusher(g0, p, d) && p !in X && CanShift(g0, p, d) && !IsHorizontal(d)
    requires Inside(g0, Add(p, d)) && Add(p, d) !in X && IsBox(At(g0, Add(p, d)))
    ensures Inside(g, p) && ShiftF(g, p, d).Some? && Cells(ShiftF(g, p, d).value) == Cells(g)
    decreases Room(g0, p, d), 0
  {
    var q := Add(p, d);
    StepApart(p, d);
    MovedAt(g0, X, d, g, p);
    MovedAt(g0, X, d, g, q);
    DualFacts(g0, q);
    var qd := Dual(g0, q).value;
    StepApart(qd, d);
    StepApart(q, d);
    NeighbourInside(g0, Wall2, q, d);
    NeighbourInside(g0, Wall2, qd, d);
    assert CanShift(g0, q, d) && CanShift(g0, qd, d);
    ShiftSound(g0, X, g, q, d);
    ShiftCells(g0, X, g, q, d);
    var g1 := ShiftF(g, q, d).value;
    var C1 := Cone(g, q, d);
    assert qd in X ==> ClosedAt(g0, X, d, qd);
    assert !Beyond(q, qd, d);
    ShiftSound(g0, X + C1, g1, qd, d);
    ShiftCells(g0, X + C1, g1, qd, d);
    AlongCellsFinish(g0, X, g, p, d, qd, g1, C1, ShiftF(g1, qd, d).value, Cone(g1, qd, d));
  }

  /** The last step of `AlongCells`: the lift moves both halves into empty cells. */
  lemma AlongCellsFinish(g0: seq<seq<Cell2>>, X: set<Pos>, g: seq<seq<Cell2>>, p: Pos, d: Direction,
                         qd: Pos, g1: seq<seq<Cell2>>, C1: set<Pos>, g2: seq<seq<Cell2>>, C2: set<Pos>)
    requires SameShape(g0, g) && !IsHorizontal(d) && Inside(g0, p) && Inside(g0, qd)
    requires Inside(g0, Add(p, d)) && At(g, Add(p, d)) == At(g0, Add(p, d)) && IsBox(At(g0, Add(p, d)))
    requires Dual(g0, Add(p, d)) == Some(qd)
    requires Inside(g0, Add(Add(p, d), d)) && Inside(g0, Add(qd, d))
    requires Add(p, d) !in X && qd !in X
    requires ShiftF(g, Add(p, d), d) == Some(g1) && Cone(g, Add(p, d), d) == C1
    requires ShiftF(g1, qd, d) == Some(g2) && Cone(g1, qd, d) == C2
    requires AllBeyond(Add(p, d), C1, d) && AllBeyond(qd, C2, d)
    requires MovedFrom(g0, X + C1 + C2, d, g2)
    requires Add(Add(p, d), d) in X + C1 || At(g0, Add(Add(p, d), d)) == Empty2
    requires Add(qd, d) in X + C1 + C2 || At(g0, Add(qd, d)) == Empty2
    requires Cells(g2) == Cells(g)
    ensures Inside(g, p) && ShiftF(g, p, d).Some? && Cells(ShiftF(g, p, d).value) == Cells(g)
  {
    var q := Add(p, d);
    var Z := X + C1 + C2;
    assert !Beyond(q, q, d) && !Beyond(q, qd, d) && !Beyond(qd, q, d) && !Beyond(qd, qd, d);
    EmptyAhead(g0, Z, d, g2, q);
    EmptyAhead(g0, Z, d, g2, qd);
    AlongUnfold(g, p, d);
    LiftCells(g2, q, qd, d);
  }

  /** A cell ahead of an unmoved cell that was empty, or moved away, is empty after the move. */
  lemma EmptyAhead(g0: seq<seq<Cell2>>, Z: set<Pos>, d: Direction, h: seq<seq<Cell2>>, c: Pos)
    requires MovedFrom(g0, Z, d, h) && Inside(g0, Add(c, d)) && c !in Z
    requires Add(c, d) in Z || At(g0, Add(c, d)) == Empty2
    ensures Inside(h, Add(c, d)) && At(h, Add(c, d)) == Empty2
  {
    StepApart(c, d);
    MovedAt(g0, Z, d, h, Add(c, d));
  }

  // ---------------------------------------------------------------------------
  // A whole push, and the walk through every move

  /** Nothing moved yet: the map itself, with the empty set of moved halves. */
  lemma MovedNothing(g: seq<seq<Cell2>>, d: Direction)
    ensures MovedFrom(g, {}, d, g) && Closed(g, {}, d)
  {
    forall c | Inside(g, c)
      ensures At(g, c) == MovedCell(g, {}, d, c)
    {
    }
  }

  /**
   * When `can_shift` allows a push, `shift` does not panic; the result keeps
   * the walls and the multiset of cells, every box stays whole, and the cell
   * the robot steps onto is empty.
   */
  lemma ShiftWorks(g: seq<seq<Cell2>>, p: Pos, d: Direction)
    requires Bordered(g, Wall2) && Paired(g) && Pusher(g, p, d) && CanShift(g, p, d)
    ensures ShiftF(g, p, d).Some?
    ensures Bordered(ShiftF(g, p, d).value, Wall2) && Paired(ShiftF(g, p, d).value)
    ensures SameWalls(g, ShiftF(g, p, d).value, Wall2) && Cells(ShiftF(g, p, d).value) == Cells(g)
    ensures Inside(ShiftF(g, p, d).value, Add(p, d)) && At(ShiftF(g, p, d).value, Add(p, d)) == Empty2
  {
    MovedNothing(g, d);
    ShiftSound(g, {}, g, p, d);
    ShiftCells(g, {}, g, p, d);
    var C := Cone(g, p, d);
    assert {} + C == C;
    var h := ShiftF(g, p, d).value;
    MovedValid(g, C, d, h);
    assert !Beyond(p, p, d);
    EmptyAhead(g, C, d, h, p);
  }

  /** One iteration of `PartTwoMut::solve`: push if `can_shift` allows it, else stay. */
  function Step2(g: seq<seq<Cell2>>, p: Pos, d: Direction): (r: (seq<seq<Cell2>>, Pos))
    requires Valid2(g, p)
    ensures Valid2(r.0, r.1) && SameWalls(g, r.0, Wall2) && Cells(r.0) == Cells(g)
    ensures r.1 == p || r.1 == Add(p, d)
  {
    if CanShift(g, p, d) then
      ShiftWorks(g, p, d);
      (ShiftF(g, p, d).value, Add(p, d))
    else (g, p)
  }

  /** A blocked push changes nothing; an allowed one moves the robot one step. */
  lemma Step2Moves(g: seq<seq<Cell2>>, p: Pos, d: Direction)
    requires Valid2(g, p)
    ensures Step2(g, p, d).1 == Add(p, d) <==> CanShift(g, p, d)
    ensures !CanShift(g, p, d) ==> Step2(g, p, d).0 == g
  {
    StepApart(p, d);
  }

  function Walk2(g: seq<seq<Cell2>>, p: Pos, moves: seq<Direction>): (r: (seq<seq<Cell2>>, Pos))
    requires Valid2(g, p)
    ensures Valid2(r.0, r.1) && SameWalls(g, r.0, Wall2) && Cells(r.0) == Cells(g)
    decreases |moves|
  {
    if moves == [] then (g, p)
    else
      var (g', p') := Step2(g, p, moves[0]);
      var r := Walk2(g', p', moves[1..]);
      SameWallsTrans(g, g', r.0, Wall2);
      r
  }

  /** `PartTwoMut`: the widened map, the robot and the moves, updated in place. */
  class PartTwoMut {
    var field: seq<seq<Cell2>>
    var pos: Pos
    var instructions: seq<Direction>

    constructor (input: Input2)
      ensures field == input.field && pos == input.start && instructions == input.instructions
    {
      field := input.field;
      pos := input.start;
      instructions := input.instructions;
    }

    /** `shift`: move the boxes in front of `p` one step along `d`, farthest first. */
    method Shift(p: Pos, d: Direction)
      requires Inside(field, p) && ShiftF(field, p, d).Some?
      modifies this
      ensures field == ShiftF(old(field), p, d).value
      ensures pos == old(pos) && instructions == old(instructions)
      decreases Room(field, p, d), 1
    {
      var q := Add(p, d);
      match At(field, q)
      case Wall2 =>
        assert false;
      case Empty2 =>
      case _ =>
        if IsHorizontal(d) {
          ShiftAcrossM(p, d);
        } else {
          ShiftAlongM(p, d);
        }
    }

    /** The horizontal arm of `shift`: shift from the far half, then slide the box. */
    method ShiftAcrossM(p: Pos, d: Direction)
      requires Inside(field, p) && ShiftF(field, p, d).Some? && IsHorizontal(d)
      requires Inside(field, Add(p, d)) && IsBox(At(field, Add(p, d)))
      modifies this
      ensures field == ShiftF(old(field), p, d).value
      ensures pos == old(pos) && instructions == old(instructions)
      decreases Room(field, p, d), 0
    {
      var q := Add(p, d);
      var r := Add(q, d);
      var s := Add(r, d);
      AcrossSome(field, p, d);
      Shift(r, d);
      field := Slide(field, q, r, s);
    }

    /** The vertical arm of `shift`: shift from both halves, then lift the box. */
    method ShiftAlongM(p: Pos, d: Direction)
      requires Inside(field, p) && ShiftF(field, p, d).Some? && !IsHorizontal(d)
      requires Inside(field, Add(p, d)) && IsBox(At(field, Add(p, d)))
      modifies this
      ensures field == ShiftF(old(field), p, d).value
      ensures pos == old(pos) && instructions == old(instructions)
      decreases Room(field, p, d), 0
    {
      var q := Add(p, d);
      AlongSome(field, p, d);
      var qd := Dual(field, q).value;
      Shift(q, d);
      Shift(qd, d);
      field := Lift(field, q, qd, d);
    }

    /** One iteration of `solve`'s loop: push along `d` when `can_shift` allows it. */
    method Turn(d: Direction)
      requires Valid2(field, pos)
      modifies this
      ensures (field, pos) == Step2(old(field), old(pos), d)
      ensures instructions == old(instructions)
    {
      if CanShift(field, pos, d) {
        ShiftWorks(field, pos, d);
        Shift(pos, d);
        pos := Add(pos, d);
      }
    }

    /** `solve`: make every allowed move, then sum the GPS coordinates of the boxes' left halves. */
    method Solve() returns (score: int)
      requires Valid2(field, pos)
      modifies this
      ensures (field, pos) == Walk2(old(field), old(pos), instructions)
      ensures instructions == old(instructions)
      ensures score == Gps(field, BoxLeft)
    {
      var i := 0;
      while i < |instructions|
        invariant 0 <= i <= |instructions| && instructions == old(instructions)
        invariant Valid2(field, pos)
        invariant Walk2(field, pos, instructions[i..]) == Walk2(old(field), old(pos), instructions)
      {
        assert instructions[i..][1..] == instructions[i + 1..];
        Turn(instructions[i]);
        i := i + 1;
      }
      score := Gps(field, BoxLeft);
    }
  }

  /** A successful horizontal push into a box is a successful push from its far half, then a slide. */
  lemma AcrossSome(g: seq<seq<Cell2>>, p: Pos, d: Direction)
    requires Inside(g, p) && ShiftF(g, p, d).Some? && IsHorizontal(d)
    requires Inside(g, Add(p, d)) && IsBox(At(g, Add(p, d)))
    ensures Inside(g, Add(Add(p, d), d)) && Inside(g, Add(Add(Add(p, d), d), d))
    ensures Room(g, Add(Add(p, d), d), d) < Room(g, p, d)
    ensures ShiftF(g, Add(Add(p, d), d), d).Some?
    ensures ShiftF(g, p, d) == Some(Slide(ShiftF(g, Add(Add(p, d), d), d).value,
                                          Add(p, d), Add(Add(p, d), d), Add(Add(Add(p, d), d), d)))
  {
    assert ShiftF(g, p, d) == ShiftAcross(g, p, d);
  }

  /** A successful vertical push into a box is two successful pushes from its halves, then a lift. */
  lemma AlongSome(g: seq<seq<Cell2>>, p: Pos, d: Direction)
    requires Inside(g, p) && ShiftF(g, p, d).Some? && !IsHorizontal(d)
    requires Inside(g, Add(p, d)) && IsBox(At(g, Add(p, d)))
    ensures Inside(g, Dual(g, Add(p, d)).value)
    ensures Inside(g, Add(Add(p, d), d)) && Inside(g, Add(Dual(g, Add(p, d)).value, d))
    ensures Room(g, Add(p, d), d) < Room(g, p, d) && Room(g, Dual(g, Add(p, d)).value, d) < Room(g, p, d)
    ensures ShiftF(g, Add(p, d), d).Some?
    ensures ShiftF(ShiftF(g, Add(p, d), d).value, Dual(g, Add(p, d)).value, d).Some?
    ensures ShiftF(g, p, d) == Some(Lift(ShiftF(ShiftF(g, Add(p, d), d).value, Dual(g, Add(p, d)).value, d).value,
                                         Add(p, d), Dual(g, Add(p, d)).value, d))
  {
    assert ShiftF(g, p, d) == ShiftAlong(g, p, d);
  }

  /** The part-two answer: the score of the widened map after every move. */
  function PartTwoScore(input: Input): (score: int)
    requires Valid1(input.field, input.start)
  {
    WidenValid(input);
    var w := WidenInput(input);
    Gps(Walk2(w.field, w.start, w.instructions).0, BoxLeft)
  }

  /** `PartTwo::solve`: widen the parsed map, then run `PartTwoMut::solve` on it. */
  method SolvePartTwo(input: Input) returns (score: int)
    requires Valid1(input.field, input.start)
    ensures score == PartTwoScore(input)
  {
    WidenValid(input);
    var robot := new PartTwoMut(WidenInput(input));
    score := robot.Solve();
  }
}
