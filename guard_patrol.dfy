/**
 * 2024 day 6: a guard walks a grid of empty cells and crates, turning
 * clockwise in place when a crate is straight ahead and stepping otherwise,
 * until the next step would leave the grid.  The answer is the number of
 * distinct cells the guard stood on.
 */
module GuardPatrol {
  import opened Text

  datatype Direction = Left | Up | Right | Down

  /** `Direction::rotate`: a quarter turn clockwise. */
  function Rotate(d: Direction): (r: Direction)
    ensures r != d
  {
    match d
    case Left => Up
    case Up => Right
    case Right => Down
    case Down => Left
  }

  /** Four quarter turns face the guard the way it started. */
  lemma RotateFour(d: Direction)
    ensures Rotate(Rotate(Rotate(Rotate(d)))) == d
    ensures Rotate(Rotate(d)) != d
  {
  }

  datatype Cell = Empty | Crate

  datatype Pos = Pos(row: int, col: int, dir: Direction)

  /** `Pos::step`: one cell in the guard's direction, rows growing downwards. */
  function Step(p: Pos): (q: Pos)
    ensures q.dir == p.dir
    ensures (q.row - p.row) * (q.row - p.row) + (q.col - p.col) * (q.col - p.col) == 1
    ensures q.dir == Up ==> q.row < p.row
    ensures q.dir == Down ==> q.row > p.row
    ensures q.dir == Left ==> q.col < p.col
    ensures q.dir == Right ==> q.col > p.col
  {
    match p.dir
    case Left => Pos(p.row, p.col - 1, p.dir)
    case Up => Pos(p.row - 1, p.col, p.dir)
    case Right => Pos(p.row, p.col + 1, p.dir)
    case Down => Pos(p.row + 1, p.col, p.dir)
  }

  /** A step after a half turn goes back to the cell it came from. */
  lemma StepBack(p: Pos)
    ensures var q := Step(p); var b := Step(Pos(q.row, q.col, Rotate(Rotate(q.dir)))); b.row == p.row && b.col == p.col
  {
  }

  type Field = seq<seq<Cell>>

  /** Every row as long as the first, and at least one row. */
  predicate Rectangular(field: Field)
  {
    |field| > 0 && forall r :: 0 <= r < |field| ==> |field[r]| == |field[0]|
  }

  /** The `inside` closure: the position lies in the grid, measured by its first row. */
  predicate Inside(field: Field, p: Pos)
    requires |field| > 0
  {
    0 <= p.row < |field| && 0 <= p.col < |field[0]|
  }

  function At(field: Field, p: Pos): Cell
    requires Rectangular(field) && Inside(field, p)
  {
    field[p.row][p.col]
  }

  /** One round of the loop once the next step stays inside: turn in place facing a crate, step otherwise. */
  function Move(field: Field, p: Pos): (q: Pos)
    requires Rectangular(field) && Inside(field, Step(p))
    ensures At(field, Step(p)) == Crate ==> q == Pos(p.row, p.col, Rotate(p.dir))
    ensures At(field, Step(p)) == Empty ==> q == Step(p)
  {
    var next := Step(p);
    if At(field, next).Crate? then Pos(p.row, p.col, Rotate(p.dir)) else next
  }

  /** The next step from `p` leaves the grid: the walk ends there. */
  predicate Leaves(field: Field, p: Pos)
    requires |field| > 0
  {
    !Inside(field, Step(p))
  }

  /** The guard after `k` rounds; once the next step would leave, it stays put. */
  function State(field: Field, start: Pos, k: nat): (p: Pos)
    requires Rectangular(field) && Inside(field, start)
    ensures Inside(field, p)
  {
    if k == 0 then start
    else
      var p := State(field, start, k - 1);
      if Leaves(field, p) then p else Move(field, p)
  }

  /** The cells the guard stood on in its first `k` rounds. */
  function Seen(field: Field, start: Pos, k: nat): set<(int, int)>
    requires Rectangular(field) && Inside(field, start)
  {
    if k == 0 then {}
    else
      var p := State(field, start, k - 1);
      Seen(field, start, k - 1) + {(p.row, p.col)}
  }

  /** The walk has not ended in its first `k` rounds. */
  predicate Walking(field: Field, start: Pos, k: nat)
    requires Rectangular(field) && Inside(field, start)
  {
    forall i :: 0 <= i < k ==> !Leaves(field, State(field, start, i))
  }

  /**
   * `PartOne::solve`, with the loop bounded by `fuel` rounds: the source
   * loops forever when the guard walks in a circle, and here `None` says that
   * the walk did not end within `fuel` rounds.
   */
  method SolvePartOne(field: Field, start: Pos, fuel: nat) returns (answer: Option<int>)
    requires Rectangular(field) && Inside(field, start)
    ensures answer.None? ==> Walking(field, start, fuel)
    ensures answer.Some? ==> exists n :: (0 <= n < fuel && Walking(field, start, n)
                                          && Leaves(field, State(field, start, n))
                                          && answer.value == |Seen(field, start, n + 1)|)
  {
    var visited: set<(int, int)> := {};
    var guard := start;
    var rounds := 0;
    while rounds < fuel
      invariant rounds <= fuel && Walking(field, start, rounds)
      invariant guard == State(field, start, rounds) && visited == Seen(field, start, rounds)
      decreases fuel - rounds
    {
      visited := visited + {(guard.row, guard.col)};
      var next := Step(guard);
      if !Inside(field, next) {
        return Some(|visited|);
      }
      if field[next.row][next.col].Crate? {
        guard := Pos(guard.row, guard.col, Rotate(guard.dir));
      } else {
        guard := next;
      }
      rounds := rounds + 1;
    }
    return None;
  }

  /** The start cell is counted, and every counted cell lies in the grid. */
  lemma {:induction false} SeenCells(field: Field, start: Pos, k: nat)
    requires Rectangular(field) && Inside(field, start)
    ensures k > 0 ==> (start.row, start.col) in Seen(field, start, k)
    ensures forall c :: c in Seen(field, start, k) ==> 0 <= c.0 < |field| && 0 <= c.1 < |field[0]|
    ensures |Seen(field, start, k)| <= k
  {
    if k > 0 {
      SeenCells(field, start, k - 1);
    }
  }

  /** The guard never stands on a crate, given that it starts on an empty cell. */
  lemma {:induction false} NeverOnCrate(field: Field, start: Pos, k: nat)
    requires Rectangular(field) && Inside(field, start) && At(field, start) == Empty
    ensures At(field, State(field, start, k)) == Empty
  {
    if k > 0 {
      NeverOnCrate(field, start, k - 1);
    }
  }

  /** A round that does not end the walk either turns the guard in place or moves it one cell ahead. */
  lemma TurnOrStep(field: Field, start: Pos, k: nat)
    requires Rectangular(field) && Inside(field, start) && !Leaves(field, State(field, start, k))
    ensures var p := State(field, start, k); var q := State(field, start, k + 1);
      (q.row == p.row && q.col == p.col && q.dir == Rotate(p.dir)) || q == Step(p)
  {
  }

  // ---------------------------------------------------------------------------
  // Parsing

  /** The cell a map character stands for; `None` for characters the parser does not handle. */
  function CellOf(c: char): Option<Cell>
  {
    if c == '#' then Some(Crate)
    else if c == '.' || c == 'v' || c == '>' || c == '^' || c == '<' then Some(Empty)
    else None
  }

  /** The direction a guard character faces. */
  function GuardOf(c: char): Option<Direction>
  {
    if c == 'v' then Some(Down)
    else if c == '>' then Some(Right)
    else if c == '^' then Some(Up)
    else if c == '<' then Some(Left)
    else None
  }

  predicate Known(line: string)
  {
    forall j :: 0 <= j < |line| ==> CellOf(line[j]).Some?
  }

  function Row(line: string): (row: seq<Cell>)
    requires Known(line)
    ensures |row| == |line| && forall j :: 0 <= j < |line| ==> row[j] == CellOf(line[j]).value
  {
    seq(|line|, j requires 0 <= j < |line| => CellOf(line[j]).value)
  }

  /** The column of the last guard character of a line. */
  function LastGuardIn(line: string): (r: Option<nat>)
    ensures r.Some? ==> r.value < |line| && GuardOf(line[r.value]).Some?
    ensures r.Some? ==> forall j :: r.value < j < |line| ==> GuardOf(line[j]).None?
    ensures r.None? ==> forall j :: 0 <= j < |line| ==> GuardOf(line[j]).None?
  {
    if line == [] then None
    else if GuardOf(line[|line| - 1]).Some? then Some(|line| - 1)
    else LastGuardIn(line[..|line| - 1])
  }

  /** The last guard character in reading order: each one found overwrites `pos`. */
  function LastGuard(lines: seq<string>): (r: Option<Pos>)
    ensures r.Some? ==> 0 <= r.value.row < |lines| && 0 <= r.value.col < |lines[r.value.row]|
    ensures r.Some? ==> GuardOf(lines[r.value.row][r.value.col]) == Some(r.value.dir)
    ensures r.None? <==> forall i, j :: 0 <= i < |lines| && 0 <= j < |lines[i]| ==> GuardOf(lines[i][j]).None?
  {
    if lines == [] then None
    else
      var last := lines[|lines| - 1];
      match LastGuardIn(last)
      case Some(c) => Some(Pos(|lines| - 1, c, GuardOf(last[c]).value))
      case None =>
        var r := LastGuard(lines[..|lines| - 1]);
        assert forall i :: 0 <= i < |lines| - 1 ==> lines[..|lines| - 1][i] == lines[i];
        r
  }

  datatype Parsed = Parsed(field: Field, guard: Pos) | NoGuard | UnknownChar

  /**
   * `parse_from`: a character other than `#.v>^<` reaches `todo!()`
   * (`UnknownChar`); a map without a guard is the `No guard` error.
   */
  function Parse(s: string): (r: Parsed)
    ensures r.Parsed? ==> |r.field| > 0 && 0 <= r.guard.row < |r.field| && 0 <= r.guard.col < |r.field[r.guard.row]|
    ensures r.Parsed? ==> r.field[r.guard.row][r.guard.col] == Empty
  {
    var lines := NonEmptyLines(s);
    if exists i :: 0 <= i < |lines| && !Known(lines[i]) then UnknownChar
    else
      var field := seq(|lines|, i requires 0 <= i < |lines| => Row(lines[i]));
      match LastGuard(lines)
      case None => NoGuard
      case Some(g) => Parsed(field, g)
  }

  /** Parsing reports a missing guard exactly when every character is known and none is a guard. */
  lemma NoGuardIff(s: string)
    ensures Parse(s) == NoGuard <==>
      var lines := NonEmptyLines(s);
      (forall i :: 0 <= i < |lines| ==> Known(lines[i]))
      && forall i, j :: 0 <= i < |lines| && 0 <= j < |lines[i]| ==> GuardOf(lines[i][j]).None?
  {
  }
}
