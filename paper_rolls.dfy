/**
 * 2025 day 4: a grid of paper rolls; a roll is accessible when at most four
 * rolls lie in the 3×3 window around it, itself included. The answer counts
 * the accessible rolls.
 */
module PaperRolls {
  import opened Text

  datatype Cell = Empty | PaperRoll

  /** `parse_from`: one row per line, `@` a roll and any other character empty. */
  function ParseField(s: string): (field: seq<seq<Cell>>)
    ensures |field| == |Lines(s)|
    ensures forall x :: 0 <= x < |field| ==> |field[x]| == |Lines(s)[x]|
    ensures forall x, y :: 0 <= x < |field| && 0 <= y < |field[x]| ==>
      (field[x][y] == PaperRoll <==> Lines(s)[x][y] == '@')
  {
    var lines := Lines(s);
    seq(|lines|, x requires 0 <= x < |lines| =>
      seq(|lines[x]|, y requires 0 <= y < |lines[x]| => if lines[x][y] == '@' then PaperRoll else Empty))
  }

  /** A first row to take the width from, and no row narrower than it: only its `cols` columns are read. */
  predicate Wide(field: seq<seq<Cell>>)
  {
    |field| >= 1 && forall x :: 0 <= x < |field| ==> |field[x]| >= |field[0]|
  }

  /** 1 for a roll inside the grid, 0 otherwise. */
  function RollAt(field: seq<seq<Cell>>, x: int, y: int): (n: nat)
    requires Wide(field)
    ensures n <= 1
  {
    if 0 <= x < |field| && 0 <= y < |field[0]| && field[x][y] == PaperRoll then 1 else 0
  }

  /** Rolls in row `x`, columns `lo` up to `hi - 1`. */
  function RowSpan(field: seq<seq<Cell>>, x: int, lo: int, hi: int): (n: nat)
    requires Wide(field) && lo <= hi
    ensures n <= hi - lo
    decreases hi - lo
  {
    if lo == hi then 0 else RowSpan(field, x, lo, hi - 1) + RollAt(field, x, hi - 1)
  }

  /** Rolls in rows `lo` up to `hi - 1`, columns `y - 1` to `y + 1`. */
  function BoxSpan(field: seq<seq<Cell>>, lo: int, hi: int, y: int): (n: nat)
    requires Wide(field) && lo <= hi
    ensures n <= 3 * (hi - lo)
    decreases hi - lo
  {
    if lo == hi then 0 else BoxSpan(field, lo, hi - 1, y) + RowSpan(field, hi - 1, y - 1, y + 2)
  }

  /** Rolls in the in-grid 3×3 window centred on `(x, y)`, the centre included. */
  function Window(field: seq<seq<Cell>>, x: int, y: int): nat
    requires Wide(field)
  {
    BoxSpan(field, x - 1, x + 2, y)
  }

  /** A roll counts itself, and a window holds at most nine rolls. */
  lemma WindowBounds(field: seq<seq<Cell>>, x: int, y: int)
    requires Wide(field)
    ensures RollAt(field, x, y) <= Window(field, x, y) <= 9
  {
    assert Window(field, x, y) == BoxSpan(field, x - 1, x + 1, y) + RowSpan(field, x + 1, y - 1, y + 2);
    assert BoxSpan(field, x - 1, x + 1, y) == BoxSpan(field, x - 1, x, y) + RowSpan(field, x, y - 1, y + 2);
    assert RowSpan(field, x, y - 1, y + 2) == RowSpan(field, x, y - 1, y + 1) + RollAt(field, x, y + 1);
    assert RowSpan(field, x, y - 1, y + 1) == RowSpan(field, x, y - 1, y) + RollAt(field, x, y);
  }

  predicate Accessible(field: seq<seq<Cell>>, x: int, y: int)
    requires Wide(field) && 0 <= x < |field| && 0 <= y < |field[0]|
  {
    field[x][y] == PaperRoll && Window(field, x, y) <= 4
  }

  /** Accessible rolls in row `x` before column `n`. */
  function RowAccessible(field: seq<seq<Cell>>, x: int, n: int): (c: nat)
    requires Wide(field) && 0 <= x < |field| && 0 <= n <= |field[0]|
    ensures c <= RowSpan(field, x, 0, n)
  {
    if n == 0 then 0 else RowAccessible(field, x, n - 1) + if Accessible(field, x, n - 1) then 1 else 0
  }

  /** Accessible rolls in the rows before `m`. */
  function AccessibleBefore(field: seq<seq<Cell>>, m: int): (c: nat)
    requires Wide(field) && 0 <= m <= |field|
    ensures c <= Rolls(field, m)
  {
    if m == 0 then 0 else AccessibleBefore(field, m - 1) + RowAccessible(field, m - 1, |field[0]|)
  }

  /** Rolls in the rows before `m`. */
  function Rolls(field: seq<seq<Cell>>, m: int): nat
    requires Wide(field) && 0 <= m <= |field|
  {
    if m == 0 then 0 else Rolls(field, m - 1) + RowSpan(field, m - 1, 0, |field[0]|)
  }

  /**
   * `solve`: for every cell count the rolls in its window, and count the
   * rolls whose window holds at most four. The source reads `field[0]` for
   * the width and indexes every row up to it, so the grid must be
   * non-empty and no row may be narrower than the first; longer rows
   * are read only up to that width.
   */
  method Solve(field: seq<seq<Cell>>) returns (answer: nat)
    requires Wide(field)
    ensures answer == AccessibleBefore(field, |field|)
    ensures answer <= Rolls(field, |field|)
  {
    var rows, cols := |field|, |field[0]|;
    answer := 0;
    for i := 0 to rows
      invariant answer == AccessibleBefore(field, i)
    {
      for j := 0 to cols
        invariant answer == AccessibleBefore(field, i) + RowAccessible(field, i, j)
      {
        var count := Count(field, i, j);
        if count <= 4 && field[i][j] == PaperRoll {
          answer := answer + 1;
        }
      }
    }
  }

  /** The two inner loops of `solve`: count the rolls around `(i, j)`. */
  method Count(field: seq<seq<Cell>>, i: int, j: int) returns (count: nat)
    requires Wide(field)
    ensures count == Window(field, i, j)
  {
    count := 0;
    for dx := -1 to 2
      invariant count == BoxSpan(field, i - 1, i + dx, j)
    {
      for dy := -1 to 2
        invariant count == BoxSpan(field, i - 1, i + dx, j) + RowSpan(field, i + dx, j - 1, j + dy)
      {
        var x, y := i + dx, j + dy;
        if 0 <= x < |field| && 0 <= y < |field[0]| {
          if field[x][y] == PaperRoll {
            count := count + 1;
          }
        }
      }
    }
  }

}
