/**
 * 2024 day 4: a word search.  Part one counts `XMAS` read rightwards and
 * down-right in the grid and in its three successive quarter turns, so in all
 * eight directions; part two counts the 3×3 windows matching an `X` of two
 * `MAS`, again over four quarter turns.
 */
module WordSearch {
  import opened Text

  type Grid = seq<seq<char>>

  /** A grid with at least one row, all rows as long as the first. */
  predicate IsRect(g: Grid)
  {
    |g| > 0 && forall r :: 0 <= r < |g| ==> |g[r]| == |g[0]|
  }

  /** A rectangle with at least one column too, so that it can be turned again. */
  predicate Proper(g: Grid)
  {
    IsRect(g) && |g[0]| > 0
  }

  /** `parse_from`: the non-empty lines, each as its characters. */
  function Parse(s: string): (g: Grid)
    ensures forall r :: 0 <= r < |g| ==> g[r] != []
  {
    NonEmptyLines(s)
  }

  // ---------------------------------------------------------------------------
  // Turning and mirroring

  /** `rotate`: a quarter turn clockwise; row `c` of the result is column `c` read from the bottom up. */
  function Rotate(g: Grid): (t: Grid)
    requires IsRect(g)
    ensures |t| == |g[0]| && forall c :: 0 <= c < |t| ==> |t[c]| == |g|
  {
    seq(|g[0]|, c requires 0 <= c < |g[0]| => seq(|g|, row requires 0 <= row < |g| => g[|g| - row - 1][c]))
  }

  /** Row `c` of the turned grid is column `c` read from the bottom up. */
  lemma RotateAt(g: Grid, c: nat, row: nat)
    requires IsRect(g) && c < |g[0]| && row < |g|
    ensures Rotate(g)[c][row] == g[|g| - row - 1][c]
  {
  }

  /** `mirror`: every row reversed. */
  function Mirror(g: Grid): (m: Grid)
    requires IsRect(g)
    ensures |m| == |g| && forall r :: 0 <= r < |m| ==> |m[r]| == |g[0]|
    ensures forall r, c :: 0 <= r < |g| && 0 <= c < |g[0]| ==> m[r][c] == g[r][|g[0]| - c - 1]
  {
    seq(|g|, r requires 0 <= r < |g| => seq(|g[0]|, c requires 0 <= c < |g[0]| => g[r][|g[0]| - c - 1]))
  }

  lemma RotateProper(g: Grid)
    requires Proper(g)
    ensures Proper(Rotate(g)) && |Rotate(g)| == |g[0]| && |Rotate(g)[0]| == |g|
  {
  }

  /** Two quarter turns are a half turn: rows and columns both read backwards. */
  lemma RotateTwice(g: Grid)
    requires Proper(g)
    ensures Proper(Rotate(Rotate(g)))
    ensures |Rotate(Rotate(g))| == |g| && |Rotate(Rotate(g))[0]| == |g[0]|
    ensures forall a, b :: 0 <= a < |g| && 0 <= b < |g[0]| ==>
      Rotate(Rotate(g))[a][b] == g[|g| - 1 - a][|g[0]| - 1 - b]
  {
    RotateProper(g);
    var g1 := Rotate(g);
    RotateProper(g1);
    forall a, b | 0 <= a < |g| && 0 <= b < |g[0]|
      ensures Rotate(g1)[a][b] == g[|g| - 1 - a][|g[0]| - 1 - b]
    {
      RotateAt(g1, a, b);
      RotateAt(g, |g[0]| - b - 1, a);
    }
  }

  /** Four quarter turns give the grid back. */
  lemma RotateFour(g: Grid)
    requires Proper(g)
    ensures Rotate(Rotate(Rotate(Rotate(g)))) == g
  {
    RotateTwice(g);
    var h := Rotate(Rotate(g));
    RotateTwice(h);
    var f := Rotate(Rotate(h));
    forall a | 0 <= a < |g|
      ensures f[a] == g[a]
    {
      forall b | 0 <= b < |g[0]|
        ensures f[a][b] == g[a][b]
      {
        assert f[a][b] == h[|g| - 1 - a][|g[0]| - 1 - b];
      }
    }
  }

  /** Mirroring twice gives the grid back. */
  lemma MirrorTwice(g: Grid)
    requires IsRect(g)
    ensures IsRect(Mirror(g)) && Mirror(Mirror(g)) == g
  {
    var m := Mirror(g);
    assert |m[0]| == |g[0]|;
    var mm := Mirror(m);
    forall r | 0 <= r < |g|
      ensures mm[r] == g[r]
    {
      forall c | 0 <= c < |g[0]|
        ensures mm[r][c] == g[r][c]
      {
        assert mm[r][c] == m[r][|g[0]| - c - 1];
      }
    }
  }

  /** The test `rotate`: `ABC/DEF` turns into `DA/EB/FC`. */
  lemma RotateExample()
    ensures Rotate(["ABC", "DEF"]) == ["DA", "EB", "FC"]
  {
    var g: Grid := ["ABC", "DEF"];
    forall c: nat, row: nat | c < 3 && row < 2 {
      RotateAt(g, c, row);
    }
    var t := Rotate(g);
    assert t[0] == "DA" && t[1] == "EB" && t[2] == "FC";
  }

  /** The test `mirror`: `ABC/DEF` mirrors into `CBA/FED`. */
  lemma MirrorExample()
    ensures Mirror(["ABC", "DEF"]) == ["CBA", "FED"]
  {
    var m := Mirror(["ABC", "DEF"]);
    assert m[0] == "CBA" && m[1] == "FED";
  }

  // ---------------------------------------------------------------------------
  // Counting windows

  /** Sum over columns `0..cols` of row `r` of 1 where `p` holds. */
  function CountRow(r: nat, cols: nat, p: (nat, nat) -> bool): nat
  {
    if cols == 0 then 0 else CountRow(r, cols - 1, p) + (if p(r, cols - 1) then 1 else 0)
  }

  /** The nested `map(...).sum()` over rows `0..rows` and columns `0..cols`. */
  function CountGrid(rows: nat, cols: nat, p: (nat, nat) -> bool): nat
  {
    if rows == 0 then 0 else CountGrid(rows - 1, cols, p) + CountRow(rows - 1, cols, p)
  }

  function RowHits(r: nat, cols: nat, p: (nat, nat) -> bool): set<(nat, nat)>
  {
    set c: nat | c < cols && p(r, c) :: (r, c)
  }

  /** The positions in the `rows` × `cols` rectangle where `p` holds. */
  function Hits(rows: nat, cols: nat, p: (nat, nat) -> bool): set<(nat, nat)>
  {
    set r: nat, c: nat | r < rows && c < cols && p(r, c) :: (r, c)
  }

  lemma {:induction false} CountRowHits(r: nat, cols: nat, p: (nat, nat) -> bool)
    ensures CountRow(r, cols, p) == |RowHits(r, cols, p)|
  {
    if cols > 0 {
      CountRowHits(r, cols - 1, p);
      var last: set<(nat, nat)> := if p(r, cols - 1) then {(r, cols - 1)} else {};
      assert RowHits(r, cols, p) == RowHits(r, cols - 1, p) + last;
      assert (r, cols - 1) !in RowHits(r, cols - 1, p);
    } else {
      assert RowHits(r, cols, p) == {};
    }
  }

  /** The nested sums count exactly the positions where the predicate holds. */
  lemma {:induction false} CountGridHits(rows: nat, cols: nat, p: (nat, nat) -> bool)
    ensures CountGrid(rows, cols, p) == |Hits(rows, cols, p)|
  {
    if rows > 0 {
      CountGridHits(rows - 1, cols, p);
      CountRowHits(rows - 1, cols, p);
      var upper := Hits(rows - 1, cols, p);
      var row := RowHits(rows - 1, cols, p);
      assert Hits(rows, cols, p) == upper + row;
      assert upper * row == {} by {
        forall x | x in row
          ensures x !in upper
        {
        }
      }
      DisjointUnion(upper, row);
    } else {
      assert Hits(rows, cols, p) == {};
    }
  }

  lemma DisjointUnion<T>(a: set<T>, b: set<T>)
    requires a * b == {}
    ensures |a + b| == |a| + |b|
  {
  }

  // ---------------------------------------------------------------------------
  // Part one

  /** `s` reads rightwards from `(r, c)`, inside the grid. */
  predicate MatchRight(g: Grid, s: string, r: nat, c: nat)
  {
    r < |g| && c + |s| <= |g[r]| && forall i :: 0 <= i < |s| ==> g[r][c + i] == s[i]
  }

  /** `s` reads down and to the right from `(r, c)`, inside the grid. */
  predicate MatchDiagonal(g: Grid, s: string, r: nat, c: nat)
  {
    r + |s| <= |g| && forall i :: 0 <= i < |s| ==> c + i < |g[r + i]| && g[r + i][c + i] == s[i]
  }

  /** Every position of the grid where `s` reads rightwards. */
  function RightHits(g: Grid, s: string): set<(nat, nat)>
    requires IsRect(g)
  {
    Hits(|g|, |g[0]|, (r: nat, c: nat) => MatchRight(g, s, r, c))
  }

  /** Every position of the grid where `s` reads down-right. */
  function DiagonalHits(g: Grid, s: string): set<(nat, nat)>
    requires IsRect(g)
  {
    Hits(|g|, |g[0]|, (r: nat, c: nat) => MatchDiagonal(g, s, r, c))
  }

  /** A match can only start where the whole word still fits, so narrowing the range loses nothing. */
  lemma HitsNarrow(rows: nat, cols: nat, rows': nat, cols': nat, p: (nat, nat) -> bool)
    requires rows' <= rows && cols' <= cols
    requires forall r: nat, c: nat :: r < rows && c < cols && p(r, c) ==> r < rows' && c < cols'
    ensures Hits(rows', cols', p) == Hits(rows, cols, p)
  {
  }

  /** `count_horizontal`: the matches rightwards, over the start columns `0..cols - len + 1`. */
  function CountHorizontal(g: Grid, s: string): (n: nat)
    requires IsRect(g) && 0 < |s| <= |g[0]|
    ensures n == |RightHits(g, s)|
  {
    var p := (r: nat, c: nat) => MatchRight(g, s, r, c);
    CountGridHits(|g|, |g[0]| - |s| + 1, p);
    HitsNarrow(|g|, |g[0]|, |g|, |g[0]| - |s| + 1, p);
    CountGrid(|g|, |g[0]| - |s| + 1, p)
  }

  lemma DiagonalRoom(g: Grid, s: string, r: nat, c: nat)
    requires IsRect(g) && 0 < |s| && MatchDiagonal(g, s, r, c)
    ensures c + |s| <= |g[0]|
  {
    var last := |s| - 1;
    var ch := s[last];
    assert c + last < |g[r + last]|;
  }

  /** `count_diagonal`: the matches down-right, over the start rows and columns that leave room for the word. */
  function CountDiagonal(g: Grid, s: string): (n: nat)
    requires IsRect(g) && 0 < |s| <= |g| && |s| <= |g[0]|
    ensures n == |DiagonalHits(g, s)|
  {
    var p := (r: nat, c: nat) => MatchDiagonal(g, s, r, c);
    forall r: nat, c: nat | r < |g| && c < |g[0]| && MatchDiagonal(g, s, r, c)
      ensures c < |g[0]| - |s| + 1
    {
      DiagonalRoom(g, s, r, c);
    }
    CountGridHits(|g| - |s| + 1, |g[0]| - |s| + 1, p);
    HitsNarrow(|g|, |g[0]|, |g| - |s| + 1, |g[0]| - |s| + 1, p);
    CountGrid(|g| - |s| + 1, |g[0]| - |s| + 1, p)
  }

  /** `s` reads upwards from `(r, c)`, inside the grid. */
  predicate MatchUp(g: Grid, s: string, r: nat, c: nat)
  {
    r < |g| && |s| <= r + 1 && forall i :: 0 <= i < |s| ==> c < |g[r - i]| && g[r - i][c] == s[i]
  }

  /** What a turn adds: reading rightwards in the turned grid is reading upwards in the grid before the turn. */
  lemma RightAfterTurnIsUp(g: Grid, s: string, c: nat, row: nat)
    requires IsRect(g) && c < |g[0]| && row < |g|
    ensures MatchRight(Rotate(g), s, c, row) <==> MatchUp(g, s, |g| - 1 - row, c)
  {
    if row + |s| <= |g| {
      forall j | row <= j < row + |s|
        ensures Rotate(g)[c][j] == g[|g| - 1 - j][c]
      {
        RotateAt(g, c, j);
      }
    }
  }

  /**
   * The least side a grid needs for a part: `XMAS` is four characters long,
   * the X of two `MAS` three wide and three tall.  On a smaller grid the
   * `usize` ranges `rows - len + 1` and `cols - len + 1` underflow.
   */
  function Side(part: nat): nat
  {
    if part == 1 then 4 else 3
  }

  /** Rectangular, and at least `side` rows and `side` columns. */
  predicate Roomy(g: Grid, side: nat)
  {
    IsRect(g) && |g| >= side && |g[0]| >= side
  }

  lemma RoomyRotate(g: Grid)
    requires Roomy(g, 1)
    ensures Roomy(Rotate(g), 1) && |Rotate(g)| == |g[0]| && |Rotate(g)[0]| == |g|
  {
  }

  /** The grid after `k` of the four quarter turns: its sides swap at every turn. */
  function Turn(g: Grid, k: nat): (t: Grid)
    requires Roomy(g, 1) && k <= 4
    ensures Roomy(t, 1)
    ensures k % 2 == 0 ==> |t| == |g| && |t[0]| == |g[0]|
    ensures k % 2 == 1 ==> |t| == |g[0]| && |t[0]| == |g|
  {
    if k == 0 then g
    else
      RoomyRotate(g);
      var g1 := Rotate(g);
      if k == 1 then g1
      else
        RoomyRotate(g1);
        var g2 := Rotate(g1);
        if k == 2 then g2
        else
          RoomyRotate(g2);
          var g3 := Rotate(g2);
          if k == 3 then g3
          else
            RoomyRotate(g3);
            Rotate(g3)
  }

  lemma TurnNext(g: Grid, k: nat)
    requires Roomy(g, 1) && k < 4
    ensures Turn(g, k + 1) == Rotate(Turn(g, k))
  {
  }

  /** Horizontal plus diagonal matches of `XMAS` in one orientation. */
  function ScoreOne(g: Grid): nat
    requires Roomy(g, 4)
  {
    CountHorizontal(g, "XMAS") + CountDiagonal(g, "XMAS")
  }

  /** What one round of part one (`part == 1`) or part two adds for one orientation. */
  function Score(g: Grid, part: nat): nat
    requires Roomy(g, Side(part))
  {
    if part == 1 then ScoreOne(g) else CountWindows(g, CrossMas())
  }

  /** The scores of the first `k` of the four orientations, added up. */
  function Total(g: Grid, k: nat, part: nat): nat
    requires Roomy(g, Side(part)) && k <= 4
  {
    var upTo1 := Score(g, part);
    var upTo2 := upTo1 + Score(Turn(g, 1), part);
    var upTo3 := upTo2 + Score(Turn(g, 2), part);
    if k == 0 then 0 else if k == 1 then upTo1 else if k == 2 then upTo2
    else if k == 3 then upTo3 else upTo3 + Score(Turn(g, 3), part)
  }

  /** Part one: four rounds of counting and turning. */
  method SolvePartOne(g: Grid) returns (sum: int)
    requires Roomy(g, Side(1))
    ensures sum == Total(g, 4, 1)
  {
    var field := g;
    sum := 0;
    for i := 0 to 4
      invariant Round(g, 1, i, field, sum)
    {
      var count := CountHorizontal(field, "XMAS") + CountDiagonal(field, "XMAS");
      RoundStep(g, 1, i, field, sum);
      sum := sum + count;
      field := Rotate(field);
    }
  }

  /** After `i` rounds of either part: the grid turned `i` times and the first `i` orientations scored. */
  predicate Round(g: Grid, part: nat, i: nat, field: Grid, sum: int)
  {
    Roomy(g, Side(part)) && i <= 4 && field == Turn(g, i) && sum == Total(g, i, part)
  }

  lemma RoundStep(g: Grid, part: nat, i: nat, field: Grid, sum: int)
    requires Round(g, part, i, field, sum) && i < 4
    ensures Roomy(field, Side(part))
    ensures Round(g, part, i + 1, Rotate(field), sum + Score(field, part))
  {
    TurnNext(g, i);
  }

  /** After its four rounds part one holds the original grid again: every orientation was counted once. */
  lemma TurnFour(g: Grid)
    requires Roomy(g, 1)
    ensures Turn(g, 4) == g
  {
    RotateFour(g);
  }

  // ---------------------------------------------------------------------------
  // Part two

  /** Every non-`.` character of the pattern equals the grid character under it, with the pattern's corner at `(r, c)`. */
  predicate MatchPattern(g: Grid, pat: Grid, r: nat, c: nat)
  {
    forall i, j :: 0 <= i < |pat| && 0 <= j < |pat[i]| ==>
      pat[i][j] == '.' || (r + i < |g| && c + j < |g[r + i]| && g[r + i][c + j] == pat[i][j])
  }

  /** The pattern lies inside the grid at `(r, c)` and matches there. */
  predicate Fits(g: Grid, pat: Grid, r: nat, c: nat)
    requires IsRect(g) && IsRect(pat)
  {
    r + |pat| <= |g| && c + |pat[0]| <= |g[0]| && MatchPattern(g, pat, r, c)
  }

  /** Every position where the pattern fits. */
  function PatternHits(g: Grid, pat: Grid): set<(nat, nat)>
    requires IsRect(g) && IsRect(pat)
  {
    Hits(|g|, |g[0]|, (r: nat, c: nat) => Fits(g, pat, r, c))
  }

  /**
   * `count_match` as written: the start columns run over `0..cols - n + 1`
   * with `n` the pattern's number of rows; a pattern wider than tall would
   * index past the grid, so it is excluded here.
   */
  function CountMatch(g: Grid, pat: Grid): (n: nat)
    requires IsRect(g) && IsRect(pat) && |pat[0]| <= |pat| <= |g| && |pat| <= |g[0]|
    ensures n <= |PatternHits(g, pat)|
  {
    var p := (r: nat, c: nat) => Fits(g, pat, r, c);
    CountGridHits(|g| - |pat| + 1, |g[0]| - |pat| + 1, p);
    SubsetCard(Hits(|g| - |pat| + 1, |g[0]| - |pat| + 1, p), Hits(|g|, |g[0]|, p));
    CountGrid(|g| - |pat| + 1, |g[0]| - |pat| + 1, p)
  }

  /** The windows counted with the pattern's own width: every fitting position, once. */
  function CountWindows(g: Grid, pat: Grid): (n: nat)
    requires IsRect(g) && Proper(pat) && |pat| <= |g| && |pat[0]| <= |g[0]|
    ensures n == |PatternHits(g, pat)|
  {
    var p := (r: nat, c: nat) => Fits(g, pat, r, c);
    assert forall r: nat, c: nat :: r < |g| && c < |g[0]| && Fits(g, pat, r, c) ==>
      r < |g| - |pat| + 1 && c < |g[0]| - |pat[0]| + 1;
    CountGridHits(|g| - |pat| + 1, |g[0]| - |pat[0]| + 1, p);
    HitsNarrow(|g|, |g[0]|, |g| - |pat| + 1, |g[0]| - |pat[0]| + 1, p);
    CountGrid(|g| - |pat| + 1, |g[0]| - |pat[0]| + 1, p)
  }

  /** For a square pattern, such as the X of two `MAS`, the column range as written is the right one. */
  lemma SquareAgrees(g: Grid, pat: Grid)
    requires IsRect(g) && IsRect(pat) && |pat[0]| == |pat| <= |g| && |pat| <= |g[0]|
    ensures CountMatch(g, pat) == CountWindows(g, pat) == |PatternHits(g, pat)|
  {
  }

  /** A pattern taller than wide loses the windows in its last columns: `X/X` in `XX/XX` is counted once, though it fits twice. */
  lemma TallPatternMissed(g: Grid, pat: Grid)
    requires g == ["XX", "XX"] && pat == ["X", "X"]
    ensures CountMatch(g, pat) == 1 && CountWindows(g, pat) == 2
  {
    var p := (r: nat, c: nat) => Fits(g, pat, r, c);
    assert p(0, 0) && p(0, 1);
    assert CountGrid(1, 1, p) == 1;
    assert CountRow(0, 2, p) == 2;
    assert CountGrid(1, 2, p) == 2;
  }

  /** The X of two `MAS` that part two looks for, `.` standing for any character. */
  function CrossMas(): (pat: Grid)
    ensures IsRect(pat) && |pat| == 3 && |pat[0]| == 3
  {
    ["M.S", ".A.", "M.S"]
  }

  /** Part two: four rounds of matching the pattern and turning. */
  method SolvePartTwo(g: Grid) returns (sum: int)
    requires Roomy(g, Side(2))
    ensures sum == Total(g, 4, 2)
  {
    var field := g;
    sum := 0;
    for i := 0 to 4
      invariant Round(g, 2, i, field, sum)
    {
      var count := CountWindows(field, CrossMas());
      RoundStep(g, 2, i, field, sum);
      sum := sum + count;
      field := Rotate(field);
    }
  }
}
