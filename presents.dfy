// Christmas tree farm (2025, day 12): presents are 3×3 shapes that may be
// rotated and flipped; a region fits its list of presents when they can all be
// placed without overlap. The search is a backtracking brute force over the
// cells of the region in row-major order.

module Presents {
  import opened Text

  // ---------------------------------------------------------------------------
  // Shapes

  /** A present's shape, `[[bool; 3]; 3]`: `true` marks a filled cell. */
  type Fig = f: seq<seq<bool>> | |f| == 3 && forall i :: 0 <= i < 3 ==> |f[i]| == 3
    witness [[false, false, false], [false, false, false], [false, false, false]]

  /** Two shapes with the same cells are the same shape. */
  lemma FigEq(f: Fig, g: Fig)
    requires forall i, j :: 0 <= i < 3 && 0 <= j < 3 ==> f[i][j] == g[i][j]
    ensures f == g
  {
    assert f[0] == g[0] && f[1] == g[1] && f[2] == g[2];
  }

  /** The mirror image: column `j` becomes column `2 - j`. */
  function Flip(f: Fig): (r: Fig)
  {
    seq(3, i requires 0 <= i < 3 => seq(3, j requires 0 <= j < 3 => f[i][3 - j - 1]))
  }

  /** A quarter turn clockwise: the cell at row `i`, column `j` comes from row `2 - j`, column `i`. */
  function Rotate(f: Fig): (r: Fig)
  {
    seq(3, i requires 0 <= i < 3 => seq(3, j requires 0 <= j < 3 => f[3 - j - 1][i]))
  }

  /** Flipping twice gives the shape back. */
  lemma FlipFlip(f: Fig)
    ensures Flip(Flip(f)) == f
  {
    FigEq(Flip(Flip(f)), f);
  }

  /** `k` quarter turns. */
  function Turn(f: Fig, k: nat): Fig
  {
    if k == 0 then f else Rotate(Turn(f, k - 1))
  }

  /** The first four turns, one quarter at a time. */
  lemma TurnsUnfold(f: Fig)
    ensures Turn(f, 1) == Rotate(f)
    ensures Turn(f, 2) == Rotate(Rotate(f))
    ensures Turn(f, 3) == Rotate(Rotate(Rotate(f)))
    ensures Turn(f, 4) == Rotate(Rotate(Rotate(Rotate(f))))
  {
    assert Turn(f, 1) == Rotate(Turn(f, 0));
    assert Turn(f, 2) == Rotate(Turn(f, 1));
    assert Turn(f, 3) == Rotate(Turn(f, 2));
    assert Turn(f, 4) == Rotate(Turn(f, 3));
  }

  /** Four quarter turns give the shape back. */
  lemma FourTurns(f: Fig)
    ensures Turn(f, 4) == f
  {
    TurnsUnfold(f);
    FigEq(Rotate(Rotate(Rotate(Rotate(f)))), f);
  }

  /** A turn after a flip is a flip after three turns (the turn goes the other way in the mirror). */
  lemma RotateFlip(f: Fig)
    ensures Rotate(Flip(f)) == Flip(Turn(f, 3))
  {
    TurnsUnfold(f);
    FigEq(Rotate(Flip(f)), Flip(Rotate(Rotate(Rotate(f)))));
  }

  /** The number of filled cells in one row. */
  function RowWeight(row: seq<bool>): (n: nat)
    ensures n <= |row|
  {
    if row == [] then 0 else (if row[0] then 1 else 0) + RowWeight(row[1..])
  }

  function Bit(b: bool): nat { if b then 1 else 0 }

  lemma RowWeightThree(row: seq<bool>)
    requires |row| == 3
    ensures RowWeight(row) == Bit(row[0]) + Bit(row[1]) + Bit(row[2])
  {
    assert RowWeight(row) == Bit(row[0]) + RowWeight(row[1..]);
    assert RowWeight(row[1..]) == Bit(row[1]) + RowWeight(row[2..]);
    assert row[2..][1..] == [];
    assert RowWeight(row[2..]) == Bit(row[2]) + RowWeight([]);
  }

  /** `weight()`: the number of filled cells of the shape, summed row by row. */
  function Weight(f: Fig): nat
  {
    RowWeight(f[0]) + RowWeight(f[1]) + RowWeight(f[2])
  }

  /** The weight as the nine cells, one by one. */
  lemma WeightCells(f: Fig)
    ensures Weight(f) == Bit(f[0][0]) + Bit(f[0][1]) + Bit(f[0][2])
                       + Bit(f[1][0]) + Bit(f[1][1]) + Bit(f[1][2])
                       + Bit(f[2][0]) + Bit(f[2][1]) + Bit(f[2][2])
    ensures Weight(f) <= 9
  {
    RowWeightThree(f[0]);
    RowWeightThree(f[1]);
    RowWeightThree(f[2]);
  }

  /** Flipping keeps the weight. */
  lemma WeightFlip(f: Fig)
    ensures Weight(Flip(f)) == Weight(f)
  {
    WeightCells(f);
    WeightCells(Flip(f));
  }

  /** Turning keeps the weight. */
  lemma WeightRotate(f: Fig)
    ensures Weight(Rotate(f)) == Weight(f)
  {
    WeightCells(f);
    WeightCells(Rotate(f));
  }

  lemma {:induction false} WeightTurn(f: Fig, k: nat)
    ensures Weight(Turn(f, k)) == Weight(f)
  {
    if k > 0 {
      WeightTurn(f, k - 1);
      WeightRotate(Turn(f, k - 1));
    }
  }

  // ---------------------------------------------------------------------------
  // Variants

  /** The shapes met in the first `k` rounds of `variants()`: each turn and its mirror image. */
  function VariantsUpTo(f: Fig, k: nat): set<Fig>
  {
    if k == 0 then {} else VariantsUpTo(f, k - 1) + {Turn(f, k - 1), Flip(Turn(f, k - 1))}
  }

  /** Every orientation of a present: its four turns and their mirror images. */
  function VariantSet(f: Fig): set<Fig>
  {
    VariantsUpTo(f, 4)
  }

  /** `variants()`: four rounds, each adding the current figure and its mirror image, then turning it. */
  method Variants(shape: Fig) returns (r: set<Fig>)
    ensures r == VariantSet(shape)
  {
    r := {};
    var fig := shape;
    for k := 0 to 4
      invariant r == VariantsUpTo(shape, k) && fig == Turn(shape, k)
    {
      r := r + {fig};
      r := r + {Flip(fig)};
      fig := Rotate(fig);
    }
  }

  /** The eight shapes `variants()` inserts. */
  lemma VariantSetExplicit(f: Fig)
    ensures VariantSet(f) == {Turn(f, 0), Flip(Turn(f, 0)), Turn(f, 1), Flip(Turn(f, 1)),
                              Turn(f, 2), Flip(Turn(f, 2)), Turn(f, 3), Flip(Turn(f, 3))}
  {
    assert VariantsUpTo(f, 1) == {Turn(f, 0), Flip(Turn(f, 0))};
    assert VariantsUpTo(f, 2) == VariantsUpTo(f, 1) + {Turn(f, 1), Flip(Turn(f, 1))};
    assert VariantsUpTo(f, 3) == VariantsUpTo(f, 2) + {Turn(f, 2), Flip(Turn(f, 2))};
    assert VariantsUpTo(f, 4) == VariantsUpTo(f, 3) + {Turn(f, 3), Flip(Turn(f, 3))};
  }

  /** Each turn below four and its mirror image are variants. */
  lemma VariantsHave(f: Fig, t: nat)
    requires t < 4
    ensures Turn(f, t) in VariantSet(f) && Flip(Turn(f, t)) in VariantSet(f)
  {
    VariantSetExplicit(f);
  }

  /** Every variant is a turn or the mirror image of one. */
  lemma VariantOrigin(f: Fig, g: Fig)
    requires g in VariantSet(f)
    ensures exists t :: 0 <= t < 4 && (g == Turn(f, t) || g == Flip(Turn(f, t)))
  {
    VariantSetExplicit(f);
    if g == Turn(f, 0) || g == Flip(Turn(f, 0)) {
      assert 0 <= 0 < 4;
    } else if g == Turn(f, 1) || g == Flip(Turn(f, 1)) {
      assert 0 <= 1 < 4;
    } else if g == Turn(f, 2) || g == Flip(Turn(f, 2)) {
      assert 0 <= 2 < 4;
    } else {
      assert 0 <= 3 < 4;
    }
  }

  lemma {:induction false} VariantsUpToSize(f: Fig, k: nat)
    ensures |VariantsUpTo(f, k)| <= 2 * k
  {
    if k > 0 {
      VariantsUpToSize(f, k - 1);
      var pair := {Turn(f, k - 1), Flip(Turn(f, k - 1))};
      assert |pair| <= 2;
    }
  }

  /** The variants hold the shape itself and at most eight shapes. */
  lemma VariantsBounds(f: Fig)
    ensures f in VariantSet(f)
    ensures 1 <= |VariantSet(f)| <= 8
  {
    VariantsHave(f, 0);
    VariantsUpToSize(f, 4);
  }

  /** Every variant weighs as much as the shape. */
  lemma VariantsWeight(f: Fig, g: Fig)
    requires g in VariantSet(f)
    ensures Weight(g) == Weight(f)
  {
    VariantOrigin(f, g);
    var t :| 0 <= t < 4 && (g == Turn(f, t) || g == Flip(Turn(f, t)));
    WeightTurn(f, t);
    WeightFlip(Turn(f, t));
  }

  /** Turns add up. */
  lemma {:induction false} TurnTurn(f: Fig, a: nat, b: nat)
    ensures Turn(Turn(f, a), b) == Turn(f, a + b)
  {
    if b > 0 {
      TurnTurn(f, a, b - 1);
    }
  }

  /** Only the number of turns modulo four matters. */
  lemma TurnMod(f: Fig, n: nat)
    requires n < 8
    ensures Turn(f, n) == Turn(f, n % 4)
  {
    if n >= 4 {
      TurnTurn(f, 4, n - 4);
      FourTurns(f);
    }
  }

  /** The variants are closed under turning and mirroring: they are all the orientations there are. */
  lemma VariantsClosed(f: Fig, g: Fig)
    requires g in VariantSet(f)
    ensures Rotate(g) in VariantSet(f) && Flip(g) in VariantSet(f)
  {
    VariantOrigin(f, g);
    var t :| 0 <= t < 4 && (g == Turn(f, t) || g == Flip(Turn(f, t)));
    var h := Turn(f, t);
    if g == h {
      TurnMod(f, t + 1);
      VariantsHave(f, (t + 1) % 4);
      VariantsHave(f, t);
    } else {
      FlipFlip(h);
      RotateFlip(h);
      TurnTurn(f, t, 3);
      TurnMod(f, t + 3);
      VariantsHave(f, (t + 3) % 4);
      VariantsHave(f, t);
    }
  }

  // ---------------------------------------------------------------------------
  // Regions and the field

  /** A region under a tree: `dimensions` (rows, then columns) and how many of each present it takes. */
  datatype Region = Region(rows: nat, cols: nat, counts: seq<nat>)

  /** A cell of the field: row, then column. */
  type Pos = (nat, nat)

  /** `field` has `rows` rows of `cols` cells each. */
  predicate Grid(field: seq<seq<bool>>, rows: nat, cols: nat)
  {
    |field| == rows && forall r :: 0 <= r < rows ==> |field[r]| == cols
  }

  /** `vec![vec![false; cols]; rows]`. */
  function EmptyField(rows: nat, cols: nat): (g: seq<seq<bool>>)
    ensures Grid(g, rows, cols)
    ensures forall r, c :: 0 <= r < rows && 0 <= c < cols ==> !g[r][c]
  {
    seq(rows, _ => seq(cols, _ => false))
  }

  /** Two fields of the same size with the same cells are equal. */
  lemma GridEq(a: seq<seq<bool>>, b: seq<seq<bool>>, rows: nat, cols: nat)
    requires Grid(a, rows, cols) && Grid(b, rows, cols)
    requires forall r, c :: 0 <= r < rows && 0 <= c < cols ==> a[r][c] == b[r][c]
    ensures a == b
  {
    forall r | 0 <= r < rows
      ensures a[r] == b[r]
    {
      assert forall c :: 0 <= c < cols ==> a[r][c] == b[r][c];
    }
  }

  /** The place of a cell in row-major order. */
  function Index(cols: nat, pos: Pos): nat
  {
    pos.0 * cols + pos.1
  }

  /** `next_pos`: one cell to the right, or the start of the next row after the last column. */
  function NextPos(cols: nat, pos: Pos): Pos
  {
    if pos.1 + 1 == cols then (pos.0 + 1, 0) else (pos.0, pos.1 + 1)
  }

  /** `next_pos` is the successor in row-major order and stays within the columns. */
  lemma NextPosRowMajor(cols: nat, pos: Pos)
    requires pos.1 < cols
    ensures NextPos(cols, pos).1 < cols
    ensures Index(cols, NextPos(cols, pos)) == Index(cols, pos) + 1
  {
    if pos.1 + 1 == cols {
      assert (pos.0 + 1) * cols == pos.0 * cols + cols;
    }
  }

  /** Placing `shape` with its top-left corner at `pos` fills cell (`r`, `c`). */
  predicate Covers(pos: Pos, shape: Fig, r: int, c: int)
  {
    pos.0 <= r < pos.0 + 3 && pos.1 <= c < pos.1 + 3 && shape[r - pos.0][c - pos.1]
  }

  /** `can_fit`: the shape's square lies in the region and none of its filled cells is taken. */
  predicate CanFit(field: seq<seq<bool>>, rows: nat, cols: nat, pos: Pos, shape: Fig)
    requires Grid(field, rows, cols)
  {
    if pos.0 + 3 > rows then false
    else if pos.1 + 3 > cols then false
    else forall i, j :: 0 <= i < 3 && 0 <= j < 3 ==> !shape[i][j] || !field[pos.0 + i][pos.1 + j]
  }

  /** A shape fits exactly when its square is inside the region and it meets no taken cell. */
  lemma CanFitIff(field: seq<seq<bool>>, rows: nat, cols: nat, pos: Pos, shape: Fig)
    requires Grid(field, rows, cols)
    ensures CanFit(field, rows, cols, pos, shape) <==>
              pos.0 + 3 <= rows && pos.1 + 3 <= cols &&
              forall r, c :: 0 <= r < rows && 0 <= c < cols && Covers(pos, shape, r, c) ==> !field[r][c]
  {
    if pos.0 + 3 <= rows && pos.1 + 3 <= cols {
      if CanFit(field, rows, cols, pos, shape) {
        forall r, c | 0 <= r < rows && 0 <= c < cols && Covers(pos, shape, r, c)
          ensures !field[r][c]
        {
          assert !shape[r - pos.0][c - pos.1] || !field[pos.0 + (r - pos.0)][pos.1 + (c - pos.1)];
        }
      } else {
        var i, j :| 0 <= i < 3 && 0 <= j < 3 && shape[i][j] && field[pos.0 + i][pos.1 + j];
        assert Covers(pos, shape, pos.0 + i, pos.1 + j);
      }
    }
  }

  /** The cell (`r`, `c`) is among the first `n` cells of the shape's square, in row-major order. */
  predicate Before(pos: Pos, r: int, c: int, n: nat)
  {
    3 * (r - pos.0) + (c - pos.1) < n
  }

  /** The field after toggling the first `n` cells of the shape's square that the shape fills. */
  function XoredFirst(field: seq<seq<bool>>, pos: Pos, shape: Fig, n: nat): (g: seq<seq<bool>>)
  {
    seq(|field|, r requires 0 <= r < |field| =>
      seq(|field[r]|, c requires 0 <= c < |field[r]| =>
        field[r][c] != (Covers(pos, shape, r, c) && Before(pos, r, c, n))))
  }

  /** `xor`: every cell the shape fills at `pos` is toggled. */
  function Xored(field: seq<seq<bool>>, pos: Pos, shape: Fig): (g: seq<seq<bool>>)
  {
    XoredFirst(field, pos, shape, 9)
  }

  /** Toggling keeps the size of the field and changes exactly the covered cells. */
  lemma XoredCells(field: seq<seq<bool>>, rows: nat, cols: nat, pos: Pos, shape: Fig)
    requires Grid(field, rows, cols)
    ensures Grid(Xored(field, pos, shape), rows, cols)
    ensures forall r, c :: 0 <= r < rows && 0 <= c < cols ==>
              Xored(field, pos, shape)[r][c] == (field[r][c] != Covers(pos, shape, r, c))
  {
  }

  /** Toggling the same shape twice restores the field. */
  lemma XorTwice(field: seq<seq<bool>>, rows: nat, cols: nat, pos: Pos, shape: Fig)
    requires Grid(field, rows, cols)
    ensures Xored(Xored(field, pos, shape), pos, shape) == field
  {
    XoredCells(field, rows, cols, pos, shape);
    XoredCells(Xored(field, pos, shape), rows, cols, pos, shape);
    GridEq(Xored(Xored(field, pos, shape), pos, shape), field, rows, cols);
  }

  /** After a fitting placement, toggling fills the covered cells and leaves the rest alone. */
  lemma XorFills(field: seq<seq<bool>>, rows: nat, cols: nat, pos: Pos, shape: Fig)
    requires Grid(field, rows, cols) && CanFit(field, rows, cols, pos, shape)
    ensures forall r, c :: 0 <= r < rows && 0 <= c < cols ==>
              Xored(field, pos, shape)[r][c] == (field[r][c] || Covers(pos, shape, r, c))
  {
    XoredCells(field, rows, cols, pos, shape);
    CanFitIff(field, rows, cols, pos, shape);
  }

  /** One more cell of the square toggled. */
  /** Row `i` of the square toggled cell by cell, up to column `j`, as the inner loop of `xor` does. */
  function ToggleRow(g: seq<seq<bool>>, rows: nat, cols: nat, pos: Pos, shape: Fig, i: nat, j: nat): (h: seq<seq<bool>>)
    requires Grid(g, rows, cols) && pos.0 + 3 <= rows && pos.1 + 3 <= cols && i < 3 && j <= 3
    ensures Grid(h, rows, cols)
  {
    if j == 0 then g
    else
      var h := ToggleRow(g, rows, cols, pos, shape, i, j - 1);
      if shape[i][j - 1] then Toggle(h, pos.0 + i, pos.1 + (j - 1)) else h
  }

  /** Toggling row `i` cell by cell reaches the square's cells up to that column. */
  lemma {:induction false} ToggleRowIsXored(field: seq<seq<bool>>, rows: nat, cols: nat, pos: Pos, shape: Fig,
                                            i: nat, j: nat, k: nat)
    requires Grid(field, rows, cols) && pos.0 + 3 <= rows && pos.1 + 3 <= cols && i < 3 && j <= 3 && k == 3 * i + j
    ensures Grid(XoredFirst(field, pos, shape, 3 * i), rows, cols)
    ensures XoredFirst(field, pos, shape, k) == ToggleRow(XoredFirst(field, pos, shape, 3 * i), rows, cols, pos, shape, i, j)
  {
    XoredGrid(field, rows, cols, pos, shape, 3 * i);
    if j > 0 {
      var start := XoredFirst(field, pos, shape, 3 * i);
      ToggleRowIsXored(field, rows, cols, pos, shape, i, j - 1, k - 1);
      XoredStep(field, rows, cols, pos, shape, i, j - 1, k);
      var h := ToggleRow(start, rows, cols, pos, shape, i, j - 1);
      assert h == XoredFirst(field, pos, shape, k - 1);
    }
  }

  lemma XoredGrid(field: seq<seq<bool>>, rows: nat, cols: nat, pos: Pos, shape: Fig, n: nat)
    requires Grid(field, rows, cols)
    ensures Grid(XoredFirst(field, pos, shape, n), rows, cols)
  {
  }

  /** The cell after the first `k - 1`, cell `(i, j)` of the square, is toggled exactly when the shape fills it. */
  lemma XoredStep(field: seq<seq<bool>>, rows: nat, cols: nat, pos: Pos, shape: Fig, i: nat, j: nat, k: nat)
    requires Grid(field, rows, cols) && pos.0 + 3 <= rows && pos.1 + 3 <= cols && i < 3 && j < 3 && k == 3 * i + j + 1
    ensures Grid(XoredFirst(field, pos, shape, k - 1), rows, cols)
    ensures XoredFirst(field, pos, shape, k) ==
              if shape[i][j] then Toggle(XoredFirst(field, pos, shape, k - 1), pos.0 + i, pos.1 + j)
              else XoredFirst(field, pos, shape, k - 1)
  {
    var g := XoredFirst(field, pos, shape, k - 1);
    var r, c := pos.0 + i, pos.1 + j;
    var h := if shape[i][j] then Toggle(g, r, c) else g;
    forall r', c' | 0 <= r' < rows && 0 <= c' < cols
      ensures XoredFirst(field, pos, shape, k)[r'][c'] == h[r'][c']
    {
      if r' == r && c' == c {
        assert Covers(pos, shape, r', c') == shape[i][j];
      } else if Covers(pos, shape, r', c') {
        assert Before(pos, r', c', k) == Before(pos, r', c', k - 1);
      }
    }
    GridEq(XoredFirst(field, pos, shape, k), h, rows, cols);
  }

  /** `field[r][c] ^= true`. */
  function Toggle(field: seq<seq<bool>>, r: nat, c: nat): (g: seq<seq<bool>>)
    requires r < |field| && c < |field[r]|
  {
    field[r := field[r][c := !field[r][c]]]
  }

  /** All nine cells of the square, or none. */
  lemma XoredEnds(field: seq<seq<bool>>, rows: nat, cols: nat, pos: Pos, shape: Fig)
    requires Grid(field, rows, cols)
    ensures XoredFirst(field, pos, shape, 0) == field
  {
    GridEq(XoredFirst(field, pos, shape, 0), field, rows, cols);
  }

  // ---------------------------------------------------------------------------
  // Packings: what a successful search promises

  /** Present number `kind`, turned or flipped into `fig`, with the corner of its square at `pos`. */
  datatype Placement = Placement(kind: nat, fig: Fig, pos: Pos)

  /** The placement uses an orientation of its present, lies in the region and meets no taken cell. */
  ghost predicate Placed(presents: seq<Fig>, field: seq<seq<bool>>, rows: nat, cols: nat, p: Placement)
    requires Grid(field, rows, cols)
  {
    p.kind < |presents| && p.fig in VariantSet(presents[p.kind])
    && p.pos.0 + 3 <= rows && p.pos.1 + 3 <= cols
    && forall r, c :: 0 <= r < rows && 0 <= c < cols && Covers(p.pos, p.fig, r, c) ==> !field[r][c]
  }

  /** Two placements share no cell. */
  ghost predicate Apart(a: Placement, b: Placement)
  {
    forall r, c :: !(Covers(a.pos, a.fig, r, c) && Covers(b.pos, b.fig, r, c))
  }

  /** How many placements are of present `kind`. */
  function Count(ps: seq<Placement>, kind: nat): (n: nat)
    ensures n <= |ps|
  {
    if ps == [] then 0
    else Count(ps[..|ps| - 1], kind) + (if ps[|ps| - 1].kind == kind then 1 else 0)
  }

  /**
   * `ps` puts `remaining[k]` presents of each kind `k` into the free cells of the field:
   * each fits, and no two overlap.
   */
  ghost predicate Packing(presents: seq<Fig>, field: seq<seq<bool>>, rows: nat, cols: nat,
                          remaining: seq<nat>, ps: seq<Placement>)
    requires Grid(field, rows, cols)
  {
    (forall k :: 0 <= k < |ps| ==> Placed(presents, field, rows, cols, ps[k]) && ps[k].kind < |remaining|)
    && (forall a, b :: 0 <= a < b < |ps| ==> Apart(ps[a], ps[b]))
    && (forall k :: 0 <= k < |remaining| ==> Count(ps, k) == remaining[k])
  }

  /** The remaining presents can be packed into the free cells of the field. */
  ghost predicate Packable(presents: seq<Fig>, field: seq<seq<bool>>, rows: nat, cols: nat, remaining: seq<nat>)
    requires Grid(field, rows, cols)
  {
    exists ps :: Packing(presents, field, rows, cols, remaining, ps)
  }

  predicate AllPlaced(remaining: seq<nat>)
  {
    forall k :: 0 <= k < |remaining| ==> remaining[k] == 0
  }

  /** With nothing left to place, the empty packing does. */
  lemma NothingLeft(presents: seq<Fig>, field: seq<seq<bool>>, rows: nat, cols: nat, remaining: seq<nat>)
    requires Grid(field, rows, cols) && AllPlaced(remaining)
    ensures Packing(presents, field, rows, cols, remaining, [])
  {
  }

  /** A placement that fits the field is placed, and apart from anything that fits after it. */
  lemma PlacedBefore(presents: seq<Fig>, field: seq<seq<bool>>, rows: nat, cols: nat, q: Placement, p: Placement)
    requires Grid(field, rows, cols) && CanFit(field, rows, cols, q.pos, q.fig)
    requires Grid(Xored(field, q.pos, q.fig), rows, cols)
    requires Placed(presents, Xored(field, q.pos, q.fig), rows, cols, p)
    ensures Placed(presents, field, rows, cols, p) && Apart(p, q)
  {
    XorFills(field, rows, cols, q.pos, q.fig);
  }

  lemma CountAppend(ps: seq<Placement>, q: Placement, kind: nat)
    ensures Count(ps + [q], kind) == Count(ps, kind) + (if q.kind == kind then 1 else 0)
  {
    assert (ps + [q])[..|ps|] == ps;
  }

  /** A placement that fits, followed by a packing of the rest, packs everything. */
  lemma PlaceSound(presents: seq<Fig>, field: seq<seq<bool>>, rows: nat, cols: nat, remaining: seq<nat>,
                   q: Placement, ps: seq<Placement>)
    requires Grid(field, rows, cols) && CanFit(field, rows, cols, q.pos, q.fig)
    requires q.kind < |presents| && q.fig in VariantSet(presents[q.kind])
    requires q.kind < |remaining| && remaining[q.kind] > 0
    requires Grid(Xored(field, q.pos, q.fig), rows, cols)
    requires Packing(presents, Xored(field, q.pos, q.fig), rows, cols,
                     remaining[q.kind := remaining[q.kind] - 1], ps)
    ensures Packing(presents, field, rows, cols, remaining, ps + [q])
  {
    var qs := ps + [q];
    forall k | 0 <= k < |qs|
      ensures Placed(presents, field, rows, cols, qs[k]) && qs[k].kind < |remaining|
    {
      if k < |ps| {
        PlacedBefore(presents, field, rows, cols, q, ps[k]);
      } else {
        CanFitIff(field, rows, cols, q.pos, q.fig);
      }
    }
    forall a, b | 0 <= a < b < |qs|
      ensures Apart(qs[a], qs[b])
    {
      if b == |ps| {
        PlacedBefore(presents, field, rows, cols, q, ps[a]);
      }
    }
    forall k | 0 <= k < |remaining|
      ensures Count(qs, k) == remaining[k]
    {
      CountAppend(ps, q, k);
    }
  }

  /** Packability after placing one present that fits carries back to before it. */
  lemma PackableStep(presents: seq<Fig>, field: seq<seq<bool>>, rows: nat, cols: nat, remaining: seq<nat>,
                     q: Placement, after: seq<seq<bool>>, left: seq<nat>)
    requires Grid(field, rows, cols) && CanFit(field, rows, cols, q.pos, q.fig)
    requires q.kind < |presents| && q.fig in VariantSet(presents[q.kind])
    requires q.kind < |remaining| && remaining[q.kind] > 0
    requires after == Xored(field, q.pos, q.fig) && left == remaining[q.kind := remaining[q.kind] - 1]
    requires Grid(after, rows, cols) && Packable(presents, after, rows, cols, left)
    ensures Packable(presents, field, rows, cols, remaining)
  {
    var ps :| Packing(presents, after, rows, cols, left, ps);
    PlaceSound(presents, field, rows, cols, remaining, q, ps);
  }

  /** `weight() * count`, summed over the presents and their counts side by side. */
  function AreaNeeded(presents: seq<Fig>, counts: seq<nat>): nat
  {
    if presents == [] || counts == [] then 0
    else Weight(presents[0]) * counts[0] + AreaNeeded(presents[1..], counts[1..])
  }

  // ---------------------------------------------------------------------------
  // The search

  /** The brute force for one region: the cells taken so far, the presents still to place, and the spare cells. */
  class Bruteforcer {
    const presents: seq<Fig>
    const region: Region
    const variants: seq<set<Fig>>
    var field: seq<seq<bool>>
    var remaining: seq<nat>
    var skippable: nat

    ghost predicate Valid()
      reads this
    {
      Grid(field, region.rows, region.cols)
      && |variants| == |presents| && forall k :: 0 <= k < |variants| ==> variants[k] == VariantSet(presents[k])
    }

    /** `new`: the variants of every present, an empty field, all counts still to place, no spare cells. */
    constructor (presents: seq<Fig>, region: Region)
      ensures Valid() && this.presents == presents && this.region == region
      ensures field == EmptyField(region.rows, region.cols) && remaining == region.counts && skippable == 0
    {
      var vs: seq<set<Fig>> := [];
      for k := 0 to |presents|
        invariant |vs| == k && forall t :: 0 <= t < k ==> vs[t] == VariantSet(presents[t])
      {
        var v := Variants(presents[k]);
        vs := vs + [v];
      }
      this.presents := presents;
      this.region := region;
      variants := vs;
      field := EmptyField(region.rows, region.cols);
      remaining := region.counts;
      skippable := 0;
    }

    /** `xor`: toggles every cell the shape fills with its square's corner at `pos`. */
    method Xor(pos: Pos, shape: Fig)
      requires Valid() && pos.0 + 3 <= region.rows && pos.1 + 3 <= region.cols
      modifies this
      ensures Valid() && field == Xored(old(field), pos, shape)
      ensures remaining == old(remaining) && skippable == old(skippable)
    {
      ghost var start := field;
      XoredEnds(start, region.rows, region.cols, pos, shape);
      for i := 0 to 3
        invariant Valid() && field == XoredFirst(start, pos, shape, 3 * i)
        invariant remaining == old(remaining) && skippable == old(skippable)
      {
        XorRow(start, pos, shape, i);
      }
      XoredCells(start, region.rows, region.cols, pos, shape);
    }

    /** Row `i` of the shape's square, cell by cell. */
    method XorRow(ghost start: seq<seq<bool>>, pos: Pos, shape: Fig, i: nat)
      requires Grid(start, region.rows, region.cols) && pos.0 + 3 <= region.rows && pos.1 + 3 <= region.cols && i < 3
      requires Valid() && field == XoredFirst(start, pos, shape, 3 * i)
      modifies this
      ensures Valid() && field == XoredFirst(start, pos, shape, 3 * i + 3)
      ensures remaining == old(remaining) && skippable == old(skippable)
    {
      ghost var before := field;
      for j := 0 to 3
        invariant Valid() && field == ToggleRow(before, region.rows, region.cols, pos, shape, i, j)
        invariant remaining == old(remaining) && skippable == old(skippable)
      {
        if shape[i][j] {
          var r, c := pos.0 + i, pos.1 + j;
          field := Toggle(field, r, c);
        }
      }
      ToggleRowIsXored(start, region.rows, region.cols, pos, shape, i, 3, 3 * i + 3);
    }

    /** The `while` loop of `go`, bounded: skips taken cells, stopping past the last row. */
    method Scan(pos: Pos) returns (p: Pos)
      requires Valid() && pos.0 < region.rows && pos.1 < region.cols
      ensures p.1 < region.cols && p.0 <= region.rows && Index(region.cols, pos) <= Index(region.cols, p)
      ensures p.0 < region.rows ==> !field[p.0][p.1]
      ensures TakenBetween(field, region.cols, pos, p)
    {
      p := pos;
      while p.0 < region.rows && field[p.0][p.1]
        invariant p.1 < region.cols && p.0 <= region.rows && Index(region.cols, pos) <= Index(region.cols, p)
        invariant TakenBetween(field, region.cols, pos, p)
        decreases region.rows - p.0, region.cols - p.1
      {
        NextPosRowMajor(region.cols, p);
        TakenStep(field, region.cols, pos, p);
        p := NextPos(region.cols, p);
      }
    }

    /**
     * `go`: place the remaining presents from `pos` on. It answers `true` at once when nothing is
     * left, leaves the state as it found it, and answers `true` only when the remaining presents
     * can really be packed into the free cells.
     */
    method Go(pos: Pos) returns (r: bool)
      requires Valid()
      modifies this
      decreases Sum(remaining) + skippable, 3
      ensures Valid() && field == old(field) && remaining == old(remaining) && skippable == old(skippable)
      ensures AllPlaced(remaining) ==> r
      ensures r ==> Packable(presents, field, region.rows, region.cols, remaining)
    {
      if forall k :: 0 <= k < |remaining| ==> remaining[k] == 0 {
        NothingLeft(presents, field, region.rows, region.cols, remaining);
        return true;
      }
      if pos.0 >= region.rows || pos.1 >= region.cols {
        return false;
      }
      var p := Scan(pos);
      if p.0 >= region.rows {
        return false;
      }
      var next := NextPos(region.cols, p);
      r := TryKinds(p, next);
      if r {
        return;
      }
      if skippable == 0 {
        return false;
      }
      SumNonNegative(remaining);
      skippable := skippable - 1;
      r := Go(next);
      skippable := skippable + 1;
    }

    /** The outer `any` of `go`: each kind still to place, in order, until one succeeds. */
    method TryKinds(p: Pos, next: Pos) returns (r: bool)
      requires Valid() && p.0 < region.rows && p.1 < region.cols
      modifies this
      decreases Sum(remaining) + skippable, 2
      ensures Valid() && field == old(field) && remaining == old(remaining) && skippable == old(skippable)
      ensures r ==> Packable(presents, field, region.rows, region.cols, remaining)
    {
      r := false;
      var n := if |variants| < |remaining| then |variants| else |remaining|;
      var i := 0;
      while i < n && !r
        invariant Valid() && field == old(field) && remaining == old(remaining) && skippable == old(skippable)
        invariant r ==> Packable(presents, field, region.rows, region.cols, remaining)
      {
        if remaining[i] != 0 {
          r := TryVariants(i, p, next);
        }
        i := i + 1;
      }
    }

    /** The inner `any` of `go`: each variant of present `i`, until one fits and leads to success. */
    method TryVariants(i: nat, p: Pos, next: Pos) returns (r: bool)
      requires Valid() && i < |variants| && i < |remaining| && remaining[i] > 0
      modifies this
      decreases Sum(remaining) + skippable, 1
      ensures Valid() && field == old(field) && remaining == old(remaining) && skippable == old(skippable)
      ensures r ==> Packable(presents, field, region.rows, region.cols, remaining)
    {
      r := false;
      var left := variants[i];
      while left != {} && !r
        invariant Valid() && field == old(field) && remaining == old(remaining) && skippable == old(skippable)
        invariant left <= variants[i]
        invariant r ==> Packable(presents, field, region.rows, region.cols, remaining)
        decreases |left|
      {
        var fig :| fig in left;
        left := left - {fig};
        if CanFit(field, region.rows, region.cols, p, fig) {
          r := TryPlace(i, fig, p, next);
        }
      }
    }

    /** One try of `go`: place `fig` at `p`, search on from `next`, then take it away again. */
    method TryPlace(i: nat, fig: Fig, p: Pos, next: Pos) returns (r: bool)
      requires Valid() && i < |variants| && i < |remaining| && remaining[i] > 0 && fig in variants[i]
      requires CanFit(field, region.rows, region.cols, p, fig)
      modifies this
      decreases Sum(remaining) + skippable, 0
      ensures Valid() && field == old(field) && remaining == old(remaining) && skippable == old(skippable)
      ensures r ==> Packable(presents, field, region.rows, region.cols, remaining)
    {
      ghost var before := field;
      ghost var counts := remaining;
      Xor(p, fig);
      XoredCells(before, region.rows, region.cols, p, fig);
      remaining := remaining[i := remaining[i] - 1];
      SumUpdate(counts, i, counts[i] - 1);
      SumNonNegative(remaining);
      r := Go(next);
      if r {
        PackableStep(presents, before, region.rows, region.cols, counts, Placement(i, fig, p), field, remaining);
      }
      Xor(p, fig);
      XorTwice(before, region.rows, region.cols, p, fig);
      remaining := remaining[i := remaining[i] + 1];
      assert remaining == counts;
    }

    /**
     * `solve`: gives up at once when the presents need more cells than the region has;
     * otherwise the spare cells may be skipped and the search starts at the first cell.
     */
    method Solve() returns (r: bool)
      requires Valid()
      modifies this
      ensures AreaNeeded(presents, region.counts) > region.rows * region.cols ==> !r
      ensures AreaNeeded(presents, region.counts) <= region.rows * region.cols && AllPlaced(old(remaining)) ==> r
      ensures r ==> Packable(presents, old(field), region.rows, region.cols, old(remaining))
    {
      var needed := AreaNeeded(presents, region.counts);
      var total := region.rows * region.cols;
      if needed > total {
        return false;
      }
      skippable := total - needed;
      r := Go((0, 0));
    }
  }

  /** `Problem12::solve`: the number of regions whose presents the brute force fits. */
  method CountFitting(presents: seq<Fig>, regions: seq<Region>) returns (count: nat, ghost fitting: set<nat>)
    ensures count == |fitting|
    ensures forall k :: k in fitting ==>
              (k < |regions| &&
               Packable(presents, EmptyField(regions[k].rows, regions[k].cols), regions[k].rows, regions[k].cols, regions[k].counts))
    ensures forall k :: 0 <= k < |regions| && AreaNeeded(presents, regions[k].counts) > regions[k].rows * regions[k].cols ==>
              k !in fitting
    ensures forall k :: 0 <= k < |regions| && AllPlaced(regions[k].counts) ==>
              (AreaNeeded(presents, regions[k].counts) <= regions[k].rows * regions[k].cols ==> k in fitting)
  {
    count := 0;
    fitting := {};
    for k := 0 to |regions|
      invariant count == |fitting|
      invariant forall t :: t in fitting ==>
                  (t < k &&
                   Packable(presents, EmptyField(regions[t].rows, regions[t].cols), regions[t].rows, regions[t].cols, regions[t].counts))
      invariant forall t :: 0 <= t < |regions| && AreaNeeded(presents, regions[t].counts) > regions[t].rows * regions[t].cols ==>
                  t !in fitting
      invariant forall t :: 0 <= t < k && AllPlaced(regions[t].counts) ==>
                  (AreaNeeded(presents, regions[t].counts) <= regions[t].rows * regions[t].cols ==> t in fitting)
    {
      var bruteforcer := new Bruteforcer(presents, regions[k]);
      var fits := bruteforcer.Solve();
      if fits {
        assert k !in fitting;
        fitting := fitting + {k};
        count := count + 1;
      }
    }
  }

  // ---------------------------------------------------------------------------
  // The scan as written

  /** Every cell from `pos` on, in row-major order, is taken. */
  /** Every cell from `from` up to, but not including, `to` in row-major order is taken. */
  ghost predicate TakenBetween(field: seq<seq<bool>>, cols: nat, from: Pos, to: Pos)
    requires forall k :: 0 <= k < |field| ==> |field[k]| == cols
  {
    forall r, c :: 0 <= r < |field| && 0 <= c < cols && Index(cols, from) <= Index(cols, (r, c)) < Index(cols, to) ==> field[r][c]
  }

  /** Passing one more taken cell extends the taken stretch behind the scan. */
  lemma TakenStep(field: seq<seq<bool>>, cols: nat, from: Pos, p: Pos)
    requires forall k :: 0 <= k < |field| ==> |field[k]| == cols
    requires p.0 < |field| && p.1 < cols && field[p.0][p.1] && TakenBetween(field, cols, from, p)
    ensures NextPos(cols, p).1 < cols && TakenBetween(field, cols, from, NextPos(cols, p))
  {
    NextPosRowMajor(cols, p);
    forall r, c | 0 <= r < |field| && 0 <= c < cols && Index(cols, from) <= Index(cols, (r, c)) < Index(cols, NextPos(cols, p))
      ensures field[r][c]
    {
      if Index(cols, (r, c)) == Index(cols, p) {
        IndexInjective(cols, (r, c), p);
      }
    }
  }

  /** A taken cell in front of a taken stretch extends it forwards. */
  lemma TakenExtend(field: seq<seq<bool>>, cols: nat, p: Pos, to: Pos)
    requires forall k :: 0 <= k < |field| ==> |field[k]| == cols
    requires p.0 < |field| && p.1 < cols && field[p.0][p.1] && TakenBetween(field, cols, NextPos(cols, p), to)
    ensures TakenBetween(field, cols, p, to)
  {
    NextPosRowMajor(cols, p);
    forall r, c | 0 <= r < |field| && 0 <= c < cols && Index(cols, p) <= Index(cols, (r, c)) < Index(cols, to)
      ensures field[r][c]
    {
      if Index(cols, (r, c)) == Index(cols, p) {
        IndexInjective(cols, (r, c), p);
      }
    }
  }

  ghost predicate TakenFrom(field: seq<seq<bool>>, cols: nat, pos: Pos)
    requires forall k :: 0 <= k < |field| ==> |field[k]| == cols
  {
    forall r, c :: 0 <= r < |field| && 0 <= c < cols && Index(cols, pos) <= Index(cols, (r, c)) ==> field[r][c]
  }

  /**
   * The `while self.field[pos[0]][pos[1]]` loop of `go` as written. It has no bound on the row:
   * `None` stands for indexing the row after the last one, where the program panics.
   */
  function ScanAsWritten(field: seq<seq<bool>>, cols: nat, pos: Pos): (r: Option<Pos>)
    requires pos.1 < cols && forall k :: 0 <= k < |field| ==> |field[k]| == cols
    ensures r.Some? ==> r.value.0 < |field| && r.value.1 < cols && !field[r.value.0][r.value.1]
    ensures r.Some? ==> Index(cols, pos) <= Index(cols, r.value)
    ensures r.Some? ==> TakenBetween(field, cols, pos, r.value)
    decreases |field| - pos.0, cols - pos.1
  {
    if pos.0 >= |field| then None
    else if field[pos.0][pos.1] then
      NextPosRowMajor(cols, pos);
      var next := ScanAsWritten(field, cols, NextPos(cols, pos));
      if next.Some? then
        TakenExtend(field, cols, pos, next.value);
        next
      else next
    else Some(pos)
  }

  /** A cell in an earlier row comes earlier in row-major order. */
  lemma RowBefore(cols: nat, p: Pos, q: Pos)
    requires p.1 < cols && p.0 < q.0
    ensures Index(cols, p) < Index(cols, q)
  {
    assert (q.0 - p.0 - 1) * cols >= 0;
    assert q.0 * cols == (p.0 + 1) * cols + (q.0 - p.0 - 1) * cols;
  }

  /** Row-major order is one-to-one on the cells of a region. */
  lemma IndexInjective(cols: nat, p: Pos, q: Pos)
    requires p.1 < cols && q.1 < cols && Index(cols, p) == Index(cols, q)
    ensures p == q
  {
    if p.0 < q.0 {
      RowBefore(cols, p, q);
      assert false;
    } else if q.0 < p.0 {
      RowBefore(cols, q, p);
      assert false;
    }
  }

  /** The scan as written panics exactly when every cell from `pos` on is taken. */
  lemma {:induction false} ScanAsWrittenPanics(field: seq<seq<bool>>, cols: nat, pos: Pos)
    requires pos.1 < cols && forall k :: 0 <= k < |field| ==> |field[k]| == cols
    ensures ScanAsWritten(field, cols, pos).None? <==> TakenFrom(field, cols, pos)
    decreases |field| - pos.0, cols - pos.1
  {
    if pos.0 >= |field| {
      forall r, c | 0 <= r < |field| && 0 <= c < cols
        ensures Index(cols, (r, c)) < Index(cols, pos)
      {
        RowBefore(cols, (r, c), pos);
      }
    } else if field[pos.0][pos.1] {
      var next := NextPos(cols, pos);
      NextPosRowMajor(cols, pos);
      ScanAsWrittenPanics(field, cols, next);
      forall r, c | 0 <= r < |field| && 0 <= c < cols && Index(cols, pos) <= Index(cols, (r, c)) < Index(cols, next)
        ensures (r, c) == pos
      {
        IndexInjective(cols, (r, c), pos);
      }
    } else {
      assert Index(cols, pos) <= Index(cols, (pos.0, pos.1));
    }
  }

  /** Shape 0 of the example: a full square but for its top-left cell. */
  function Notched(): Fig
  {
    [[false, true, true], [true, true, true], [true, true, true]]
  }

  /** Shape 1 of the example: the top-left cell alone. */
  function Speck(): Fig
  {
    [[true, false, false], [false, false, false], [false, false, false]]
  }

  /** The two example presents need all nine cells of a 3×3 region. */
  lemma ExampleArea()
    ensures AreaNeeded([Notched(), Speck()], [1, 1]) == 3 * 3
  {
    WeightCells(Notched());
    WeightCells(Speck());
    assert AreaNeeded([Notched(), Speck()], [1, 1]) == Weight(Notched()) + AreaNeeded([Speck()], [1]);
  }

  /** After `Notched` goes into the corner, every cell from the next one on is taken. */
  lemma ExampleFilled()
    ensures CanFit(EmptyField(3, 3), 3, 3, (0, 0), Notched())
    ensures TakenFrom(Xored(EmptyField(3, 3), (0, 0), Notched()), 3, (0, 1))
  {
    var empty := EmptyField(3, 3);
    var after := Xored(empty, (0, 0), Notched());
    XorFills(empty, 3, 3, (0, 0), Notched());
    forall r, c | 0 <= r < 3 && 0 <= c < 3 && Index(3, (0, 1)) <= Index(3, (r, c))
      ensures after[r][c]
    {
      assert Covers((0, 0), Notched(), r, c);
    }
  }

  /** The example placements: `Notched` at the corner, `Speck` in its notch. */
  function ExamplePacking(): seq<Placement>
  {
    [Placement(0, Notched(), (0, 0)), Placement(1, Speck(), (0, 0))]
  }

  lemma ExampleApart()
    ensures Apart(ExamplePacking()[0], ExamplePacking()[1])
  {
  }

  lemma ExampleCounts()
    ensures Count(ExamplePacking(), 0) == 1 && Count(ExamplePacking(), 1) == 1
  {
    var ps := ExamplePacking();
    assert ps[..1] == [ps[0]];
  }

  lemma ExamplePlaced()
    ensures forall k :: 0 <= k < 2 ==> Placed([Notched(), Speck()], EmptyField(3, 3), 3, 3, ExamplePacking()[k])
  {
    VariantsBounds(Notched());
    VariantsBounds(Speck());
  }

  /** `Speck` in the notch packs the example region. */
  lemma ExamplePackable()
    ensures Packable([Notched(), Speck()], EmptyField(3, 3), 3, 3, [1, 1])
  {
    ExamplePlaced();
    ExampleApart();
    ExampleCounts();
    assert Packing([Notched(), Speck()], EmptyField(3, 3), 3, 3, [1, 1], ExamplePacking());
  }

  /**
   * Region `3x3: 1 1` with shapes `Notched` and `Speck`: the presents need all nine cells, so
   * `solve` searches; `Notched` as given fits at the corner; after it is placed, every cell from the
   * next one on is taken while `Speck` remains, so the scan as written indexes row 3 of a 3-row
   * field. Yet the region can be packed: `Speck` goes into the notch.
   */
  lemma AsWrittenRunsOffTheEnd()
    ensures AreaNeeded([Notched(), Speck()], [1, 1]) == 3 * 3
    ensures Notched() in VariantSet(Notched()) && CanFit(EmptyField(3, 3), 3, 3, (0, 0), Notched())
    ensures ScanAsWritten(Xored(EmptyField(3, 3), (0, 0), Notched()), 3, (0, 1)).None?
    ensures Packable([Notched(), Speck()], EmptyField(3, 3), 3, 3, [1, 1])
  {
    ExampleArea();
    VariantsBounds(Notched());
    ExampleFilled();
    ExampleScan();
    ExamplePackable();
  }

  /** The scan as written from the second cell, once `Notched` is in the corner, runs off the field. */
  lemma ExampleScan()
    ensures ScanAsWritten(Xored(EmptyField(3, 3), (0, 0), Notched()), 3, (0, 1)).None?
  {
    var after := Xored(EmptyField(3, 3), (0, 0), Notched());
    ExampleFilled();
    XoredCells(EmptyField(3, 3), 3, 3, (0, 0), Notched());
    ScanAsWrittenPanics(after, 3, (0, 1));
  }

  // ---------------------------------------------------------------------------
  // Parsing

  /**
   * A present block: an `id:` line, then rows in which `#` marks a filled cell; the shape is the
   * first three cells of the first three rows. A missing line or cell is a panic (`None`).
   */
  function ParsePresent(block: string): Option<Fig>
  {
    ParsePresentLines(Lines(block))
  }

  /** The lines of a present block. */
  function ParsePresentLines(lines: seq<string>): Option<Fig>
  {
    if |lines| == 0 then None
    else if ParseNat(TrimEnd(lines[0], ':')).None? then None
    else if |lines| < 4 || |lines[1]| < 3 || |lines[2]| < 3 || |lines[3]| < 3 then None
    else
      var shape: Fig := seq(3, i requires 0 <= i < 3 => seq(3, j requires 0 <= j < 3 => lines[i + 1][j] == '#'));
      Some(shape)
  }

  /** A row of a shape as the puzzle draws it. */
  function RowText(row: seq<bool>): (s: string)
    ensures |s| == |row| && forall j :: 0 <= j < |s| ==> s[j] == '#' || s[j] == '.'
  {
    seq(|row|, j requires 0 <= j < |row| => if row[j] then '#' else '.')
  }

  /** A present block as the puzzle draws it. */
  function PresentText(id: nat, f: Fig): string
  {
    NatToString(id) + ":" + "\n" + RowText(f[0]) + "\n" + RowText(f[1]) + "\n" + RowText(f[2])
  }

  lemma NoBreak(s: string)
    requires forall j :: 0 <= j < |s| ==> s[j] == '#' || s[j] == '.'
    ensures '\n' !in s && (s == [] || s[|s| - 1] != '\r') && StripCarriageReturn(s) == s
  {
  }

  /** The id line holds no line break. */
  lemma HeadNoBreak(id: nat)
    ensures '\n' !in NatToString(id) + ":"
  {
    var digits := NatToString(id);
    var head := digits + ":";
    forall j | 0 <= j < |head|
      ensures head[j] != '\n'
    {
      if j < |digits| {
        assert head[j] == digits[j] && IsDigit(digits[j]);
      }
    }
  }

  /** Three drawn rows split at their line breaks. */
  lemma RowsPieces(r0: string, r1: string, r2: string)
    requires forall j :: 0 <= j < |r0| ==> r0[j] == '#' || r0[j] == '.'
    requires forall j :: 0 <= j < |r1| ==> r1[j] == '#' || r1[j] == '.'
    requires forall j :: 0 <= j < |r2| ==> r2[j] == '#' || r2[j] == '.'
    ensures Split(r0 + "\n" + (r1 + "\n" + r2), "\n") == [r0, r1, r2]
  {
    NoBreak(r0);
    NoBreak(r1);
    NoBreak(r2);
    SplitCons(r0, "\n", r1 + "\n" + r2);
    SplitCons(r1, "\n", r2);
    SplitNone(r2, "\n");
  }

  /** A drawn present split at its line breaks. */
  lemma PresentTextPieces(id: nat, f: Fig)
    ensures Split(PresentText(id, f), "\n") == [NatToString(id) + ":", RowText(f[0]), RowText(f[1]), RowText(f[2])]
  {
    var head := NatToString(id) + ":";
    var r0, r1, r2 := RowText(f[0]), RowText(f[1]), RowText(f[2]);
    assert PresentText(id, f) == head + "\n" + (r0 + "\n" + (r1 + "\n" + r2));
    HeadNoBreak(id);
    RowsPieces(r0, r1, r2);
    SplitCons(head, "\n", r0 + "\n" + (r1 + "\n" + r2));
  }

  /** The lines of a drawn present: the id line and the three rows. */
  lemma PresentTextLines(id: nat, f: Fig)
    ensures Lines(PresentText(id, f)) == [NatToString(id) + ":", RowText(f[0]), RowText(f[1]), RowText(f[2])]
  {
    var head := NatToString(id) + ":";
    var r0, r1, r2 := RowText(f[0]), RowText(f[1]), RowText(f[2]);
    PresentTextPieces(id, f);
    NoBreak(r0);
    NoBreak(r1);
    NoBreak(r2);
    var pieces := Split(PresentText(id, f), "\n");
    assert StripCarriageReturn(head) == head;
    assert pieces[..3] == [head, r0, r1];
  }

  /** The id line reads back as the id. */
  lemma IdLine(id: nat)
    ensures ParseNat(TrimEnd(NatToString(id) + ":", ':')) == Some(id)
  {
    var digits := NatToString(id);
    var head := digits + ":";
    assert head[..|head| - 1] == digits;
    assert TrimEnd(head, ':') == TrimEnd(digits, ':');
    assert TrimEnd(digits, ':') == digits;
    ParseNatToString(id);
  }

  /** The id line and three drawn rows give the shape. */
  lemma PresentLinesRead(id: nat, f: Fig)
    ensures ParsePresentLines([NatToString(id) + ":", RowText(f[0]), RowText(f[1]), RowText(f[2])]) == Some(f)
  {
    IdLine(id);
    var g := ParsePresentLines([NatToString(id) + ":", RowText(f[0]), RowText(f[1]), RowText(f[2])]).value;
    FigEq(g, f);
  }

  /** Reading back a drawn present gives the shape. */
  lemma ParsePresentText(id: nat, f: Fig)
    ensures ParsePresent(PresentText(id, f)) == Some(f)
  {
    PresentTextLines(id, f);
    PresentLinesRead(id, f);
  }

  /** A region line: `<rows>x<cols>: <count> <count> ...`; anything else is an error (`None`). */
  function ParseRegion(line: string): Option<Region>
  {
    match SplitOnce(line, ": ")
      case None => None
      case Some((dims, counts)) =>
        match SplitOnce(dims, "x")
          case None => None
          case Some((d1, d2)) =>
            match (ParseNat(d1), ParseNat(d2), ParseEach(Words(counts), ParseNat))
              case (Some(rows), Some(cols), Some(cs)) => Some(Region(rows, cols, cs))
              case _ => None
  }

  /** The counts of a region line. */
  function CountsText(counts: seq<nat>): string
  {
    if counts == [] then "" else Join(CountWords(counts), " ")
  }

  /** A region line as the puzzle writes it. */
  function RegionText(region: Region): string
  {
    NatToString(region.rows) + "x" + NatToString(region.cols) + ": " + CountsText(region.counts)
  }

  lemma DigitsOnly(n: nat)
    ensures forall j :: 0 <= j < |NatToString(n)| ==> IsDigit(NatToString(n)[j]) && !IsSpace(NatToString(n)[j])
    ensures 'x' !in NatToString(n) && ':' !in NatToString(n)
  {
  }

  /** The counts as the puzzle spells them. */
  function CountWords(counts: seq<nat>): (ws: seq<string>)
    ensures |ws| == |counts|
  {
    seq(|counts|, k requires 0 <= k < |counts| => NatToString(counts[k]))
  }

  /** The words of the counts' text are the spelled counts. */
  lemma CountsWords(counts: seq<nat>)
    ensures Words(CountsText(counts)) == CountWords(counts)
  {
    var words := CountWords(counts);
    forall k | 0 <= k < |words|
      ensures words[k] != [] && forall j :: 0 <= j < |words[k]| ==> !IsSpace(words[k][j])
    {
      DigitsOnly(counts[k]);
    }
    if counts != [] {
      WordsJoin(words);
    }
  }

  /** The counts read back from their text. */
  lemma CountsRead(counts: seq<nat>)
    ensures ParseEach(Words(CountsText(counts)), ParseNat) == Some(counts)
  {
    var words := CountWords(counts);
    CountsWords(counts);
    forall k | 0 <= k < |words|
      ensures ParseNat(words[k]) == Some(counts[k])
    {
      ParseNatToString(counts[k]);
    }
    var cs := ParseEach(words, ParseNat);
    assert cs.Some? && cs.value == counts;
  }

  /** The two halves of a written region line. */
  lemma RegionTextHalves(region: Region)
    ensures SplitOnce(RegionText(region), ": ") ==
              Some((NatToString(region.rows) + "x" + NatToString(region.cols), CountsText(region.counts)))
    ensures SplitOnce(NatToString(region.rows) + "x" + NatToString(region.cols), "x") ==
              Some((NatToString(region.rows), NatToString(region.cols)))
  {
    var d1, d2 := NatToString(region.rows), NatToString(region.cols);
    DigitsOnly(region.rows);
    DigitsOnly(region.cols);
    var dims := d1 + "x" + d2;
    assert ':' !in dims by {
      forall j | 0 <= j < |dims|
        ensures dims[j] != ':'
      {
        if j < |d1| {
          assert dims[j] == d1[j];
        } else if j > |d1| {
          assert dims[j] == d2[j - |d1| - 1];
        }
      }
    }
    SplitOnceAt(dims, ": ", CountsText(region.counts));
    SplitOnceAt(d1, "x", d2);
  }

  /** Reading back a written region gives the region. */
  lemma ParseRegionText(region: Region)
    ensures ParseRegion(RegionText(region)) == Some(region)
  {
    RegionTextHalves(region);
    CountsRead(region.counts);
    ParseNatToString(region.rows);
    ParseNatToString(region.cols);
  }

  /** A block parses when, holding an `x`, each of its lines is a region, and otherwise it is a present. */
  predicate BlockParses(block: string)
  {
    if 'x' in block then ParseEach(Lines(block), ParseRegion).Some? else ParsePresent(block).Some?
  }

  /** One block: holding an `x`, its lines are regions; otherwise it is one present. */
  function ParseBlock(block: string): (r: Option<(seq<Fig>, seq<Region>)>)
  {
    if 'x' in block then
      match ParseEach(Lines(block), ParseRegion)
        case None => None
        case Some(rs) => Some(([], rs))
    else
      match ParsePresent(block)
        case None => None
        case Some(p) => Some(([p], []))
  }

  /** `parse_from`, block by block, collecting presents and regions in order. */
  function ParseBlocks(blocks: seq<string>): (r: Option<(seq<Fig>, seq<Region>)>)
  {
    if blocks == [] then Some(([], []))
    else
      var init := ParseBlocks(blocks[..|blocks| - 1]);
      var last := ParseBlock(blocks[|blocks| - 1]);
      if init.None? || last.None? then None
      else Some((init.value.0 + last.value.0, init.value.1 + last.value.1))
  }

  /** Parsing fails exactly when some block does not parse. */
  lemma {:induction false} ParseBlocksOk(blocks: seq<string>)
    ensures ParseBlocks(blocks).Some? <==> forall k :: 0 <= k < |blocks| ==> BlockParses(blocks[k])
  {
    if blocks != [] {
      var init := blocks[..|blocks| - 1];
      ParseBlocksOk(init);
      assert forall k :: 0 <= k < |blocks| - 1 ==> init[k] == blocks[k];
    }
  }

  /** Each block without an `x` gives one present. */
  lemma {:induction false} ParseBlocksPresents(blocks: seq<string>)
    ensures ParseBlocks(blocks).Some? ==> |ParseBlocks(blocks).value.0| == |PresentBlocks(blocks)|
  {
    if blocks != [] {
      ParseBlocksPresents(blocks[..|blocks| - 1]);
    }
  }

  /** The blocks without an `x`, in order. */
  function PresentBlocks(blocks: seq<string>): seq<string>
  {
    if blocks == [] then []
    else PresentBlocks(blocks[..|blocks| - 1]) + (if 'x' in blocks[|blocks| - 1] then [] else [blocks[|blocks| - 1]])
  }

  /** The whole input: blocks separated by blank lines. */
  function ParseInput(s: string): Option<(seq<Fig>, seq<Region>)>
  {
    ParseBlocks(Split(s, "\n\n"))
  }
}
