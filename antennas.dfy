/**
 * 2024 day 8: a map of antennas, each marked by its frequency character.
 * Two antennas of the same frequency create antinodes on the line through
 * them: in part one only the point beyond the second antenna at the same
 * distance again, in part two every point of that line reached from the first
 * antenna in steps of their distance.  Each answer counts the grid cells that
 * hold at least one antinode.
 */
module Antennas {
  import opened Text

  /** A map row by row: `None` for `.`, the frequency otherwise. */
  type Field = seq<seq<Option<char>>>

  /** A cell as (row, column). */
  type Pos = (int, int)

  // ---------------------------------------------------------------------------
  // Parsing

  function CellOf(c: char): (r: Option<char>)
    ensures r.None? <==> c == '.'
    ensures r.Some? ==> r.value == c
  {
    if c == '.' then None else Some(c)
  }

  /** `parse_from`: the non-empty lines, each character a cell. */
  function Parse(s: string): (field: Field)
    ensures var lines := NonEmptyLines(s);
      |field| == |lines| && forall i :: 0 <= i < |lines| ==> |field[i]| == |lines[i]| > 0
    ensures var lines := NonEmptyLines(s);
      forall i, j :: 0 <= i < |lines| && 0 <= j < |lines[i]| ==>
        (field[i][j].None? <==> lines[i][j] == '.') && (field[i][j].Some? ==> field[i][j].value == lines[i][j])
  {
    var lines := NonEmptyLines(s);
    seq(|lines|, i requires 0 <= i < |lines| => seq(|lines[i]|, j requires 0 <= j < |lines[i]| => CellOf(lines[i][j])))
  }

  // ---------------------------------------------------------------------------
  // Antennas and antinodes

  /** An antenna of frequency `c` stands at `p`. */
  predicate Antenna(field: Field, p: Pos, c: char)
  {
    0 <= p.0 < |field| && 0 <= p.1 < |field[p.0]| && field[p.0][p.1] == Some(c)
  }

  /** Two distinct antennas of the same frequency. */
  predicate Pair(field: Field, p1: Pos, p2: Pos)
  {
    p1 != p2 && 0 <= p1.0 < |field| && 0 <= p1.1 < |field[p1.0]| && field[p1.0][p1.1].Some?
    && Antenna(field, p2, field[p1.0][p1.1].value)
  }

  /** The `inside` closure: within `n` rows and `m` columns. */
  predicate Inside(n: int, m: int, p: Pos)
  {
    0 <= p.0 < n && 0 <= p.1 < m
  }

  /** Part one's antinode of an ordered pair: beyond `p2`, as far from it as `p1` is. */
  function Antinode(p1: Pos, p2: Pos): (q: Pos)
    ensures q.0 - p2.0 == p2.0 - p1.0 && q.1 - p2.1 == p2.1 - p1.1
  {
    (p1.0 + 2 * (p2.0 - p1.0), p1.1 + 2 * (p2.1 - p1.1))
  }

  /** The point `k` steps of `d` away from `p`. */
  function Ray(p: Pos, d: Pos, k: nat): Pos
  {
    (p.0 + k * d.0, p.1 + k * d.1)
  }

  function Delta(p1: Pos, p2: Pos): Pos
  {
    (p2.0 - p1.0, p2.1 - p1.1)
  }

  /** Part one's antinode is the second step of part two's line. */
  lemma AntinodeOnRay(p1: Pos, p2: Pos)
    ensures Antinode(p1, p2) == Ray(p1, Delta(p1, p2), 2)
    ensures Ray(p1, Delta(p1, p2), 0) == p1 && Ray(p1, Delta(p1, p2), 1) == p2
  {
  }

  /** Cells of part one's answer: inside the grid and the antinode of some pair. */
  ghost predicate SpotOne(field: Field, q: Pos)
  {
    exists p1, p2 :: Pair(field, p1, p2) && Antinode(p1, p2) == q
  }

  /**
   * Cells of part two's answer: on the line of some pair, from its first
   * antenna on, when that antenna lies inside the grid (a longer row than
   * the first can hold an antenna outside it, whose line is never walked).
   */
  ghost predicate SpotTwo(field: Field, q: Pos)
    requires |field| > 0
  {
    exists p1, p2, k: nat :: Pair(field, p1, p2) && Inside(|field|, |field[0]|, p1) && Ray(p1, Delta(p1, p2), k) == q
  }

  /** The cells inside the grid, `n` rows of the first row's width, that hold an antinode. */
  ghost function Spots(field: Field, part: nat): set<Pos>
    requires |field| > 0
  {
    set x, y | 0 <= x < |field| && 0 <= y < |field[0]| && (if part == 1 then SpotOne(field, (x, y)) else SpotTwo(field, (x, y))) :: (x, y)
  }

  /** Every row as long as the first. */
  predicate Rectangular(field: Field)
  {
    |field| > 0 && forall i :: 0 <= i < |field| ==> |field[i]| == |field[0]|
  }

  /** On a rectangular map every antinode of part one is one of part two. */
  lemma SpotsOneWithinTwo(field: Field)
    requires Rectangular(field)
    ensures Spots(field, 1) <= Spots(field, 2)
    ensures |Spots(field, 1)| <= |Spots(field, 2)|
  {
    forall q | q in Spots(field, 1)
      ensures q in Spots(field, 2)
    {
      var p1, p2 :| Pair(field, p1, p2) && Antinode(p1, p2) == q;
      AntinodeOnRay(p1, p2);
    }
    SubsetCard(Spots(field, 1), Spots(field, 2));
  }

  /** On a rectangular map, in part two every antenna with a partner of its frequency is itself an antinode. */
  lemma PairedAntennaIsSpot(field: Field, p1: Pos, p2: Pos)
    requires Rectangular(field) && Pair(field, p1, p2)
    ensures p1 in Spots(field, 2) && p2 in Spots(field, 2)
  {
    AntinodeOnRay(p1, p2);
  }

  // ---------------------------------------------------------------------------
  // Grouping the antennas by frequency

  /** Cell `p` comes before row `i`, column `j` in reading order. */
  predicate Scanned(p: Pos, i: int, j: int)
  {
    p.0 < i || (p.0 == i && p.1 < j)
  }

  /** `antennae` lists, per frequency, exactly the antennas scanned so far. */
  ghost predicate GroupedUpTo(field: Field, antennae: map<char, seq<Pos>>, i: int, j: int)
  {
    (forall c, p :: c in antennae && p in antennae[c] ==> Antenna(field, p, c) && Scanned(p, i, j))
    && (forall c, p :: Antenna(field, p, c) && Scanned(p, i, j) ==> c in antennae && p in antennae[c])
  }

  ghost predicate Grouped(field: Field, antennae: map<char, seq<Pos>>)
  {
    GroupedUpTo(field, antennae, |field|, 0)
  }

  /** The two loops filling the `antennae` map. */
  method Group(field: Field) returns (antennae: map<char, seq<Pos>>)
    ensures Grouped(field, antennae)
  {
    antennae := map[];
    for i := 0 to |field|
      invariant GroupedUpTo(field, antennae, i, 0)
    {
      for j := 0 to |field[i]|
        invariant GroupedUpTo(field, antennae, i, j)
      {
        if field[i][j].Some? {
          var c := field[i][j].value;
          var list := if c in antennae then antennae[c] else [];
          AddAntenna(field, antennae, i, j, c, list);
          antennae := antennae[c := list + [(i, j)]];
        } else {
          SkipCell(field, antennae, i, j);
        }
      }
      RowDone(field, antennae, i);
    }
  }

  lemma AddAntenna(field: Field, antennae: map<char, seq<Pos>>, i: int, j: int, c: char, list: seq<Pos>)
    requires 0 <= i < |field| && 0 <= j < |field[i]| && field[i][j] == Some(c)
    requires list == if c in antennae then antennae[c] else []
    requires GroupedUpTo(field, antennae, i, j)
    ensures GroupedUpTo(field, antennae[c := list + [(i, j)]], i, j + 1)
  {
    var next := antennae[c := list + [(i, j)]];
    forall c', p | Antenna(field, p, c') && Scanned(p, i, j + 1)
      ensures c' in next && p in next[c']
    {
      if p != (i, j) {
        assert Scanned(p, i, j);
      }
    }
    forall c', p | c' in next && p in next[c']
      ensures Antenna(field, p, c') && Scanned(p, i, j + 1)
    {
      if c' == c && p !in list {
        assert p == (i, j);
      }
    }
  }

  lemma SkipCell(field: Field, antennae: map<char, seq<Pos>>, i: int, j: int)
    requires 0 <= i < |field| && 0 <= j < |field[i]| && field[i][j].None?
    requires GroupedUpTo(field, antennae, i, j)
    ensures GroupedUpTo(field, antennae, i, j + 1)
  {
    forall c, p | Antenna(field, p, c) && Scanned(p, i, j + 1)
      ensures c in antennae && p in antennae[c]
    {
      assert p != (i, j);
      assert Scanned(p, i, j);
    }
    forall c, p | c in antennae && p in antennae[c]
      ensures Antenna(field, p, c) && Scanned(p, i, j + 1)
    {
    }
  }

  lemma RowDone(field: Field, antennae: map<char, seq<Pos>>, i: int)
    requires 0 <= i < |field| && GroupedUpTo(field, antennae, i, |field[i]|)
    ensures GroupedUpTo(field, antennae, i + 1, 0)
  {
    forall c, p | Antenna(field, p, c) && Scanned(p, i + 1, 0)
      ensures c in antennae && p in antennae[c]
    {
      assert Scanned(p, i, |field[i]|);
    }
    forall c, p | c in antennae && p in antennae[c]
      ensures Antenna(field, p, c) && Scanned(p, i + 1, 0)
    {
    }
  }

  // ---------------------------------------------------------------------------
  // Marking the `antinode` grid

  /** The cells of the line from `p` in steps of `d` up to its first cell outside, or none when `p` is outside. */
  ghost function RayCells(p: Pos, d: Pos, n: int, m: int): set<Pos>
  {
    set x, y | 0 <= x < n && 0 <= y < m && Inside(n, m, p) && (exists k: nat :: Ray(p, d, k) == (x, y)) :: (x, y)
  }

  /** The cells one ordered pair marks: none for a position paired with itself. */
  ghost function Contribution(part: nat, p1: Pos, p2: Pos, n: int, m: int): set<Pos>
  {
    if p1 == p2 then {}
    else if part == 1 then (if Inside(n, m, Antinode(p1, p2)) then {Antinode(p1, p2)} else {})
    else RayCells(p1, Delta(p1, p2), n, m)
  }

  /** The cells marked by the pairs `(ps[i], ps[j])` with `i < a`, or `i == a` and `j < b`. */
  ghost function Marks(ps: seq<Pos>, part: nat, n: int, m: int, a: nat, b: nat): set<Pos>
    requires a <= |ps| && b <= |ps|
    decreases a, b
  {
    if b == 0 then (if a == 0 then {} else Marks(ps, part, n, m, a - 1, |ps|))
    else if a == |ps| then Marks(ps, part, n, m, a, b - 1)
    else Marks(ps, part, n, m, a, b - 1) + Contribution(part, ps[a], ps[b - 1], n, m)
  }

  /** The grid is true exactly on `marked`, which lies inside it. */
  ghost predicate Painted(antinode: array2<bool>, marked: set<Pos>)
    reads antinode
  {
    (forall q :: q in marked ==> Inside(antinode.Length0, antinode.Length1, q))
    && forall x, y :: 0 <= x < antinode.Length0 && 0 <= y < antinode.Length1 ==> (antinode[x, y] <==> (x, y) in marked)
  }

  /** Setting a cell inside the grid adds it to the marked cells. */
  method Mark(antinode: array2<bool>, ghost marked: set<Pos>, q: Pos)
    requires Painted(antinode, marked) && Inside(antinode.Length0, antinode.Length1, q)
    modifies antinode
    ensures Painted(antinode, marked + {q})
  {
    antinode[q.0, q.1] := true;
  }

  /** How far the walk along `d` can still go before it leaves the grid. */
  function Room(x: int, y: int, d: Pos, n: int, m: int): int
  {
    if d.0 > 0 then n - x else if d.0 < 0 then x + 1 else if d.1 > 0 then m - y else y + 1
  }

  /** The first `k` cells of the line. */
  ghost function RayPrefix(p: Pos, d: Pos, k: nat): set<Pos>
  {
    if k == 0 then {} else RayPrefix(p, d, k - 1) + {Ray(p, d, k - 1)}
  }

  /** Part two's `while inside(x, y)` loop: marks the line from `p` up to its first cell outside. */
  method MarkRay(antinode: array2<bool>, ghost marked: set<Pos>, p: Pos, d: Pos)
    requires Painted(antinode, marked) && d != (0, 0)
    modifies antinode
    ensures Painted(antinode, marked + RayCells(p, d, antinode.Length0, antinode.Length1))
  {
    var n, m := antinode.Length0, antinode.Length1;
    var x, y := p.0, p.1;
    ghost var k: nat := 0;
    while 0 <= x < n && 0 <= y < m
      invariant (x, y) == Ray(p, d, k)
      invariant forall i: nat :: i < k ==> Inside(n, m, Ray(p, d, i))
      invariant Painted(antinode, marked + RayPrefix(p, d, k))
      decreases Room(x, y, d, n, m)
    {
      Mark(antinode, marked + RayPrefix(p, d, k), (x, y));
      RayNext(p, d, k);
      x, y := x + d.0, y + d.1;
      k := k + 1;
    }
    RayEnds(p, d, k, n, m);
  }

  lemma RayNext(p: Pos, d: Pos, k: nat)
    ensures Ray(p, d, k + 1) == (Ray(p, d, k).0 + d.0, Ray(p, d, k).1 + d.1)
  {
  }

  /** Once the line has left the grid it never comes back, so the walk saw all of it. */
  lemma RayEnds(p: Pos, d: Pos, k: nat, n: int, m: int)
    requires forall i: nat :: i < k ==> Inside(n, m, Ray(p, d, i))
    requires !Inside(n, m, Ray(p, d, k))
    ensures RayPrefix(p, d, k) == RayCells(p, d, n, m)
  {
    forall q | q in RayCells(p, d, n, m)
      ensures q in RayPrefix(p, d, k)
    {
      var i: nat :| Ray(p, d, i) == q;
      if i >= k {
        Convex(p, d, k, i, n, m);
      }
      RayPrefixHas(p, d, k, i);
    }
    forall q | q in RayPrefix(p, d, k)
      ensures q in RayCells(p, d, n, m)
    {
      var i := RayPrefixFrom(p, d, k, q);
      assert Inside(n, m, Ray(p, d, 0));
    }
  }

  lemma {:induction false} RayPrefixHas(p: Pos, d: Pos, k: nat, i: nat)
    requires i < k
    ensures Ray(p, d, i) in RayPrefix(p, d, k)
  {
    if i < k - 1 {
      RayPrefixHas(p, d, k - 1, i);
    }
  }

  lemma {:induction false} RayPrefixFrom(p: Pos, d: Pos, k: nat, q: Pos) returns (i: nat)
    requires q in RayPrefix(p, d, k)
    ensures i < k && Ray(p, d, i) == q
  {
    if q == Ray(p, d, k - 1) {
      i := k - 1;
    } else {
      i := RayPrefixFrom(p, d, k - 1, q);
    }
  }

  /** A cell of the line between two cells of the line inside the grid is inside too. */
  lemma Convex(p: Pos, d: Pos, k: nat, i: nat, n: int, m: int)
    requires Inside(n, m, p) && Inside(n, m, Ray(p, d, i)) && k <= i
    ensures Inside(n, m, Ray(p, d, k))
  {
    MulBetween(k, i, d.0);
    MulBetween(k, i, d.1);
  }

  lemma MulBetween(k: nat, i: nat, c: int)
    requires k <= i
    ensures c >= 0 ==> 0 <= k * c <= i * c
    ensures c < 0 ==> i * c <= k * c <= 0
  {
  }

  /** Every ordered pair of distinct positions of one frequency marks its cells. */
  method MarkPairs(antinode: array2<bool>, ghost marked: set<Pos>, ps: seq<Pos>, part: nat)
    requires Painted(antinode, marked)
    modifies antinode
    ensures Painted(antinode, marked + Marks(ps, part, antinode.Length0, antinode.Length1, |ps|, 0))
  {
    var n, m := antinode.Length0, antinode.Length1;
    for a := 0 to |ps|
      invariant Painted(antinode, marked + Marks(ps, part, n, m, a, 0))
    {
      for b := 0 to |ps|
        invariant Painted(antinode, marked + Marks(ps, part, n, m, a, b))
      {
        ghost var before := marked + Marks(ps, part, n, m, a, b);
        assert marked + Marks(ps, part, n, m, a, b + 1) == before + Contribution(part, ps[a], ps[b], n, m);
        if ps[a] != ps[b] {
          if part == 1 {
            var q := Antinode(ps[a], ps[b]);
            if 0 <= q.0 < n && 0 <= q.1 < m {
              Mark(antinode, before, q);
            }
          } else {
            MarkRay(antinode, before, ps[a], Delta(ps[a], ps[b]));
          }
        }
      }
    }
  }

  /** The cells marked by the frequencies in `cs`. */
  ghost function Union(antennae: map<char, seq<Pos>>, cs: set<char>, part: nat, n: int, m: int): set<Pos>
  {
    set x, y | 0 <= x < n && 0 <= y < m
      && (exists c :: c in cs && c in antennae && (x, y) in Marks(antennae[c], part, n, m, |antennae[c]|, 0)) :: (x, y)
  }

  lemma UnionNone(antennae: map<char, seq<Pos>>, part: nat, n: int, m: int)
    ensures Union(antennae, {}, part, n, m) == {}
  {
  }

  lemma UnionAdd(antennae: map<char, seq<Pos>>, cs: set<char>, c: char, part: nat, n: int, m: int)
    requires c in antennae
    requires forall q :: q in Marks(antennae[c], part, n, m, |antennae[c]|, 0) ==> Inside(n, m, q)
    ensures Union(antennae, cs + {c}, part, n, m) == Union(antennae, cs, part, n, m) + Marks(antennae[c], part, n, m, |antennae[c]|, 0)
  {
  }

  /** The loop over `antennae.into_values()`: every frequency's pairs mark their cells. */
  method MarkAll(antennae: map<char, seq<Pos>>, antinode: array2<bool>, part: nat) returns (ghost marked: set<Pos>)
    requires Painted(antinode, {})
    modifies antinode
    ensures Painted(antinode, marked) && marked == Union(antennae, antennae.Keys, part, antinode.Length0, antinode.Length1)
  {
    var n, m := antinode.Length0, antinode.Length1;
    marked := {};
    UnionNone(antennae, part, n, m);
    var keys := antennae.Keys;
    while keys != {}
      invariant keys <= antennae.Keys
      invariant Painted(antinode, marked) && marked == Union(antennae, antennae.Keys - keys, part, n, m)
      decreases |keys|
    {
      var c :| c in keys;
      MarkPairs(antinode, marked, antennae[c], part);
      UnionAdd(antennae, antennae.Keys - keys, c, part, n, m);
      marked := marked + Marks(antennae[c], part, n, m, |antennae[c]|, 0);
      assert antennae.Keys - (keys - {c}) == (antennae.Keys - keys) + {c};
      keys := keys - {c};
    }
  }

  // ---------------------------------------------------------------------------
  // Counting and the answers

  /** The true cells before row `i`, column `j` in reading order. */
  ghost function TruesUpTo(a: array2<bool>, i: int, j: int): set<Pos>
    reads a
  {
    set x, y | 0 <= x < a.Length0 && 0 <= y < a.Length1 && Scanned((x, y), i, j) && a[x, y] :: (x, y)
  }

  lemma TruesStep(a: array2<bool>, i: int, j: int)
    requires 0 <= i < a.Length0 && 0 <= j < a.Length1
    ensures (i, j) !in TruesUpTo(a, i, j)
    ensures TruesUpTo(a, i, j + 1) == TruesUpTo(a, i, j) + (if a[i, j] then {(i, j)} else {})
  {
  }

  lemma TruesRow(a: array2<bool>, i: int)
    requires 0 <= i < a.Length0
    ensures TruesUpTo(a, i, a.Length1) == TruesUpTo(a, i + 1, 0)
  {
  }

  /** The final `map(..).sum()` over the rows: the number of true cells, at most the number of cells. */
  method CountMarked(a: array2<bool>) returns (count: int)
    ensures count == |TruesUpTo(a, a.Length0, 0)| && count <= a.Length0 * a.Length1
  {
    count := 0;
    for i := 0 to a.Length0
      invariant count == |TruesUpTo(a, i, 0)| && count <= i * a.Length1
    {
      count := CountRow(a, i, count);
    }
  }

  /** One row's `map(..).sum()`, added to the count of the rows above. */
  method CountRow(a: array2<bool>, i: int, above: int) returns (count: int)
    requires 0 <= i < a.Length0 && above == |TruesUpTo(a, i, 0)| && above <= i * a.Length1
    ensures count == |TruesUpTo(a, i + 1, 0)| && count <= (i + 1) * a.Length1
  {
    count := above;
    for j := 0 to a.Length1
      invariant count == |TruesUpTo(a, i, j)| && count <= i * a.Length1 + j
    {
      TruesStep(a, i, j);
      if a[i, j] {
        count := count + 1;
      }
    }
    TruesRow(a, i);
    RowCells(i, a.Length1);
  }

  lemma RowCells(i: int, w: int)
    ensures i * w + w == (i + 1) * w
  {
  }

  lemma PaintedTrues(a: array2<bool>, marked: set<Pos>)
    requires Painted(a, marked)
    ensures TruesUpTo(a, a.Length0, 0) == marked
  {
  }

  /** `Marks` collects exactly the contributions of the pairs before `(a, b)`. */
  lemma {:induction false} MarksHas(ps: seq<Pos>, part: nat, n: int, m: int, a: nat, b: nat, i: nat, j: nat)
    requires a <= |ps| && b <= |ps| && i < |ps| && j < |ps| && (i < a || (i == a && j < b))
    ensures Contribution(part, ps[i], ps[j], n, m) <= Marks(ps, part, n, m, a, b)
    decreases a, b
  {
    if b == 0 {
      MarksHas(ps, part, n, m, a - 1, |ps|, i, j);
    } else if a == |ps| {
      MarksHas(ps, part, n, m, a, b - 1, i, j);
    } else if !(i == a && j == b - 1) {
      MarksHas(ps, part, n, m, a, b - 1, i, j);
    }
  }

  lemma {:induction false} MarksFrom(ps: seq<Pos>, part: nat, n: int, m: int, a: nat, b: nat, q: Pos) returns (i: nat, j: nat)
    requires a <= |ps| && b <= |ps| && q in Marks(ps, part, n, m, a, b)
    ensures i < |ps| && j < |ps| && q in Contribution(part, ps[i], ps[j], n, m)
    decreases a, b
  {
    if b == 0 {
      i, j := MarksFrom(ps, part, n, m, a - 1, |ps|, q);
    } else if a == |ps| {
      i, j := MarksFrom(ps, part, n, m, a, b - 1, q);
    } else if q in Contribution(part, ps[a], ps[b - 1], n, m) {
      i, j := a, b - 1;
    } else {
      i, j := MarksFrom(ps, part, n, m, a, b - 1, q);
    }
  }

  /** A pair's contribution inside the grid is part of the answer, and every cell of the answer comes from some pair. */
  lemma ContributionSpot(field: Field, part: nat, p1: Pos, p2: Pos, q: Pos)
    requires |field| > 0 && Pair(field, p1, p2) && (part == 1 || part == 2)
    ensures q in Contribution(part, p1, p2, |field|, |field[0]|) <==> q in Spots(field, part) && (part == 1 ==> q == Antinode(p1, p2)) && (part == 2 ==> Inside(|field|, |field[0]|, p1) && exists k: nat :: Ray(p1, Delta(p1, p2), k) == q)
  {
  }

  /** After grouping, the marks of all frequencies are exactly the cells of the answer. */
  lemma UnionIsSpots(field: Field, antennae: map<char, seq<Pos>>, part: nat)
    requires |field| > 0 && Grouped(field, antennae) && (part == 1 || part == 2)
    ensures Union(antennae, antennae.Keys, part, |field|, |field[0]|) == Spots(field, part)
  {
    var n, m := |field|, |field[0]|;
    forall q | q in Union(antennae, antennae.Keys, part, n, m)
      ensures q in Spots(field, part)
    {
      var c :| c in antennae && q in Marks(antennae[c], part, n, m, |antennae[c]|, 0);
      var ps := antennae[c];
      var i, j := MarksFrom(ps, part, n, m, |ps|, 0, q);
      assert ps[i] in antennae[c] && ps[j] in antennae[c];
      assert Antenna(field, ps[i], c) && Antenna(field, ps[j], c) && ps[i] != ps[j];
      ContributionSpot(field, part, ps[i], ps[j], q);
    }
    forall q | q in Spots(field, part)
      ensures q in Union(antennae, antennae.Keys, part, n, m)
    {
      var p1, p2 := SpotPair(field, part, q);
      var c := field[p1.0][p1.1].value;
      assert Antenna(field, p1, c) && Antenna(field, p2, c);
      var ps := antennae[c];
      var i :| 0 <= i < |ps| && ps[i] == p1;
      var j :| 0 <= j < |ps| && ps[j] == p2;
      ContributionSpot(field, part, p1, p2, q);
      MarksHas(ps, part, n, m, |ps|, 0, i, j);
    }
  }

  /** The pair behind a cell of the answer. */
  lemma SpotPair(field: Field, part: nat, q: Pos) returns (p1: Pos, p2: Pos)
    requires |field| > 0 && (part == 1 || part == 2) && q in Spots(field, part)
    ensures Pair(field, p1, p2) && q in Contribution(part, p1, p2, |field|, |field[0]|)
  {
    if part == 1 {
      p1, p2 :| Pair(field, p1, p2) && Antinode(p1, p2) == q;
    } else {
      var k: nat;
      p1, p2, k :| Pair(field, p1, p2) && Inside(|field|, |field[0]|, p1) && Ray(p1, Delta(p1, p2), k) == q;
    }
  }

  /**
   * `solve` of either part: the number of grid cells holding an antinode,
   * at most the number of cells.
   */
  method Solve(field: Field, part: nat) returns (count: int)
    requires |field| > 0 && (part == 1 || part == 2)
    ensures count == |Spots(field, part)| && count <= |field| * |field[0]|
  {
    var n, m := |field|, |field[0]|;
    var antennae := Group(field);
    var antinode := new bool[n, m]((_, _) => false);
    var marked := MarkAll(antennae, antinode, part);
    count := CountMarked(antinode);
    PaintedTrues(antinode, marked);
    UnionIsSpots(field, antennae, part);
  }

  // ---------------------------------------------------------------------------
  // The unused `gcd`

  /**
   * `PartTwo::gcd`, which `solve` never calls (the lines step by the full
   * distance of the pair).  Over non-negative arguments Rust's `%` is the
   * Euclidean remainder used here.
   */
  function Gcd(a: nat, b: nat): nat
    decreases b
  {
    if b == 0 then a else Gcd(b, a % b)
  }

  /** `gcd` divides both arguments, and is 0 only when both are. */
  lemma {:induction false} GcdDivides(a: nat, b: nat)
    ensures Gcd(a, b) == 0 <==> a == 0 && b == 0
    ensures Gcd(a, b) > 0 ==> a % Gcd(a, b) == 0 && b % Gcd(a, b) == 0
    decreases b
  {
    if b > 0 {
      GcdDivides(b, a % b);
      var g := Gcd(b, a % b);
      assert a == (a / b) * b + a % b;
      Combination(g, b, a % b, a / b, 1);
    }
  }

  /** Every common divisor of the arguments divides `gcd`. */
  lemma {:induction false} GcdGreatest(a: nat, b: nat, d: int)
    requires d > 0 && a % d == 0 && b % d == 0
    ensures Gcd(a, b) % d == 0
    decreases b
  {
    if b > 0 {
      RemainderMultiple(a, b, d);
      GcdGreatest(b, a % b, d);
    }
  }

  lemma RemainderMultiple(a: nat, b: nat, d: int)
    requires b > 0 && d > 0 && a % d == 0 && b % d == 0
    ensures (a % b) % d == 0
  {
    assert a % b == 1 * a + -(a / b) * b;
    Combination(d, a, b, 1, -(a / b));
  }

  /** A combination of two multiples of `g` is a multiple of `g`. */
  lemma Combination(g: int, x: int, y: int, s: int, t: int)
    requires g > 0 && x % g == 0 && y % g == 0
    ensures (s * x + t * y) % g == 0
  {
    var kx, ky := x / g, y / g;
    assert x == g * kx && y == g * ky;
    assert s * x + t * y == g * (s * kx + t * ky);
    MultipleMod(g, s * kx + t * ky);
  }

  lemma MultipleMod(g: int, k: int)
    requires g > 0
    ensures (g * k) % g == 0
  {
    var z := g * k;
    var q, r := z / g, z % g;
    assert g * (k - q) == r;
    MulAway(g, k - q);
  }

  lemma MulAway(g: int, t: int)
    requires g > 0
    ensures t >= 1 ==> g * t >= g
    ensures t <= -1 ==> g * t <= -g
  {
  }
}
