/**
 * 2025 day 7: a tachyon beam enters a grid at the `S` column of the first
 * row and moves down; a splitter `^` replaces it by beams to its left and
 * right. Part one counts the splits of the set of beams; part two counts the
 * timelines, where every split doubles the timeline that reaches it.
 */
module Tachyon {
  import opened Text

  datatype Cell = Empty | Splitter

  datatype Input = Input(field: seq<seq<Cell>>, start: nat)

  // ---------------------------------------------------------------------------
  // Parsing

  function ParseCell(c: char): Cell
  {
    if c == '^' then Splitter else Empty
  }

  function ParseRow(line: string): (row: seq<Cell>)
    ensures |row| == |line| && forall k :: 0 <= k < |line| ==> row[k] == ParseCell(line[k])
  {
    seq(|line|, k requires 0 <= k < |line| => ParseCell(line[k]))
  }

  function ParseRows(lines: seq<string>): (field: seq<seq<Cell>>)
    ensures |field| == |lines| && forall k :: 0 <= k < |lines| ==> field[k] == ParseRow(lines[k])
  {
    seq(|lines|, k requires 0 <= k < |lines| => ParseRow(lines[k]))
  }

  /** The position of the last `S`, which is where the loop over the first line leaves `start_column`. */
  function LastStart(line: string): (r: Option<nat>)
    ensures r.None? <==> 'S' !in line
    ensures r.Some? ==> r.value < |line| && line[r.value] == 'S' && 'S' !in line[r.value + 1..]
  {
    if line == [] then None
    else if line[|line| - 1] == 'S' then Some(|line| - 1)
    else
      var r := LastStart(line[..|line| - 1]);
      assert line == line[..|line| - 1] + [line[|line| - 1]];
      r
  }

  /** `parse_from`: an input without lines or without an `S` in its first line fails. */
  function ParseInput(s: string): (r: Option<Input>)
    ensures r.Some? <==> Lines(s) != [] && 'S' in Lines(s)[0]
    ensures r.Some? ==> r.value.field == ParseRows(Lines(s)) && r.value.start < |r.value.field[0]|
  {
    var lines := Lines(s);
    if lines == [] then None
    else
      match LastStart(lines[0])
      case None => None
      case Some(start) => Some(Input(ParseRows(lines), start))
  }

  // ---------------------------------------------------------------------------
  // One row

  /** A beam in column `b` of `row` does not make the program panic. */
  predicate Fits(row: seq<Cell>, b: nat)
  {
    b < |row| && (row[b] == Splitter ==> b >= 1)
  }

  /** Where a beam goes: on, or to both sides of a splitter. */
  function Out(row: seq<Cell>, b: nat): (r: seq<nat>)
    requires Fits(row, b)
  {
    if row[b] == Empty then [b] else [b - 1, b + 1]
  }

  /** The new set of beams: the beams on empty cells, and both neighbours of every hit splitter. */
  function Image(row: seq<Cell>, beams: set<nat>): set<nat>
    requires forall b :: b in beams ==> Fits(row, b)
  {
    (set b | b in beams && Fits(row, b) && row[b] == Empty)
    + (set b | b in beams && Fits(row, b) && row[b] == Splitter :: b - 1)
    + (set b | b in beams && Fits(row, b) && row[b] == Splitter :: b + 1)
  }

  /** The beams that hit a splitter. */
  function Hits(row: seq<Cell>, beams: set<nat>): set<nat>
    requires forall b :: b in beams ==> b < |row|
  {
    set b | b in beams && row[b] == Splitter
  }

  /** One row of part one: the new beams and the number of splits, or nothing where the source panics. */
  function Split(row: seq<Cell>, beams: set<nat>): Option<(set<nat>, nat)>
  {
    if forall b :: b in beams ==> Fits(row, b) then Some((Image(row, beams), |Hits(row, beams)|))
    else None
  }

  /** A row fails exactly on a beam that does not fit it; otherwise it splits each beam at most once and keeps the beams next to the row. */
  lemma SplitOutcome(row: seq<Cell>, beams: set<nat>)
    ensures Split(row, beams).None? <==> exists b :: b in beams && !Fits(row, b)
    ensures Split(row, beams).Some? ==> Split(row, beams).value.1 <= |beams|
    ensures Split(row, beams).Some? ==> forall x :: x in Split(row, beams).value.0 ==> x <= |row|
  {
    if forall b :: b in beams ==> Fits(row, b) {
      SubsetCard(Hits(row, beams), beams);
    }
  }

  /** The beams in `done` fit the row and gave `newBeams` and `splits`. */
  predicate Partial(row: seq<Cell>, done: set<nat>, newBeams: set<nat>, splits: nat)
  {
    (forall b :: b in done ==> Fits(row, b))
    && newBeams == Image(row, done) && splits == |Hits(row, done)|
  }

  lemma PartialStep(row: seq<Cell>, done: set<nat>, newBeams: set<nat>, splits: nat, b: nat)
    requires Partial(row, done, newBeams, splits)
    requires Fits(row, b) && b !in done
    ensures row[b] == Empty ==> Partial(row, done + {b}, newBeams + {b}, splits)
    ensures row[b] == Splitter ==> Partial(row, done + {b}, newBeams + {b - 1, b + 1}, splits + 1)
  {
    ImageAdd(row, done, b);
    HitsAdd(row, done, b);
  }

  lemma ImageAdd(row: seq<Cell>, done: set<nat>, b: nat)
    requires forall x :: x in done ==> Fits(row, x)
    requires Fits(row, b)
    ensures row[b] == Empty ==> Image(row, done + {b}) == Image(row, done) + {b}
    ensures row[b] == Splitter ==> Image(row, done + {b}) == Image(row, done) + {b - 1, b + 1}
  {
  }

  lemma HitsAdd(row: seq<Cell>, done: set<nat>, b: nat)
    requires forall x :: x in done ==> x < |row|
    requires b < |row| && b !in done
    ensures row[b] == Empty ==> Hits(row, done + {b}) == Hits(row, done)
    ensures row[b] == Splitter ==> |Hits(row, done + {b})| == |Hits(row, done)| + 1
  {
    if row[b] == Splitter {
      assert Hits(row, done + {b}) == Hits(row, done) + {b};
    }
  }

  lemma PartialStart(row: seq<Cell>)
    ensures Partial(row, {}, {}, 0)
  {
    assert Hits(row, {}) == {};
  }

  lemma PartialDone(row: seq<Cell>, beams: set<nat>, newBeams: set<nat>, splits: nat)
    requires Partial(row, beams, newBeams, splits)
    ensures Split(row, beams) == Some((newBeams, splits))
  {
  }

  lemma MisfitFails(row: seq<Cell>, beams: set<nat>, b: nat)
    requires b in beams && !Fits(row, b)
    ensures Split(row, beams) == None
  {
  }

  /** The loop over the beams of one row. */
  method SplitRow(row: seq<Cell>, beams: set<nat>) returns (r: Option<(set<nat>, nat)>)
    ensures r == Split(row, beams)
  {
    var rest := beams;
    var newBeams: set<nat> := {};
    var splits := 0;
    PartialStart(row);
    assert beams - rest == {};
    while rest != {}
      invariant rest <= beams
      invariant Partial(row, beams - rest, newBeams, splits)
      decreases |rest|
    {
      var b :| b in rest;
      if b >= |row| || (row[b] == Splitter && b == 0) {
        MisfitFails(row, beams, b);
        return None;
      }
      PartialStep(row, beams - rest, newBeams, splits, b);
      assert beams - (rest - {b}) == (beams - rest) + {b};
      if row[b] == Empty {
        newBeams := newBeams + {b};
      } else {
        newBeams := newBeams + {b - 1, b + 1};
        splits := splits + 1;
      }
      rest := rest - {b};
    }
    assert beams - rest == beams;
    PartialDone(row, beams, newBeams, splits);
    return Some((newBeams, splits));
  }

  // ---------------------------------------------------------------------------
  // Part one

  /** The beams and split count after the first `n` rows of `field`, starting from `beams`. */
  function RunOne(field: seq<seq<Cell>>, beams: set<nat>, n: nat): (r: Option<(set<nat>, nat)>)
    requires n <= |field|
  {
    if n == 0 then Some((beams, 0))
    else
      match RunOne(field, beams, n - 1)
      case None => None
      case Some((bs, c)) =>
        match Split(field[n - 1], bs)
        case None => None
        case Some((next, k)) => Some((next, c + k))
  }

  /** One more row of the run: the run fails with the row, or goes on with the row's new beams and splits. */
  lemma RunOneLast(field: seq<seq<Cell>>, beams: set<nat>, n: nat, bs: set<nat>, c: nat, step: Option<(set<nat>, nat)>)
    requires 1 <= n <= |field| && RunOne(field, beams, n - 1) == Some((bs, c))
    requires step == Split(field[n - 1], bs)
    ensures step.None? ==> RunOne(field, beams, |field|).None?
    ensures step.Some? ==> RunOne(field, beams, n) == Some((step.value.0, c + step.value.1))
  {
    if step.None? {
      RunOneStaysNone(field, beams, n);
    }
  }

  /** Once the first rows fail, the whole run fails. */
  lemma {:induction false} RunOneStaysNone(field: seq<seq<Cell>>, beams: set<nat>, i: nat)
    requires i <= |field| && RunOne(field, beams, i).None?
    ensures RunOne(field, beams, |field|).None?
    decreases |field| - i
  {
    if i < |field| {
      RunOneStaysNone(field, beams, i + 1);
    }
  }

  /** `solve_part1`: the number of splits, or nothing where the source panics. */
  method SolvePartOne(input: Input) returns (r: Option<nat>)
    ensures r.Some? <==> RunOne(input.field, {input.start}, |input.field|).Some?
    ensures r.Some? ==> r.value == RunOne(input.field, {input.start}, |input.field|).value.1
  {
    var beams: set<nat> := {input.start};
    var result := 0;
    var field := input.field;
    for i := 0 to |field|
      invariant RunOne(field, {input.start}, i) == Some((beams, result))
    {
      var step := SplitRow(field[i], beams);
      RunOneLast(field, {input.start}, i + 1, beams, result, step);
      if step.None? {
        return None;
      }
      beams := step.value.0;
      result := result + step.value.1;
    }
    return Some(result);
  }

  // ---------------------------------------------------------------------------
  // Part two

  /** Every row as wide as the first, the start inside, and no splitter on the border columns, which part two's table reads for every cell. */
  predicate Grid(field: seq<seq<Cell>>, start: nat)
  {
    |field| >= 1 && start < |field[0]|
    && (forall i :: 0 <= i < |field| ==> |field[i]| == |field[0]|)
    && (forall i, j :: 0 <= i < |field| && 0 <= j < |field[i]| && field[i][j] == Splitter ==> 1 <= j < |field[0]| - 1)
  }

  /** The number of timelines from column `j` of row `i` to the bottom. */
  function Ways(field: seq<seq<Cell>>, start: nat, i: nat, j: nat): (n: nat)
    requires Grid(field, start) && i <= |field| && j < |field[0]|
    ensures n >= 1
    decreases |field| - i
  {
    if i == |field| then 1
    else if field[i][j] == Empty then Ways(field, start, i + 1, j)
    else Ways(field, start, i + 1, j - 1) + Ways(field, start, i + 1, j + 1)
  }

  /** `row` holds the number of timelines from every column of row `k`. */
  predicate WaysRow(field: seq<seq<Cell>>, start: nat, k: nat, row: seq<nat>)
    requires Grid(field, start) && k <= |field|
  {
    |row| == |field[0]| && forall j :: 0 <= j < |row| ==> row[j] == Ways(field, start, k, j)
  }

  /** The inner loop of `solve_part2`: one row of the table from the row below it. */
  method FillRow(field: seq<seq<Cell>>, start: nat, i: nat, below: seq<nat>) returns (row: seq<nat>)
    requires Grid(field, start) && i < |field| && WaysRow(field, start, i + 1, below)
    ensures WaysRow(field, start, i, row)
  {
    var cols := |field[0]|;
    row := seq(cols, _ => 0);
    for j := 0 to cols
      invariant |row| == cols
      invariant forall c :: 0 <= c < j ==> row[c] == Ways(field, start, i, c)
    {
      match field[i][j] {
        case Empty =>
          row := row[j := below[j]];
        case Splitter =>
          row := row[j := below[j - 1] + below[j + 1]];
      }
    }
  }

  /** `solve_part2`: fill the table from the all-ones row below the field upwards. */
  method SolvePartTwo(input: Input) returns (count: nat)
    requires Grid(input.field, input.start)
    ensures count == Ways(input.field, input.start, 0, input.start)
  {
    var field, start := input.field, input.start;
    var rows := |field|;
    var cols := |field[0]|;
    var dp: seq<seq<nat>> := seq(rows, _ => seq(cols, _ => 0)) + [seq(cols, _ => 1)];
    for i := rows downto 0
      invariant |dp| == rows + 1
      invariant forall k :: i <= k <= rows ==> WaysRow(field, start, k, dp[k])
    {
      var row := FillRow(field, start, i, dp[i + 1]);
      dp := dp[i := row];
    }
    count := dp[0][start];
  }

  // ---------------------------------------------------------------------------
  // Timelines: both parts follow the same beams

  /** Every timeline's column fits `row`. */
  predicate AllFit(row: seq<Cell>, ts: seq<nat>)
  {
    forall k :: 0 <= k < |ts| ==> Fits(row, ts[k])
  }

  /** The timelines after one row, with repetitions: a split timeline becomes two. */
  function TStep(row: seq<Cell>, ts: seq<nat>): (r: seq<nat>)
    requires AllFit(row, ts)
  {
    if ts == [] then []
    else TStep(row, ts[..|ts| - 1]) + Out(row, ts[|ts| - 1])
  }

  /** The timelines after the first `n` rows. */
  function Timelines(field: seq<seq<Cell>>, start: nat, n: nat): (ts: seq<nat>)
    requires Grid(field, start) && n <= |field|
    ensures forall k :: 0 <= k < |ts| ==> ts[k] < |field[0]|
  {
    if n == 0 then [start]
    else
      var prev := Timelines(field, start, n - 1);
      GridFits(field, start, n - 1, prev);
      var r := TStep(field[n - 1], prev);
      TStepInside(field[n - 1], prev);
      r
  }

  lemma GridFits(field: seq<seq<Cell>>, start: nat, i: nat, ts: seq<nat>)
    requires Grid(field, start) && i < |field|
    requires forall k :: 0 <= k < |ts| ==> ts[k] < |field[0]|
    ensures AllFit(field[i], ts)
    ensures forall k :: 0 <= k < |ts| ==> field[i][ts[k]] == Splitter ==> ts[k] + 1 < |field[i]|
  {
  }

  lemma {:induction false} TStepInside(row: seq<Cell>, ts: seq<nat>)
    requires AllFit(row, ts)
    requires forall k :: 0 <= k < |ts| ==> row[ts[k]] == Splitter ==> ts[k] + 1 < |row|
    ensures forall k :: 0 <= k < |TStep(row, ts)| ==> TStep(row, ts)[k] < |row|
  {
    if ts != [] {
      TStepInside(row, ts[..|ts| - 1]);
    }
  }

  /** The total of `Ways` over the timelines in row `i`. */
  function SumWays(field: seq<seq<Cell>>, start: nat, i: nat, ts: seq<nat>): nat
    requires Grid(field, start) && i <= |field|
    requires forall k :: 0 <= k < |ts| ==> ts[k] < |field[0]|
  {
    if ts == [] then 0
    else SumWays(field, start, i, ts[..|ts| - 1]) + Ways(field, start, i, ts[|ts| - 1])
  }

  lemma {:induction false} SumWaysAppend(field: seq<seq<Cell>>, start: nat, i: nat, a: seq<nat>, b: seq<nat>)
    requires Grid(field, start) && i <= |field|
    requires forall k :: 0 <= k < |a| ==> a[k] < |field[0]|
    requires forall k :: 0 <= k < |b| ==> b[k] < |field[0]|
    ensures SumWays(field, start, i, a + b) == SumWays(field, start, i, a) + SumWays(field, start, i, b)
  {
    if b != [] {
      assert (a + b)[..|a + b| - 1] == a + b[..|b| - 1];
      SumWaysAppend(field, start, i, a, b[..|b| - 1]);
    } else {
      assert a + b == a;
    }
  }

  /** The two timelines leaving a splitter carry the splitter's timelines. */
  lemma SumWaysOut(field: seq<seq<Cell>>, start: nat, i: nat, t: nat)
    requires Grid(field, start) && i < |field| && t < |field[0]|
    ensures Fits(field[i], t)
    ensures forall k :: 0 <= k < |Out(field[i], t)| ==> Out(field[i], t)[k] < |field[0]|
    ensures SumWays(field, start, i + 1, Out(field[i], t)) == Ways(field, start, i, t)
  {
    var o := Out(field[i], t);
    if field[i][t] == Empty {
      assert o[..0] == [];
    } else {
      assert o[..1] == [t - 1] && o[..1][..0] == [];
      assert SumWays(field, start, i + 1, o[..1]) == Ways(field, start, i + 1, t - 1);
    }
  }

  /** Passing one row keeps the total of `Ways` over the timelines. */
  lemma {:induction false} SumWaysStep(field: seq<seq<Cell>>, start: nat, i: nat, ts: seq<nat>)
    requires Grid(field, start) && i < |field|
    requires forall k :: 0 <= k < |ts| ==> ts[k] < |field[0]|
    ensures AllFit(field[i], ts)
    decreases |ts|, 1
    ensures forall k :: 0 <= k < |TStep(field[i], ts)| ==> TStep(field[i], ts)[k] < |field[0]|
    ensures SumWays(field, start, i, ts) == SumWays(field, start, i + 1, TStep(field[i], ts))
  {
    GridFits(field, start, i, ts);
    TStepInside(field[i], ts);
    if ts != [] {
      SumWaysLast(field, start, i, ts);
    }
  }

  lemma {:induction false} SumWaysLast(field: seq<seq<Cell>>, start: nat, i: nat, ts: seq<nat>)
    requires Grid(field, start) && i < |field| && ts != []
    requires forall k :: 0 <= k < |ts| ==> ts[k] < |field[0]|
    requires AllFit(field[i], ts)
    requires forall k :: 0 <= k < |TStep(field[i], ts)| ==> TStep(field[i], ts)[k] < |field[0]|
    ensures SumWays(field, start, i, ts) == SumWays(field, start, i + 1, TStep(field[i], ts))
    decreases |ts|, 0
  {
    var init := ts[..|ts| - 1];
    var t := ts[|ts| - 1];
    assert forall k :: 0 <= k < |init| ==> init[k] == ts[k];
    SumWaysStep(field, start, i, init);
    SumWaysOut(field, start, i, t);
    var front := TStep(field[i], init);
    var back := Out(field[i], t);
    assert TStep(field[i], ts) == front + back;
    assert SumWays(field, start, i, ts) == SumWays(field, start, i, init) + Ways(field, start, i, t);
    SumWaysAppend(field, start, i + 1, front, back);
  }

  /** Over the bottom row every timeline counts once. */
  lemma {:induction false} SumWaysBottom(field: seq<seq<Cell>>, start: nat, ts: seq<nat>)
    requires Grid(field, start)
    requires forall k :: 0 <= k < |ts| ==> ts[k] < |field[0]|
    ensures SumWays(field, start, |field|, ts) == |ts|
  {
    if ts != [] {
      SumWaysBottom(field, start, ts[..|ts| - 1]);
    }
  }

  lemma {:induction false} SumWaysAfter(field: seq<seq<Cell>>, start: nat, n: nat)
    requires Grid(field, start) && n <= |field|
    ensures SumWays(field, start, n, Timelines(field, start, n)) == Ways(field, start, 0, start)
  {
    if n == 0 {
      assert [start][..0] == [];
    } else {
      var prev := Timelines(field, start, n - 1);
      SumWaysAfter(field, start, n - 1);
      SumWaysStep(field, start, n - 1, prev);
      assert Timelines(field, start, n) == TStep(field[n - 1], prev);
    }
  }

  /** Part two counts the timelines that leave the bottom of the field. */
  lemma WaysCountsTimelines(field: seq<seq<Cell>>, start: nat)
    requires Grid(field, start)
    ensures Ways(field, start, 0, start) == |Timelines(field, start, |field|)|
  {
    SumWaysAfter(field, start, |field|);
    SumWaysBottom(field, start, Timelines(field, start, |field|));
  }

  // ---------------------------------------------------------------------------
  // Part one follows the distinct timelines

  function Elems(ts: seq<nat>): set<nat>
  {
    set t | t in ts
  }

  /** The splitters hit by the timelines, with repetitions. */
  function Splits(row: seq<Cell>, ts: seq<nat>): nat
    requires forall k :: 0 <= k < |ts| ==> ts[k] < |row|
  {
    if ts == [] then 0
    else Splits(row, ts[..|ts| - 1]) + if row[ts[|ts| - 1]] == Splitter then 1 else 0
  }

  lemma {:induction false} TStepMembers(row: seq<Cell>, ts: seq<nat>)
    requires AllFit(row, ts)
    ensures forall x :: x in TStep(row, ts) <==> exists k :: 0 <= k < |ts| && x in Out(row, ts[k])
  {
    if ts != [] {
      TStepMembers(row, ts[..|ts| - 1]);
      assert forall k :: 0 <= k < |ts| - 1 ==> ts[..|ts| - 1][k] == ts[k];
    }
  }

  /** Each split adds one timeline. */
  lemma {:induction false} TStepLength(row: seq<Cell>, ts: seq<nat>)
    requires AllFit(row, ts)
    ensures |TStep(row, ts)| == |ts| + Splits(row, ts)
  {
    if ts != [] {
      TStepLength(row, ts[..|ts| - 1]);
    }
  }

  /** Each beam on a splitter is at least one timeline on it. */
  lemma {:induction false} HitsBelowSplits(row: seq<Cell>, ts: seq<nat>)
    requires forall k :: 0 <= k < |ts| ==> ts[k] < |row|
    ensures |Hits(row, Elems(ts))| <= Splits(row, ts)
  {
    if ts != [] {
      var init := ts[..|ts| - 1];
      var t := ts[|ts| - 1];
      HitsBelowSplits(row, init);
      assert Elems(ts) == Elems(init) + {t};
      if row[t] == Splitter {
        assert Hits(row, Elems(ts)) <= Hits(row, Elems(init)) + {t};
        SubsetCard(Hits(row, Elems(ts)), Hits(row, Elems(init)) + {t});
      } else {
        assert Hits(row, Elems(ts)) == Hits(row, Elems(init));
      }
    } else {
      assert Elems(ts) == {};
    }
  }

  /** One row of part one moves the distinct timelines to the distinct timelines after the row. */
  lemma SplitOfElems(row: seq<Cell>, ts: seq<nat>)
    requires AllFit(row, ts)
    ensures Split(row, Elems(ts)).Some?
    ensures Split(row, Elems(ts)).value.0 == Elems(TStep(row, ts))
    ensures Split(row, Elems(ts)).value.1 + |ts| <= |TStep(row, ts)|
  {
    TStepMembers(row, ts);
    TStepLength(row, ts);
    HitsBelowSplits(row, ts);
    forall x
      ensures x in Image(row, Elems(ts)) <==> x in Elems(TStep(row, ts))
    {
      if x in Image(row, Elems(ts)) {
        var b :| b in Elems(ts) && x in Out(row, b);
        var k :| 0 <= k < |ts| && ts[k] == b;
      }
    }
  }

  /** After `n` rows part one's beams are the distinct timelines, and its splits are fewer than the timelines. */
  predicate Follows(field: seq<seq<Cell>>, start: nat, n: nat)
    requires Grid(field, start) && n <= |field|
  {
    var run := RunOne(field, {start}, n);
    run.Some? && run.value.0 == Elems(Timelines(field, start, n))
    && run.value.1 + 1 <= |Timelines(field, start, n)|
  }

  lemma FollowsStart(field: seq<seq<Cell>>, start: nat)
    requires Grid(field, start)
    ensures Follows(field, start, 0)
  {
    assert Elems([start]) == {start};
  }

  lemma FollowsStep(field: seq<seq<Cell>>, start: nat, n: nat)
    requires Grid(field, start) && 1 <= n <= |field| && Follows(field, start, n - 1)
    ensures Follows(field, start, n)
  {
    var prev := Timelines(field, start, n - 1);
    GridFits(field, start, n - 1, prev);
    SplitOfElems(field[n - 1], prev);
    var run := RunOne(field, {start}, n - 1).value;
    RunOneLast(field, {start}, n, run.0, run.1, Split(field[n - 1], run.0));
  }

  /** Part one's beams are the distinct timelines, and its splits are fewer than the timelines. */
  lemma {:induction false} RunOneFollowsTimelines(field: seq<seq<Cell>>, start: nat, n: nat)
    requires Grid(field, start) && n <= |field|
    ensures Follows(field, start, n)
  {
    if n == 0 {
      FollowsStart(field, start);
    } else {
      RunOneFollowsTimelines(field, start, n - 1);
      FollowsStep(field, start, n);
    }
  }

  /** On a field that part two accepts, part one does not fail and counts fewer splits than part two counts timelines. */
  lemma PartOneBelowPartTwo(input: Input)
    requires Grid(input.field, input.start)
    ensures RunOne(input.field, {input.start}, |input.field|).Some?
    ensures RunOne(input.field, {input.start}, |input.field|).value.1 + 1 <= Ways(input.field, input.start, 0, input.start)
  {
    RunOneFollowsTimelines(input.field, input.start, |input.field|);
    WaysCountsTimelines(input.field, input.start);
  }
}
