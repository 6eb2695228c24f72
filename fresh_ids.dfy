/**
 * 2025 day 5: a list of inclusive id ranges and a list of ids. Part one
 * counts the ids that lie in some range; part two merges overlapping ranges
 * until no two overlap and counts the ids the ranges cover.
 */
module FreshIds {
  import opened Text

  datatype Range = Range(from: nat, to: nat)

  datatype Input = Input(ranges: seq<Range>, ids: seq<nat>)

  // ---------------------------------------------------------------------------
  // Parsing

  /** A range line: two numbers around the first `-`. */
  function ParseRange(line: string): (r: Option<Range>)
    ensures r.Some? <==> SplitOnce(line, "-").Some?
                         && ParseNat(SplitOnce(line, "-").value.0).Some?
                         && ParseNat(SplitOnce(line, "-").value.1).Some?
    ensures r.Some? ==> exists lhs, rhs :: line == lhs + "-" + rhs
                                         && ParseNat(lhs) == Some(r.value.from)
                                         && ParseNat(rhs) == Some(r.value.to)
  {
    match SplitOnce(line, "-")
    case None => None
    case Some((lhs, rhs)) =>
      match (ParseNat(lhs), ParseNat(rhs))
      case (Some(a), Some(b)) => Some(Range(a, b))
      case _ => None
  }

  function ParseRanges(lines: seq<string>): (r: Option<seq<Range>>)
    ensures r.Some? <==> forall k :: 0 <= k < |lines| ==> ParseRange(lines[k]).Some?
    ensures r.Some? ==> |r.value| == |lines| && forall k :: 0 <= k < |lines| ==> ParseRange(lines[k]) == Some(r.value[k])
  {
    if lines == [] then Some([])
    else
      match (ParseRange(lines[0]), ParseRanges(lines[1..]))
      case (Some(x), Some(rest)) => Some([x] + rest)
      case _ => None
  }

  function ParseIds(lines: seq<string>): (r: Option<seq<nat>>)
    ensures r.Some? <==> forall k :: 0 <= k < |lines| ==> ParseNat(lines[k]).Some?
    ensures r.Some? ==> |r.value| == |lines| && forall k :: 0 <= k < |lines| ==> ParseNat(lines[k]) == Some(r.value[k])
  {
    if lines == [] then Some([])
    else
      match (ParseNat(lines[0]), ParseIds(lines[1..]))
      case (Some(x), Some(rest)) => Some([x] + rest)
      case _ => None
  }

  /** `parse_from`: the ranges, a blank line, then the ids; without a blank line parsing fails. */
  function ParseInput(s: string): (r: Option<Input>)
    ensures SplitOnce(s, "\n\n").None? ==> r.None?
    ensures r.Some? ==> var (a, b) := SplitOnce(s, "\n\n").value;
                        ParseRanges(Lines(a)) == Some(r.value.ranges) && ParseIds(Lines(b)) == Some(r.value.ids)
  {
    match SplitOnce(s, "\n\n")
    case None => None
    case Some((a, b)) =>
      match (ParseRanges(Lines(a)), ParseIds(Lines(b)))
      case (Some(ranges), Some(ids)) => Some(Input(ranges, ids))
      case _ => None
  }

  // ---------------------------------------------------------------------------
  // Part one

  predicate InRange(r: Range, x: int)
  {
    r.from <= x <= r.to
  }

  /** Some range holds `x`. */
  predicate Covered(ranges: seq<Range>, x: int)
  {
    exists k :: 0 <= k < |ranges| && InRange(ranges[k], x)
  }

  /** Part one: the number of ids that lie in some range. */
  function CountFresh(ids: seq<nat>, ranges: seq<Range>): (n: nat)
    ensures n <= |ids|
  {
    if ids == [] then 0
    else CountFresh(ids[..|ids| - 1], ranges) + if Covered(ranges, ids[|ids| - 1]) then 1 else 0
  }

  /** The count is the number of positions holding a covered id. */
  lemma {:induction false} CountFreshPositions(ids: seq<nat>, ranges: seq<Range>)
    ensures CountFresh(ids, ranges) == |set k | 0 <= k < |ids| && Covered(ranges, ids[k])|
  {
    if ids != [] {
      var init := ids[..|ids| - 1];
      CountFreshPositions(init, ranges);
      var before := set k | 0 <= k < |init| && Covered(ranges, init[k]);
      var after := set k | 0 <= k < |ids| && Covered(ranges, ids[k]);
      if Covered(ranges, ids[|ids| - 1]) {
        assert after == before + {|ids| - 1};
      } else {
        assert after == before;
      }
    }
  }

  /** Ranges covering the same ids give the same count. */
  lemma {:induction false} CountFreshSameCover(ids: seq<nat>, a: seq<Range>, b: seq<Range>)
    requires forall x :: Covered(a, x) <==> Covered(b, x)
    ensures CountFresh(ids, a) == CountFresh(ids, b)
  {
    if ids != [] {
      CountFreshSameCover(ids[..|ids| - 1], a, b);
    }
  }

  // ---------------------------------------------------------------------------
  // Part two

  /** `merge`: the hull of two ranges that overlap or touch at an id, and nothing otherwise. */
  function Merge(r1: Range, r2: Range): (r: Option<Range>)
    ensures r.None? <==> r1.to < r2.from || r2.to < r1.from
    ensures r.Some? ==> r.value.from == Min(r1.from, r2.from) && r.value.to == Max(r1.to, r2.to)
  {
    if r1.to < r2.from || r2.to < r1.from then None
    else Some(Range(Min(r1.from, r2.from), Max(r1.to, r2.to)))
  }

  function Min(a: nat, b: nat): nat { if a <= b then a else b }

  function Max(a: nat, b: nat): nat { if a >= b then a else b }

  /** Merging well-formed ranges covers exactly what the two covered. */
  lemma MergeCovers(r1: Range, r2: Range, x: int)
    requires r1.from <= r1.to && r2.from <= r2.to && Merge(r1, r2).Some?
    ensures InRange(Merge(r1, r2).value, x) <==> InRange(r1, x) || InRange(r2, x)
  {
  }

  predicate WellFormed(ranges: seq<Range>)
  {
    forall k :: 0 <= k < |ranges| ==> ranges[k].from <= ranges[k].to
  }

  /** No two ranges can be merged. */
  predicate Separate(ranges: seq<Range>)
  {
    forall i, j :: 0 <= i < j < |ranges| ==> Merge(ranges[i], ranges[j]).None?
  }

  /** The nested `for` loops: the first pair `i < j`, in order, that merges. */
  method FindMergeable(ranges: seq<Range>) returns (found: Option<(nat, nat)>)
    ensures found.None? ==> Separate(ranges)
    ensures found.Some? ==> var (i, j) := found.value;
                            i < j < |ranges| && Merge(ranges[i], ranges[j]).Some?
  {
    for i := 0 to |ranges|
      invariant forall a, b :: 0 <= a < b < |ranges| && a < i ==> Merge(ranges[a], ranges[b]).None?
    {
      for j := i + 1 to |ranges|
        invariant forall b :: i < b < j ==> Merge(ranges[i], ranges[b]).None?
      {
        if Merge(ranges[i], ranges[j]).Some? {
          return Some((i, j));
        }
      }
    }
    return None;
  }

  /** `ranges.remove(j); ranges.remove(i); ranges.push(new_range)` for `i < j`. */
  function Replace(ranges: seq<Range>, i: nat, j: nat, r: Range): (rs: seq<Range>)
    requires i < j < |ranges|
    ensures |rs| == |ranges| - 1
  {
    ranges[..i] + ranges[i + 1..j] + ranges[j + 1..] + [r]
  }

  /** Replacing two overlapping ranges by their hull keeps the ranges well formed and the covered ids. */
  lemma ReplaceCovers(ranges: seq<Range>, i: nat, j: nat)
    requires i < j < |ranges| && WellFormed(ranges) && Merge(ranges[i], ranges[j]).Some?
    ensures var rs := Replace(ranges, i, j, Merge(ranges[i], ranges[j]).value);
            WellFormed(rs) && forall x :: Covered(rs, x) <==> Covered(ranges, x)
  {
    var m := Merge(ranges[i], ranges[j]).value;
    var rs := Replace(ranges, i, j, m);
    var n := |ranges|;
    assert forall k :: 0 <= k < i ==> rs[k] == ranges[k];
    assert forall k :: i <= k < j - 1 ==> rs[k] == ranges[k + 1];
    assert forall k :: j - 1 <= k < n - 2 ==> rs[k] == ranges[k + 2];
    assert rs[n - 2] == m;
    forall x
      ensures Covered(rs, x) <==> Covered(ranges, x)
    {
      MergeCovers(ranges[i], ranges[j], x);
      if Covered(ranges, x) {
        var k :| 0 <= k < n && InRange(ranges[k], x);
        if k == i || k == j {
          assert InRange(rs[n - 2], x);
        } else if k < i {
          assert InRange(rs[k], x);
        } else if k < j {
          assert InRange(rs[k - 1], x);
        } else {
          assert InRange(rs[k - 2], x);
        }
      }
      if Covered(rs, x) {
        var k :| 0 <= k < n - 1 && InRange(rs[k], x);
        if k == n - 2 {
          assert InRange(ranges[i], x) || InRange(ranges[j], x);
        } else if k < i {
          assert InRange(ranges[k], x);
        } else if k < j - 1 {
          assert InRange(ranges[k + 1], x);
        } else {
          assert InRange(ranges[k + 2], x);
        }
      }
    }
  }

  /** The labelled loop: merge the first mergeable pair until there is none. */
  method MergeAll(ranges: seq<Range>) returns (merged: seq<Range>)
    requires WellFormed(ranges)
    ensures WellFormed(merged) && Separate(merged)
    ensures forall x :: Covered(merged, x) <==> Covered(ranges, x)
  {
    merged := ranges;
    while true
      invariant WellFormed(merged)
      invariant forall x :: Covered(merged, x) <==> Covered(ranges, x)
      decreases |merged|
    {
      var found := FindMergeable(merged);
      if found.None? {
        break;
      }
      var (i, j) := found.value;
      var m := Merge(merged[i], merged[j]).value;
      ReplaceCovers(merged, i, j);
      merged := Replace(merged, i, j, m);
    }
  }

  /** The sum of the range sizes `to - from + 1`. */
  function TotalLength(ranges: seq<Range>): (n: int)
  {
    if ranges == [] then 0
    else
      var r := ranges[|ranges| - 1];
      TotalLength(ranges[..|ranges| - 1]) + (r.to - r.from + 1)
  }

  /** The ids one range holds. */
  ghost function Ids(r: Range): (s: set<int>)
    ensures forall x :: x in s <==> InRange(r, x)
  {
    Span(r.from, r.to)
  }

  ghost function Span(lo: int, hi: int): (s: set<int>)
    ensures forall x :: x in s <==> lo <= x <= hi
    decreases hi - lo
  {
    if hi < lo then {} else Span(lo, hi - 1) + {hi}
  }

  /** The ids some range holds. */
  ghost function Union(ranges: seq<Range>): (u: set<int>)
    ensures forall x :: x in u <==> Covered(ranges, x)
  {
    if ranges == [] then {}
    else
      var init := ranges[..|ranges| - 1];
      var u := Union(init) + Ids(ranges[|ranges| - 1]);
      assert forall x :: Covered(ranges, x) <==> Covered(init, x) || InRange(ranges[|ranges| - 1], x) by {
        forall x ensures Covered(ranges, x) <==> Covered(init, x) || InRange(ranges[|ranges| - 1], x) {
          if Covered(ranges, x) {
            var k :| 0 <= k < |ranges| && InRange(ranges[k], x);
            if k < |init| {
              assert InRange(init[k], x);
            }
          }
          if Covered(init, x) {
            var k :| 0 <= k < |init| && InRange(init[k], x);
            assert InRange(ranges[k], x);
          }
        }
      }
      u
  }

  lemma IdsSize(r: Range)
    requires r.from <= r.to
    ensures |Ids(r)| == r.to - r.from + 1
  {
    SpanSize(r.from, r.to);
  }

  lemma {:induction false} SpanSize(lo: int, hi: int)
    requires lo <= hi + 1
    ensures |Span(lo, hi)| == hi - lo + 1
    decreases hi - lo
  {
    if lo <= hi {
      SpanSize(lo, hi - 1);
    }
  }

  /** For separate well-formed ranges the summed sizes count the covered ids. */
  lemma {:induction false} LengthCountsIds(ranges: seq<Range>)
    requires WellFormed(ranges) && Separate(ranges)
    ensures TotalLength(ranges) == |Union(ranges)|
  {
    if ranges != [] {
      var init := ranges[..|ranges| - 1];
      var last := ranges[|ranges| - 1];
      assert WellFormed(init) && Separate(init);
      LengthCountsIds(init);
      IdsSize(last);
      LastApart(ranges);
      assert Union(ranges) == Union(init) + Ids(last);
    }
  }

  /** The last of separate ranges shares no id with the others. */
  lemma LastApart(ranges: seq<Range>)
    requires Separate(ranges) && ranges != []
    ensures Union(ranges[..|ranges| - 1]) * Ids(ranges[|ranges| - 1]) == {}
  {
    var init := ranges[..|ranges| - 1];
    forall x | x in Union(init)
      ensures x !in Ids(ranges[|ranges| - 1])
    {
      var k :| 0 <= k < |init| && InRange(init[k], x);
      assert Merge(ranges[k], ranges[|ranges| - 1]).None?;
    }
  }

  /** Part two: merge, then sum the sizes. */
  method SolvePartTwo(ranges: seq<Range>) returns (total: int)
    requires WellFormed(ranges)
    ensures total == |Union(ranges)|
  {
    var merged := MergeAll(ranges);
    total := TotalLength(merged);
    LengthCountsIds(merged);
    assert Union(merged) == Union(ranges);
  }

  /** `solve` for either part. */
  method Solve(input: Input, isPart1: bool) returns (answer: int)
    requires !isPart1 ==> WellFormed(input.ranges)
    ensures isPart1 ==> answer == CountFresh(input.ids, input.ranges)
    ensures !isPart1 ==> answer == |Union(input.ranges)|
  {
    if isPart1 {
      answer := CountFresh(input.ids, input.ranges);
    } else {
      answer := SolvePartTwo(input.ranges);
    }
  }
}
