/**
 * 2025 day 3: each bank of batteries is a line of joltage digits. Part one
 * picks two batteries in order and reads their digits as a two-digit number;
 * part two picks twelve. Each bank contributes its largest such number.
 */
module Batteries {
  import opened Text

  /** Every entry is a decimal digit. */
  predicate IsDigitSeq(d: seq<nat>)
  {
    forall k :: 0 <= k < |d| ==> d[k] < 10
  }

  /** No entry is 0. */
  predicate Positive(d: seq<nat>)
  {
    forall k :: 0 <= k < |d| ==> 1 <= d[k]
  }

  /** One line: the value of each character as a digit. */
  function ParseBank(line: string): (r: Option<seq<nat>>)
    ensures r.Some? <==> AllDigits(line)
    ensures r.Some? ==> |r.value| == |line| && IsDigitSeq(r.value)
    ensures r.Some? ==> forall k :: 0 <= k < |line| ==> r.value[k] == DigitValue(line[k])
  {
    if line == [] then Some([])
    else if !IsDigit(line[0]) then None
    else
      match ParseBank(line[1..])
      case None => None
      case Some(rest) => Some([DigitValue(line[0])] + rest)
  }

  /** `parse_from`: one bank per line. */
  function ParseBanks(lines: seq<string>): (r: Option<seq<seq<nat>>>)
    ensures r.Some? <==> forall k :: 0 <= k < |lines| ==> AllDigits(lines[k])
    ensures r.Some? ==> |r.value| == |lines| && forall k :: 0 <= k < |lines| ==> ParseBank(lines[k]) == Some(r.value[k])
  {
    if lines == [] then Some([])
    else
      match (ParseBank(lines[0]), ParseBanks(lines[1..]))
      case (Some(x), Some(rest)) => Some([x] + rest)
      case _ => None
  }

  function ParseInput(s: string): Option<seq<seq<nat>>>
  {
    ParseBanks(Lines(s))
  }

  // ---------------------------------------------------------------------------
  // Decimal arithmetic

  const U64Max: nat := 0xFFFF_FFFF_FFFF_FFFF

  /**
   * `concat`: the number spelled by the digits of `a` followed by those of
   * `b`, or 0 when that does not fit in 64 bits and the parse fails.
   */
  function Concat(a: nat, b: nat): (r: nat)
    ensures r <= U64Max
  {
    var v := Shift(a, Width(b)) + b;
    if v <= U64Max then v else 0
  }

  lemma ConcatSpelling(a: nat, b: nat)
    ensures AllDigits(NatToString(a) + NatToString(b))
    ensures var v := DigitsValue(NatToString(a) + NatToString(b));
            Concat(a, b) == if v <= U64Max then v else 0
  {
    DigitsValueConcat(NatToString(a), NatToString(b));
    DigitsValueOfNatToString(a);
    DigitsValueOfNatToString(b);
  }

  // ---------------------------------------------------------------------------
  // Choosing digits in order

  /** The value of a digit sequence, most significant first. */
  function Num(t: seq<nat>): nat
  {
    if t == [] then 0 else Shift(t[0], |t| - 1) + Num(t[1..])
  }

  lemma {:induction false} NumBelow(t: seq<nat>)
    requires IsDigitSeq(t)
    ensures Num(t) < Pow10(|t|)
  {
    if t != [] {
      NumBelow(t[1..]);
      DigitShift(t[0], |t| - 1);
    }
  }

  lemma NumAtLeast(t: seq<nat>)
    requires Positive(t) && IsDigitSeq(t) && t != []
    ensures Pow10(|t| - 1) <= Num(t)
  {
    DigitShift(t[0], |t| - 1);
  }

  /** `t` is `s` with some entries left out. */
  predicate IsSubseq(t: seq<nat>, s: seq<nat>)
    decreases |s|
  {
    if t == [] then true
    else if s == [] then false
    else (t[0] == s[0] && IsSubseq(t[1..], s[1..])) || IsSubseq(t, s[1..])
  }

  lemma {:induction false} SubseqDigits(t: seq<nat>, s: seq<nat>)
    requires IsSubseq(t, s) && IsDigitSeq(s)
    ensures IsDigitSeq(t) && |t| <= |s|
    decreases |s|
  {
    if t != [] {
      if t[0] == s[0] && IsSubseq(t[1..], s[1..]) {
        SubseqDigits(t[1..], s[1..]);
      } else {
        SubseqDigits(t, s[1..]);
      }
    }
  }

  /**
   * The largest number spelled by `k` digits of `s` kept in order, or by all
   * of `s` when it is shorter than `k`: the intended answer for one bank.
   */
  function Pick(s: seq<nat>, k: nat): nat
    decreases |s|
  {
    if k == 0 || s == [] then 0
    else if |s| <= k then Num(s)
    else Max(Pick(s[1..], k), Shift(s[0], k - 1) + Pick(s[1..], k - 1))
  }

  function Max(a: nat, b: nat): nat
  {
    if a >= b then a else b
  }

  lemma PickAll(s: seq<nat>, k: nat)
    requires |s| <= k
    ensures Pick(s, k) == Num(s)
  {
  }

  /** No choice of `k` digits in order spells more than `Pick`. */
  lemma {:induction false} PickMaximal(s: seq<nat>, k: nat, t: seq<nat>)
    requires IsSubseq(t, s) && |t| == k
    ensures Num(t) <= Pick(s, k)
    decreases |s|
  {
    if t != [] {
      if t[0] == s[0] && IsSubseq(t[1..], s[1..]) {
        PickMaximal(s[1..], k - 1, t[1..]);
        SubseqLength(t, s);
        if |s| <= k {
          PickAll(s[1..], k - 1);
        }
      } else {
        PickMaximal(s[1..], k, t);
        SubseqLength(t, s[1..]);
      }
    }
  }

  lemma {:induction false} SubseqLength(t: seq<nat>, s: seq<nat>)
    requires IsSubseq(t, s)
    ensures |t| <= |s|
    decreases |s|
  {
    if t != [] {
      if t[0] == s[0] && IsSubseq(t[1..], s[1..]) {
        SubseqLength(t[1..], s[1..]);
      } else {
        SubseqLength(t, s[1..]);
      }
    }
  }

  /** Some choice of `k` digits in order spells exactly `Pick`. */
  lemma {:induction false} PickAttained(s: seq<nat>, k: nat)
    requires k <= |s|
    ensures exists t :: IsSubseq(t, s) && |t| == k && Num(t) == Pick(s, k)
    decreases |s|
  {
    if k == 0 {
      assert IsSubseq([], s) && Num([]) == 0;
    } else if |s| == k {
      SubseqSelf(s);
    } else if Pick(s[1..], k) >= Shift(s[0], k - 1) + Pick(s[1..], k - 1) {
      PickAttained(s[1..], k);
      var t :| IsSubseq(t, s[1..]) && |t| == k && Num(t) == Pick(s[1..], k);
      assert IsSubseq(t, s);
    } else {
      PickAttained(s[1..], k - 1);
      var t :| IsSubseq(t, s[1..]) && |t| == k - 1 && Num(t) == Pick(s[1..], k - 1);
      var t' := [s[0]] + t;
      assert t'[1..] == t;
      assert IsSubseq(t', s);
    }
  }

  lemma {:induction false} SubseqSelf(s: seq<nat>)
    ensures IsSubseq(s, s)
  {
    if s != [] {
      SubseqSelf(s[1..]);
    }
  }

  // ---------------------------------------------------------------------------
  // Part one

  /** `solve1`'s answer: the best two-digit number, or 0 for fewer than two digits. */
  function PairValue(d: seq<nat>): nat
  {
    if |d| < 2 then 0 else Pick(d, 2)
  }

  /** `solve1`: try every pair `i < j`, keeping the largest `10 * d[i] + d[j]`. */
  method SolveOne(d: seq<nat>) returns (max: nat)
    requires IsDigitSeq(d)
    ensures forall i, j :: 0 <= i < j < |d| ==> 10 * d[i] + d[j] <= max
    ensures |d| >= 2 ==> exists i, j :: 0 <= i < j < |d| && max == 10 * d[i] + d[j]
    ensures |d| < 2 ==> max == 0
    ensures max == PairValue(d)
  {
    max := 0;
    for i := 0 to |d|
      invariant forall a, b :: 0 <= a < b < |d| && a < i ==> 10 * d[a] + d[b] <= max
      invariant max == 0 || exists a, b :: 0 <= a < b < |d| && max == 10 * d[a] + d[b]
      invariant |d| < 2 ==> max == 0
    {
      for j := i + 1 to |d|
        invariant forall a, b :: 0 <= a < b < |d| && a < i ==> 10 * d[a] + d[b] <= max
        invariant forall b :: i < b < j ==> 10 * d[i] + d[b] <= max
        invariant max == 0 || exists a, b :: 0 <= a < b < |d| && max == 10 * d[a] + d[b]
      {
        var here := 10 * d[i] + d[j];
        if here > max {
          max := here;
        }
      }
    }
    if |d| >= 2 && max == 0 {
      assert 10 * d[0] + d[1] <= max;
    }
    PairValueIsBestPair(d, max);
  }

  /** A pair of positions, in order, is a two-digit choice. */
  lemma {:induction false} PairSubseq(s: seq<nat>, i: nat, j: nat)
    requires i < j < |s|
    ensures IsSubseq([s[i], s[j]], s)
    decreases |s|
  {
    if i > 0 {
      PairSubseq(s[1..], i - 1, j - 1);
    } else {
      assert [s[i], s[j]][1..] == [s[j]];
      SingleSubseq(s[1..], j - 1);
    }
  }

  lemma {:induction false} SingleSubseq(s: seq<nat>, j: nat)
    requires j < |s|
    ensures IsSubseq([s[j]], s)
    decreases |s|
  {
    if j > 0 {
      SingleSubseq(s[1..], j - 1);
    } else {
      assert [s[0]][1..] == [];
    }
  }

  /** A two-digit choice comes from a pair of positions in order. */
  lemma {:induction false} SubseqPair(t: seq<nat>, s: seq<nat>)
    requires IsSubseq(t, s) && |t| == 2
    ensures exists i, j :: 0 <= i < j < |s| && t == [s[i], s[j]]
    decreases |s|
  {
    if t[0] == s[0] && IsSubseq(t[1..], s[1..]) {
      SubseqSingle(t[1..], s[1..]);
      var j :| 0 <= j < |s[1..]| && t[1..] == [s[1..][j]];
      assert t == [s[0], s[j + 1]];
    } else {
      SubseqPair(t, s[1..]);
      var i, j :| 0 <= i < j < |s[1..]| && t == [s[1..][i], s[1..][j]];
      assert t == [s[i + 1], s[j + 1]];
    }
  }

  lemma {:induction false} SubseqSingle(t: seq<nat>, s: seq<nat>)
    requires IsSubseq(t, s) && |t| == 1
    ensures exists j :: 0 <= j < |s| && t == [s[j]]
    decreases |s|
  {
    if t[0] == s[0] && IsSubseq(t[1..], s[1..]) {
      assert t == [s[0]];
    } else {
      SubseqSingle(t, s[1..]);
      var j :| 0 <= j < |s[1..]| && t == [s[1..][j]];
      assert t == [s[j + 1]];
    }
  }

  /** The largest value over the pairs is `Pick(d, 2)`. */
  lemma PairValueIsBestPair(d: seq<nat>, max: nat)
    requires forall i, j :: 0 <= i < j < |d| ==> 10 * d[i] + d[j] <= max
    requires |d| >= 2 ==> exists i, j :: 0 <= i < j < |d| && max == 10 * d[i] + d[j]
    requires |d| < 2 ==> max == 0
    ensures max == PairValue(d)
  {
    if |d| >= 2 {
      var i, j :| 0 <= i < j < |d| && max == 10 * d[i] + d[j];
      PairSubseq(d, i, j);
      PickMaximal(d, 2, [d[i], d[j]]);
      PickAttained(d, 2);
      var t :| IsSubseq(t, d) && |t| == 2 && Num(t) == Pick(d, 2);
      SubseqPair(t, d);
      var a, b :| 0 <= a < b < |d| && t == [d[a], d[b]];
      NumPair(d[a], d[b]);
      NumPair(d[i], d[j]);
    }
  }

  lemma NumPair(a: nat, b: nat)
    ensures Num([a, b]) == 10 * a + b
  {
    assert [a, b][1..] == [b];
    assert [b][1..] == [];
    assert Shift(a, 1) == 10 * a;
    assert Num([b]) == b;
  }

  // ---------------------------------------------------------------------------
  // Part two, as written

  /** `dp2[i]` after the backward sweep of one round over the previous round's `prev`. */
  function Cell(d: seq<nat>, prev: seq<nat>, i: nat): nat
    requires |prev| == |d| + 1 && i <= |d|
    decreases |d| - i
  {
    if i == |d| then 0 else Max(Cell(d, prev, i + 1), Concat(d[i], prev[i + 1]))
  }

  /** The table after `t` rounds, starting from all zeros. */
  function Rounds(d: seq<nat>, t: nat): (dp: seq<nat>)
    ensures |dp| == |d| + 1
  {
    if t == 0 then seq(|d| + 1, _ => 0)
    else
      var prev := Rounds(d, t - 1);
      seq(|d| + 1, i requires 0 <= i <= |d| => Cell(d, prev, i))
  }

  /** `solve1_2` as written: twelve rounds, then the first entry without its last digit. */
  function JoltageAsWritten(d: seq<nat>): (r: nat)
    ensures IsDigitSeq(d) && Positive(d) ==> r == Pick(d, 12)
  {
    if IsDigitSeq(d) && Positive(d) then
      RoundsArePick(d, 12, 0);
      assert d[0..] == d;
      Rounds(d, 12)[0] / 10
    else Rounds(d, 12)[0] / 10
  }

  /** `solve1_2`: twelve rounds of the backward sweep. */
  method SolveTwo(d: seq<nat>) returns (r: nat)
    ensures r == JoltageAsWritten(d)
    ensures IsDigitSeq(d) && Positive(d) ==> r == Pick(d, 12)
  {
    var dp: seq<nat> := seq(|d| + 1, _ => 0);
    for x := 0 to 12
      invariant dp == Rounds(d, x)
    {
      var dp2: seq<nat> := seq(|d| + 1, _ => 0);
      for i := |d| downto 0
        invariant |dp2| == |d| + 1
        invariant forall j :: i <= j <= |d| ==> dp2[j] == Cell(d, dp, j)
        invariant forall j :: 0 <= j < i ==> dp2[j] == 0
      {
        dp2 := dp2[i := dp2[i + 1]];
        dp2 := dp2[i := Max(dp2[i], Concat(d[i], dp[i + 1]))];
      }
      dp := dp2;
    }
    r := dp[0] / 10;
    if IsDigitSeq(d) && Positive(d) {
      JoltageIsPick(d);
    }
  }

  /** With digits 1 to 9, each round's entry is ten times the best choice from that position on. */
  lemma {:induction false} RoundsArePick(d: seq<nat>, t: nat, i: nat)
    requires IsDigitSeq(d) && Positive(d) && t <= 12 && i <= |d|
    ensures Rounds(d, t)[i] == 10 * Pick(d[i..], t)
    decreases t, |d| - i
  {
    if t > 0 && i < |d| {
      var prev := Rounds(d, t - 1);
      RoundsArePick(d, t, i + 1);
      RoundsArePick(d, t - 1, i + 1);
      assert d[i..][1..] == d[i + 1..];
      PickStep(d[i..], t);
      assert Rounds(d, t)[i] == Cell(d, prev, i);
      assert Rounds(d, t)[i + 1] == Cell(d, prev, i + 1);
    }
  }

  /** One step of the sweep matches one step of `Pick`. */
  lemma PickStep(s: seq<nat>, t: nat)
    requires IsDigitSeq(s) && Positive(s) && s != [] && 1 <= t <= 12
    ensures Max(10 * Pick(s[1..], t), Concat(s[0], 10 * Pick(s[1..], t - 1))) == 10 * Pick(s, t)
  {
    var rest := s[1..];
    ConcatScaled(s[0], rest, t - 1);
    if |s| <= t {
      TakeAllStep(s, t);
    }
  }

  /** When the bank is no longer than `t`, keeping its first digit beats dropping it. */
  lemma TakeAllStep(s: seq<nat>, t: nat)
    requires IsDigitSeq(s) && Positive(s) && s != [] && 1 <= t && |s| <= t
    ensures Pick(s[1..], t) < Shift(s[0], |s| - 1) + Pick(s[1..], t - 1)
    ensures Pick(s, t) == Shift(s[0], |s| - 1) + Pick(s[1..], t - 1)
  {
    var rest := s[1..];
    PickAll(rest, t);
    PickAll(rest, t - 1);
    NumBelow(rest);
    DigitShift(s[0], |rest|);
  }

  /** Appending the digit `a` in front of ten times a best choice. */
  lemma ConcatScaled(a: nat, rest: seq<nat>, k: nat)
    requires IsDigitSeq(rest) && Positive(rest) && 1 <= a < 10 && k <= 11
    ensures var m := if k <= |rest| then k else |rest|;
            Concat(a, 10 * Pick(rest, k)) == 10 * (Shift(a, m) + Pick(rest, k))
  {
    var m := if k <= |rest| then k else |rest|;
    var p := Pick(rest, k);
    PickWidth(rest, k);
    if m == 0 {
      assert Width(0) == 1;
    } else {
      WidthOf(10 * p, m + 1);
    }
    ConcatFits(a, m, p);
  }

  lemma ConcatFits(a: nat, m: nat, p: nat)
    requires a < 10 && m <= 11 && p < Pow10(m)
    ensures Shift(a, m + 1) + 10 * p <= U64Max
  {
    DigitShift(a, m + 1);
    Pow10Monotone(m + 2, 13);
    assert Pow10(13) == 10000000000000;
  }

  /** With digits 1 to 9, the best choice has exactly `min(k, |s|)` digits. */
  lemma {:induction false} PickWidth(s: seq<nat>, k: nat)
    requires IsDigitSeq(s) && Positive(s)
    ensures var m := if k <= |s| then k else |s|;
            (m == 0 ==> Pick(s, k) == 0) && (m >= 1 ==> Pow10(m - 1) <= Pick(s, k) < Pow10(m))
    decreases |s|
  {
    if k != 0 && s != [] {
      if |s| <= k {
        NumBelow(s);
        NumAtLeast(s);
      } else {
        PickWidth(s[1..], k - 1);
        PickWidth(s[1..], k);
        DigitShift(s[0], k - 1);
      }
    }
  }

  /** With digits 1 to 9 the code as written finds the best twelve-digit choice. */
  lemma JoltageIsPick(d: seq<nat>)
    requires IsDigitSeq(d) && Positive(d)
    ensures Rounds(d, 12)[0] % 10 == 0 && JoltageAsWritten(d) == Pick(d, 12)
  {
    RoundsArePick(d, 12, 0);
    assert d[0..] == d;
  }

  /** A zero digit breaks the code as written: the zeros after the leading 1 are lost. */
  lemma ZeroDigitBreaks()
    ensures JoltageAsWritten(OneThenZeros()) == 1 && Pick(OneThenZeros(), 12) == Pow10(11)
  {
    var d := OneThenZeros();
    LeadingOneRounds(d, 12);
    PickAll(d, 12);
    ZeroNum(d[1..]);
    ShiftOne(11);
  }

  /** After any round, a bank of a 1 followed by zeros has 10 in front. */
  lemma LeadingOneRounds(d: seq<nat>, t: nat)
    requires 1 <= t && |d| >= 1 && d[0] == 1 && forall k :: 1 <= k < |d| ==> d[k] == 0
    ensures Rounds(d, t)[0] == 10
  {
    var prev := Rounds(d, t - 1);
    ZerosStayZero(d, t - 1);
    CellZero(d, prev, 1);
    ConcatZero(1);
    assert Rounds(d, t)[0] == Cell(d, prev, 0);
  }

  /** The bank `100000000000`. */
  function OneThenZeros(): (d: seq<nat>)
    ensures |d| == 12 && d[0] == 1 && forall k :: 1 <= k < 12 ==> d[k] == 0
  {
    [1] + seq(11, _ => 0)
  }

  lemma ConcatZero(a: nat)
    requires a < 10
    ensures Concat(a, 0) == 10 * a
  {
    assert Width(0) == 1;
    assert Shift(a, 1) == 10 * a;
  }

  lemma {:induction false} ZeroNum(t: seq<nat>)
    requires forall k :: 0 <= k < |t| ==> t[k] == 0
    ensures Num(t) == 0
  {
    if t != [] {
      ZeroNum(t[1..]);
      ShiftZero(|t| - 1);
    }
  }

  /** Behind a leading digit, all-zero entries keep every round's entries at zero. */
  lemma {:induction false} ZerosStayZero(d: seq<nat>, t: nat)
    requires |d| >= 1 && forall k :: 1 <= k < |d| ==> d[k] == 0
    ensures forall i :: 1 <= i <= |d| ==> Rounds(d, t)[i] == 0
  {
    if t > 0 {
      ZerosStayZero(d, t - 1);
      var prev := Rounds(d, t - 1);
      forall i | 1 <= i <= |d|
        ensures Rounds(d, t)[i] == 0
      {
        CellZero(d, prev, i);
      }
    }
  }

  lemma {:induction false} CellZero(d: seq<nat>, prev: seq<nat>, i: nat)
    requires |prev| == |d| + 1 && 1 <= i <= |d|
    requires forall k :: 1 <= k < |d| ==> d[k] == 0
    requires forall k :: 1 <= k <= |d| ==> prev[k] == 0
    ensures Cell(d, prev, i) == 0
    decreases |d| - i
  {
    if i < |d| {
      CellZero(d, prev, i + 1);
      ConcatZero(0);
      assert d[i] == 0 && prev[i + 1] == 0;
      assert Cell(d, prev, i) == Max(Cell(d, prev, i + 1), Concat(d[i], prev[i + 1]));
    }
  }

  // ---------------------------------------------------------------------------
  // The answer

  /** One bank's contribution in the selected part. */
  function BankValue(d: seq<nat>, part1: bool): nat
  {
    if part1 then PairValue(d) else JoltageAsWritten(d)
  }

  function Total(banks: seq<seq<nat>>, part1: bool): nat
  {
    if banks == [] then 0
    else Total(banks[..|banks| - 1], part1) + BankValue(banks[|banks| - 1], part1)
  }

  /** `solve`: the sum of the banks' values. */
  method Solve(banks: seq<seq<nat>>, isPart1: bool) returns (sum: nat)
    requires forall k :: 0 <= k < |banks| ==> IsDigitSeq(banks[k])
    ensures sum == Total(banks, isPart1)
  {
    sum := 0;
    for k := 0 to |banks|
      invariant sum == Total(banks[..k], isPart1)
    {
      assert banks[..k + 1][..k] == banks[..k];
      var value;
      if isPart1 {
        value := SolveOne(banks[k]);
      } else {
        value := SolveTwo(banks[k]);
      }
      sum := sum + value;
    }
    assert banks[..|banks|] == banks;
  }

  /** The sum of the best choices. */
  function BestTotal(banks: seq<seq<nat>>, k: nat): nat
  {
    if banks == [] then 0
    else BestTotal(banks[..|banks| - 1], k) + Pick(banks[|banks| - 1], k)
  }

  /** With digits 1 to 9 everywhere, part two's answer is the sum of the best twelve-digit choices. */
  lemma {:induction false} TotalIsBest(banks: seq<seq<nat>>)
    requires forall k :: 0 <= k < |banks| ==> IsDigitSeq(banks[k]) && Positive(banks[k])
    ensures Total(banks, false) == BestTotal(banks, 12)
  {
    if banks != [] {
      TotalIsBest(banks[..|banks| - 1]);
      JoltageIsPick(banks[|banks| - 1]);
    }
  }
}
