/**
 * 2025 day 2: product ids in inclusive ranges; an id is invalid when its
 * decimal digits are some block written twice (part one) or some block
 * written at least twice (part two). The answer sums the invalid ids.
 */
module InvalidIds {
  import opened Text

  datatype Range = Range(left: nat, right: nat)

  /** `a-b`, two decimal numbers around the first `-`. */
  function ParseRange(piece: string): (r: Option<Range>)
    ensures r.Some? <==> SplitOnce(piece, "-").Some?
                         && ParseNat(SplitOnce(piece, "-").value.0).Some?
                         && ParseNat(SplitOnce(piece, "-").value.1).Some?
    ensures r.Some? ==> exists lhs, rhs :: piece == lhs + "-" + rhs
                                         && ParseNat(lhs) == Some(r.value.left)
                                         && ParseNat(rhs) == Some(r.value.right)
  {
    match SplitOnce(piece, "-")
    case None => None
    case Some((lhs, rhs)) =>
      match (ParseNat(lhs), ParseNat(rhs))
      case (Some(a), Some(b)) => Some(Range(a, b))
      case _ => None
  }

  /** The comma-separated ranges of several pieces, in order; one bad piece fails all. */
  function ParsePieces(pieces: seq<string>): (r: Option<seq<Range>>)
    ensures r.Some? <==> forall k :: 0 <= k < |pieces| ==> ParseRange(pieces[k]).Some?
    ensures r.Some? ==> |r.value| == |pieces| && forall k :: 0 <= k < |pieces| ==> ParseRange(pieces[k]) == Some(r.value[k])
  {
    if pieces == [] then Some([])
    else
      match (ParseRange(pieces[0]), ParsePieces(pieces[1..]))
      case (Some(x), Some(rest)) => Some([x] + rest)
      case _ => None
  }

  /** `parse_from`: every line is split at commas and every piece must be a range. */
  function ParseLines(lines: seq<string>): (r: Option<seq<Range>>)
    ensures r.Some? <==> forall k :: 0 <= k < |lines| ==> ParsePieces(Split(lines[k], ",")).Some?
  {
    if lines == [] then Some([])
    else
      match (ParsePieces(Split(lines[0], ",")), ParseLines(lines[1..]))
      case (Some(x), Some(rest)) => Some(x + rest)
      case _ => None
  }

  function ParseInput(s: string): Option<seq<Range>>
  {
    ParseLines(Lines(s))
  }

  /** A piece without `-` makes the input fail. */
  lemma MissingDashFails(lines: seq<string>, k: nat, j: nat)
    requires k < |lines| && j < |Split(lines[k], ",")|
    requires forall i: nat :: !OccursAt(Split(lines[k], ",")[j], i, "-")
    ensures ParseLines(lines) == None
  {
    assert ParseRange(Split(lines[k], ",")[j]) == None;
  }

  // ---------------------------------------------------------------------------
  // Part one

  /** `is_invalid`: the first half of the decimal digits equals the second half. */
  predicate IsInvalid(n: nat)
  {
    var s := NatToString(n);
    s[..|s| / 2] == s[|s| / 2..]
  }

  /** Invalid ids are exactly those whose digits are a block written twice. */
  lemma InvalidIsDouble(n: nat)
    ensures IsInvalid(n) <==> exists p :: NatToString(n) == p + p
  {
    var s := NatToString(n);
    if IsInvalid(n) {
      assert s == s[..|s| / 2] + s[..|s| / 2];
    }
    if p :| s == p + p {
      assert |s| / 2 == |p|;
      assert s[..|s| / 2] == p && s[|s| / 2..] == p;
    }
  }

  /** An odd number of digits is never invalid in part one. */
  lemma OddLengthValid(n: nat)
    requires |NatToString(n)| % 2 == 1
    ensures !IsInvalid(n)
  {
    var s := NatToString(n);
    assert |s[..|s| / 2]| != |s[|s| / 2..]|;
  }

  // ---------------------------------------------------------------------------
  // Part two

  /** Every block of length `len` equals the first one. */
  ghost predicate Periodic(s: string, len: nat)
    requires 1 <= len
  {
    forall i :: 0 <= i && (i + 1) * len <= |s| ==> s[i * len..(i + 1) * len] == s[..len]
  }

  /** `is_invalid2`, as a property: some proper block length divides the digits into equal blocks. */
  ghost predicate Invalid2(n: nat)
  {
    var s := NatToString(n);
    exists len :: 1 <= len < |s| && |s| % len == 0 && Periodic(s, len)
  }

  /** `is_invalid2`: try the block lengths in increasing order, comparing block by block. */
  method IsInvalid2(n: nat) returns (bad: bool)
    ensures bad == Invalid2(n)
  {
    var s := NatToString(n);
    for len := 1 to |s|
      invariant forall l :: 1 <= l < len && |s| % l == 0 ==> !Periodic(s, l)
    {
      if |s| % len != 0 {
        continue;
      }
      bad := AllBlocksEqual(s, len);
      if bad {
        return;
      }
    }
    bad := false;
  }

  /** The `all` over the blocks of one length. */
  method AllBlocksEqual(s: string, len: nat) returns (equal: bool)
    requires 1 <= len && |s| % len == 0
    ensures equal == Periodic(s, len)
  {
    var i := 0;
    while i < |s| / len
      invariant 0 <= i <= |s| / len
      invariant BlocksBefore(s, len, i)
    {
      BlockIndex(|s|, len, i);
      if s[i * len..(i + 1) * len] != s[..len] {
        return false;
      }
      i := i + 1;
    }
    AllBlocks(s, len);
    return true;
  }

  /** The blocks before block `i` equal the first one. */
  ghost predicate BlocksBefore(s: string, len: nat, i: nat)
    requires 1 <= len
  {
    forall k :: 0 <= k < i && (k + 1) * len <= |s| ==> s[k * len..(k + 1) * len] == s[..len]
  }

  lemma AllBlocks(s: string, len: nat)
    requires 1 <= len && |s| % len == 0 && BlocksBefore(s, len, |s| / len)
    ensures Periodic(s, len)
  {
    forall k | 0 <= k && (k + 1) * len <= |s|
      ensures s[k * len..(k + 1) * len] == s[..len]
    {
      BlockIndex(|s|, len, k);
    }
  }

  /** Block `i` lies inside `m` exactly when `i` is below the number of blocks. */
  lemma BlockIndex(m: nat, len: nat, i: nat)
    requires 1 <= len && m % len == 0
    ensures i < m / len <==> (i + 1) * len <= m
  {
    var q := m / len;
    DivMul(m, len);
    if i < q {
      MulLe(i + 1, q, len);
    } else {
      MulLe(q, i, len);
      MulSucc(i, len);
    }
  }

  lemma MulLe(a: nat, b: nat, c: nat)
    requires a <= b
    ensures a * c <= b * c
  {
  }

  lemma MulSucc(a: nat, c: nat)
    ensures (a + 1) * c == a * c + c
  {
  }

  lemma DivMul(m: nat, len: nat)
    requires 1 <= len && m % len == 0
    ensures (m / len) * len == m
  {
  }

  /** A multiple of `len` leaves no remainder and has quotient `k`. */
  lemma {:induction false} MulMod(k: nat, len: nat)
    requires 1 <= len
    ensures (k * len) % len == 0 && (k * len) / len == k
  {
    if k > 0 {
      MulMod(k - 1, len);
      MulSucc(k - 1, len);
      ShiftMod((k - 1) * len, len);
    }
  }

  lemma ShiftMod(x: nat, len: nat)
    requires 1 <= len
    ensures (x + len) % len == x % len && (x + len) / len == x / len + 1
  {
    MulSucc(x / len, len);
    DivModUnique(x + len, x / len + 1, x % len, len);
  }

  /** Quotient and remainder are the only ones with `a == q * len + r` and `0 <= r < len`. */
  lemma DivModUnique(a: nat, q: nat, r: nat, len: nat)
    requires 1 <= len && a == q * len + r && r < len
    ensures a / len == q && a % len == r
  {
    QuotientLe(a, q, r, a / len, a % len, len);
    QuotientLe(a, a / len, a % len, q, r, len);
  }

  lemma QuotientLe(a: nat, q: nat, r: nat, q2: nat, r2: nat, len: nat)
    requires 1 <= len && a == q * len + r && r < len && a == q2 * len + r2 && r2 < len
    ensures q <= q2
  {
    if q > q2 {
      MulLe(q2 + 1, q, len);
      MulSucc(q2, len);
      assert false;
    }
  }

  /** `k` copies of the block `p`. */
  function Repeat(p: string, k: nat): (r: string)
    ensures |r| == k * |p|
  {
    if k == 0 then [] else (MulSucc(k - 1, |p|); Repeat(p, k - 1) + p)
  }

  /** Block `i` of `k` copies of `p` is `p`. */
  lemma {:induction false} RepeatBlock(p: string, k: nat, i: nat)
    requires i < k
    ensures (i + 1) * |p| <= k * |p| && Repeat(p, k)[i * |p|..(i + 1) * |p|] == p
  {
    MulLe(i + 1, k, |p|);
    if i < k - 1 {
      RepeatBlock(p, k - 1, i);
      EarlierBlock(p, k, i);
    } else {
      LastBlock(p, k);
    }
  }

  lemma EarlierBlock(p: string, k: nat, i: nat)
    requires i < k - 1 && (i + 1) * |p| <= (k - 1) * |p|
    requires Repeat(p, k - 1)[i * |p|..(i + 1) * |p|] == p
    ensures Repeat(p, k)[i * |p|..(i + 1) * |p|] == p
  {
    assert Repeat(p, k) == Repeat(p, k - 1) + p;
  }

  lemma LastBlock(p: string, k: nat)
    requires 1 <= k
    ensures (k - 1) * |p| + |p| == k * |p| && Repeat(p, k)[(k - 1) * |p|..k * |p|] == p
  {
    MulSucc(k - 1, |p|);
    assert Repeat(p, k) == Repeat(p, k - 1) + p;
  }

  /** The first `j` blocks of a periodic string repeat its first block. */
  lemma {:induction false} PrefixRepeat(s: string, len: nat, j: nat)
    requires 1 <= len <= |s| && Periodic(s, len) && j * len <= |s|
    ensures s[..j * len] == Repeat(s[..len], j)
  {
    if j > 0 {
      var a := (j - 1) * len;
      MulSucc(j - 1, len);
      assert a + len == j * len;
      PrefixRepeat(s, len, j - 1);
      assert s[a..j * len] == s[..len];
      assert s[..j * len] == s[..a] + s[a..j * len];
    }
  }

  /** A repeated block is periodic with the block's length. */
  lemma RepeatPeriodic(p: string, k: nat)
    requires 1 <= k && 1 <= |p|
    ensures Repeat(p, k)[..|p|] == p && Periodic(Repeat(p, k), |p|)
  {
    RepeatBlock(p, k, 0);
    var s := Repeat(p, k);
    forall i | 0 <= i && (i + 1) * |p| <= |s|
      ensures s[i * |p|..(i + 1) * |p|] == s[..|p|]
    {
      MulMod(k, |p|);
      BlockIndex(|s|, |p|, i);
      RepeatBlock(p, k, i);
    }
  }

  /** Part two's invalid ids are exactly the digit strings made of one block written at least twice. */
  lemma Invalid2IsRepetition(n: nat)
    ensures Invalid2(n) <==> exists p, k :: 2 <= k && 1 <= |p| && NatToString(n) == Repeat(p, k)
  {
    var s := NatToString(n);
    if Invalid2(n) {
      var len :| 1 <= len < |s| && |s| % len == 0 && Periodic(s, len);
      RepetitionOfPeriodic(s, len);
    }
    if p, k :| 2 <= k && 1 <= |p| && s == Repeat(p, k) {
      PeriodicOfRepetition(p, k);
    }
  }

  lemma RepetitionOfPeriodic(s: string, len: nat)
    requires 1 <= len < |s| && |s| % len == 0 && Periodic(s, len)
    ensures 2 <= |s| / len && s == Repeat(s[..len], |s| / len)
  {
    var k := |s| / len;
    DivMul(|s|, len);
    PrefixRepeat(s, len, k);
    assert s[..k * len] == s;
    if k < 2 {
      MulLe(k, 1, len);
      assert false;
    }
  }

  lemma PeriodicOfRepetition(p: string, k: nat)
    requires 2 <= k && 1 <= |p|
    ensures 1 <= |p| < |Repeat(p, k)| && |Repeat(p, k)| % |p| == 0 && Periodic(Repeat(p, k), |p|)
  {
    RepeatPeriodic(p, k);
    MulMod(k, |p|);
    MulLe(2, k, |p|);
  }

  /** Every part-one invalid id is a part-two invalid id: the half length is one of the lengths tried. */
  lemma InvalidImpliesInvalid2(n: nat)
    requires IsInvalid(n)
    ensures Invalid2(n)
  {
    var s := NatToString(n);
    InvalidIsDouble(n);
    var p :| s == p + p;
    assert Repeat(p, 2) == p + p;
    Invalid2IsRepetition(n);
  }

  // ---------------------------------------------------------------------------
  // The sum

  ghost predicate Flagged(x: nat, part1: bool)
  {
    if part1 then IsInvalid(x) else Invalid2(x)
  }

  /** Sum of the flagged ids `y` with `lo <= y < x`. */
  ghost function FlaggedBelow(lo: nat, x: nat, part1: bool): (sum: nat)
    decreases x
  {
    if x <= lo then 0
    else FlaggedBelow(lo, x - 1, part1) + (if Flagged(x - 1, part1) then x - 1 else 0)
  }

  /** Sum of the flagged ids over the ranges, each range inclusive at both ends. */
  ghost function Total(ranges: seq<Range>, part1: bool): (sum: nat)
  {
    if ranges == [] then 0
    else
      var r := ranges[|ranges| - 1];
      Total(ranges[..|ranges| - 1], part1) + FlaggedBelow(r.left, r.right + 1, part1)
  }

  /** `solve`: walk every id of every range, adding the invalid ones. */
  method Solve(ranges: seq<Range>, isPart1: bool) returns (sum: nat)
    ensures sum == Total(ranges, isPart1)
  {
    sum := 0;
    for k := 0 to |ranges|
      invariant sum == Total(ranges[..k], isPart1)
    {
      var range := ranges[k];
      ghost var before := sum;
      var x := range.left;
      while x <= range.right
        invariant range.left <= x && (x <= range.right + 1 || x == range.left)
        invariant sum == before + FlaggedBelow(range.left, x, isPart1)
        decreases range.right + 1 - x
      {
        FlaggedBelowStep(range.left, x, isPart1);
        if isPart1 && IsInvalid(x) {
          sum := sum + x;
        }
        if !isPart1 {
          var bad := IsInvalid2(x);
          if bad {
            sum := sum + x;
          }
        }
        x := x + 1;
      }
      FlaggedBelowEnd(range.left, x, range.right + 1, isPart1);
      TotalStep(ranges, k, isPart1);
    }
    assert ranges[..|ranges|] == ranges;
  }

  lemma FlaggedBelowStep(lo: nat, x: nat, part1: bool)
    requires lo <= x
    ensures FlaggedBelow(lo, x + 1, part1) == FlaggedBelow(lo, x, part1) + (if Flagged(x, part1) then x else 0)
  {
  }

  lemma FlaggedBelowEnd(lo: nat, x: nat, y: nat, part1: bool)
    requires x == y || (x == lo && y <= lo)
    ensures FlaggedBelow(lo, x, part1) == FlaggedBelow(lo, y, part1)
  {
  }

  lemma TotalStep(ranges: seq<Range>, k: nat, part1: bool)
    requires k < |ranges|
    ensures Total(ranges[..k + 1], part1) == Total(ranges[..k], part1) + FlaggedBelow(ranges[k].left, ranges[k].right + 1, part1)
  {
    assert ranges[..k + 1][..k] == ranges[..k];
  }

  /** Part one's sum never exceeds part two's, on any ranges. */
  lemma {:induction false} PartOneAtMostPartTwo(ranges: seq<Range>)
    ensures Total(ranges, true) <= Total(ranges, false)
  {
    if ranges != [] {
      PartOneAtMostPartTwo(ranges[..|ranges| - 1]);
      var r := ranges[|ranges| - 1];
      FlaggedBelowMonotone(r.left, r.right + 1);
    }
  }

  lemma {:induction false} FlaggedBelowMonotone(lo: nat, x: nat)
    ensures FlaggedBelow(lo, x, true) <= FlaggedBelow(lo, x, false)
  {
    if x > lo {
      FlaggedBelowMonotone(lo, x - 1);
      if IsInvalid(x - 1) {
        InvalidImpliesInvalid2(x - 1);
      }
    }
  }

  /** The total over two lists of ranges is the sum of their totals. */
  lemma {:induction false} TotalAppend(a: seq<Range>, b: seq<Range>, part1: bool)
    ensures Total(a + b, part1) == Total(a, part1) + Total(b, part1)
  {
    if b != [] {
      assert (a + b)[..|a + b| - 1] == a + b[..|b| - 1];
      TotalAppend(a, b[..|b| - 1], part1);
    } else {
      assert a + b == a;
    }
  }
}
