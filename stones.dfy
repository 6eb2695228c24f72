/**
 * 2024 day 11: a row of numbered stones changes at every blink.  A 0 becomes
 * a 1; a stone whose printed number has an even number of characters splits
 * into the numbers its two halves spell; any other stone is multiplied by
 * 2024.  The answer is the number of stones after a given number of blinks,
 * computed stone by stone with a memo table.
 */
module Stones {
  import opened Text

  // ---------------------------------------------------------------------------
  // One blink of one stone

  /** `stone.to_string()`: a minus sign before the digits of a negative number. */
  function IntToString(x: int): (s: string)
    ensures |s| >= 1
    ensures x >= 0 ==> s == NatToString(x)
  {
    if x < 0 then "-" + NatToString(-x) else NatToString(x)
  }

  /**
   * `try_split`: when the printed number has an even number of characters,
   * both halves parsed back as numbers; `None` when a half does not parse.
   */
  function TrySplit(stone: int): (r: Option<(int, int)>)
    ensures r.Some? ==> |IntToString(stone)| % 2 == 0
  {
    var s := IntToString(stone);
    if |s| % 2 == 0 then
      var h := |s| / 2;
      match (ParseInt(s[..h]), ParseInt(s[h..]))
      case (Some(a), Some(b)) => Some((a, b))
      case _ => None
    else None
  }

  /** `step`: the stones one stone becomes at a blink. */
  function Step(stone: int): (r: seq<int>)
    ensures 1 <= |r| <= 2
  {
    if stone == 0 then [1]
    else match TrySplit(stone)
      case Some((s1, s2)) => [s1, s2]
      case None => [stone * 2024]
  }

  /** A digit string with no sign parses as its decimal value. */
  lemma ParseDigits(s: string)
    requires s != [] && AllDigits(s)
    ensures ParseInt(s) == Some(DigitsValue(s) as int)
  {
  }

  /** An even-width stone splits into the values of the two halves of its spelling. */
  lemma SplitSpelling(stone: nat, h: nat)
    requires Width(stone) == 2 * h
    ensures var s := NatToString(stone);
      AllDigits(s[..h]) && AllDigits(s[h..])
      && TrySplit(stone) == Some((DigitsValue(s[..h]) as int, DigitsValue(s[h..]) as int))
  {
    var s := NatToString(stone);
    ParseDigits(s[..h]);
    ParseDigits(s[h..]);
  }

  /** The two halves' values: the left one shifted `h` places plus the right one make the stone. */
  lemma HalvesValue(stone: nat, h: nat)
    requires Width(stone) == 2 * h
    ensures var s := NatToString(stone);
      AllDigits(s[..h]) && AllDigits(s[h..])
      && stone == Shift(DigitsValue(s[..h]), h) + DigitsValue(s[h..])
      && DigitsValue(s[h..]) < Pow10(h) && Pow10(h - 1) <= DigitsValue(s[..h]) < Pow10(h)
  {
    var s := NatToString(stone);
    var s1, s2 := s[..h], s[h..];
    assert s == s1 + s2;
    assert s1[0] == s[0];
    DigitsValueConcat(s1, s2);
    DigitsValueOfNatToString(stone);
    DigitsValueBounds(s1);
    DigitsValueBounds(s2);
  }

  /**
   * A non-negative stone of `2h` digits splits into its left and right
   * halves: the left one has exactly `h` digits, the right one is below
   * `10^h`, and the stone is the left one shifted `h` places plus the right one.
   */
  lemma SplitHalves(stone: nat, h: nat)
    requires Width(stone) == 2 * h
    ensures TrySplit(stone).Some?
    ensures var l, r := TrySplit(stone).value.0, TrySplit(stone).value.1;
      l >= 0 && r >= 0 && stone == Shift(l, h) + r && r < Pow10(h) && Pow10(h - 1) <= l < Pow10(h)
  {
    SplitSpelling(stone, h);
    HalvesValue(stone, h);
  }

  /** A non-negative stone with an odd number of digits does not split. */
  lemma OddNoSplit(stone: nat)
    requires Width(stone) % 2 == 1
    ensures TrySplit(stone).None?
  {
  }

  /**
   * A negative one-digit stone prints as two characters, but its left half
   * is a lone minus sign, which does not parse: it is multiplied instead.
   */
  lemma NegativeDigit(d: int)
    requires 1 <= d <= 9
    ensures Step(-d) == [-d * 2024]
  {
    var s := IntToString(-d);
    assert s == "-" + [DigitChar(d)];
    assert s[..1] == "-";
    assert ParseInt(s[..1]).None?;
  }

  /** The three cases of a blink on a non-negative stone. */
  lemma StepCases(stone: nat)
    ensures stone == 0 ==> Step(stone) == [1]
    ensures stone > 0 && Width(stone) % 2 == 0 ==>
      |Step(stone)| == 2 && Step(stone)[0] >= 0 && Step(stone)[1] >= 0
      && stone == Shift(Step(stone)[0], Width(stone) / 2) + Step(stone)[1] && Step(stone)[1] < Pow10(Width(stone) / 2)
    ensures stone > 0 && Width(stone) % 2 == 1 ==> Step(stone) == [stone * 2024]
  {
    if stone > 0 && Width(stone) % 2 == 0 {
      SplitHalves(stone, Width(stone) / 2);
    }
  }

  // ---------------------------------------------------------------------------
  // Counting stones
  //
  // The counting is stated for any blink rule; the solver uses `Step`.

  /** `go` without the memo table: the number of stones `stone` becomes after `steps` blinks. */
  function Count(rule: int -> seq<int>, stone: int, steps: nat): nat
    decreases steps, 0, 0
  {
    if steps == 0 then 1 else CountAll(rule, rule(stone), steps - 1)
  }

  /** The stones `xs` become after `steps` blinks, added up over `xs`. */
  function CountAll(rule: int -> seq<int>, xs: seq<int>, steps: nat): nat
    decreases steps, 1, |xs|
  {
    if xs == [] then 0 else CountAll(rule, xs[..|xs| - 1], steps) + Count(rule, xs[|xs| - 1], steps)
  }

  lemma {:induction false} CountAllAppend(rule: int -> seq<int>, xs: seq<int>, ys: seq<int>, steps: nat)
    ensures CountAll(rule, xs + ys, steps) == CountAll(rule, xs, steps) + CountAll(rule, ys, steps)
    decreases |ys|
  {
    if ys == [] {
      assert xs + ys == xs;
    } else {
      assert (xs + ys)[..|xs + ys| - 1] == xs + ys[..|ys| - 1];
      CountAllAppend(rule, xs, ys[..|ys| - 1], steps);
    }
  }

  /** A blink of the whole row: every stone replaced by what it becomes, in order. */
  function Blink(rule: int -> seq<int>, xs: seq<int>): seq<int>
  {
    if xs == [] then [] else Blink(rule, xs[..|xs| - 1]) + rule(xs[|xs| - 1])
  }

  /** The row after `k` blinks. */
  function Blinks(rule: int -> seq<int>, xs: seq<int>, k: nat): seq<int>
    decreases k
  {
    if k == 0 then xs else Blinks(rule, Blink(rule, xs), k - 1)
  }

  /** Counting one more blink ahead is counting the row after one blink. */
  lemma {:induction false} CountBlink(rule: int -> seq<int>, xs: seq<int>, steps: nat)
    ensures CountAll(rule, Blink(rule, xs), steps) == CountAll(rule, xs, steps + 1)
  {
    if xs != [] {
      var init, x := xs[..|xs| - 1], xs[|xs| - 1];
      CountBlink(rule, init, steps);
      CountAllAppend(rule, Blink(rule, init), rule(x), steps);
    }
  }

  lemma {:induction false} CountAllZero(rule: int -> seq<int>, xs: seq<int>)
    ensures CountAll(rule, xs, 0) == |xs|
  {
    if xs != [] {
      CountAllZero(rule, xs[..|xs| - 1]);
    }
  }

  /** The count is the length of the row after that many blinks. */
  lemma {:induction false} CountIsLength(rule: int -> seq<int>, xs: seq<int>, k: nat)
    ensures CountAll(rule, xs, k) == |Blinks(rule, xs, k)|
    decreases k
  {
    if k == 0 {
      CountAllZero(rule, xs);
    } else {
      CountBlink(rule, xs, k - 1);
      CountIsLength(rule, Blink(rule, xs), k - 1);
    }
  }

  /** A rule that keeps every stone never shrinks the row. */
  lemma {:induction false} BlinkGrows(rule: int -> seq<int>, xs: seq<int>)
    requires forall x :: |rule(x)| >= 1
    ensures |xs| <= |Blink(rule, xs)|
  {
    if xs != [] {
      BlinkGrows(rule, xs[..|xs| - 1]);
    }
  }

  lemma {:induction false} BlinksGrow(rule: int -> seq<int>, xs: seq<int>, k: nat)
    requires forall x :: |rule(x)| >= 1
    ensures |xs| <= |Blinks(rule, xs, k)|
    decreases k
  {
    if k > 0 {
      BlinkGrows(rule, xs);
      BlinksGrow(rule, Blink(rule, xs), k - 1);
    }
  }

  /** Under the puzzle's rule every stone stays at least one stone, so the count is at least the number of stones. */
  lemma CountGrows(xs: seq<int>, k: nat)
    ensures |xs| <= CountAll(Step, xs, k)
  {
    CountIsLength(Step, xs, k);
    BlinksGrow(Step, xs, k);
  }

  // ---------------------------------------------------------------------------
  // The memoised solver

  /** `PartOneMut`: the number of blinks and the memo table from (stone, blinks) to the count. */
  class Solver {
    const depth: nat
    var cache: map<(int, nat), int>

    /** Every memo entry holds the count its key asks for. */
    ghost predicate Valid()
      reads this
    {
      forall key :: key in cache ==> cache[key] == Count(Step, key.0, key.1)
    }

    constructor(depth: nat)
      ensures this.depth == depth && cache == map[] && Valid()
    {
      this.depth := depth;
      cache := map[];
    }

    /** `go`: look the count up, or compute it from the stones one blink ahead and remember it. */
    method Go(stone: int, steps: nat) returns (res: int)
      requires Valid()
      modifies this
      ensures Valid() && res == Count(Step, stone, steps)
      ensures old(cache).Keys <= cache.Keys && (stone, steps) in cache
      decreases steps
    {
      if (stone, steps) in cache {
        return cache[(stone, steps)];
      }
      if steps == 0 {
        res := 1;
      } else {
        var next := Step(stone);
        res := 0;
        for i := 0 to |next|
          invariant Valid() && res == CountAll(Step, next[..i], steps - 1)
          invariant old(cache).Keys <= cache.Keys
        {
          var r := Go(next[i], steps - 1);
          assert next[..i + 1][..i] == next[..i];
          res := res + r;
        }
        assert next[..|next|] == next;
      }
      cache := cache[(stone, steps) := res];
    }

    /** `solve`: the counts of the input stones added up. */
    method Solve(stones: seq<int>) returns (total: int)
      requires Valid()
      modifies this
      ensures Valid() && total == CountAll(Step, stones, depth)
    {
      total := 0;
      for i := 0 to |stones|
        invariant Valid() && total == CountAll(Step, stones[..i], depth)
      {
        var r := Go(stones[i], depth);
        assert stones[..i + 1][..i] == stones[..i];
        total := total + r;
      }
      assert stones[..|stones|] == stones;
    }
  }

  /** The whole program: a fresh table, then the number of stones after `depth` blinks. */
  method Run(stones: seq<int>, depth: nat) returns (total: int)
    ensures total == |Blinks(Step, stones, depth)|
  {
    var solver := new Solver(depth);
    total := solver.Solve(stones);
    CountIsLength(Step, stones, depth);
  }

  // ---------------------------------------------------------------------------
  // Parsing

  /** `parse_from`: the whitespace-separated words, each parsed as a number; one bad word fails it all. */
  function Parse(s: string): (r: Option<seq<int>>)
    ensures r.Some? <==> forall k :: 0 <= k < |Words(s)| ==> ParseInt(Words(s)[k]).Some?
    ensures r.Some? ==> |r.value| == |Words(s)| && forall k :: 0 <= k < |r.value| ==> r.value[k] == ParseInt(Words(s)[k]).value
  {
    var words := Words(s);
    var r := ParseEach(words, ParseInt);
    assert r.Some? ==> forall k :: 0 <= k < |r.value| ==> r.value[k] == ParseInt(words[k]).value;
    r
  }
}
