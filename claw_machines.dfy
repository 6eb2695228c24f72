/**
 * 2024 day 13: claw machines with two buttons.  Button A moves the claw by
 * one vector and costs 3 tokens, button B by another and costs 1; the prize
 * sits at a target point.  A machine is won with `a` presses of A and `b`
 * of B when they land the claw exactly on the prize.  Part one searches the
 * presses of A; part two moves every prize by 10000000000000 on both axes
 * and solves the two equations by Cramer's rule.  The answer sums the
 * fewest tokens over the machines that can be won.
 */
module ClawMachines {
  import opened Text

  /** Parsed coordinates are digit runs, so they are never negative. */
  datatype Point = Point(x: nat, y: nat)

  datatype Claw = Claw(a: Point, b: Point, target: Point)

  const I64Max: nat := 0x7fff_ffff_ffff_ffff

  /** What part two adds to both coordinates of every prize. */
  const Offset: nat := 10000000000000

  // ---------------------------------------------------------------------------
  // Winning a machine

  /** `a` presses of A and `b` presses of B put the claw exactly on the prize. */
  predicate Solves(claw: Claw, a: nat, b: nat)
  {
    claw.a.x * a + claw.b.x * b == claw.target.x && claw.a.y * a + claw.b.y * b == claw.target.y
  }

  /** Three tokens per press of A, one per press of B. */
  function Tokens(a: nat, b: nat): nat
  {
    3 * a + b
  }

  ghost predicate Winnable(claw: Claw)
  {
    exists a: nat, b: nat :: Solves(claw, a, b)
  }

  /** Some way of winning costs exactly `c` tokens. */
  ghost predicate CostsExactly(claw: Claw, c: nat)
  {
    exists a: nat, b: nat :: Solves(claw, a, b) && Tokens(a, b) == c
  }

  /** `c` tokens win the machine and no way of winning it costs less. */
  ghost predicate Cheapest(claw: Claw, c: nat)
  {
    CostsExactly(claw, c) && forall a: nat, b: nat :: Solves(claw, a, b) ==> c <= Tokens(a, b)
  }

  /** A machine has at most one cheapest price. */
  lemma CheapestUnique(claw: Claw, c: nat, d: nat)
    requires Cheapest(claw, c) && Cheapest(claw, d)
    ensures c == d
  {
    var a, b :| Solves(claw, a, b) && Tokens(a, b) == c;
    var a', b' :| Solves(claw, a', b') && Tokens(a', b') == d;
  }

  /** Every winnable machine has a cheapest price: the least of the prices below any winning one. */
  lemma {:induction false} LeastCost(claw: Claw, c: nat)
    requires CostsExactly(claw, c)
    ensures exists m: nat :: m <= c && Cheapest(claw, m)
    decreases c
  {
    if exists k: nat :: k < c && CostsExactly(claw, k) {
      var k: nat :| k < c && CostsExactly(claw, k);
      LeastCost(claw, k);
    } else {
      forall a: nat, b: nat | Solves(claw, a, b)
        ensures c <= Tokens(a, b)
      {
        assert CostsExactly(claw, Tokens(a, b));
      }
      assert Cheapest(claw, c);
    }
  }

  /** The fewest tokens that win the machine, or 0 when it cannot be won. */
  ghost function Fewest(claw: Claw): (c: nat)
    ensures Winnable(claw) ==> Cheapest(claw, c)
    ensures !Winnable(claw) ==> c == 0
  {
    if Winnable(claw) then
      var a: nat, b: nat :| Solves(claw, a, b);
      LeastCost(claw, Tokens(a, b));
      var m: nat :| Cheapest(claw, m);
      m
    else 0
  }

  /** The answer both parts aim at: the fewest tokens of every machine, added up. */
  ghost function Prices(claws: seq<Claw>): nat
  {
    if claws == [] then 0 else Prices(claws[..|claws| - 1]) + Fewest(claws[|claws| - 1])
  }

  // ---------------------------------------------------------------------------
  // Integer division

  lemma ScaleAway(p: int, k: int)
    requires p > 0
    ensures k >= 1 ==> p * k >= p
    ensures k <= -1 ==> p * k <= -p
  {
  }

  /** A multiple of `p` leaves no remainder and divides back exactly. */
  lemma ExactDivision(x: int, p: int, q: int)
    requires p > 0 && x == p * q
    ensures x % p == 0 && x / p == q
  {
    var d, m := x / p, x % p;
    assert p * (q - d) == m;
    ScaleAway(p, q - d);
  }

  /** Below the quotient the product stays within the dividend. */
  lemma UnderQuotient(t: nat, p: nat, a: nat)
    requires p > 0 && a <= t / p
    ensures p * a <= t
  {
    assert p * (t / p - a) >= 0;
  }

  /** A product within the dividend has its factor below the quotient. */
  lemma OverQuotient(t: nat, p: nat, a: nat)
    requires p > 0 && p * a <= t
    ensures a <= t / p
  {
    var q := t / p;
    ScaleAway(p, a - q);
    assert p * a == p * q + p * (a - q);
  }

  function Abs(n: int): nat
  {
    if n < 0 then -n else n
  }

  /** Rust's `/` on `i64`: the quotient truncated toward zero. */
  function TDiv(n: int, d: int): int
    requires d != 0
  {
    var q := Abs(n) / Abs(d);
    if (n < 0) == (d < 0) then q else -q
  }

  /** Truncating division is exact on a multiple of the divisor, whatever the signs. */
  lemma TDivExact(d: int, q: int)
    requires d != 0
    ensures TDiv(d * q, d) == q
  {
    assert Abs(d * q) == Abs(d) * Abs(q) by {
      if d < 0 && q < 0 { assert d * q == (-d) * (-q); }
      else if d < 0 { assert d * q == -((-d) * q); }
      else if q < 0 { assert d * q == -(d * (-q)); }
    }
    ExactDivision(Abs(d * q), Abs(d), Abs(q));
    if q > 0 {
      assert (d * q < 0) == (d < 0) by {
        if d < 0 { assert d * q == -((-d) * q); }
      }
    } else if q < 0 {
      assert (d * q < 0) != (d < 0) by {
        if d < 0 { assert d * q == (-d) * (-q); } else { assert d * q == -(d * (-q)); }
      }
    }
  }

  // ---------------------------------------------------------------------------
  // Part one: search the presses of A

  /** Dividing by a zero component panics, so every button must move on both axes. */
  predicate Positive(claw: Claw)
  {
    claw.a.x > 0 && claw.a.y > 0 && claw.b.x > 0 && claw.b.y > 0
  }

  /** `possible.into_iter().min()`. */
  function Minimum(xs: seq<nat>): (r: Option<nat>)
    ensures r.None? <==> xs == []
    ensures r.Some? ==> r.value in xs && forall k :: 0 <= k < |xs| ==> r.value <= xs[k]
  {
    if xs == [] then None
    else match Minimum(xs[..|xs| - 1])
      case None => Some(xs[|xs| - 1])
      case Some(m) => if xs[|xs| - 1] < m then Some(xs[|xs| - 1]) else Some(m)
  }

  /** No winning way presses A more often than either target coordinate allows. */
  lemma PressesBounded(claw: Claw, a: nat, b: nat)
    requires Positive(claw) && Solves(claw, a, b)
    ensures a <= claw.target.x / claw.a.x && a <= claw.target.y / claw.a.y
  {
    OverQuotient(claw.target.x, claw.a.x, a);
    OverQuotient(claw.target.y, claw.a.y, a);
  }

  /**
   * After the presses of A below `n` were tried: every entry of `possible`
   * wins the machine at that price, and every winning way with fewer than
   * `n` presses of A has its price in `possible`.
   */
  ghost predicate Searched(claw: Claw, n: nat, possible: seq<nat>)
  {
    (forall k :: 0 <= k < |possible| ==> CostsExactly(claw, possible[k]))
    && forall a: nat, b: nat :: a < n && Solves(claw, a, b) ==> Tokens(a, b) in possible
  }

  /** With `a` presses of A, B must cover the rest of the way exactly. */
  lemma Remainder(claw: Claw, a: nat, b: nat)
    requires Positive(claw) && Solves(claw, a, b)
    ensures var x, y := claw.target.x - claw.a.x * a, claw.target.y - claw.a.y * a;
      x % claw.b.x == 0 && y % claw.b.y == 0 && x / claw.b.x == b
      && x == b * claw.b.x && y == b * claw.b.y
  {
    ExactDivision(claw.target.x - claw.a.x * a, claw.b.x, b);
    ExactDivision(claw.target.y - claw.a.y * a, claw.b.y, b);
  }

  /** A press count of A that no count of B completes adds nothing. */
  lemma SkipStep(claw: Claw, a: nat, possible: seq<nat>)
    requires Positive(claw) && Searched(claw, a, possible)
    requires var x, y := claw.target.x - claw.a.x * a, claw.target.y - claw.a.y * a;
      x % claw.b.x != 0 || y % claw.b.y != 0 || x != x / claw.b.x * claw.b.x || y != x / claw.b.x * claw.b.y
    ensures Searched(claw, a + 1, possible)
  {
    forall a': nat, b: nat | a' < a + 1 && Solves(claw, a', b)
      ensures Tokens(a', b) in possible
    {
      if a' == a {
        Remainder(claw, a, b);
        assert false;
      }
    }
  }

  /** A press count of A that B completes adds its price, and that completion is the only one. */
  lemma PushStep(claw: Claw, a: nat, b: nat, possible: seq<nat>)
    requires Positive(claw) && Searched(claw, a, possible) && Solves(claw, a, b)
    ensures Searched(claw, a + 1, possible + [Tokens(a, b)])
  {
    var possible' := possible + [Tokens(a, b)];
    forall k | 0 <= k < |possible'|
      ensures CostsExactly(claw, possible'[k])
    {
      if k == |possible| {
        assert Solves(claw, a, b) && Tokens(a, b) == possible'[k];
      } else {
        assert possible'[k] == possible[k];
      }
    }
    forall a': nat, b': nat | a' < a + 1 && Solves(claw, a', b')
      ensures Tokens(a', b') in possible'
    {
      if a' == a {
        Remainder(claw, a, b);
        Remainder(claw, a, b');
      } else {
        assert Tokens(a', b') in possible;
      }
    }
  }

  /** Once every bounded press count was tried, the minimum of `possible` answers the machine. */
  lemma SearchEnd(claw: Claw, limit: nat, possible: seq<nat>)
    requires Positive(claw) && limit == if claw.target.x / claw.a.x <= claw.target.y / claw.a.y
                                        then claw.target.x / claw.a.x else claw.target.y / claw.a.y
    requires Searched(claw, limit + 1, possible)
    ensures Minimum(possible).None? <==> !Winnable(claw)
    ensures Minimum(possible).Some? ==> Cheapest(claw, Minimum(possible).value)
  {
    if Winnable(claw) {
      var a: nat, b: nat :| Solves(claw, a, b);
      PressesBounded(claw, a, b);
      assert Tokens(a, b) in possible;
    }
    if possible != [] {
      var m := Minimum(possible).value;
      var k :| 0 <= k < |possible| && possible[k] == m;
      assert CostsExactly(claw, possible[k]);
      forall a: nat, b: nat | Solves(claw, a, b)
        ensures m <= Tokens(a, b)
      {
        PressesBounded(claw, a, b);
        var j :| 0 <= j < |possible| && possible[j] == Tokens(a, b);
      }
    }
  }

  /**
   * `check`: try every count of A up to the smaller quotient of the target
   * by A's move; keep `3a + b` when the rest of the way is a whole number
   * `b` of B's moves on both axes; answer the least kept price.
   */
  method Check(claw: Claw) returns (r: Option<nat>)
    requires Positive(claw)
    ensures r.None? <==> !Winnable(claw)
    ensures r.Some? ==> Cheapest(claw, r.value)
  {
    var tx, ty := claw.target.x, claw.target.y;
    var limit := if tx / claw.a.x <= ty / claw.a.y then tx / claw.a.x else ty / claw.a.y;
    var possible: seq<nat> := [];
    for a := 0 to limit + 1
      invariant Searched(claw, a, possible)
    {
      UnderQuotient(tx, claw.a.x, a);
      UnderQuotient(ty, claw.a.y, a);
      var x, y := tx - claw.a.x * a, ty - claw.a.y * a;
      if x % claw.b.x != 0 || y % claw.b.y != 0 {
        SkipStep(claw, a, possible);
        continue;
      }
      var b := x / claw.b.x;
      if x != b * claw.b.x || y != b * claw.b.y {
        SkipStep(claw, a, possible);
        continue;
      }
      assert Solves(claw, a, b);
      PushStep(claw, a, b, possible);
      possible := possible + [3 * a + b];
    }
    SearchEnd(claw, limit, possible);
    r := Minimum(possible);
  }

  // ---------------------------------------------------------------------------
  // Cramer's rule

  /** The determinant of the two button moves; zero when they are parallel. */
  function Det(claw: Claw): int
  {
    claw.a.x * claw.b.y - claw.a.y * claw.b.x
  }

  /** `check2` divides by the determinant and by A's move along x. */
  predicate Solvable2(claw: Claw)
  {
    Det(claw) != 0 && claw.a.x != 0
  }

  /**
   * `check2`: the presses of B by Cramer's rule, then the presses of A from
   * the x equation, both with truncating division; the price only when both
   * counts are non-negative and satisfy both equations.
   */
  function Check2(claw: Claw): (r: Option<nat>)
    requires Solvable2(claw)
    ensures r.Some? ==> CostsExactly(claw, r.value)
  {
    var ax, ay, bx, byy := claw.a.x, claw.a.y, claw.b.x, claw.b.y;
    var tx, ty := claw.target.x, claw.target.y;
    var b := TDiv(ax * ty - ay * tx, Det(claw));
    var a := TDiv(tx - bx * b, ax);
    if a < 0 || b < 0 || ax * a + bx * b != tx || ay * a + byy * b != ty then None
    else
      assert Solves(claw, a, b) && Tokens(a, b) == 3 * a + b;
      Some(3 * a + b)
  }

  /** Eliminating A from the two equations leaves the determinant times the presses of B. */
  lemma Cramer(claw: Claw, a: nat, b: nat)
    requires Solves(claw, a, b)
    ensures Det(claw) * b == claw.a.x * claw.target.y - claw.a.y * claw.target.x
  {
    var ax, ay, bx, byy := claw.a.x, claw.a.y, claw.b.x, claw.b.y;
    assert ax * claw.target.y == ax * ay * a + ax * byy * b;
    assert ay * claw.target.x == ay * ax * a + ay * bx * b;
  }

  /** Parallel-free buttons admit at most one winning way. */
  lemma OneWay(claw: Claw, a: nat, b: nat, a': nat, b': nat)
    requires Solvable2(claw) && Solves(claw, a, b) && Solves(claw, a', b')
    ensures a == a' && b == b'
  {
    Cramer(claw, a, b);
    Cramer(claw, a', b');
    TDivExact(Det(claw), b);
    TDivExact(Det(claw), b');
    assert claw.a.x * a == claw.a.x * a';
    TDivExact(claw.a.x, a);
    TDivExact(claw.a.x, a');
  }

  /** Whenever it does not panic, `check2` finds the one winning way, and so the fewest tokens. */
  lemma Check2Complete(claw: Claw)
    requires Solvable2(claw)
    ensures Check2(claw).None? <==> !Winnable(claw)
    ensures Check2(claw).Some? ==> Cheapest(claw, Check2(claw).value)
    ensures Check2(claw) == (if Winnable(claw) then Some(Fewest(claw)) else None)
  {
    if Winnable(claw) {
      var a: nat, b: nat :| Solves(claw, a, b);
      Cramer(claw, a, b);
      TDivExact(Det(claw), b);
      assert claw.target.x - claw.b.x * b == claw.a.x * a;
      TDivExact(claw.a.x, a);
      assert Check2(claw) == Some(Tokens(a, b));
      forall a': nat, b': nat | Solves(claw, a', b')
        ensures Tokens(a, b) <= Tokens(a', b')
      {
        OneWay(claw, a, b, a', b');
      }
      assert Cheapest(claw, Tokens(a, b));
      CheapestUnique(claw, Tokens(a, b), Fewest(claw));
    }
  }

  // ---------------------------------------------------------------------------
  // The two parts

  /** `PartOne::solve`: every machine is checked by both methods, and `check`'s price is added. */
  method SolvePartOne(claws: seq<Claw>) returns (total: int)
    requires forall k :: 0 <= k < |claws| ==> Positive(claws[k]) && Solvable2(claws[k])
    ensures total == Prices(claws)
  {
    total := 0;
    for i := 0 to |claws|
      invariant total == Prices(claws[..i])
    {
      var r := Check(claws[i]);
      assert claws[..i + 1][..i] == claws[..i];
      total := total + if r.Some? then r.value else 0;
      if r.Some? {
        CheapestUnique(claws[i], r.value, Fewest(claws[i]));
      }
    }
    assert claws[..|claws|] == claws;
  }

  /** `PartTwo::solve`: `check2`'s price of every machine, added up. */
  function TotalPartTwo(claws: seq<Claw>): (total: int)
    requires forall k :: 0 <= k < |claws| ==> Solvable2(claws[k])
  {
    if claws == [] then 0
    else
      var last := claws[|claws| - 1];
      TotalPartTwo(claws[..|claws| - 1]) + match Check2(last) case Some(c) => c case None => 0
  }

  /** Both parts add up the fewest tokens per machine. */
  lemma {:induction false} PartTwoPrices(claws: seq<Claw>)
    requires forall k :: 0 <= k < |claws| ==> Solvable2(claws[k])
    ensures TotalPartTwo(claws) == Prices(claws)
  {
    if claws != [] {
      PartTwoPrices(claws[..|claws| - 1]);
      Check2Complete(claws[|claws| - 1]);
    }
  }

  /** Part two's machines: every prize moved by `Offset` on both axes. */
  function Relocate(claws: seq<Claw>): (r: seq<Claw>)
    ensures |r| == |claws|
    ensures forall k :: 0 <= k < |claws| ==>
      r[k].a == claws[k].a && r[k].b == claws[k].b
      && r[k].target == Point(claws[k].target.x + Offset, claws[k].target.y + Offset)
  {
    seq(|claws|, k requires 0 <= k < |claws| =>
      Claw(claws[k].a, claws[k].b, Point(claws[k].target.x + Offset, claws[k].target.y + Offset)))
  }

  // ---------------------------------------------------------------------------
  // Parsing

  predicate NoDigits(s: string)
  {
    forall i :: 0 <= i < |s| ==> !IsDigit(s[i])
  }

  /** `many0(is_not("0123456789"))`: the run of non-digits at the front is skipped. */
  function SkipNonDigits(s: string): (r: string)
    ensures |r| <= |s| && (r == [] || IsDigit(r[0]))
    decreases |s|
  {
    if s == [] || IsDigit(s[0]) then s else SkipNonDigits(s[1..])
  }

  /** `number`: the digit run parsed as an `i64`; an empty run or a value past `i64::MAX` fails. */
  function Number(s: string): (r: Option<(nat, string)>)
    ensures r.Some? ==> r.value.0 <= I64Max && |r.value.1| < |s|
  {
    var k := DigitRun(s);
    if k == 0 then None
    else
      assert AllDigits(s[..k]);
      var v := DigitsValue(s[..k]);
      if v > I64Max then None else Some((v, s[k..]))
  }

  /** `point`: skip, number, skip, number, then a newline. */
  function ParsePoint(s: string): (r: Option<(Point, string)>)
    ensures r.Some? ==> |r.value.1| < |s|
  {
    match Number(SkipNonDigits(s))
    case None => None
    case Some((x, s1)) =>
      match Number(SkipNonDigits(s1))
      case None => None
      case Some((y, s2)) =>
        match Char(s2, '\n')
        case None => None
        case Some(s3) => Some((Point(x, y), s3))
  }

  /** `claw`: three points (A, B, prize) and an empty line. */
  function ParseClaw(s: string): (r: Option<(Claw, string)>)
    ensures r.Some? ==> |r.value.1| < |s|
  {
    match ParsePoint(s)
    case None => None
    case Some((a, s1)) =>
      match ParsePoint(s1)
      case None => None
      case Some((b, s2)) =>
        match ParsePoint(s2)
        case None => None
        case Some((t, s3)) =>
          match Char(s3, '\n')
          case None => None
          case Some(s4) => Some((Claw(a, b, t), s4))
  }

  /** `parse_input`, that is `many_till(claw, eof)`: machines until the text ends; one bad machine fails it all. */
  function ParseInput(s: string): (r: Option<seq<Claw>>)
    decreases |s|
  {
    if s == [] then Some([])
    else
      match ParseClaw(s)
      case None => None
      case Some((c, rest)) =>
        match ParseInput(rest)
        case None => None
        case Some(cs) => Some([c] + cs)
  }

  // ---------------------------------------------------------------------------
  // Round trip: the text of a list of machines parses back to the machines

  /** A decimal spelling that `i64` can hold. */
  predicate Numeral(d: string)
  {
    |d| > 0 && AllDigits(d) && DigitsValue(d) <= I64Max
  }

  /** A point line: any lead-in without digits, a numeral, a non-empty separator without digits, a numeral. */
  datatype PointText = PointText(lead: string, x: string, sep: string, y: string)

  datatype ClawText = ClawText(a: PointText, b: PointText, prize: PointText)

  predicate PointWritten(p: PointText)
  {
    NoDigits(p.lead) && Numeral(p.x) && |p.sep| > 0 && NoDigits(p.sep) && Numeral(p.y)
  }

  predicate ClawWritten(c: ClawText)
  {
    PointWritten(c.a) && PointWritten(c.b) && PointWritten(c.prize)
  }

  predicate AllWritten(cs: seq<ClawText>)
  {
    cs == [] || (ClawWritten(cs[0]) && AllWritten(cs[1..]))
  }

  function PointLine(p: PointText): string
  {
    p.lead + (p.x + (p.sep + (p.y + "\n")))
  }

  /** The three lines of a machine, without the empty line after them. */
  function ClawLines(c: ClawText): string
  {
    PointLine(c.a) + (PointLine(c.b) + PointLine(c.prize))
  }

  /** Every machine followed by an empty line. */
  function InputText(cs: seq<ClawText>): string
  {
    if cs == [] then "" else ClawLines(cs[0]) + ("\n" + InputText(cs[1..]))
  }

  function PointOf(p: PointText): Point
    requires PointWritten(p)
  {
    Point(DigitsValue(p.x), DigitsValue(p.y))
  }

  function ClawOf(c: ClawText): Claw
    requires ClawWritten(c)
  {
    Claw(PointOf(c.a), PointOf(c.b), PointOf(c.prize))
  }

  function ClawsOf(cs: seq<ClawText>): (r: seq<Claw>)
    requires AllWritten(cs)
    ensures |r| == |cs|
  {
    if cs == [] then [] else [ClawOf(cs[0])] + ClawsOf(cs[1..])
  }

  /** Skipping stops exactly at the first digit. */
  lemma {:induction false} SkipOf(p: string, t: string)
    requires NoDigits(p) && (t == [] || IsDigit(t[0]))
    ensures SkipNonDigits(p + t) == t
    decreases |p|
  {
    if p == [] {
      assert p + t == t;
    } else {
      assert (p + t)[1..] == p[1..] + t;
      SkipOf(p[1..], t);
    }
  }

  /** A numeral followed by anything but a digit reads as its value. */
  lemma NumberOf(d: string, t: string)
    requires Numeral(d) && (t == [] || !IsDigit(t[0]))
    ensures Number(d + t) == Some((DigitsValue(d), t))
  {
    DigitRunOf(d, t);
    assert (d + t)[..|d|] == d;
    assert (d + t)[|d|..] == t;
  }

  lemma PointLineThen(p: PointText, t: string)
    ensures PointLine(p) + t == p.lead + (p.x + (p.sep + (p.y + ("\n" + t))))
  {
  }

  lemma PointRoundTrip(p: PointText, t: string)
    requires PointWritten(p)
    ensures ParsePoint(PointLine(p) + t) == Some((PointOf(p), t))
  {
    var r2 := "\n" + t;
    var r1 := p.sep + (p.y + r2);
    PointLineThen(p, t);
    SkipOf(p.lead, p.x + r1);
    NumberOf(p.x, r1);
    SkipOf(p.sep, p.y + r2);
    NumberOf(p.y, r2);
    assert r2[1..] == t;
  }

  /** `claw` after its three points: only the closing newline is left to read. */
  lemma ClawSteps(s: string, s1: string, s2: string, s3: string, a: Point, b: Point, p: Point)
    requires ParsePoint(s) == Some((a, s1)) && ParsePoint(s1) == Some((b, s2)) && ParsePoint(s2) == Some((p, s3))
    ensures ParseClaw(s) == if s3 != [] && s3[0] == '\n' then Some((Claw(a, b, p), s3[1..])) else None
  {
  }

  lemma ClawRoundTrip(c: ClawText, t: string)
    requires ClawWritten(c)
    ensures ParseClaw(ClawLines(c) + ("\n" + t)) == Some((ClawOf(c), t))
  {
    var r3 := "\n" + t;
    var r2 := PointLine(c.prize) + r3;
    var r1 := PointLine(c.b) + r2;
    assert ClawLines(c) + r3 == PointLine(c.a) + r1;
    PointRoundTrip(c.a, r1);
    PointRoundTrip(c.b, r2);
    PointRoundTrip(c.prize, r3);
    ClawSteps(PointLine(c.a) + r1, r1, r2, r3, ClawOf(c).a, ClawOf(c).b, ClawOf(c).target);
    assert r3[1..] == t;
  }

  /** `many_till` after one machine: the rest of the input decides. */
  lemma InputStep(s: string, c: Claw, rest: string)
    requires ParseClaw(s) == Some((c, rest))
    ensures ParseInput(s) == match ParseInput(rest) case None => None case Some(cs) => Some([c] + cs)
  {
  }

  /** Machines written out, each followed by an empty line, parse back to the machines. */
  lemma {:induction false} InputRoundTrip(cs: seq<ClawText>)
    requires AllWritten(cs)
    ensures ParseInput(InputText(cs)) == Some(ClawsOf(cs))
  {
    if cs != [] {
      ClawRoundTrip(cs[0], InputText(cs[1..]));
      InputStep(InputText(cs), ClawOf(cs[0]), InputText(cs[1..]));
      InputRoundTrip(cs[1..]);
    }
  }

  /** Three point lines with nothing after them: the empty line closing a machine is missing. */
  lemma Unclosed(c: ClawText)
    requires ClawWritten(c)
    ensures ParseClaw(ClawLines(c)) == None
  {
    var r2 := PointLine(c.prize);
    var r1 := PointLine(c.b) + r2;
    assert r2 + [] == r2;
    PointRoundTrip(c.a, r1);
    PointRoundTrip(c.b, r2);
    PointRoundTrip(c.prize, []);
    ClawSteps(ClawLines(c), r1, r2, [], ClawOf(c).a, ClawOf(c).b, ClawOf(c).target);
  }

  /** Without the empty line after the last machine the whole input fails to parse. */
  lemma {:induction false} LastEmptyLineNeeded(cs: seq<ClawText>, last: ClawText)
    requires AllWritten(cs)
    requires ClawWritten(last)
    ensures ParseInput(InputText(cs) + ClawLines(last)) == None
  {
    if cs == [] {
      assert InputText(cs) + ClawLines(last) == ClawLines(last);
      Unclosed(last);
      assert ClawLines(last) != [] by { PointLineThen(last.a, PointLine(last.b) + PointLine(last.prize)); }
    } else {
      var rest := InputText(cs[1..]) + ClawLines(last);
      assert InputText(cs) + ClawLines(last) == ClawLines(cs[0]) + ("\n" + rest);
      ClawRoundTrip(cs[0], rest);
      InputStep(ClawLines(cs[0]) + ("\n" + rest), ClawOf(cs[0]), rest);
      LastEmptyLineNeeded(cs[1..], last);
    }
  }
}
