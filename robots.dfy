/**
 * 2024 day 14: robots walk across a room of `n` by `m` tiles with constant
 * velocities, wrapping around at the edges.  Part one places every robot
 * after 100 seconds, counts the robots in each quadrant (robots on the
 * middle column or row belong to none) and multiplies the four counts.
 */
module Robots {
  import opened Text

  datatype Point = Point(x: int, y: int)

  datatype Robot = Robot(position: Point, velocity: Point)

  /** The fields of `PartOne`: the size of the room and the seconds to simulate. */
  datatype Room = Room(n: nat, m: nat, steps: nat)

  /** `PartOne::new` fixes the number of seconds. */
  const Seconds: nat := 100

  const I64Max: int := 0x7fff_ffff_ffff_ffff

  // ---------------------------------------------------------------------------
  // Moving with wrap-around

  function Abs(a: int): nat
  {
    if a < 0 then -a else a
  }

  /** Rust's `%` on `i64`: the remainder takes the sign of the dividend. */
  function TRem(a: int, d: int): (r: int)
    requires d != 0
    ensures Abs(r) < Abs(d)
  {
    var r := Abs(a) % Abs(d);
    if a < 0 then -r else r
  }

  /** `wrap`: the position after `steps` seconds, shifted into `0..size`. */
  function Wrap(position: int, velocity: int, steps: nat, size: nat): (r: nat)
    requires size > 0
    ensures r < size
  {
    (TRem(position + velocity * steps, size) + size) % size
  }

  /** The remainder of Euclidean division is the one that leaves `r` in `0..size`. */
  lemma ModOf(a: int, size: nat, q: int, r: int)
    requires size > 0 && a == size * q + r && 0 <= r < size
    ensures a % size == r
  {
    var q', r' := a / size, a % size;
    assert size * (q - q') == r' - r;
    ScaleAway(size, q - q');
  }

  lemma ScaleAway(p: int, k: int)
    requires p > 0
    ensures k >= 1 ==> p * k >= p
    ensures k <= -1 ==> p * k <= -p
  {
  }

  /** However negative the walk, `wrap` lands on its mathematical remainder modulo the size. */
  lemma WrapIsMod(position: int, velocity: int, steps: nat, size: nat)
    requires size > 0
    ensures Wrap(position, velocity, steps, size) == (position + velocity * steps) % size
  {
    var a := position + velocity * steps;
    var r := Abs(a) % size;
    var q := Abs(a) / size;
    if a >= 0 {
      ModOf(TRem(a, size) + size, size, 1, r);
    } else if r == 0 {
      ModOf(TRem(a, size) + size, size, 1, 0);
      ModOf(a, size, -q, 0);
    } else {
      ModOf(TRem(a, size) + size, size, 0, size - r);
      ModOf(a, size, -q - 1, size - r);
    }
  }

  /** Adding a whole number of sizes leaves the remainder alone. */
  lemma ModShift(a: int, b: int, size: nat)
    requires size > 0
    ensures (a % size + b) % size == (a + b) % size
  {
    var c := a % size + b;
    ModOf(a + b, size, a / size + c / size, c % size);
  }

  /** Teleporting `steps + 1` seconds ahead is one wrapped second after `steps` seconds. */
  lemma WrapStep(position: int, velocity: int, steps: nat, size: nat)
    requires size > 0
    ensures Wrap(position, velocity, steps + 1, size)
         == Wrap(Wrap(position, velocity, steps, size), velocity, 1, size)
  {
    WrapIsMod(position, velocity, steps, size);
    WrapIsMod(position, velocity, steps + 1, size);
    WrapIsMod(Wrap(position, velocity, steps, size), velocity, 1, size);
    ModShift(position + velocity * steps, velocity, size);
    assert position + velocity * (steps + 1) == position + velocity * steps + velocity;
  }

  // ---------------------------------------------------------------------------
  // Quadrants

  /** 0 before the middle line, 1 after it, 2 on it. */
  function Side(c: nat, size: nat): nat
  {
    if c < size / 2 then 0 else if c > size / 2 then 1 else 2
  }

  /** The bucket of a pair of sides: the four quadrants, then 4 for the middle lines. */
  function Bucket(qx: nat, qy: nat): nat
  {
    match (qx, qy)
    case (0, 0) => 0
    case (0, 1) => 1
    case (1, 0) => 2
    case (1, 1) => 3
    case _ => 4
  }

  /** The bucket of one robot after `room.steps` seconds. */
  function Quadrant(room: Room, r: Robot): (q: nat)
    requires room.n > 0 && room.m > 0
    ensures q < 5
  {
    var x := Wrap(r.position.x, r.velocity.x, room.steps, room.n);
    var y := Wrap(r.position.y, r.velocity.y, room.steps, room.m);
    Bucket(Side(x, room.n), Side(y, room.m))
  }

  /** Where a robot stands after `room.steps` seconds. */
  function Finish(room: Room, r: Robot): Point
    requires room.n > 0 && room.m > 0
  {
    Point((r.position.x + r.velocity.x * room.steps) % room.n,
          (r.position.y + r.velocity.y * room.steps) % room.m)
  }

  /** The buckets name the four quadrants of the room; a robot on a middle line is in bucket 4. */
  lemma QuadrantCases(room: Room, r: Robot)
    requires room.n > 0 && room.m > 0
    ensures var p, q := Finish(room, r), Quadrant(room, r);
      && (q == 0 <==> p.x < room.n / 2 && p.y < room.m / 2)
      && (q == 1 <==> p.x < room.n / 2 && p.y > room.m / 2)
      && (q == 2 <==> p.x > room.n / 2 && p.y < room.m / 2)
      && (q == 3 <==> p.x > room.n / 2 && p.y > room.m / 2)
      && (q == 4 <==> p.x == room.n / 2 || p.y == room.m / 2)
  {
    WrapIsMod(r.position.x, r.velocity.x, room.steps, room.n);
    WrapIsMod(r.position.y, r.velocity.y, room.steps, room.m);
  }

  function Quadrants(room: Room, robots: seq<Robot>): (qs: seq<nat>)
    requires room.n > 0 && room.m > 0
    ensures |qs| == |robots| && forall k :: 0 <= k < |robots| ==> qs[k] == Quadrant(room, robots[k])
  {
    seq(|robots|, k requires 0 <= k < |robots| => Quadrant(room, robots[k]))
  }

  /** How many robots end in bucket `q`. */
  function Census(room: Room, robots: seq<Robot>, q: nat): nat
    requires room.n > 0 && room.m > 0
  {
    multiset(Quadrants(room, robots))[q]
  }

  /** The safety factor: the product of the four quadrant counts. */
  function Safety(room: Room, robots: seq<Robot>): int
    requires room.n > 0 && room.m > 0
  {
    Census(room, robots, 0) * Census(room, robots, 1) * Census(room, robots, 2) * Census(room, robots, 3)
  }

  lemma QuadrantsSnoc(room: Room, robots: seq<Robot>, i: nat)
    requires room.n > 0 && room.m > 0 && i < |robots|
    ensures Quadrants(room, robots[..i + 1]) == Quadrants(room, robots[..i]) + [Quadrant(room, robots[i])]
  {
  }

  /**
   * `PartOne::solve`: bump `count[q]` for the bucket of every robot, then
   * multiply the first four counts.
   */
  method SolvePartOne(n: nat, m: nat, robots: seq<Robot>) returns (safety: int)
    requires n > 0 && m > 0
    ensures safety == Safety(Room(n, m, Seconds), robots)
  {
    var room := Room(n, m, Seconds);
    var count := new int[5](_ => 0);
    for i := 0 to |robots|
      invariant forall q :: 0 <= q < 5 ==> count[q] == Census(room, robots[..i], q)
    {
      var q := Quadrant(room, robots[i]);
      QuadrantsSnoc(room, robots, i);
      count[q] := count[q] + 1;
    }
    assert robots[..|robots|] == robots;
    safety := count[0] * count[1] * count[2] * count[3];
  }

  // ---------------------------------------------------------------------------
  // Parsing

  /** `number` takes digits and minus signs. */
  predicate IsNumberChar(c: char)
  {
    IsDigit(c) || c == '-'
  }

  predicate Filler(s: string)
  {
    forall i :: 0 <= i < |s| ==> !IsNumberChar(s[i])
  }

  /** `many0(is_not("0123456789-"))`: everything up to the next digit or minus sign is skipped. */
  function Skip(s: string): (r: string)
    ensures |r| <= |s| && (r == [] || IsNumberChar(r[0]))
    decreases |s|
  {
    if s == [] || IsNumberChar(s[0]) then s else Skip(s[1..])
  }

  /** `take_while` over digits and minus signs: the length of that run. */
  function NumberRun(s: string): (k: nat)
    ensures k <= |s| && (forall i :: 0 <= i < k ==> IsNumberChar(s[i])) && (k < |s| ==> !IsNumberChar(s[k]))
  {
    if s == [] || !IsNumberChar(s[0]) then 0 else 1 + NumberRun(s[1..])
  }

  /** `number`: the run parsed as an `i64`; a malformed run or a value outside `i64` fails. */
  function Number(s: string): (r: Option<(int, string)>)
    ensures r.Some? ==> -I64Max - 1 <= r.value.0 <= I64Max && |r.value.1| < |s|
  {
    var k := NumberRun(s);
    match ParseInt(s[..k])
    case None => None
    case Some(v) => if v < -I64Max - 1 || v > I64Max then None else Some((v, s[k..]))
  }

  /** `point`: skip, number, skip, number. */
  function ParsePoint(s: string): (r: Option<(Point, string)>)
    ensures r.Some? ==> |r.value.1| < |s|
  {
    match Number(Skip(s))
    case None => None
    case Some((x, s1)) =>
      match Number(Skip(s1))
      case None => None
      case Some((y, s2)) => Some((Point(x, y), s2))
  }

  /** `robot`: position, velocity, newline. */
  function ParseRobot(s: string): (r: Option<(Robot, string)>)
    ensures r.Some? ==> |r.value.1| < |s|
  {
    match ParsePoint(s)
    case None => None
    case Some((p, s1)) =>
      match ParsePoint(s1)
      case None => None
      case Some((v, s2)) =>
        match Char(s2, '\n')
        case None => None
        case Some(s3) => Some((Robot(p, v), s3))
  }

  /** `parse_input`, that is `many_till(robot, eof)`: robots until the text ends; one bad robot fails it all. */
  function ParseInput(s: string): (r: Option<seq<Robot>>)
    decreases |s|
  {
    if s == [] then Some([])
    else
      match ParseRobot(s)
      case None => None
      case Some((rb, rest)) =>
        match ParseInput(rest)
        case None => None
        case Some(rs) => Some([rb] + rs)
  }

  // ---------------------------------------------------------------------------
  // Round trip: the text of a list of robots parses back to the robots

  /** A decimal spelling, possibly negative, that `i64` can hold. */
  predicate Numeral(d: string)
  {
    ((|d| > 0 && AllDigits(d)) || (|d| > 1 && d[0] == '-' && AllDigits(d[1..])))
    && ParseInt(d).Some? && -I64Max - 1 <= ParseInt(d).value <= I64Max
  }

  /** A point: a non-empty lead-in, a numeral, a non-empty separator, a numeral; neither lead-in nor separator holds digits or minus signs. */
  datatype PointText = PointText(lead: string, x: string, sep: string, y: string)

  datatype RobotText = RobotText(p: PointText, v: PointText)

  predicate PointWritten(t: PointText)
  {
    |t.lead| > 0 && Filler(t.lead) && Numeral(t.x) && |t.sep| > 0 && Filler(t.sep) && Numeral(t.y)
  }

  predicate AllWritten(rs: seq<RobotText>)
  {
    rs == [] || (PointWritten(rs[0].p) && PointWritten(rs[0].v) && AllWritten(rs[1..]))
  }

  function PointString(t: PointText): string
  {
    t.lead + (t.x + (t.sep + t.y))
  }

  function RobotLine(r: RobotText): string
  {
    PointString(r.p) + (PointString(r.v) + "\n")
  }

  function InputText(rs: seq<RobotText>): string
  {
    if rs == [] then "" else RobotLine(rs[0]) + InputText(rs[1..])
  }

  function PointOf(t: PointText): Point
    requires PointWritten(t)
  {
    Point(ParseInt(t.x).value, ParseInt(t.y).value)
  }

  function RobotsOf(rs: seq<RobotText>): (r: seq<Robot>)
    requires AllWritten(rs)
    ensures |r| == |rs|
  {
    if rs == [] then [] else [Robot(PointOf(rs[0].p), PointOf(rs[0].v))] + RobotsOf(rs[1..])
  }

  lemma {:induction false} SkipOf(f: string, t: string)
    requires Filler(f) && (t == [] || IsNumberChar(t[0]))
    ensures Skip(f + t) == t
    decreases |f|
  {
    if f == [] {
      assert f + t == t;
    } else {
      assert (f + t)[1..] == f[1..] + t;
      SkipOf(f[1..], t);
    }
  }

  lemma {:induction false} NumberRunOf(d: string, t: string)
    requires (forall i :: 0 <= i < |d| ==> IsNumberChar(d[i])) && (t == [] || !IsNumberChar(t[0]))
    ensures NumberRun(d + t) == |d|
    decreases |d|
  {
    if d == [] {
      assert d + t == t;
    } else {
      assert (d + t)[1..] == d[1..] + t;
      NumberRunOf(d[1..], t);
    }
  }

  /** A numeral followed by anything but a digit or a minus sign reads as its value. */
  lemma NumberOf(d: string, t: string)
    requires Numeral(d) && (t == [] || !IsNumberChar(t[0]))
    ensures Number(d + t) == Some((ParseInt(d).value, t))
  {
    NumberRunOf(d, t);
    assert (d + t)[..|d|] == d;
    assert (d + t)[|d|..] == t;
  }

  lemma PointStringThen(t: PointText, rest: string)
    ensures PointString(t) + rest == t.lead + (t.x + (t.sep + (t.y + rest)))
  {
  }

  lemma PointRoundTrip(t: PointText, rest: string)
    requires PointWritten(t) && (rest == [] || !IsNumberChar(rest[0]))
    ensures ParsePoint(PointString(t) + rest) == Some((PointOf(t), rest))
  {
    var r1 := t.sep + (t.y + rest);
    PointStringThen(t, rest);
    SkipOf(t.lead, t.x + r1);
    NumberOf(t.x, r1);
    SkipOf(t.sep, t.y + rest);
    NumberOf(t.y, rest);
  }

  /** `robot` after its two points: only the newline is left to read. */
  lemma RobotSteps(s: string, s1: string, s2: string, p: Point, v: Point)
    requires ParsePoint(s) == Some((p, s1)) && ParsePoint(s1) == Some((v, s2))
    ensures ParseRobot(s) == if s2 != [] && s2[0] == '\n' then Some((Robot(p, v), s2[1..])) else None
  {
  }

  lemma RobotRoundTrip(r: RobotText, rest: string)
    requires PointWritten(r.p) && PointWritten(r.v)
    ensures ParseRobot(RobotLine(r) + rest) == Some((Robot(PointOf(r.p), PointOf(r.v)), rest))
  {
    var r2 := "\n" + rest;
    var r1 := PointString(r.v) + r2;
    assert RobotLine(r) + rest == PointString(r.p) + r1;
    PointStringThen(r.v, r2);
    PointRoundTrip(r.p, r1);
    PointRoundTrip(r.v, r2);
    RobotSteps(PointString(r.p) + r1, r1, r2, PointOf(r.p), PointOf(r.v));
    assert r2[1..] == rest;
  }

  /** `many_till` after one robot: the rest of the input decides. */
  lemma InputStep(s: string, rb: Robot, rest: string)
    requires ParseRobot(s) == Some((rb, rest))
    ensures ParseInput(s) == match ParseInput(rest) case None => None case Some(rs) => Some([rb] + rs)
  {
  }

  /** Robots written out one per line parse back to the robots. */
  lemma {:induction false} InputRoundTrip(rs: seq<RobotText>)
    requires AllWritten(rs)
    ensures ParseInput(InputText(rs)) == Some(RobotsOf(rs))
  {
    if rs != [] {
      RobotRoundTrip(rs[0], InputText(rs[1..]));
      InputStep(InputText(rs), Robot(PointOf(rs[0].p), PointOf(rs[0].v)), InputText(rs[1..]));
      InputRoundTrip(rs[1..]);
    }
  }
}
