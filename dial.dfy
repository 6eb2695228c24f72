/**
 * 2025 day 1: a safe's dial with positions 0 to 99 starts at 50 and is
 * turned left or right by a number of clicks. Part one counts the rotations
 * that end on 0; part two counts every click that lands on 0.
 */
module Dial {
  import opened Text

  datatype Direction = Left | Right

  datatype Rotation = Rotation(dir: Direction, count: nat)

  /** One line: `L` or `R`, then the click count. An empty line fails where the source panics in `split_at`. */
  function ParseRotation(line: string): (r: Option<Rotation>)
    ensures r.Some? <==> |line| >= 1 && (line[0] == 'L' || line[0] == 'R') && ParseNat(line[1..]).Some?
    ensures r.Some? ==> r.value.dir == (if line[0] == 'L' then Left else Right) && Some(r.value.count) == ParseNat(line[1..])
  {
    if |line| == 0 then None
    else if line[0] != 'L' && line[0] != 'R' then None
    else
      match ParseNat(line[1..])
      case None => None
      case Some(n) => Some(Rotation(if line[0] == 'L' then Left else Right, n))
  }

  /** `parse_from`: one rotation per line; any bad line fails the whole input. */
  function ParseRotations(lines: seq<string>): (r: Option<seq<Rotation>>)
    ensures r.Some? <==> forall k :: 0 <= k < |lines| ==> ParseRotation(lines[k]).Some?
    ensures r.Some? ==> |r.value| == |lines| && forall k :: 0 <= k < |lines| ==> ParseRotation(lines[k]) == Some(r.value[k])
  {
    if lines == [] then Some([])
    else
      match (ParseRotation(lines[0]), ParseRotations(lines[1..]))
      case (Some(x), Some(rest)) => Some([x] + rest)
      case _ => None
  }

  /** Part one's turn in one go: the dial moves by the click count, modulo 100. */
  function Turn(pos: nat, r: Rotation): (p: nat)
    requires pos < 100
    ensures p < 100
    ensures p == (if r.dir == Right then pos + r.count else pos - r.count) % 100
  {
    if r.dir == Right then (pos + r.count) % 100
    else
      var q := r.count / 100;
      assert r.count == 100 * q + r.count % 100;
      assert (pos - r.count) % 100 == (pos + 100 - r.count % 100 - 100 * (q + 1)) % 100;
      ModShift(pos + 100 - r.count % 100, q + 1);
      (pos + 100 - r.count % 100) % 100
  }

  /** Part two's single click. */
  function Click(pos: nat, d: Direction): (p: nat)
    requires pos < 100
    ensures p < 100
    ensures p == (if d == Right then pos + 1 else pos - 1) % 100
  {
    match d
    case Left => (pos + 99) % 100
    case Right => (pos + 1) % 100
  }

  /** The position after `n` single clicks. */
  function Spin(pos: nat, d: Direction, n: nat): (p: nat)
    requires pos < 100
    ensures p < 100
  {
    if n == 0 then pos else Click(Spin(pos, d, n - 1), d)
  }

  /** How many of the first `n` clicks land on 0. */
  function ZeroHits(pos: nat, d: Direction, n: nat): nat
    requires pos < 100
  {
    if n == 0 then 0 else ZeroHits(pos, d, n - 1) + if Spin(pos, d, n) == 0 then 1 else 0
  }

  /** `n` clicks move the dial by `n` positions, modulo 100. */
  lemma {:induction false} SpinOffset(pos: nat, d: Direction, n: nat)
    requires pos < 100
    ensures Spin(pos, d, n) == if d == Right then (pos + n) % 100 else (pos - n) % 100
  {
    if n > 0 {
      SpinOffset(pos, d, n - 1);
      if d == Right {
        ModStep(pos + n - 1);
      } else {
        ModStep(pos - (n - 1));
      }
    }
  }

  /** Clicking one at a time ends where part one's single turn ends. */
  lemma SpinIsTurn(pos: nat, r: Rotation)
    requires pos < 100
    ensures Spin(pos, r.dir, r.count) == Turn(pos, r)
  {
    SpinOffset(pos, r.dir, r.count);
  }

  lemma ModStep(a: int)
    ensures (a % 100 + 1) % 100 == (a + 1) % 100
    ensures (a % 100 + 99) % 100 == (a - 1) % 100
  {
    var q := a / 100;
    assert a == 100 * q + a % 100;
    ModShift(a + 1, q);
    ModShift(a - 1, q - 1);
  }

  lemma DivStep(a: int)
    ensures (a + 1) / 100 == a / 100 + (if (a + 1) % 100 == 0 then 1 else 0)
  {
  }

  lemma ModNeg(a: int)
    ensures a % 100 == 0 <==> (-a) % 100 == 0
  {
  }

  lemma ModAdd(a: int, b: int)
    ensures (a % 100 + b) % 100 == (a + b) % 100
  {
  }

  lemma ModShift(a: int, q: int)
    ensures (a - 100 * q) % 100 == a % 100
  {
  }

  /** The number of zero hits in closed form: turning right from `pos` passes 0 once per hundred. */
  lemma {:induction false} ZeroHitsClosed(pos: nat, d: Direction, n: nat)
    requires pos < 100
    ensures ZeroHits(pos, d, n) == (StartOffset(pos, d) + n) / 100
  {
    if n > 0 {
      ZeroHitsClosed(pos, d, n - 1);
      LandsOnZero(pos, d, n);
      DivStep(StartOffset(pos, d) + n - 1);
    }
  }

  /** The distance, in clicks, from 0 backwards to the start position. */
  function StartOffset(pos: nat, d: Direction): nat
    requires pos < 100
  {
    if d == Right then pos else (100 - pos) % 100
  }

  /** Click `n` lands on 0 exactly when the offset plus `n` is a multiple of 100. */
  lemma LandsOnZero(pos: nat, d: Direction, n: nat)
    requires pos < 100
    ensures Spin(pos, d, n) == 0 <==> (StartOffset(pos, d) + n) % 100 == 0
  {
    SpinOffset(pos, d, n);
    if d == Left {
      LeftOffset(pos, n);
    }
  }

  lemma LeftOffset(pos: int, n: int)
    requires 0 <= pos < 100
    ensures (pos - n) % 100 == 0 <==> ((100 - pos) % 100 + n) % 100 == 0
  {
    ModAdd(100 - pos, n);
    assert (100 - pos + n) % 100 == (n - pos) % 100;
    ModNeg(pos - n);
  }

  /** Position and count after the rotations, for part one or part two. */
  function Run(rotations: seq<Rotation>, part2: bool): (r: (nat, nat))
    ensures r.0 < 100
    ensures !part2 ==> r.1 <= |rotations|
  {
    if rotations == [] then (50, 0)
    else
      var (pos, count) := Run(rotations[..|rotations| - 1], part2);
      var rot := rotations[|rotations| - 1];
      if !part2 then
        var p := Turn(pos, rot);
        (p, count + if p == 0 then 1 else 0)
      else
        (Spin(pos, rot.dir, rot.count), count + ZeroHits(pos, rot.dir, rot.count))
  }

  /** Both parts leave the dial in the same position after every rotation. */
  lemma {:induction false} SamePosition(rotations: seq<Rotation>)
    ensures Run(rotations, false).0 == Run(rotations, true).0
  {
    if rotations != [] {
      SamePosition(rotations[..|rotations| - 1]);
      SpinIsTurn(Run(rotations[..|rotations| - 1], true).0, rotations[|rotations| - 1]);
    }
  }

  /** `solve`: turn the dial rotation by rotation, counting as the part asks. */
  method Solve(rotations: seq<Rotation>, isPart2: bool) returns (count: nat)
    ensures count == Run(rotations, isPart2).1
  {
    count := 0;
    var pos: nat := 50;
    for i := 0 to |rotations|
      invariant (pos, count) == Run(rotations[..i], isPart2)
    {
      assert rotations[..i + 1][..i] == rotations[..i];
      var rotation := rotations[i];
      if !isPart2 {
        match rotation.dir {
          case Left =>
            pos := (pos + 100 - rotation.count % 100) % 100;
          case Right =>
            pos := (pos + rotation.count) % 100;
        }
        if pos == 0 {
          count := count + 1;
        }
      } else {
        ghost var pos0, count0 := pos, count;
        for k := 0 to rotation.count
          invariant pos == Spin(pos0, rotation.dir, k)
          invariant count == count0 + ZeroHits(pos0, rotation.dir, k)
        {
          match rotation.dir {
            case Left =>
              pos := (pos + 99) % 100;
            case Right =>
              pos := (pos + 1) % 100;
          }
          if pos == 0 {
            count := count + 1;
          }
        }
      }
    }
    assert rotations[..|rotations|] == rotations;
  }
}
