/**
 * 2024 day 17: a 3-bit computer.  Three 64-bit registers A, B and C, a
 * program of small numbers read two at a time (opcode, operand), and an
 * output list.  Part one runs the program; part two searches, three bits
 * at a time, for values of A that make the program print itself.
 */
module Computer {
  import opened Text

  /**
   * The parsed puzzle: the three registers (`u64` values) and the program
   * (`u8` values).  Registers are mathematical integers here: no
   * instruction makes a register grow (see `Bounded`).
   */
  datatype Input = Input(a: nat, b: nat, c: nat, program: seq<nat>)

  // ---------------------------------------------------------------------------
  // The machine

  /** Registers, instruction pointer and what has been printed so far. */
  datatype Machine = Machine(a: nat, b: nat, c: nat, ip: nat, out: seq<nat>)

  /** The machine as `PartOne::solve` starts it. */
  function Boot(input: Input): Machine
  {
    Machine(input.a, input.b, input.c, 0, [])
  }

  /**
   * `combo`: operands 0 to 3 stand for themselves, 4, 5 and 6 for the
   * registers A, B and C; 7 and above reach `unreachable!()` (`None`).
   */
  function Combo(x: nat, a: nat, b: nat, c: nat): (r: Option<nat>)
    ensures r.None? <==> x > 6
    ensures x <= 3 ==> r == Some(x)
    ensures x == 4 ==> r == Some(a)
    ensures x == 5 ==> r == Some(b)
    ensures x == 6 ==> r == Some(c)
  {
    if x <= 3 then Some(x)
    else if x == 4 then Some(a)
    else if x == 5 then Some(b)
    else if x == 6 then Some(c)
    else None
  }

  /** `v >> k`: `k` halvings, rounding down. */
  function Shr(v: nat, k: nat): nat
    decreases k
  {
    if k == 0 then v else Shr(v / 2, k - 1)
  }

  /** `v ^ w`, bit by bit from the least significant end. */
  function Xor(v: nat, w: nat): nat
    decreases v + w
  {
    if v == 0 then w
    else if w == 0 then v
    else 2 * Xor(v / 2, w / 2) + (if v % 2 == w % 2 then 0 else 1)
  }

  /** A right shift never makes a value larger. */
  lemma {:induction false} ShrLe(v: nat, k: nat)
    ensures Shr(v, k) <= v
    decreases k
  {
    if k > 0 {
      ShrLe(v / 2, k - 1);
    }
  }

  /** The result of one round of the loop. */
  datatype Status = Running(next: Machine) | Halted | Crashed

  /**
   * One round of the loop of `PartOne::solve`.  The loop breaks when the
   * opcode or its operand lies past the end of the program, or on an
   * opcode of 8 or more; a combo operand of 7 or more crashes.  Opcode 3
   * jumps to its operand when A is not 0, and every other instruction moves
   * on by two.
   */
  function Step(program: seq<nat>, m: Machine): Status
  {
    if m.ip + 1 >= |program| then Halted else Apply(program[m.ip], program[m.ip + 1], m)
  }

  /** Opcode `op` with operand `x`, both read from the program. */
  function Apply(op: nat, x: nat, m: Machine): Status
  {
    var next := m.ip + 2;
    if op == 1 then Running(m.(b := Xor(m.b, x), ip := next))
    else if op == 3 then Running(if m.a != 0 then m.(ip := x) else m.(ip := next))
    else if op == 4 then Running(m.(b := Xor(m.b, m.c), ip := next))
    else if op >= 8 then Halted
    else match Combo(x, m.a, m.b, m.c)
      case None => Crashed
      case Some(k) =>
        if op == 0 then Running(m.(a := Shr(m.a, k), ip := next))
        else if op == 2 then Running(m.(b := k % 8, ip := next))
        else if op == 5 then Running(m.(out := m.out + [k % 8], ip := next))
        else if op == 6 then Running(m.(b := Shr(m.a, k), ip := next))
        else Running(m.(c := Shr(m.a, k), ip := next))
  }

  /** How a run ends: the printed values, a crash, or no end within the allowed number of rounds. */
  datatype Outcome = Done(out: seq<nat>) | Panic | OutOfFuel

  /** At most `fuel` rounds of the loop from machine `m`. */
  function Exec(program: seq<nat>, m: Machine, fuel: nat): Outcome
    decreases fuel
  {
    if fuel == 0 then OutOfFuel
    else match Step(program, m)
      case Halted => Done(m.out)
      case Crashed => Panic
      case Running(m') => Exec(program, m', fuel - 1)
  }

  /** A round that keeps running leaves the rest of the run to the next machine. */
  lemma ExecRunning(program: seq<nat>, m: Machine, next: Machine, fuel: nat)
    requires fuel > 0 && m.ip + 1 < |program| && Apply(program[m.ip], program[m.ip + 1], m) == Running(next)
    ensures Exec(program, m, fuel) == Exec(program, next, fuel - 1)
  {
  }

  /** The run of the program in `input`, at most `fuel` rounds. */
  function Test(input: Input, fuel: nat): Outcome
  {
    Exec(input.program, Boot(input), fuel)
  }

  /** The body of the loop of `PartOne::solve`: the `match` on the opcode. */
  method Execute(op: nat, x: nat, a: nat, b: nat, c: nat, ip: nat, out: seq<nat>) returns (s: Status)
    ensures s == Apply(op, x, Machine(a, b, c, ip, out))
  {
    if op == 3 {
      if a != 0 {
        return Running(Machine(a, b, c, x, out));
      }
      return Running(Machine(a, b, c, ip + 2, out));
    } else if op == 1 {
      return Running(Machine(a, Xor(b, x), c, ip + 2, out));
    } else if op == 4 {
      return Running(Machine(a, Xor(b, c), c, ip + 2, out));
    } else if op >= 8 {
      return Halted;
    }
    var k := Combo(x, a, b, c);
    if k.None? {
      return Crashed;
    }
    var v := k.value;
    if op == 0 {
      return Running(Machine(Shr(a, v), b, c, ip + 2, out));
    } else if op == 2 {
      return Running(Machine(a, v % 8, c, ip + 2, out));
    } else if op == 5 {
      return Running(Machine(a, b, c, ip + 2, out + [v % 8]));
    } else if op == 6 {
      return Running(Machine(a, Shr(a, v), c, ip + 2, out));
    }
    return Running(Machine(a, b, Shr(a, v), ip + 2, out));
  }

  /** `PartOne::solve`: the loop over the registers, the instruction pointer and `out`. */
  method Run(input: Input, fuel: nat) returns (r: Outcome)
    ensures r == Test(input, fuel)
  {
    var program := input.program;
    var a, b, c := input.a, input.b, input.c;
    var ip: nat := 0;
    var out: seq<nat> := [];
    var rounds := 0;
    while rounds < fuel
      invariant rounds <= fuel
      invariant Exec(program, Machine(a, b, c, ip, out), fuel - rounds) == Test(input, fuel)
      decreases fuel - rounds
    {
      if ip + 1 >= |program| {
        return Done(out);
      }
      var s := Execute(program[ip], program[ip + 1], a, b, c, ip, out);
      match s {
        case Halted =>
          return Done(out);
        case Crashed =>
          return Panic;
        case Running(n) =>
          ExecRunning(program, Machine(a, b, c, ip, out), n, fuel - rounds);
          a, b, c, ip, out := n.a, n.b, n.c, n.ip, n.out;
      }
      rounds := rounds + 1;
    }
    return OutOfFuel;
  }

  // ---------------------------------------------------------------------------
  // Properties of a round and of a run

  /** The loop breaks exactly when the opcode or operand is past the end, or the opcode is 8 or more. */
  lemma HaltsWhen(program: seq<nat>, m: Machine)
    ensures Step(program, m).Halted? <==> m.ip + 1 >= |program| || program[m.ip] >= 8
  {
  }

  /** A round crashes exactly on a combo operand of 7 or more, for opcodes 0, 2, 5, 6 and 7. */
  lemma CrashesWhen(program: seq<nat>, m: Machine)
    ensures Step(program, m).Crashed? <==>
      m.ip + 1 < |program| && program[m.ip] in {0, 2, 5, 6, 7} && program[m.ip + 1] > 6
  {
  }

  /** Opcode 3 with A not 0 jumps to its operand; every other executed instruction moves on by two. */
  lemma NextIp(program: seq<nat>, m: Machine)
    requires Step(program, m).Running?
    ensures program[m.ip] == 3 && m.a != 0 ==> Step(program, m).next.ip == program[m.ip + 1]
    ensures !(program[m.ip] == 3 && m.a != 0) ==> Step(program, m).next.ip == m.ip + 2
  {
  }

  /** Only opcode 5 prints, one value below 8; the others leave the output alone. */
  lemma Prints(program: seq<nat>, m: Machine)
    requires Step(program, m).Running?
    ensures program[m.ip] == 5 ==> exists v: nat :: v < 8 && Step(program, m).next.out == m.out + [v]
    ensures program[m.ip] != 5 ==> Step(program, m).next.out == m.out
  {
  }

  /** Opcode 1 XORs B with the literal operand, 4 XORs B with C; 3 and 5 leave the registers alone. */
  lemma Registers(program: seq<nat>, m: Machine)
    requires Step(program, m).Running?
    ensures var n, op, x := Step(program, m).next, program[m.ip], program[m.ip + 1];
      && (op == 1 ==> n.a == m.a && n.b == Xor(m.b, x) && n.c == m.c)
      && (op == 4 ==> n.a == m.a && n.b == Xor(m.b, m.c) && n.c == m.c)
      && (op == 3 || op == 5 ==> n.a == m.a && n.b == m.b && n.c == m.c)
  {
  }

  /**
   * With combo operand `k`: opcodes 0, 6 and 7 put A shifted right by `k`
   * into A, B and C, 2 puts `k` modulo 8 into B, and 5 prints `k` modulo 8.
   */
  lemma ComboRegisters(program: seq<nat>, m: Machine, k: nat)
    requires Step(program, m).Running?
    requires Combo(program[m.ip + 1], m.a, m.b, m.c) == Some(k)
    ensures var n, op := Step(program, m).next, program[m.ip];
      && (op == 0 ==> n.a == Shr(m.a, k) && n.b == m.b && n.c == m.c)
      && (op == 2 ==> n.a == m.a && n.b == k % 8 && n.c == m.c)
      && (op == 5 ==> n.out == m.out + [k % 8])
      && (op == 6 ==> n.a == m.a && n.b == Shr(m.a, k) && n.c == m.c)
      && (op == 7 ==> n.a == m.a && n.b == m.b && n.c == Shr(m.a, k))
  {
  }

  lemma {:induction false} Pow2Monotone(j: nat, k: nat)
    requires j <= k
    ensures Pow2(j) <= Pow2(k)
    decreases k
  {
    if j < k {
      Pow2Monotone(j, k - 1);
    }
  }

  /** XOR of two `k`-bit values is a `k`-bit value. */
  lemma {:induction false} XorBelow(v: nat, w: nat, k: nat)
    requires v < Pow2(k) && w < Pow2(k)
    ensures Xor(v, w) < Pow2(k)
    decreases v + w
  {
    if v != 0 && w != 0 {
      XorBelow(v / 2, w / 2, k - 1);
    }
  }

  /** All three registers below `2^k`. */
  predicate Fits(m: Machine, k: nat)
  {
    m.a < Pow2(k) && m.b < Pow2(k) && m.c < Pow2(k)
  }

  predicate Bytes(program: seq<nat>)
  {
    forall k :: 0 <= k < |program| ==> program[k] < 256
  }

  /**
   * No instruction takes a register past the register width: with `k` at
   * least 8 (the operands are bytes), and so for `u64` registers, a round
   * keeps every register below `2^k`.
   */
  lemma StepFits(program: seq<nat>, m: Machine, k: nat)
    requires Bytes(program) && Fits(m, k) && 8 <= k && Step(program, m).Running?
    ensures Fits(Step(program, m).next, k)
  {
    var op, x := program[m.ip], program[m.ip + 1];
    Pow2Monotone(8, k);
    assert Pow2(8) == 256 by {
      assert Pow2(0) == 1;
    }
    if op == 1 {
      XorBelow(m.b, x, k);
    } else if op == 4 {
      XorBelow(m.b, m.c, k);
    } else if op != 3 {
      var v := Combo(x, m.a, m.b, m.c).value;
      ShrLe(m.a, v);
    }
  }

  predicate Small(out: seq<nat>)
  {
    forall k :: 0 <= k < |out| ==> out[k] < 8
  }

  /** Everything printed is below 8, and what was printed before stays at the front. */
  lemma {:induction false} ExecOutput(program: seq<nat>, m: Machine, fuel: nat)
    requires Small(m.out) && Exec(program, m, fuel).Done?
    ensures Small(Exec(program, m, fuel).out) && m.out <= Exec(program, m, fuel).out
    decreases fuel
  {
    match Step(program, m)
    case Halted =>
    case Crashed =>
    case Running(m') =>
      Prints(program, m);
      ExecOutput(program, m', fuel - 1);
  }

  /** More rounds do not change a run that has ended. */
  lemma {:induction false} ExecMoreFuel(program: seq<nat>, m: Machine, fuel: nat, more: nat)
    requires Exec(program, m, fuel) != OutOfFuel && fuel <= more
    ensures Exec(program, m, more) == Exec(program, m, fuel)
    decreases fuel
  {
    match Step(program, m)
    case Halted =>
    case Crashed =>
    case Running(m') =>
      ExecMoreFuel(program, m', fuel - 1, more - 1);
  }

  /** Part one prints only values below 8. */
  lemma TestOutput(input: Input, fuel: nat)
    requires Test(input, fuel).Done?
    ensures Small(Test(input, fuel).out)
  {
    ExecOutput(input.program, Boot(input), fuel);
  }

  // ---------------------------------------------------------------------------
  // Part two: three more bits of A per round

  /** `v | w`, bit by bit from the least significant end. */
  function Or(v: nat, w: nat): nat
    decreases v + w
  {
    if v == 0 then w
    else if w == 0 then v
    else 2 * Or(v / 2, w / 2) + (if v % 2 == 1 || w % 2 == 1 then 1 else 0)
  }

  /** Setting bits above the `s` low bits of `c` is adding them. */
  lemma {:induction false} OrAbove(c: nat, h: nat, s: nat)
    requires c < Pow2(s)
    ensures Or(c, h * Pow2(s)) == c + h * Pow2(s)
    decreases s
  {
    if c != 0 && h != 0 {
      assert h * Pow2(s) == 2 * (h * Pow2(s - 1));
      OrAbove(c / 2, h, s - 1);
    }
  }

  /** The candidate `c` with each of the eight values of a new digit at `shift`. */
  function Spread(c: nat, shift: nat): (r: seq<nat>)
    ensures |r| == 8
  {
    seq(8, d requires 0 <= d < 8 => Or(c, d * Pow2(shift)))
  }

  /** The `flat_map` of a round: every candidate, then every new digit. */
  function Widen(cands: seq<nat>, shift: nat): (r: seq<nat>)
    ensures |r| == 8 * |cands|
  {
    if cands == [] then [] else Widen(cands[..|cands| - 1], shift) + Spread(cands[|cands| - 1], shift)
  }

  /** A value of `Spread(c, shift)`: `c` with new digit `d` at `shift`. */
  predicate Widened(c: nat, shift: nat, v: nat)
  {
    exists d :: 0 <= d < 8 && v == Or(c, d * Pow2(shift))
  }

  lemma SpreadHas(c: nat, shift: nat, v: nat)
    ensures v in Spread(c, shift) <==> Widened(c, shift, v)
  {
    if Widened(c, shift, v) {
      var d :| 0 <= d < 8 && v == Or(c, d * Pow2(shift));
      assert Spread(c, shift)[d] == v;
    }
  }

  /** The widened candidates are exactly the candidates with a new digit below 8 put in at `shift`. */
  lemma {:induction false} WidenHas(cands: seq<nat>, shift: nat, v: nat)
    ensures v in Widen(cands, shift) <==> exists c :: c in cands && Widened(c, shift, v)
  {
    if cands != [] {
      var init, c := cands[..|cands| - 1], cands[|cands| - 1];
      assert cands == init + [c];
      WidenHas(init, shift, v);
      SpreadHas(c, shift, v);
      assert Widen(cands, shift) == Widen(init, shift) + Spread(c, shift);
    }
  }

  /**
   * The filter of round `i`: the first `i` values printed agree with the
   * program (`take(i).zip(program)` compares as many as both have).
   */
  predicate Agrees(out: seq<nat>, program: seq<nat>, i: nat)
  {
    forall k :: 0 <= k < i && k < |out| && k < |program| ==> out[k] == program[k]
  }

  /** `test` of `PartTwo::solve`: part one run with A set to `c`. */
  function Tester(input: Input, fuel: nat): nat -> Outcome
  {
    (c: nat) => Test(input.(a := c), fuel)
  }

  /** A candidate value of A that runs to its end and passes the filter of round `i`. */
  predicate Passes(program: seq<nat>, test: nat -> Outcome, i: nat, c: nat)
  {
    test(c).Done? && Agrees(test(c).out, program, i)
  }

  /**
   * The `filter` of round `i`.  A test that crashes or does not end within
   * the bound ends the whole search (`None`).
   */
  function Keep(wide: seq<nat>, i: nat, program: seq<nat>, test: nat -> Outcome): Option<seq<nat>>
  {
    if wide == [] then Some([])
    else
      var init, c := wide[..|wide| - 1], wide[|wide| - 1];
      match Keep(init, i, program, test)
      case None => None
      case Some(kept) =>
        if !test(c).Done? then None
        else if Agrees(test(c).out, program, i) then Some(kept + [c])
        else Some(kept)
  }

  /**
   * The filter fails exactly when some candidate's test crashes or does not
   * end; otherwise it keeps exactly the candidates that pass.
   */
  lemma {:induction false} KeepHas(wide: seq<nat>, i: nat, program: seq<nat>, test: nat -> Outcome)
    ensures Keep(wide, i, program, test).None? <==> exists c :: c in wide && !test(c).Done?
    ensures Keep(wide, i, program, test).Some? ==>
      forall c :: c in Keep(wide, i, program, test).value <==> c in wide && Passes(program, test, i, c)
  {
    if wide != [] {
      var init := wide[..|wide| - 1];
      assert wide == init + [wide[|wide| - 1]];
      KeepHas(init, i, program, test);
    }
  }

  /** The candidates that make the program print exactly itself. */
  function Quines(cands: seq<nat>, program: seq<nat>, test: nat -> Outcome): seq<nat>
  {
    if cands == [] then []
    else
      var init, c := cands[..|cands| - 1], cands[|cands| - 1];
      Quines(init, program, test) + (if test(c) == Done(program) then [c] else [])
  }

  /** The answers of a round are exactly its candidates whose output is the program. */
  lemma {:induction false} QuinesHas(cands: seq<nat>, program: seq<nat>, test: nat -> Outcome)
    ensures forall c :: c in Quines(cands, program, test) <==> c in cands && test(c) == Done(program)
  {
    if cands != [] {
      var init := cands[..|cands| - 1];
      assert cands == init + [cands[|cands| - 1]];
      QuinesHas(init, program, test);
    }
  }

  /** The first candidates, 0 to 255. */
  function Start(): seq<nat>
  {
    seq(256, k requires 0 <= k => k)
  }

  /** One round: widen at bit `8 + 3i`, then filter. */
  function Round(cands: seq<nat>, i: nat, input: Input, fuel: nat): Option<seq<nat>>
  {
    Keep(Widen(cands, 8 + 3 * i), i, input.program, Tester(input, fuel))
  }

  /** Candidates and answers after `i` rounds. */
  function Search(input: Input, fuel: nat, i: nat): Option<(seq<nat>, seq<nat>)>
  {
    if i == 0 then Some((Start(), []))
    else
      match Search(input, fuel, i - 1)
      case None => None
      case Some((cands, answers)) =>
        match Round(cands, i - 1, input, fuel)
        case None => None
        case Some(next) => Some((next, answers + Quines(next, input.program, Tester(input, fuel))))
  }

  /** The least value of a non-empty list. */
  function Min(xs: seq<nat>): (r: nat)
    requires xs != []
    ensures r in xs && forall x :: x in xs ==> r <= x
  {
    if |xs| == 1 then xs[0]
    else
      var m := Min(xs[1..]);
      assert xs == [xs[0]] + xs[1..];
      if xs[0] <= m then xs[0] else m
  }

  /** `PartTwo::solve`: the least answer after one round per program value; none found is the `unwrap` panic. */
  function PartTwo(input: Input, fuel: nat): Option<nat>
  {
    match Search(input, fuel, |input.program|)
    case None => None
    case Some((_, answers)) => if answers == [] then None else Some(Min(answers))
  }

  /** A round that succeeds extends the search by one round. */
  lemma SearchStep(input: Input, fuel: nat, i: nat, cands: seq<nat>, answers: seq<nat>, next: Option<seq<nat>>)
    requires Search(input, fuel, i) == Some((cands, answers)) && Round(cands, i, input, fuel) == next
    ensures next.None? ==> Search(input, fuel, i + 1).None?
    ensures next.Some? ==> Search(input, fuel, i + 1) == Some((next.value, answers + Quines(next.value, input.program, Tester(input, fuel))))
  {
  }

  lemma Pow2Plus3(s: nat)
    ensures Pow2(s + 3) == 8 * Pow2(s)
  {
    calc {
      Pow2(s + 3);
      2 * Pow2(s + 2);
      2 * (2 * Pow2(s + 1));
      2 * (2 * (2 * Pow2(s)));
    }
  }

  /** A new digit below 8 above the low `s` bits of `c` stays below `2^(s + 3)`. */
  lemma DigitBelow(c: nat, d: nat, s: nat)
    requires c < Pow2(s) && d < 8
    ensures Or(c, d * Pow2(s)) < Pow2(s + 3)
  {
    var p := Pow2(s);
    OrAbove(c, d, s);
    Pow2Plus3(s);
    ScaleLe(d, 7, p);
  }

  lemma ScaleLe(a: nat, b: nat, p: nat)
    requires a <= b
    ensures a * p <= b * p
  {
  }

  /** Every candidate is below `bound`. */
  predicate AllBelow(cands: seq<nat>, bound: nat)
  {
    forall c :: c in cands ==> c < bound
  }

  /** `2^(8 + 3i)`: the candidates of round `i` have `8 + 3i` bits. */
  function Bound(i: nat): nat
  {
    Pow2(8 + 3 * i)
  }

  lemma StartBelow()
    ensures AllBelow(Start(), Bound(0))
  {
    assert Bound(0) == 256 by {
      assert Pow2(0) == 1;
    }
    forall c | c in Start()
      ensures c < 256
    {
      var k :| 0 <= k < |Start()| && Start()[k] == c;
    }
  }

  /** A round keeps only candidates built from ones below `2^shift`, so they are below `2^(shift + 3)`. */
  lemma RoundBelow(cands: seq<nat>, i: nat, input: Input, fuel: nat, next: seq<nat>, shift: nat)
    requires shift == 8 + 3 * i
    requires AllBelow(cands, Pow2(shift))
    requires Round(cands, i, input, fuel) == Some(next)
    ensures AllBelow(next, Pow2(shift + 3))
  {
    KeepHas(Widen(cands, shift), i, input.program, Tester(input, fuel));
    forall v | v in next
      ensures v < Pow2(shift + 3)
    {
      WidenHas(cands, shift, v);
      var c :| c in cands && Widened(c, shift, v);
      var d :| 0 <= d < 8 && v == Or(c, d * Pow2(shift));
      DigitBelow(c, d, shift);
    }
  }

  /**
   * After `i` rounds every candidate fits in `8 + 3i` bits, so round `i`
   * puts its new digit above all the bits a candidate already has, and the
   * `|` of the source is an addition.
   */
  lemma {:induction false} CandidatesBelow(input: Input, fuel: nat, i: nat)
    requires Search(input, fuel, i).Some?
    ensures AllBelow(Search(input, fuel, i).value.0, Bound(i))
  {
    if i == 0 {
      StartBelow();
    } else {
      CandidatesBelow(input, fuel, i - 1);
      NextBelow(input, fuel, i - 1, i);
    }
  }

  lemma NextBelow(input: Input, fuel: nat, i: nat, j: nat)
    requires j == i + 1 && Search(input, fuel, j).Some?
    requires AllBelow(Search(input, fuel, i).value.0, Bound(i))
    ensures AllBelow(Search(input, fuel, j).value.0, Bound(j))
  {
    var prev := Search(input, fuel, i).value;
    var next := Round(prev.0, i, input, fuel);
    SearchStep(input, fuel, i, prev.0, prev.1, next);
    RoundBelow(prev.0, i, input, fuel, next.value, 8 + 3 * i);
  }

  /** Once a round fails, the search has failed. */
  lemma {:induction false} SearchFails(input: Input, fuel: nat, i: nat, j: nat)
    requires Search(input, fuel, i).None? && i <= j
    ensures Search(input, fuel, j).None?
    decreases j
  {
    if i < j {
      SearchFails(input, fuel, i, j - 1);
    }
  }

  /** Every answer collected in the first `i` rounds makes the program print itself. */
  lemma {:induction false} AnswersAreQuines(input: Input, fuel: nat, i: nat)
    requires Search(input, fuel, i).Some?
    ensures forall a :: a in Search(input, fuel, i).value.1 ==> Test(input.(a := a), fuel) == Done(input.program)
  {
    if i > 0 {
      var prev := Search(input, fuel, i - 1).value;
      var next := Round(prev.0, i - 1, input, fuel);
      AnswersAreQuines(input, fuel, i - 1);
      SearchStep(input, fuel, i - 1, prev.0, prev.1, next);
      assert i - 1 + 1 == i;
      QuinesHas(next.value, input.program, Tester(input, fuel));
    }
  }

  /**
   * Part two's answer makes the program print itself and is the least of
   * the answers the search collected.
   */
  lemma PartTwoSound(input: Input, fuel: nat)
    requires PartTwo(input, fuel).Some?
    ensures var a := PartTwo(input, fuel).value;
      && Test(input.(a := a), fuel) == Done(input.program)
      && forall x :: x in Search(input, fuel, |input.program|).value.1 ==> a <= x
  {
    AnswersAreQuines(input, fuel, |input.program|);
  }

  /** The `for c in &candidates` loop: push every candidate whose output is the program. */
  method Collect(cands: seq<nat>, input: Input, fuel: nat, answers: seq<nat>) returns (answers': seq<nat>)
    ensures answers' == answers + Quines(cands, input.program, Tester(input, fuel))
  {
    answers' := answers;
    for j := 0 to |cands|
      invariant answers' == answers + Quines(cands[..j], input.program, Tester(input, fuel))
    {
      var t := Run(input.(a := cands[j]), fuel);
      if t == Done(input.program) {
        answers' := answers' + [cands[j]];
      }
      assert cands[..j + 1][..j] == cands[..j];
    }
    assert cands[..|cands|] == cands;
  }

  /** `PartTwo::solve`: reassign the candidates each round and collect the answers. */
  method SolvePartTwo(input: Input, fuel: nat) returns (r: Option<nat>)
    ensures r == PartTwo(input, fuel)
  {
    var candidates := Start();
    var answers: seq<nat> := [];
    for i := 0 to |input.program|
      invariant Search(input, fuel, i) == Some((candidates, answers))
    {
      var next := Round(candidates, i, input, fuel);
      SearchStep(input, fuel, i, candidates, answers, next);
      if next.None? {
        SearchFails(input, fuel, i + 1, |input.program|);
        return None;
      }
      candidates := next.value;
      answers := Collect(candidates, input, fuel, answers);
    }
    if answers == [] {
      return None;
    }
    return Some(Min(answers));
  }

  // ---------------------------------------------------------------------------
  // Parsing: `parse_input`

  /** One more than the largest `u64`. */
  const U64: nat := 0x1_0000_0000_0000_0000

  /**
   * `number`: the digit run read into an integer type that holds the values
   * below `bound` (`u64` or `u8`); an empty run or a value out of range fails.
   */
  function Number(s: string, bound: nat): (r: Option<(nat, string)>)
    ensures r.Some? ==> r.value.0 < bound && |r.value.1| < |s|
  {
    var k := DigitRun(s);
    if k == 0 then None
    else
      assert AllDigits(s[..k]);
      var v := DigitsValue(s[..k]);
      if v < bound then Some((v, s[k..])) else None
  }

  /** The label of register `name`. */
  function Label(name: char): string
  {
    "Register " + [name] + ": "
  }

  /** `parse_reg(name)`: the label, a `u64`, a newline. */
  function Register(s: string, name: char): (r: Option<(nat, string)>)
    ensures r.Some? ==> r.value.0 < U64
  {
    match Tag(s, Label(name))
    case None => None
    case Some(s1) =>
      match Number(s1, U64)
      case None => None
      case Some((v, s2)) =>
        match Char(s2, '\n')
        case None => None
        case Some(s3) => Some((v, s3))
  }

  /**
   * `separated_list1` after its first element: a comma and a `u8`, again and
   * again; when either is missing the list ends before the comma.
   */
  function MoreValues(s: string): (r: (seq<nat>, string))
    ensures Bytes(r.0)
    decreases |s|
  {
    match Char(s, ',')
    case None => ([], s)
    case Some(s1) =>
      match Number(s1, 256)
      case None => ([], s)
      case Some((v, s2)) =>
        var more := MoreValues(s2);
        ([v] + more.0, more.1)
  }

  /** `separated_list1(tag(","), number)`: at least one `u8`. */
  function Values(s: string): (r: Option<(seq<nat>, string)>)
    ensures r.Some? ==> |r.value.0| > 0 && Bytes(r.value.0)
  {
    match Number(s, 256)
    case None => None
    case Some((v, s1)) =>
      var more := MoreValues(s1);
      Some(([v] + more.0, more.1))
  }

  /**
   * `parse_input`: registers A, B and C, an empty line, `Program: ` and the
   * values; whatever follows the values is ignored.
   */
  function Parse(s: string): (r: Option<Input>)
    ensures r.Some? ==> r.value.a < U64 && r.value.b < U64 && r.value.c < U64
    ensures r.Some? ==> |r.value.program| > 0 && Bytes(r.value.program)
  {
    match Register(s, 'A')
    case None => None
    case Some((a, s1)) =>
      match Register(s1, 'B')
      case None => None
      case Some((b, s2)) =>
        match Register(s2, 'C')
        case None => None
        case Some((c, s3)) =>
          match ProgramLine(s3)
          case None => None
          case Some(program) => Some(Input(a, b, c, program))
  }

  /** After the registers: the empty line, `Program: ` and the values. */
  function ProgramLine(s: string): (r: Option<seq<nat>>)
    ensures r.Some? ==> |r.value| > 0 && Bytes(r.value)
  {
    match Char(s, '\n')
    case None => None
    case Some(s1) =>
      match Tag(s1, "Program: ")
      case None => None
      case Some(s2) =>
        match Values(s2)
        case None => None
        case Some((program, _)) => Some(program)
  }

  // ---------------------------------------------------------------------------
  // Round trip: the text of a puzzle parses back to it

  /** A decimal spelling of a value below `bound`, leading zeros allowed. */
  predicate Numeral(d: string, bound: nat)
  {
    |d| > 0 && AllDigits(d) && DigitsValue(d) < bound
  }

  /** A numeral followed by anything but a digit reads as its value. */
  lemma NumberOf(d: string, t: string, bound: nat)
    requires Numeral(d, bound) && (t == [] || !IsDigit(t[0]))
    ensures Number(d + t, bound) == Some((DigitsValue(d), t))
  {
    DigitRunOf(d, t);
    assert (d + t)[..|d|] == d;
    assert (d + t)[|d|..] == t;
  }

  /** Program values spelled as `u8` numerals. */
  predicate ByteNumerals(ds: seq<string>)
  {
    forall k :: 0 <= k < |ds| ==> Numeral(ds[k], 256)
  }

  /** The values joined by commas. */
  function ListText(ds: seq<string>): string
    requires |ds| > 0
  {
    if |ds| == 1 then ds[0] else ds[0] + ("," + ListText(ds[1..]))
  }

  function ValuesOf(ds: seq<string>): (r: seq<nat>)
    requires ByteNumerals(ds)
    ensures |r| == |ds|
  {
    if ds == [] then [] else [DigitsValue(ds[0])] + ValuesOf(ds[1..])
  }

  /** What may follow the values: the end of the text, or anything but a digit or a comma. */
  predicate Stops(t: string)
  {
    t == [] || (!IsDigit(t[0]) && t[0] != ',')
  }

  /** Each remaining value with its comma in front. */
  function MoreText(ds: seq<string>): string
  {
    if ds == [] then "" else "," + (ds[0] + MoreText(ds[1..]))
  }

  /** What follows a numeral in the list text does not start with a digit. */
  lemma MoreTextStart(ds: seq<string>, t: string)
    requires t == [] || !IsDigit(t[0])
    ensures var s := MoreText(ds) + t; s == [] || !IsDigit(s[0])
  {
    if ds != [] {
      assert (MoreText(ds) + t)[0] == ',';
    }
  }

  /** A comma and a numeral, then the rest of the list. */
  lemma MoreCons(d: string, rest: string)
    requires Numeral(d, 256) && (rest == [] || !IsDigit(rest[0]))
    ensures MoreValues("," + (d + rest)) == ([DigitsValue(d)] + MoreValues(rest).0, MoreValues(rest).1)
  {
    assert Char("," + (d + rest), ',') == Some(d + rest);
    NumberOf(d, rest, 256);
  }

  /** The first numeral, then the rest of the list. */
  lemma ValuesCons(d: string, rest: string)
    requires Numeral(d, 256) && (rest == [] || !IsDigit(rest[0]))
    ensures Values(d + rest) == Some(([DigitsValue(d)] + MoreValues(rest).0, MoreValues(rest).1))
  {
    NumberOf(d, rest, 256);
  }

  /** After the first value: the remaining values, then `t`, where the list stops. */
  lemma {:induction false} MoreOf(ds: seq<string>, t: string)
    requires ByteNumerals(ds) && (t == [] || !IsDigit(t[0]))
    requires MoreValues(t) == ([], t)
    ensures MoreValues(MoreText(ds) + t) == (ValuesOf(ds), t)
  {
    if ds == [] {
      assert MoreText(ds) + t == t;
    } else {
      var rest := MoreText(ds[1..]) + t;
      assert MoreText(ds) + t == "," + (ds[0] + rest);
      MoreTextStart(ds[1..], t);
      MoreCons(ds[0], rest);
      MoreOf(ds[1..], t);
    }
  }

  lemma {:induction false} ListTextMore(ds: seq<string>)
    requires |ds| > 0
    ensures ListText(ds) == ds[0] + MoreText(ds[1..])
  {
    if |ds| > 1 {
      ListTextMore(ds[1..]);
    } else {
      assert ds[1..] == [];
    }
  }

  /** The list ends where the text neither continues with a comma nor has a digit. */
  lemma StopsHere(t: string)
    requires t == [] || (!IsDigit(t[0]) && t[0] != ',')
    ensures MoreValues(t) == ([], t)
  {
  }

  /** A comma not followed by a `u8` ends the list before it. */
  lemma StopsAtComma(t: string)
    requires Number(t, 256).None?
    ensures MoreValues("," + t) == ([], "," + t)
  {
    assert Char("," + t, ',') == Some(t);
  }

  lemma Regroup(x: string, y: string, z: string)
    ensures (x + y) + z == x + (y + z)
  {
  }

  /** Numerals joined by commas, then `t` where the list stops, read back as the values. */
  lemma ValuesThen(ds: seq<string>, t: string)
    requires |ds| > 0 && ByteNumerals(ds)
    requires (t == [] || !IsDigit(t[0])) && MoreValues(t) == ([], t)
    ensures Values(ListText(ds) + t) == Some((ValuesOf(ds), t))
  {
    var d, ds' := ds[0], ds[1..];
    assert ByteNumerals(ds') && Numeral(d, 256);
    ListTextMore(ds);
    var rest := MoreText(ds') + t;
    Regroup(d, MoreText(ds'), t);
    MoreTextStart(ds', t);
    ValuesCons(d, rest);
    MoreOf(ds', t);
    assert ValuesOf(ds) == [DigitsValue(d)] + ValuesOf(ds');
  }

  /**
   * Numerals joined by commas read back as the list of their values, and
   * `t` is left over: `t` is the end of the text, or starts with neither a
   * digit nor a comma, or is a comma that no `u8` follows.
   */
  lemma ValuesRoundTrip(ds: seq<string>, t: string)
    requires |ds| > 0 && ByteNumerals(ds)
    requires t == [] || (!IsDigit(t[0]) && t[0] != ',') || (t[0] == ',' && Number(t[1..], 256).None?)
    ensures Values(ListText(ds) + t) == Some((ValuesOf(ds), t))
  {
    if t != [] && t[0] == ',' {
      assert t == "," + t[1..];
      StopsAtComma(t[1..]);
    } else {
      StopsHere(t);
    }
    ValuesThen(ds, t);
  }

  lemma ProgramLineOf(ds: seq<string>)
    requires |ds| > 0 && ByteNumerals(ds)
    ensures ProgramLine("\n" + ("Program: " + (ListText(ds) + "\n"))) == Some(ValuesOf(ds))
  {
    var s2 := ListText(ds) + "\n";
    assert ("\n" + ("Program: " + s2))[1..] == "Program: " + s2;
    TagOf("Program: ", s2);
    ValuesRoundTrip(ds, "\n");
  }

  /** A puzzle written out: three register lines, an empty line, the program line. */
  function PuzzleText(a: string, b: string, c: string, ds: seq<string>): string
    requires |ds| > 0
  {
    Label('A') + (a + ("\n" + (Label('B') + (b + ("\n" + (Label('C') + (c + ("\n" + ("\n" + ("Program: " + (ListText(ds) + "\n")))))))))))
  }

  lemma RegisterOf(name: char, d: string, rest: string)
    requires Numeral(d, U64)
    ensures Register(Label(name) + (d + ("\n" + rest)), name) == Some((DigitsValue(d), rest))
  {
    TagOf(Label(name), d + ("\n" + rest));
    NumberOf(d, "\n" + rest, U64);
    assert ("\n" + rest)[1..] == rest;
  }

  /** The text of a puzzle parses back to its registers and program. */
  lemma ParseRoundTrip(a: string, b: string, c: string, ds: seq<string>)
    requires Numeral(a, U64) && Numeral(b, U64) && Numeral(c, U64)
    requires |ds| > 0 && ByteNumerals(ds)
    ensures Parse(PuzzleText(a, b, c, ds)) ==
      Some(Input(DigitsValue(a), DigitsValue(b), DigitsValue(c), ValuesOf(ds)))
  {
    var s3 := "\n" + ("Program: " + (ListText(ds) + "\n"));
    var s2 := Label('C') + (c + ("\n" + s3));
    var s1 := Label('B') + (b + ("\n" + s2));
    RegisterOf('A', a, s1);
    RegisterOf('B', b, s2);
    RegisterOf('C', c, s3);
    ProgramLineOf(ds);
  }
}
