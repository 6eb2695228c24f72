/**
 * 2024 day 7: each line is an equation `target: n1 n2 ... nk`.  An equation
 * is valid when some choice of operator for every gap, applied strictly left
 * to right, turns the numbers into the target; part one offers `+` and `*`,
 * part two also the digit concatenation `||`.  Each answer adds up the targets
 * of the valid equations.
 */
module Calibration {
  import opened Text

  datatype Equation = Equation(target: nat, numbers: seq<nat>)

  /** The largest value `parse::<i64>()` accepts. */
  const I64Max: nat := 0x7fff_ffff_ffff_ffff

  // ---------------------------------------------------------------------------
  // Grammar: lines `number: number number ...`, each closed by a line ending

  /** `number`: the digit run parsed as an `i64`; an empty run or a value past `i64::MAX` fails. */
  function Number(s: string): (r: Option<(nat, string)>)
    ensures r.Some? ==> r.value.0 <= I64Max && |r.value.1| < |s|
  {
    var k := DigitRun(s);
    if k == 0 then None
    else
      assert AllDigits(s[..k]);
      var v := DigitsValue(s[..k]);
      if v > I64Max then None else Some((v, s[k..]))
  }

  /**
   * The loop of `separated_list1(char(' '), number)` after its first
   * element: a space followed by a number adds the number; otherwise the
   * list ends before the space.
   */
  function MoreNumbers(s: string): (r: (seq<nat>, string))
    ensures |r.1| <= |s|
    decreases |s|
  {
    if s != [] && s[0] == ' ' && Number(s[1..]).Some? then
      var (v, t) := Number(s[1..]).value;
      var (vs, rest) := MoreNumbers(t);
      ([v] + vs, rest)
    else ([], s)
  }

  /** `equation`: number, `": "`, one or more numbers separated by spaces, line ending. */
  function ParseEquation(s: string): (r: Option<(Equation, string)>)
    ensures r.Some? ==> |r.value.0.numbers| > 0 && |r.value.1| < |s|
  {
    match Number(s)
    case None => None
    case Some((t, s1)) =>
      if |s1| < 2 || s1[0] != ':' || s1[1] != ' ' then None
      else
        match Number(s1[2..])
        case None => None
        case Some((v, s2)) =>
          var (vs, s3) := MoreNumbers(s2);
          match LineEnding(s3)
          case None => None
          case Some(s4) => Some((Equation(t, [v] + vs), s4))
  }

  /** `many_till(equation, eof)`: equations until the input ends; any other line fails the parse. */
  function ParseInput(s: string): (r: Option<seq<Equation>>)
    ensures r.Some? ==> forall k :: 0 <= k < |r.value| ==> |r.value[k].numbers| > 0
    decreases |s|
  {
    if s == [] then Some([])
    else
      match ParseEquation(s)
      case None => None
      case Some((e, rest)) =>
        match ParseInput(rest)
        case None => None
        case Some(es) => Some([e] + es)
  }

  // ---------------------------------------------------------------------------
  // Spelling an input: the parser reads back what is written

  /** Digits whose value fits in an `i64`; leading zeros are allowed. */
  predicate Numeral(d: string)
  {
    |d| > 0 && AllDigits(d) && DigitsValue(d) <= I64Max
  }

  predicate AllNumerals(ds: seq<string>)
  {
    forall k :: 0 <= k < |ds| ==> Numeral(ds[k])
  }

  function Values(ds: seq<string>): (vs: seq<nat>)
    requires AllNumerals(ds)
    ensures |vs| == |ds|
  {
    if ds == [] then [] else [DigitsValue(ds[0])] + Values(ds[1..])
  }

  /** ` d` for every number after the first. */
  function SpaceList(ds: seq<string>): string
  {
    if ds == [] then [] else [' '] + (ds[0] + SpaceList(ds[1..]))
  }

  /** An equation line. */
  function EquationText(t: string, ds: seq<string>): string
    requires |ds| > 0
  {
    t + ([':', ' '] + (ds[0] + (SpaceList(ds[1..]) + ['\n'])))
  }

  /** A line as written: the target's numeral and one or more numerals. */
  predicate LineNumerals(l: (string, seq<string>))
  {
    Numeral(l.0) && |l.1| > 0 && AllNumerals(l.1)
  }

  function InputText(ls: seq<(string, seq<string>)>): string
    requires forall k :: 0 <= k < |ls| ==> LineNumerals(ls[k])
  {
    if ls == [] then []
    else
      assert LineNumerals(ls[0]);
      EquationText(ls[0].0, ls[0].1) + InputText(ls[1..])
  }

  function LineValues(ls: seq<(string, seq<string>)>): (es: seq<Equation>)
    requires forall k :: 0 <= k < |ls| ==> LineNumerals(ls[k])
  {
    if ls == [] then []
    else
      assert LineNumerals(ls[0]);
      [Equation(DigitsValue(ls[0].0), Values(ls[0].1))] + LineValues(ls[1..])
  }

  /** A numeral followed by anything but a digit reads as its value. */
  lemma NumberOf(d: string, t: string)
    requires Numeral(d) && (t == [] || !IsDigit(t[0]))
    ensures Number(d + t) == Some((DigitsValue(d), t))
  {
    DigitRunOf(d, t);
    assert (d + t)[..|d|] == d;
    assert (d + t)[|d|..] == t;
  }

  lemma SpaceListCons(d: string, ds: seq<string>, t: string)
    ensures SpaceList([d] + ds) + t == [' '] + (d + (SpaceList(ds) + t))
  {
    assert ([d] + ds)[1..] == ds;
  }

  lemma MoreNumbersStep(d: string, ds: seq<string>, t: string)
    requires Numeral(d) && AllNumerals(ds) && (t == [] || (t[0] != ' ' && !IsDigit(t[0])))
    ensures var s := [' '] + (d + (SpaceList(ds) + t));
      MoreNumbers(s) == ([DigitsValue(d)] + MoreNumbers(SpaceList(ds) + t).0, MoreNumbers(SpaceList(ds) + t).1)
  {
    var s := [' '] + (d + (SpaceList(ds) + t));
    assert s[1..] == d + (SpaceList(ds) + t);
    assert SpaceList(ds) + t == [] || !IsDigit((SpaceList(ds) + t)[0]) by {
      if ds != [] {
        SpaceListCons(ds[0], ds[1..], t);
        assert [ds[0]] + ds[1..] == ds;
      }
    }
    NumberOf(d, SpaceList(ds) + t);
  }

  /** The spaced numerals read back as their values, leaving what follows them. */
  lemma {:induction false} MoreNumbersOf(ds: seq<string>, t: string)
    requires AllNumerals(ds) && (t == [] || (t[0] != ' ' && !IsDigit(t[0])))
    ensures MoreNumbers(SpaceList(ds) + t) == (Values(ds), t)
  {
    if ds == [] {
      assert SpaceList(ds) + t == t;
    } else {
      MoreNumbersOf(ds[1..], t);
      SpaceListCons(ds[0], ds[1..], t);
      assert [ds[0]] + ds[1..] == ds;
      MoreNumbersStep(ds[0], ds[1..], t);
    }
  }

  lemma EquationTextSplit(t: string, ds: seq<string>, rest: string)
    requires |ds| > 0
    ensures EquationText(t, ds) + rest == t + ([':', ' '] + (ds[0] + (SpaceList(ds[1..]) + (['\n'] + rest))))
  {
  }

  /** The numbers of a line read back as their values, leaving the line ending and what follows. */
  lemma NumbersOf(ds: seq<string>, nl: string)
    requires |ds| > 0 && AllNumerals(ds) && |nl| > 0 && nl[0] == '\n'
    ensures Number(ds[0] + (SpaceList(ds[1..]) + nl)) == Some((DigitsValue(ds[0]), SpaceList(ds[1..]) + nl))
    ensures MoreNumbers(SpaceList(ds[1..]) + nl) == (Values(ds[1..]), nl)
  {
    assert SpaceList(ds[1..]) + nl == [] || !IsDigit((SpaceList(ds[1..]) + nl)[0]) by {
      if ds[1..] != [] {
        SpaceListCons(ds[1..][0], ds[1..][1..], nl);
        assert [ds[1..][0]] + ds[1..][1..] == ds[1..];
      }
    }
    NumberOf(ds[0], SpaceList(ds[1..]) + nl);
    MoreNumbersOf(ds[1..], nl);
  }

  /** An equation line reads back as its equation, leaving what follows it. */
  lemma EquationOf(t: string, ds: seq<string>, rest: string)
    requires Numeral(t) && |ds| > 0 && AllNumerals(ds)
    ensures ParseEquation(EquationText(t, ds) + rest) == Some((Equation(DigitsValue(t), Values(ds)), rest))
  {
    var nl := ['\n'] + rest;
    var tail := ds[0] + (SpaceList(ds[1..]) + nl);
    var s1 := [':', ' '] + tail;
    EquationTextSplit(t, ds, rest);
    NumberOf(t, s1);
    assert s1[2..] == tail;
    NumbersOf(ds, nl);
    assert LineEnding(nl) == Some(rest);
  }

  /** Round trip: the written input parses back to its equations. */
  lemma {:induction false} ParseInputOf(ls: seq<(string, seq<string>)>)
    requires forall k :: 0 <= k < |ls| ==> LineNumerals(ls[k])
    ensures ParseInput(InputText(ls)) == Some(LineValues(ls))
  {
    if ls != [] {
      ParseInputOf(ls[1..]);
      EquationOf(ls[0].0, ls[0].1, InputText(ls[1..]));
    }
  }

  // ---------------------------------------------------------------------------
  // Operators

  datatype Op = Add | Mul | Cat

  /**
   * `concat`: print both numbers one after the other and parse the result,
   * so a leading zero of the whole disappears (`0 || 5` is 5).
   */
  function Concat(a: nat, b: nat): (r: nat)
    ensures r == Shift(a, Width(b)) + b
  {
    DigitsValueConcat(NatToString(a), NatToString(b));
    DigitsValueOfNatToString(a);
    DigitsValueOfNatToString(b);
    DigitsValue(NatToString(a) + NatToString(b))
  }

  /** A left operand 0 contributes nothing; otherwise the result is at least ten times it. */
  lemma ConcatBounds(a: nat, b: nat)
    ensures a == 0 ==> Concat(a, b) == b
    ensures Concat(a, b) >= 10 * a
  {
    WidthBounds(b);
    ShiftTen(a, Width(b));
    if a == 0 {
      ShiftZero(Width(b));
    }
  }

  lemma {:induction false} ShiftTen(a: nat, e: nat)
    requires e >= 1
    ensures Shift(a, e) >= 10 * a
  {
    if e > 1 {
      ShiftTen(a, e - 1);
    }
  }

  function Apply(op: Op, a: nat, b: nat): nat
  {
    match op
    case Add => a + b
    case Mul => a * b
    case Cat => Concat(a, b)
  }

  /** The value of the numbers with the operators applied strictly left to right. */
  function Eval(head: nat, tail: seq<nat>, ops: seq<Op>): nat
    requires |ops| == |tail|
    decreases |tail|
  {
    if tail == [] then head else Eval(Apply(ops[0], head, tail[0]), tail[1..], ops[1..])
  }

  /** Part one's operators: no concatenation. */
  predicate NoCat(ops: seq<Op>)
  {
    forall i :: 0 <= i < |ops| ==> ops[i] != Cat
  }

  // ---------------------------------------------------------------------------
  // Validity

  /** Part one's `go`: try `+`, then `*`, on the running value and the next number. */
  function GoOne(head: nat, tail: seq<nat>, target: nat): (r: bool)
    ensures r && (forall k :: 0 <= k < |tail| ==> tail[k] >= 1) ==> head <= target
    decreases |tail|
  {
    if |tail| == 0 then head == target
    else GoOne(head + tail[0], tail[1..], target) || GoOne(head * tail[0], tail[1..], target)
  }

  /** Part two's `go`: `+`, `*`, then `||`. */
  function GoTwo(head: nat, tail: seq<nat>, target: nat): (r: bool)
    ensures r && (forall k :: 0 <= k < |tail| ==> tail[k] >= 1) ==> head <= target
    decreases |tail|
  {
    if |tail| == 0 then head == target
    else
      ConcatBounds(head, tail[0]);
      TimesAtLeast(head, tail[0]);
      assert forall k :: 0 <= k < |tail| - 1 ==> tail[1..][k] == tail[k + 1];
      GoTwo(head + tail[0], tail[1..], target)
      || GoTwo(head * tail[0], tail[1..], target)
      || GoTwo(Concat(head, tail[0]), tail[1..], target)
  }

  /** A positive factor does not make a number smaller. */
  lemma TimesAtLeast(a: nat, b: nat)
    ensures b >= 1 ==> a <= a * b
  {
    if b >= 1 {
      assert a * b == a + a * (b - 1);
    }
  }

  /** Some choice of `+` and `*` reaches the target. */
  lemma {:induction false} GoOneWitness(head: nat, tail: seq<nat>, target: nat) returns (ops: seq<Op>)
    requires GoOne(head, tail, target)
    ensures |ops| == |tail| && NoCat(ops) && Eval(head, tail, ops) == target
    decreases |tail|
  {
    if tail == [] {
      ops := [];
    } else if GoOne(head + tail[0], tail[1..], target) {
      var rest := GoOneWitness(head + tail[0], tail[1..], target);
      ops := [Add] + rest;
    } else {
      var rest := GoOneWitness(head * tail[0], tail[1..], target);
      ops := [Mul] + rest;
    }
  }

  /** Every choice of `+` and `*` that reaches the target is found. */
  lemma {:induction false} GoOneComplete(head: nat, tail: seq<nat>, target: nat, ops: seq<Op>)
    requires |ops| == |tail| && NoCat(ops) && Eval(head, tail, ops) == target
    ensures GoOne(head, tail, target)
    decreases |tail|
  {
    if tail != [] {
      assert NoCat(ops[1..]) by {
        forall i | 0 <= i < |ops| - 1 ensures ops[1..][i] != Cat {
          assert ops[1..][i] == ops[i + 1];
        }
      }
      GoOneComplete(Apply(ops[0], head, tail[0]), tail[1..], target, ops[1..]);
    }
  }

  /** Part one's search holds exactly when some choice of `+` and `*` gives the target. */
  lemma GoOneIff(head: nat, tail: seq<nat>, target: nat)
    ensures GoOne(head, tail, target) <==>
      exists ops :: |ops| == |tail| && NoCat(ops) && Eval(head, tail, ops) == target
  {
    if GoOne(head, tail, target) {
      var ops := GoOneWitness(head, tail, target);
    }
    forall ops | |ops| == |tail| && NoCat(ops) && Eval(head, tail, ops) == target
      ensures GoOne(head, tail, target)
    {
      GoOneComplete(head, tail, target, ops);
    }
  }

  /** Some choice of `+`, `*` and `||` reaches the target. */
  lemma {:induction false} GoTwoWitness(head: nat, tail: seq<nat>, target: nat) returns (ops: seq<Op>)
    requires GoTwo(head, tail, target)
    ensures |ops| == |tail| && Eval(head, tail, ops) == target
    decreases |tail|
  {
    if tail == [] {
      ops := [];
    } else if GoTwo(head + tail[0], tail[1..], target) {
      var rest := GoTwoWitness(head + tail[0], tail[1..], target);
      ops := [Add] + rest;
    } else if GoTwo(head * tail[0], tail[1..], target) {
      var rest := GoTwoWitness(head * tail[0], tail[1..], target);
      ops := [Mul] + rest;
    } else {
      var rest := GoTwoWitness(Concat(head, tail[0]), tail[1..], target);
      ops := [Cat] + rest;
    }
  }

  /** Every choice of operators that reaches the target is found. */
  lemma {:induction false} GoTwoComplete(head: nat, tail: seq<nat>, target: nat, ops: seq<Op>)
    requires |ops| == |tail| && Eval(head, tail, ops) == target
    ensures GoTwo(head, tail, target)
    decreases |tail|
  {
    if tail != [] {
      GoTwoComplete(Apply(ops[0], head, tail[0]), tail[1..], target, ops[1..]);
    }
  }

  /** Part two's search holds exactly when some choice of `+`, `*` and `||` gives the target. */
  lemma GoTwoIff(head: nat, tail: seq<nat>, target: nat)
    ensures GoTwo(head, tail, target) <==>
      exists ops :: |ops| == |tail| && Eval(head, tail, ops) == target
  {
    if GoTwo(head, tail, target) {
      var ops := GoTwoWitness(head, tail, target);
    }
    forall ops | |ops| == |tail| && Eval(head, tail, ops) == target
      ensures GoTwo(head, tail, target)
    {
      GoTwoComplete(head, tail, target, ops);
    }
  }

  /** Whatever part one's search finds, part two's finds too. */
  lemma {:induction false} OneThenTwo(head: nat, tail: seq<nat>, target: nat)
    requires GoOne(head, tail, target)
    ensures GoTwo(head, tail, target)
    decreases |tail|
  {
    if tail != [] {
      if GoOne(head + tail[0], tail[1..], target) {
        OneThenTwo(head + tail[0], tail[1..], target);
      } else {
        OneThenTwo(head * tail[0], tail[1..], target);
      }
    }
  }

  /** `is_valid` of either part, starting from the first number. */
  predicate Valid(e: Equation, part: nat)
    requires |e.numbers| > 0
  {
    if part == 1 then GoOne(e.numbers[0], e.numbers[1..], e.target)
    else GoTwo(e.numbers[0], e.numbers[1..], e.target)
  }

  // ---------------------------------------------------------------------------
  // Answers

  predicate WellFormed(es: seq<Equation>)
  {
    forall k :: 0 <= k < |es| ==> |es[k].numbers| > 0
  }

  /**
   * `solve`: the sum of the targets of the valid equations. It lies between
   * zero and the sum of all targets, reaching the latter when every equation
   * is valid.
   */
  function Solve(es: seq<Equation>, part: nat): (r: nat)
    requires WellFormed(es)
    ensures r <= Targets(es)
    ensures (forall k :: 0 <= k < |es| ==> Valid(es[k], part)) ==> r == Targets(es)
    ensures (forall k :: 0 <= k < |es| ==> !Valid(es[k], part)) ==> r == 0
  {
    if es == [] then 0
    else
      assert forall k :: 0 <= k < |es| - 1 ==> es[1..][k] == es[k + 1];
      (if Valid(es[0], part) then es[0].target else 0) + Solve(es[1..], part)
  }

  function Targets(es: seq<Equation>): nat
  {
    if es == [] then 0 else es[0].target + Targets(es[1..])
  }

  /** Part two's answer is at least part one's. */
  lemma {:induction false} SolveOneLeTwo(es: seq<Equation>)
    requires WellFormed(es)
    ensures Solve(es, 1) <= Solve(es, 2)
  {
    if es != [] {
      SolveOneLeTwo(es[1..]);
      var e := es[0];
      if Valid(e, 1) {
        OneThenTwo(e.numbers[0], e.numbers[1..], e.target);
      }
    }
  }

  /** The answer over two runs of lines is the sum of the answers: the order of the lines does not matter. */
  lemma {:induction false} SolveAppend(a: seq<Equation>, b: seq<Equation>, part: nat)
    requires WellFormed(a) && WellFormed(b)
    ensures WellFormed(a + b) && Solve(a + b, part) == Solve(a, part) + Solve(b, part)
  {
    if a == [] {
      assert a + b == b;
    } else {
      assert (a + b)[1..] == a[1..] + b;
      SolveAppend(a[1..], b, part);
    }
  }
}
