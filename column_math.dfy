/**
 * 2025 day 6: a worksheet of number rows followed by a row of operators;
 * column i of the rows is the operand list of the i-th problem, which is
 * summed or multiplied as its operator says. The answer adds the results.
 */
module ColumnMath {
  import opened Text

  datatype Operation = Plus | Multiply

  datatype Equation = Equation(operation: Operation, operands: seq<nat>)

  /** `^[0-9 ]+$`: a non-empty line of digits and spaces. */
  predicate IsNumberLine(line: string)
  {
    |line| > 0 && forall k :: 0 <= k < |line| ==> line[k] == ' ' || IsDigit(line[k])
  }

  function ParseOperation(token: string): (r: Option<Operation>)
    ensures r == Some(Plus) <==> token == "+"
    ensures r == Some(Multiply) <==> token == "*"
    ensures r.None? <==> token != "+" && token != "*"
  {
    if token == "+" then Some(Plus) else if token == "*" then Some(Multiply) else None
  }

  function ParseAll<T>(tokens: seq<string>, parse: string -> Option<T>): (r: Option<seq<T>>)
    ensures r.Some? <==> forall k :: 0 <= k < |tokens| ==> parse(tokens[k]).Some?
    ensures r.Some? ==> |r.value| == |tokens| && forall k :: 0 <= k < |tokens| ==> parse(tokens[k]) == Some(r.value[k])
  {
    if tokens == [] then Some([])
    else
      match (parse(tokens[0]), ParseAll(tokens[1..], parse))
      case (Some(x), Some(rest)) => Some([x] + rest)
      case _ => None
  }

  /**
   * The scan of `parse_from`: number lines become rows until the first other
   * line, whose tokens are the operators; later lines are not read. Without
   * an operator line there are no operators.
   */
  function Scan(lines: seq<string>): (r: Option<(seq<seq<nat>>, seq<Operation>)>)
  {
    if lines == [] then Some(([], []))
    else if IsNumberLine(lines[0]) then
      match (ParseAll(Words(lines[0]), ParseNat), Scan(lines[1..]))
      case (Some(row), Some((rows, ops))) => Some(([row] + rows, ops))
      case _ => None
    else
      match ParseAll(Words(lines[0]), ParseOperation)
      case Some(ops) => Some(([], ops))
      case None => None
  }

  /** Every row is long enough for every operator column. */
  predicate Covers(rows: seq<seq<nat>>, cols: nat)
  {
    forall j :: 0 <= j < |rows| ==> cols <= |rows[j]|
  }

  /**
   * Equation `i` takes operator `i` and column `i` of every row, in row
   * order; `None` where a row is too short and the source panics on
   * `rows[j][i]`.
   */
  function Transpose(rows: seq<seq<nat>>, ops: seq<Operation>): (r: Option<seq<Equation>>)
    ensures r.Some? <==> Covers(rows, |ops|)
    ensures r.Some? ==> |r.value| == |ops| && forall i :: 0 <= i < |ops| ==>
      r.value[i].operation == ops[i] && |r.value[i].operands| == |rows| &&
      forall j :: 0 <= j < |rows| ==> r.value[i].operands[j] == rows[j][i]
  {
    if Covers(rows, |ops|) then
      Some(seq(|ops|, i requires 0 <= i < |ops| =>
        Equation(ops[i], seq(|rows|, j requires 0 <= j < |rows| => rows[j][i]))))
    else None
  }

  /** `parse_from` on the whole text. */
  function ParseWorksheet(s: string): (r: Option<seq<Equation>>)
    ensures r.Some? <==> Scan(Lines(s)).Some? && Covers(Scan(Lines(s)).value.0, |Scan(Lines(s)).value.1|)
    ensures r.Some? ==> |r.value| == |Scan(Lines(s)).value.1|
    ensures r.Some? ==> forall i :: 0 <= i < |r.value| ==> |r.value[i].operands| == |Scan(Lines(s)).value.0|
  {
    match Scan(Lines(s))
    case None => None
    case Some((rows, ops)) => Transpose(rows, ops)
  }

  /** Rows read before the rest of the scan, put in front of its rows. */
  function Prepend(rows: seq<seq<nat>>, r: Option<(seq<seq<nat>>, seq<Operation>)>): Option<(seq<seq<nat>>, seq<Operation>)>
  {
    match r
    case None => None
    case Some((rest, ops)) => Some((rows + rest, ops))
  }

  /** `parse_from`'s loop: push number rows, and stop at the operator line. */
  method ScanLines(lines: seq<string>) returns (r: Option<(seq<seq<nat>>, seq<Operation>)>)
    ensures r == Scan(lines)
  {
    var rows: seq<seq<nat>> := [];
    var ops: seq<Operation> := [];
    var i := 0;
    assert lines[0..] == lines;
    assert Prepend([], Scan(lines)) == Scan(lines) by {
      if Scan(lines).Some? {
        assert [] + Scan(lines).value.0 == Scan(lines).value.0;
      }
    }
    while i < |lines|
      invariant 0 <= i <= |lines|
      invariant Scan(lines) == Prepend(rows, Scan(lines[i..]))
    {
      var line := lines[i];
      if IsNumberLine(line) {
        var nums := ParseAll(Words(line), ParseNat);
        if nums.None? {
          return None;
        }
        assert lines[i..][1..] == lines[i + 1..];
        var rest := Scan(lines[i + 1..]);
        if rest.Some? {
          assert rows + ([nums.value] + rest.value.0) == (rows + [nums.value]) + rest.value.0;
        }
        rows := rows + [nums.value];
        i := i + 1;
      } else {
        var o := ParseAll(Words(line), ParseOperation);
        if o.None? {
          return None;
        }
        ops := o.value;
        assert rows + [] == rows;
        return Some((rows, ops));
      }
    }
    assert rows + [] == rows;
    return Some((rows, ops));
  }

  function SumOf(xs: seq<nat>): nat
  {
    if xs == [] then 0 else SumOf(xs[..|xs| - 1]) + xs[|xs| - 1]
  }

  function ProductOf(xs: seq<nat>): nat
  {
    if xs == [] then 1 else ProductOf(xs[..|xs| - 1]) * xs[|xs| - 1]
  }

  /**
   * A sum is at least each operand; a product is zero with a zero operand and
   * otherwise at least each operand.
   */
  function Evaluate(e: Equation): (r: nat)
    ensures e.operation == Plus ==> forall k :: 0 <= k < |e.operands| ==> e.operands[k] <= r
    ensures e.operation == Multiply && (exists k :: 0 <= k < |e.operands| && e.operands[k] == 0) ==> r == 0
    ensures e.operation == Multiply && (forall k :: 0 <= k < |e.operands| ==> e.operands[k] > 0) ==>
      forall k :: 0 <= k < |e.operands| ==> e.operands[k] <= r
  {
    SumAtLeastAll(e.operands);
    ProductBounds(e.operands);
    match e.operation
    case Plus => SumOf(e.operands)
    case Multiply => ProductOf(e.operands)
  }

  /** `solve`: the results of all equations, added. */
  function Solve(equations: seq<Equation>): (r: nat)
    ensures forall k :: 0 <= k < |equations| ==> Evaluate(equations[k]) <= r
  {
    if equations == [] then 0
    else
      var init := equations[..|equations| - 1];
      assert forall k :: 0 <= k < |init| ==> init[k] == equations[k];
      Solve(init) + Evaluate(equations[|equations| - 1])
  }

  lemma SumAtLeastAll(xs: seq<nat>)
    ensures forall k :: 0 <= k < |xs| ==> xs[k] <= SumOf(xs)
  {
    forall k | 0 <= k < |xs| {
      SumAtLeast(xs, k);
    }
  }

  lemma ProductBounds(xs: seq<nat>)
    ensures (exists k :: 0 <= k < |xs| && xs[k] == 0) ==> ProductOf(xs) == 0
    ensures (forall k :: 0 <= k < |xs| ==> xs[k] > 0) ==> forall k :: 0 <= k < |xs| ==> xs[k] <= ProductOf(xs)
  {
    forall k | 0 <= k < |xs| {
      ProductZero(xs, k);
    }
  }

  /** A sum is at least each operand. */
  lemma {:induction false} SumAtLeast(xs: seq<nat>, k: int)
    requires 0 <= k < |xs|
    ensures xs[k] <= SumOf(xs)
  {
    if k < |xs| - 1 {
      SumAtLeast(xs[..|xs| - 1], k);
    }
  }

  /** A product with a zero operand is zero; otherwise it is at least each operand. */
  lemma {:induction false} ProductZero(xs: seq<nat>, k: int)
    requires 0 <= k < |xs|
    ensures xs[k] == 0 ==> ProductOf(xs) == 0
    ensures (forall j :: 0 <= j < |xs| ==> xs[j] > 0) ==> xs[k] <= ProductOf(xs)
  {
    var init, last := xs[..|xs| - 1], xs[|xs| - 1];
    assert ProductOf(xs) == ProductOf(init) * last;
    var positive := forall j :: 0 <= j < |xs| ==> xs[j] > 0;
    if k < |xs| - 1 {
      assert init[k] == xs[k];
      ProductZero(init, k);
      if positive {
        assert forall j :: 0 <= j < |init| ==> init[j] == xs[j];
        assert xs[k] <= ProductOf(init);
        TimesAtLeast(ProductOf(init), last);
      }
    } else {
      ProductPositive(init);
      if positive {
        assert forall j :: 0 <= j < |init| ==> init[j] == xs[j];
        TimesAtLeast(last, ProductOf(init));
      }
    }
  }

  lemma TimesAtLeast(a: nat, b: nat)
    requires b >= 1
    ensures a <= a * b && a <= b * a
  {
  }

  lemma {:induction false} ProductPositive(xs: seq<nat>)
    ensures (forall j :: 0 <= j < |xs| ==> xs[j] > 0) ==> ProductOf(xs) >= 1
  {
    if xs != [] {
      ProductPositive(xs[..|xs| - 1]);
    }
  }

  /** The total of a worksheet split in two is the sum of the totals. */
  lemma {:induction false} SolveAppend(a: seq<Equation>, b: seq<Equation>)
    ensures Solve(a + b) == Solve(a) + Solve(b)
    decreases |b|
  {
    if b == [] {
      assert a + b == a;
    } else {
      assert (a + b)[..|a + b| - 1] == a + b[..|b| - 1];
      SolveAppend(a, b[..|b| - 1]);
    }
  }
}
