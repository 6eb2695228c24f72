/**
 * 2024 day 3: scanning corrupted memory for `mul(X,Y)` instructions.
 *
 * The parsers are `many_till` loops over an `alt` of alternatives: a
 * well-formed `mul(...)` (and, in part two, `do()` and `don't()`), or else one
 * skipped character.  Part one adds up the products of every recognised
 * `mul`; part two adds only those seen while the last switch was a `do()`.
 */
module Memory {
  import opened Text

  /** A recognised instruction; each operand has one to three digits. */
  datatype Mul = Mul(lhs: nat, rhs: nat)

  datatype Instr = MulOp(m: Mul) | Do | Dont

  // ---------------------------------------------------------------------------
  // The `mul` grammar

  /** How many leading characters of `s` are digits, counting at most `max`. */
  function LeadingDigits(s: string, max: nat): (k: nat)
    ensures k <= max && k <= |s|
    ensures forall i :: 0 <= i < k ==> IsDigit(s[i])
    ensures k < max && k < |s| ==> !IsDigit(s[k])
  {
    if max == 0 || s == [] || !IsDigit(s[0]) then 0 else 1 + LeadingDigits(s[1..], max - 1)
  }

  /** `take_while_m_n(1, 3, is_digit)` followed by `parse::<i32>()`. */
  function Number(s: string): (r: Option<(nat, string)>)
    ensures r.Some? ==> 1 <= |s| - |r.value.1| <= 3 && r.value.0 < 1000
  {
    var k := LeadingDigits(s, 3);
    if k == 0 then None
    else
      assert AllDigits(s[..k]);
      DigitsBound(s[..k]);
      Some((DigitsValue(s[..k]), s[k..]))
  }

  lemma {:induction false} DigitsBound(d: string)
    requires AllDigits(d)
    ensures DigitsValue(d) < Pow10(|d|)
  {
    if d != [] {
      DigitsBound(d[..|d| - 1]);
    }
  }

  /** The tag `mul(`, then the operands; the rest is what follows. */
  function ParseMul(s: string): (r: Option<(Mul, string)>)
    ensures r.Some? ==> |r.value.1| + 8 <= |s|
    ensures r.Some? ==> r.value.0.lhs < 1000 && r.value.0.rhs < 1000
  {
    if AtMul(s) then Operands(s[4..]) else None
  }

  /** A number, `,`, a number and `)`. */
  function Operands(t: string): (r: Option<(Mul, string)>)
    ensures r.Some? ==> |r.value.1| + 4 <= |t|
    ensures r.Some? ==> r.value.0.lhs < 1000 && r.value.0.rhs < 1000
  {
    match Number(t)
      case None => None
      case Some((a, t)) =>
        match Char(t, ',')
          case None => None
          case Some(t') =>
            match Number(t')
              case None => None
              case Some((b, u)) =>
                match Char(u, ')')
                  case None => None
                  case Some(rest) => Some((Mul(a, b), rest))
  }

  /** `tag("mul(")` succeeds. */
  predicate AtMul(s: string)
  {
    |s| >= 4 && s[0] == 'm' && s[1] == 'u' && s[2] == 'l' && s[3] == '('
  }

  /** `tag("do()")` succeeds. */
  predicate AtDo(s: string)
  {
    |s| >= 4 && s[0] == 'd' && s[1] == 'o' && s[2] == '(' && s[3] == ')'
  }

  /** `tag("don't()")` succeeds. */
  predicate AtDont(s: string)
  {
    |s| >= 7 && s[0] == 'd' && s[1] == 'o' && s[2] == 'n' && s[3] == '\'' && s[4] == 't' && s[5] == '(' && s[6] == ')'
  }

  /** The three tag tests are prefix tests. */
  lemma TagsArePrefixes(s: string)
    ensures AtMul(s) <==> |s| >= 4 && s[..4] == "mul("
    ensures AtDo(s) <==> |s| >= 4 && s[..4] == "do()"
    ensures AtDont(s) <==> |s| >= 7 && s[..7] == "don't()"
  {
    if |s| >= 4 {
      assert s[..4][0] == s[0] && s[..4][1] == s[1] && s[..4][2] == s[2] && s[..4][3] == s[3];
    }
    if |s| >= 7 {
      assert s[..7][0] == s[0] && s[..7][1] == s[1] && s[..7][2] == s[2] && s[..7][3] == s[3];
      assert s[..7][4] == s[4] && s[..7][5] == s[5] && s[..7][6] == s[6];
    }
  }

  /** One to three decimal digits: the operand spelling `mul` accepts. */
  predicate Operand(d: string)
  {
    1 <= |d| <= 3 && AllDigits(d)
  }

  /** The text of a `mul` with operand spellings `d1`, `d2`, followed by `rest`. */
  function MulText(d1: string, d2: string, rest: string): string
  {
    "mul(" + (d1 + ([','] + (d2 + ([')'] + rest))))
  }

  /** `s` starts with a well-formed `mul` denoting `m`, and `rest` follows it. */
  ghost predicate Spells(s: string, m: Mul, rest: string)
  {
    exists d1, d2 :: Operand(d1) && Operand(d2) && s == MulText(d1, d2, rest)
      && m == Mul(DigitsValue(d1), DigitsValue(d2))
  }

  lemma {:induction false} LeadingRun(d: string, c: char, rest: string, max: nat)
    requires |d| <= max && AllDigits(d) && !IsDigit(c)
    ensures LeadingDigits(d + ([c] + rest), max) == |d|
  {
    if d != [] {
      assert (d + ([c] + rest))[1..] == d[1..] + ([c] + rest);
      LeadingRun(d[1..], c, rest, max - 1);
    }
  }

  /** A run of one to three digits ended by a non-digit is read whole. */
  lemma NumberOf(d: string, c: char, rest: string)
    requires Operand(d) && !IsDigit(c)
    ensures Number(d + ([c] + rest)) == Some((DigitsValue(d), [c] + rest))
  {
    var s := d + ([c] + rest);
    LeadingRun(d, c, rest, 3);
    assert s[..|d|] == d;
    assert s[|d|..] == [c] + rest;
  }

  /** The grammar is exactly `Spells`: every accepted prefix is a `mul` text, and every `mul` text is accepted. */
  lemma ParseMulIff(s: string, m: Mul, rest: string)
    ensures ParseMul(s) == Some((m, rest)) <==> Spells(s, m, rest)
  {
    if ParseMul(s) == Some((m, rest)) {
      ParseMulSound(s);
    }
    if Spells(s, m, rest) {
      var d1, d2 :| Operand(d1) && Operand(d2) && s == MulText(d1, d2, rest)
        && m == Mul(DigitsValue(d1), DigitsValue(d2));
      ParseMulText(d1, d2, rest);
    }
  }

  lemma NumberSplit(t: string) returns (d: string)
    requires Number(t).Some?
    ensures Operand(d) && t == d + Number(t).value.1 && Number(t).value.0 == DigitsValue(d)
  {
    var k := LeadingDigits(t, 3);
    d := t[..k];
    assert t == t[..k] + t[k..];
  }

  lemma CharSplit(t: string, c: char)
    requires Char(t, c).Some?
    ensures t == [c] + Char(t, c).value
  {
  }

  lemma ParseMulSound(s: string)
    requires ParseMul(s).Some?
    ensures Spells(s, ParseMul(s).value.0, ParseMul(s).value.1)
  {
    var t := s[4..];
    assert s == "mul(" + t by {
      assert s[..4] == "mul(" by { TagsArePrefixes(s); }
      assert s == s[..4] + t;
    }
    var d1, d2, rest := OperandsSound(t);
    assert s == MulText(d1, d2, rest);
    assert ParseMul(s).value.0 == Mul(DigitsValue(d1), DigitsValue(d2));
  }

  lemma OperandsSound(t: string) returns (d1: string, d2: string, rest: string)
    requires Operands(t).Some?
    ensures Operand(d1) && Operand(d2) && rest == Operands(t).value.1
    ensures t == d1 + ([','] + (d2 + ([')'] + rest)))
    ensures Operands(t).value.0 == Mul(DigitsValue(d1), DigitsValue(d2))
  {
    d1 := NumberSplit(t);
    var t1 := Number(t).value.1;
    CharSplit(t1, ',');
    var t2 := Char(t1, ',').value;
    d2 := NumberSplit(t2);
    var u := Number(t2).value.1;
    CharSplit(u, ')');
    rest := Char(u, ')').value;
  }

  lemma ParseMulText(d1: string, d2: string, rest: string)
    requires Operand(d1) && Operand(d2)
    ensures ParseMul(MulText(d1, d2, rest)) == Some((Mul(DigitsValue(d1), DigitsValue(d2)), rest))
  {
    var t := d1 + ([','] + (d2 + ([')'] + rest)));
    MulTextShape(d1, d2, rest);
    OperandsText(d1, d2, rest);
  }

  lemma MulTextShape(d1: string, d2: string, rest: string)
    ensures AtMul(MulText(d1, d2, rest))
    ensures MulText(d1, d2, rest)[4..] == d1 + ([','] + (d2 + ([')'] + rest)))
  {
  }

  lemma OperandsText(d1: string, d2: string, rest: string)
    requires Operand(d1) && Operand(d2)
    ensures Operands(d1 + ([','] + (d2 + ([')'] + rest)))) == Some((Mul(DigitsValue(d1), DigitsValue(d2)), rest))
  {
    NumberOf(d1, ',', d2 + ([')'] + rest));
    NumberOf(d2, ')', rest);
  }

  /** The test `mul("mul(1,3)")`: the whole input is one instruction. */
  lemma ParseMulExample()
    ensures ParseMul("mul(1,3)") == Some((Mul(1, 3), ""))
  {
    ParseMulText("1", "3", "");
    assert MulText("1", "3", "") == "mul(1,3)";
    assert DigitsValue("1") == 1 && DigitsValue("3") == 3;
  }

  /** A four-digit operand is rejected: the digit run stops after three. */
  lemma ParseMulTooLong()
    ensures ParseMul("mul(2,1000)") == None
  {
    var s := "mul(2,1000)";
    assert s[4..] == "2" + ([','] + "1000)");
    NumberOf("2", ',', "1000)");
    var u: string := "1000)";
    assert LeadingDigits(u, 3) == 3;
    assert u[3..] == "0)";
  }

  // ---------------------------------------------------------------------------
  // Part one scanner

  /** `alt((mul.map(Some), take(1).map(|_| None)))`: one step on non-empty input. */
  function Step(s: string): (r: (Option<Mul>, string))
    requires s != []
    ensures |r.1| < |s|
  {
    match ParseMul(s)
      case Some((m, rest)) => (Some(m), rest)
      case None => (None, s[1..])
  }

  /** `many_till(step, eof)`: steps until the input is used up. */
  function Scan(s: string): (r: seq<Option<Mul>>)
    decreases |s|
  {
    if s == [] then [] else var (x, rest) := Step(s); [x] + Scan(rest)
  }

  /** `filter_map(|x| x)`: the present values, in order. */
  function Somes<T>(xs: seq<Option<T>>): (r: seq<T>)
    ensures |r| <= |xs|
  {
    if xs == [] then [] else (if xs[0].Some? then [xs[0].value] else []) + Somes(xs[1..])
  }

  lemma SomesCons<T>(x: Option<T>, xs: seq<Option<T>>)
    ensures Somes([x] + xs) == (if x.Some? then [x.value] else []) + Somes(xs)
  {
    assert ([x] + xs)[1..] == xs;
  }

  /** The instructions part one reads from the memory. */
  function Muls(s: string): seq<Mul>
  {
    Somes(Scan(s))
  }

  /** The test `parse_take`: a failed `mul` consumes only its first character. */
  lemma StepTooLong()
    ensures Step("mul(2,1000)") == (None, "ul(2,1000)")
  {
    ParseMulTooLong();
  }

  lemma NotMul(s: string)
    requires s != [] && s[0] != 'm'
    ensures ParseMul(s).None?
  {
  }

  /** Input that cannot start a `mul` is skipped one character at a time. */
  lemma SkipOne(s: string)
    requires s != [] && s[0] != 'm'
    ensures Scan(s) == [None] + Scan(s[1..])
  {
    NotMul(s);
  }

  /** No character of `s` can start a `mul`. */
  predicate NoM(s: string)
  {
    forall k :: 0 <= k < |s| ==> s[k] != 'm'
  }

  /** `n` skipped characters. */
  function Skipped(n: nat): seq<Option<Mul>>
  {
    if n == 0 then [] else [None] + Skipped(n - 1)
  }

  /** A stretch without any `m` yields one `None` per character. */
  lemma {:induction false} SkipRun(p: string, t: string)
    requires NoM(p)
    ensures Scan(p + t) == Skipped(|p|) + Scan(t)
  {
    if p != [] {
      SkipOne(p + t);
      assert (p + t)[1..] == p[1..] + t;
      SkipRun(p[1..], t);
      assert [None] + (Skipped(|p| - 1) + Scan(t)) == ([None] + Skipped(|p| - 1)) + Scan(t);
    } else {
      assert p + t == t;
    }
  }

  /** One well-formed `mul` between two stretches without any `m`: one `Some` among `None`s, one per skipped character. */
  lemma ScanPadded(p: string, d1: string, d2: string, q: string)
    requires NoM(p) && NoM(q)
    requires Operand(d1) && Operand(d2)
    ensures Scan(p + MulText(d1, d2, q)) == Skipped(|p|) + ([Some(Mul(DigitsValue(d1), DigitsValue(d2)))] + Skipped(|q|))
  {
    SkipRun(p, MulText(d1, d2, q));
    ScanMul(d1, d2, q);
    SkipAll(q);
  }

  lemma ScanMul(d1: string, d2: string, q: string)
    requires Operand(d1) && Operand(d2)
    ensures Scan(MulText(d1, d2, q)) == [Some(Mul(DigitsValue(d1), DigitsValue(d2)))] + Scan(q)
  {
    ParseMulText(d1, d2, q);
  }

  lemma {:induction false} SkipAll(q: string)
    requires NoM(q)
    ensures Scan(q) == Skipped(|q|)
  {
    if q != [] {
      SkipOne(q);
      SkipAll(q[1..]);
    }
  }

  /** The test input of `parse_many_ok`, cut into the pieces `ScanExample` names. */
  lemma ExampleSpelling(p: string, d1: string, d2: string, q: string)
    requires p == "aaaa" && d1 == "1" && d2 == "2" && q == "aa"
    ensures p + MulText(d1, d2, q) == "aaaamul(1,2)aa"
  {
  }

  /** The test `parse_many_ok`: four skipped characters, the `mul`, two more skipped. */
  lemma ScanExample(p: string, d1: string, d2: string, q: string)
    requires p == "aaaa" && d1 == "1" && d2 == "2" && q == "aa"
    ensures Scan(p + MulText(d1, d2, q)) == [None, None, None, None, Some(Mul(1, 2)), None, None]
  {
    ScanPadded(p, d1, d2, q);
    assert DigitsValue(d1) == 1 && DigitsValue(d2) == 2;
  }

  // ---------------------------------------------------------------------------
  // Rendering instructions back to text

  // ---------------------------------------------------------------------------
  // Part two scanner

  /** The alternatives of part two, in order: `mul`, `do()`, `don't()`, one skipped character. */
  function Step2(s: string): (r: (Option<Instr>, string))
    requires s != []
    ensures |r.1| < |s|
  {
    match ParseMul(s)
      case Some((m, rest)) => (Some(MulOp(m)), rest)
      case None =>
        if AtDo(s) then (Some(Do), s[4..])
        else if AtDont(s) then (Some(Dont), s[7..])
        else (None, s[1..])
  }

  function Scan2(s: string): (r: seq<Option<Instr>>)
    decreases |s|
  {
    if s == [] then [] else var (x, rest) := Step2(s); [x] + Scan2(rest)
  }

  /** The instructions part two reads from the memory. */
  function Instructions(s: string): seq<Instr>
  {
    Somes(Scan2(s))
  }

  /** An instruction as written: the operand spellings of a `mul`, or a switch. */
  datatype Token = MulTok(d1: string, d2: string) | DoTok | DontTok

  predicate WellFormed(t: Token)
  {
    t.MulTok? ==> Operand(t.d1) && Operand(t.d2)
  }

  predicate AllWellFormed(ts: seq<Token>)
  {
    forall k :: 0 <= k < |ts| ==> WellFormed(ts[k])
  }

  function Meaning(t: Token): Instr
    requires WellFormed(t)
  {
    match t
      case MulTok(d1, d2) => MulOp(Mul(DigitsValue(d1), DigitsValue(d2)))
      case DoTok => Do
      case DontTok => Dont
  }

  function Meanings(ts: seq<Token>): (r: seq<Instr>)
    requires AllWellFormed(ts)
  {
    if ts == [] then [] else [Meaning(ts[0])] + Meanings(ts[1..])
  }

  /** The text of a token, followed by `rest`. */
  function TokenText(t: Token, rest: string): string
  {
    match t
      case MulTok(d1, d2) => MulText(d1, d2, rest)
      case DoTok => "do()" + rest
      case DontTok => "don't()" + rest
  }

  /** The tokens written back to back. */
  function RenderTokens(ts: seq<Token>): string
  {
    if ts == [] then [] else TokenText(ts[0], RenderTokens(ts[1..]))
  }

  lemma Step2Text(t: Token, rest: string)
    requires WellFormed(t)
    ensures Step2(TokenText(t, rest)) == (Some(Meaning(t)), rest)
  {
    var s := TokenText(t, rest);
    match t
      case MulTok(d1, d2) =>
        ParseMulText(d1, d2, rest);
      case DoTok =>
        assert s[0] == 'd' && s[1] == 'o' && s[2] == '(' && s[3] == ')';
        assert s[4..] == rest;
      case DontTok =>
        assert s[0] == 'd' && s[1] == 'o' && s[2] == 'n' && s[3] == '\'' && s[4] == 't' && s[5] == '(' && s[6] == ')';
        assert s[7..] == rest;
  }

  lemma Scan2Text(t: Token, rest: string)
    requires WellFormed(t)
    ensures Instructions(TokenText(t, rest)) == [Meaning(t)] + Instructions(rest)
  {
    Step2Text(t, rest);
    var s := TokenText(t, rest);
    assert Scan2(s) == [Some(Meaning(t))] + Scan2(rest);
    SomesCons(Some(Meaning(t)), Scan2(rest));
  }

  /** Well-formed instructions written back to back are read back as exactly their meanings. */
  lemma {:induction false} InstructionsRender(ts: seq<Token>)
    requires AllWellFormed(ts)
    ensures Instructions(RenderTokens(ts)) == Meanings(ts)
  {
    if ts != [] {
      Scan2Text(ts[0], RenderTokens(ts[1..]));
      InstructionsRender(ts[1..]);
    }
  }

  // ---------------------------------------------------------------------------
  // Both scanners find the same multiplications

  function MulsOf(ins: seq<Instr>): (r: seq<Mul>)
  {
    if ins == [] then [] else (if ins[0].MulOp? then [ins[0].m] else []) + MulsOf(ins[1..])
  }

  lemma {:induction false} MulsOfAppend(xs: seq<Instr>, ys: seq<Instr>)
    ensures MulsOf(xs + ys) == MulsOf(xs) + MulsOf(ys)
  {
    if xs == [] {
      assert xs + ys == ys;
    } else {
      assert (xs + ys)[0] == xs[0];
      assert (xs + ys)[1..] == xs[1..] + ys;
      MulsOfAppend(xs[1..], ys);
    }
  }

  /** Part one skips `do()` and `don't()` one character at a time without finding a `mul` inside. */
  lemma {:induction false} SkipSwitch(s: string, n: nat)
    requires n <= |s| && forall k :: 0 <= k < n ==> s[k] != 'm'
    ensures Muls(s) == Muls(s[n..])
    decreases n
  {
    if n > 0 {
      SkipOne(s);
      SomesCons(None, Scan(s[1..]));
      SkipSwitch(s[1..], n - 1);
      assert s[1..][n - 1..] == s[n..];
    }
  }

  lemma ScanTwoStep(s: string)
    requires s != []
    ensures MulsOf(Instructions(s)) == (if Step2(s).0.Some? && Step2(s).0.value.MulOp? then [Step2(s).0.value.m] else [])
      + MulsOf(Instructions(Step2(s).1))
  {
    var (x, rest) := Step2(s);
    assert Scan2(s) == [x] + Scan2(rest);
    SomesCons(x, Scan2(rest));
    if x.Some? {
      MulsOfAppend([x.value], Instructions(rest));
      assert [x.value][1..] == [];
      assert Instructions(s) == [x.value] + Instructions(rest);
    } else {
      assert Instructions(s) == Instructions(rest);
    }
  }

  /** Part two's scanner finds the same multiplications as part one's, with the switches between them. */
  lemma {:induction false} ScannersAgree(s: string)
    ensures MulsOf(Instructions(s)) == Muls(s)
    decreases |s|
  {
    if s != [] {
      var rest := Step2(s).1;
      ScannersAgree(rest);
      ScanTwoStep(s);
      if ParseMul(s).Some? {
        SomesCons(Step(s).0, Scan(Step(s).1));
      } else if AtDo(s) {
        assert s[0] == 'd' && s[1] == 'o' && s[2] == '(' && s[3] == ')';
        SkipSwitch(s, 4);
      } else if AtDont(s) {
        assert s[0] == 'd' && s[1] == 'o' && s[2] == 'n' && s[3] == '\'' && s[4] == 't' && s[5] == '(' && s[6] == ')';
        SkipSwitch(s, 7);
      } else {
        SomesCons(Step(s).0, Scan(Step(s).1));
      }
    }
  }

  // ---------------------------------------------------------------------------
  // Solving

  /** Sum of the products, added in order. */
  function ProductSum(ms: seq<Mul>): (r: int)
    ensures r >= 0
  {
    if ms == [] then 0 else ProductSum(ms[..|ms| - 1]) + ms[|ms| - 1].lhs * ms[|ms| - 1].rhs
  }

  lemma {:induction false} ProductSumAppend(xs: seq<Mul>, ys: seq<Mul>)
    ensures ProductSum(xs + ys) == ProductSum(xs) + ProductSum(ys)
    decreases |ys|
  {
    if ys == [] {
      assert xs + ys == xs;
    } else {
      assert (xs + ys)[..|xs + ys| - 1] == xs + ys[..|ys| - 1];
      ProductSumAppend(xs, ys[..|ys| - 1]);
    }
  }

  /** Part one: the products of all recognised instructions, summed. */
  function PartOne(s: string): (r: int)
    ensures r >= 0
  {
    ProductSum(Muls(s))
  }

  /** Multiplications are enabled at position `i` when every `don't()` before it is followed by a `do()` before it. */
  predicate EnabledAt(ins: seq<Instr>, i: nat)
    requires i <= |ins|
  {
    forall j :: 0 <= j < i && ins[j].Dont? ==> exists k :: j < k < i && ins[k].Do?
  }

  /** The multiplications seen while enabled, in order. */
  function EnabledMuls(ins: seq<Instr>): (r: seq<Mul>)
  {
    if ins == [] then []
    else
      var i := |ins| - 1;
      EnabledMuls(ins[..i]) + (if ins[i].MulOp? && EnabledAt(ins, i) then [ins[i].m] else [])
  }

  /** The last switch decides: `do()` enables, `don't()` disables, anything else keeps the state. */
  lemma EnabledStep(ins: seq<Instr>, i: nat)
    requires i < |ins|
    ensures EnabledAt(ins, i + 1) == (if ins[i].Do? then true else if ins[i].Dont? then false else EnabledAt(ins, i))
  {
    if ins[i].Do? {
      forall j | 0 <= j < i + 1 && ins[j].Dont?
        ensures exists k :: j < k < i + 1 && ins[k].Do?
      {
        assert ins[i].Do?;
      }
    } else if ins[i].Dont? {
    } else {
      if EnabledAt(ins, i) {
        forall j | 0 <= j < i + 1 && ins[j].Dont?
          ensures exists k :: j < k < i + 1 && ins[k].Do?
        {
          var k :| j < k < i && ins[k].Do?;
        }
      }
      if EnabledAt(ins, i + 1) {
        forall j | 0 <= j < i && ins[j].Dont?
          ensures exists k :: j < k < i && ins[k].Do?
        {
          var k :| j < k < i + 1 && ins[k].Do?;
          assert k != i;
        }
      }
    }
  }

  lemma EnabledPrefix(ins: seq<Instr>, i: nat, n: nat)
    requires i <= n <= |ins|
    ensures EnabledAt(ins[..n], i) == EnabledAt(ins, i)
  {
    assert forall j :: 0 <= j < i ==> ins[..n][j] == ins[j];
  }

  /** One more instruction adds its product exactly when it is a multiplication seen while enabled. */
  lemma EnabledMulsStep(ins: seq<Instr>, i: nat)
    requires i < |ins|
    ensures ProductSum(EnabledMuls(ins[..i + 1])) == ProductSum(EnabledMuls(ins[..i]))
      + (if ins[i].MulOp? && EnabledAt(ins, i) then ins[i].m.lhs * ins[i].m.rhs else 0)
  {
    var p := ins[..i + 1];
    assert p[..i] == ins[..i] && p[i] == ins[i];
    EnabledPrefix(ins, i, i + 1);
    var kept := if ins[i].MulOp? && EnabledAt(ins, i) then [ins[i].m] else [];
    assert EnabledMuls(p) == EnabledMuls(ins[..i]) + kept;
    ProductSumAppend(EnabledMuls(ins[..i]), kept);
    if kept != [] {
      assert kept[..0] == [];
    }
  }

  /** Part two: the loop over the instructions with its `enabled` flag, which starts out true. */
  method SolvePartTwo(ins: seq<Instr>) returns (sum: int)
    ensures sum == ProductSum(EnabledMuls(ins))
  {
    var enabled := true;
    sum := 0;
    for i := 0 to |ins|
      invariant enabled == EnabledAt(ins, i)
      invariant sum == ProductSum(EnabledMuls(ins[..i]))
    {
      EnabledStep(ins, i);
      EnabledMulsStep(ins, i);
      match ins[i]
      case MulOp(m) =>
        if enabled {
          sum := sum + m.lhs * m.rhs;
        }
      case Do =>
        enabled := true;
      case Dont =>
        enabled := false;
    }
    assert ins[..|ins|] == ins;
  }

  /** Without any `don't()`, every multiplication counts: both parts agree. */
  lemma {:induction false} NoDontAllEnabled(ins: seq<Instr>)
    requires forall k :: 0 <= k < |ins| ==> !ins[k].Dont?
    ensures EnabledMuls(ins) == MulsOf(ins)
    decreases |ins|
  {
    if ins != [] {
      var i := |ins| - 1;
      assert forall k :: 0 <= k < i ==> ins[..i][k] == ins[k];
      NoDontAllEnabled(ins[..i]);
      assert EnabledAt(ins, i);
      MulsOfSnoc(ins[..i], ins[i]);
      assert ins[..i] + [ins[i]] == ins;
    }
  }

  lemma MulsOfSnoc(xs: seq<Instr>, x: Instr)
    ensures MulsOf(xs + [x]) == MulsOf(xs) + (if x.MulOp? then [x.m] else [])
  {
    MulsOfAppend(xs, [x]);
    assert [x][1..] == [];
  }

  /** The enabled multiplications are a selection of all of them, so part two never exceeds part one. */
  lemma {:induction false} EnabledAtMostAll(ins: seq<Instr>)
    ensures ProductSum(EnabledMuls(ins)) <= ProductSum(MulsOf(ins))
    decreases |ins|
  {
    if ins != [] {
      var i := |ins| - 1;
      EnabledAtMostAll(ins[..i]);
      MulsOfSnoc(ins[..i], ins[i]);
      assert ins[..i] + [ins[i]] == ins;
      var tail := if ins[i].MulOp? then [ins[i].m] else [];
      var kept := if ins[i].MulOp? && EnabledAt(ins, i) then [ins[i].m] else [];
      ProductSumAppend(EnabledMuls(ins[..i]), kept);
      ProductSumAppend(MulsOf(ins[..i]), tail);
      assert ProductSum(kept) <= ProductSum(tail);
    }
  }

  /** Part one reads back every `mul` of well-formed instructions written back to back, and skips the switches. */
  lemma MulsRender(ts: seq<Token>)
    requires AllWellFormed(ts)
    ensures Muls(RenderTokens(ts)) == MulsOf(Meanings(ts))
  {
    InstructionsRender(ts);
    ScannersAgree(RenderTokens(ts));
  }

  /** On the same memory, part two's total is at most part one's, and equal when there is no `don't()`. */
  lemma PartTwoBelowPartOne(s: string)
    ensures ProductSum(EnabledMuls(Instructions(s))) <= PartOne(s)
    ensures (forall k :: 0 <= k < |Instructions(s)| ==> !Instructions(s)[k].Dont?)
      ==> ProductSum(EnabledMuls(Instructions(s))) == PartOne(s)
  {
    ScannersAgree(s);
    EnabledAtMostAll(Instructions(s));
    if forall k :: 0 <= k < |Instructions(s)| ==> !Instructions(s)[k].Dont? {
      NoDontAllEnabled(Instructions(s));
    }
  }
}
