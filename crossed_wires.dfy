/**
 * 2024 day 24: a circuit of AND, OR and XOR gates over named wires, some of
 * which carry start values. Part one evaluates, with a memo table, every
 * wire whose name starts with `z` and reads those wires, highest name
 * first, as a binary number.
 */
module CrossedWires {
  import opened Text

  // ---------------------------------------------------------------------------
  // Gates

  datatype GateOp = Or | Xor | And

  /** `GateOp::apply`. */
  function Apply(op: GateOp, lhs: bool, rhs: bool): bool
  {
    match op
    case Or => lhs || rhs
    case Xor => lhs != rhs
    case And => lhs && rhs
  }

  /** The truth table: no gate cares about the order of its inputs; all three give 0 on two 0s, only XOR gives 0 on two 1s, only AND gives 0 on mixed inputs. */
  lemma ApplyTable(op: GateOp, a: bool, b: bool)
    ensures Apply(op, a, b) == Apply(op, b, a)
    ensures !Apply(op, false, false)
    ensures Apply(op, true, true) <==> op != Xor
    ensures Apply(op, true, false) <==> op != And
    ensures Apply(Xor, a, b) == (Apply(Or, a, b) && !Apply(And, a, b))
  {
  }

  datatype Gate = Gate(op: GateOp, lhs: string, rhs: string, target: string)

  datatype Input = Input(gates: seq<Gate>, start: map<string, bool>)

  // ---------------------------------------------------------------------------
  // Parsing

  /** `alphanumeric1` on `&str` accepts ASCII letters and digits. */
  predicate IsAlphanumeric(c: char)
  {
    'a' <= c <= 'z' || 'A' <= c <= 'Z' || IsDigit(c)
  }

  predicate IsName(s: string)
  {
    s != [] && forall i :: 0 <= i < |s| ==> IsAlphanumeric(s[i])
  }

  function AlphanumericRun(s: string): (k: nat)
    ensures k <= |s| && (forall i :: 0 <= i < k ==> IsAlphanumeric(s[i])) && (k < |s| ==> !IsAlphanumeric(s[k]))
  {
    if s == [] || !IsAlphanumeric(s[0]) then 0 else 1 + AlphanumericRun(s[1..])
  }

  /** `alphanumeric1`: the whole run of letters and digits at the front, which must not be empty. */
  function Name(s: string): (r: Option<(string, string)>)
    ensures r.Some? <==> s != [] && IsAlphanumeric(s[0])
    ensures r.Some? ==> IsName(r.value.0) && r.value.0 + r.value.1 == s
    ensures r.Some? ==> r.value.1 == [] || !IsAlphanumeric(r.value.1[0])
  {
    var k := AlphanumericRun(s);
    if k == 0 then None
    else
      assert s[..k] + s[k..] == s;
      Some((s[..k], s[k..]))
  }

  /** A name followed by anything but a letter or digit is read whole. */
  lemma NameOf(n: string, rest: string)
    requires IsName(n) && (rest == [] || !IsAlphanumeric(rest[0]))
    ensures Name(n + rest) == Some((n, rest))
  {
    var s := n + rest;
    assert forall i :: 0 <= i < |n| ==> s[i] == n[i];
    assert |n| < |s| ==> s[|n|] == rest[0];
    assert AlphanumericRun(s) == |n|;
    assert s[..|n|] == n && s[|n|..] == rest;
  }

  /** `start`: a name, `": "`, a value token and a newline; the wire is 0 exactly when the token is `0`. */
  function Start(s: string): (r: Option<((string, bool), string)>)
    ensures r.Some? ==> |r.value.1| < |s| && IsName(r.value.0.0)
  {
    match Name(s)
    case None => None
    case Some((name, s1)) =>
      match Tag(s1, ": ")
      case None => None
      case Some(s2) =>
        match Name(s2)
        case None => None
        case Some((token, s3)) =>
          match Char(s3, '\n')
          case None => None
          case Some(s4) => Some(((name, token != "0"), s4))
  }

  function StartLine(name: string, token: string): string
  {
    name + ": " + token + "\n"
  }

  /** A start line is read back: a token `0` gives false, any other token true. */
  lemma StartOf(name: string, token: string, rest: string)
    requires IsName(name) && IsName(token)
    ensures Start(StartLine(name, token) + rest) == Some(((name, token != "0"), rest))
  {
    var s2 := token + "\n" + rest;
    var s1 := ": " + s2;
    assert StartLine(name, token) + rest == name + s1;
    NameOf(name, s1);
    TagOf(": ", s2);
    assert s2 == token + ("\n" + rest);
    NameOf(token, "\n" + rest);
  }

  /** `gate_op`: `XOR`, then `OR`, then `AND`. */
  function ParseOp(s: string): (r: Option<(GateOp, string)>)
    ensures r.Some? ==> |r.value.1| < |s|
  {
    match Tag(s, "XOR")
    case Some(rest) => Some((Xor, rest))
    case None =>
      match Tag(s, "OR")
      case Some(rest) => Some((Or, rest))
      case None =>
        match Tag(s, "AND")
        case Some(rest) => Some((And, rest))
        case None => None
  }

  function OpName(op: GateOp): string
  {
    match op
    case Xor => "XOR"
    case Or => "OR"
    case And => "AND"
  }

  lemma ParseOpOf(op: GateOp, rest: string)
    ensures ParseOp(OpName(op) + rest) == Some((op, rest))
  {
    var s := OpName(op) + rest;
    TagOf(OpName(op), rest);
    assert s[0] == OpName(op)[0];
    if op != Xor {
      assert Tag(s, "XOR") == None;
    }
    if op == And {
      assert Tag(s, "OR") == None;
    }
  }

  /** `gate`: `lhs OP rhs -> target` and a newline. */
  function ParseGate(s: string): (r: Option<(Gate, string)>)
    ensures r.Some? ==> |r.value.1| < |s|
  {
    match Name(s)
    case None => None
    case Some((lhs, s1)) =>
      match Tag(s1, " ")
      case None => None
      case Some(s2) =>
        match ParseOp(s2)
        case None => None
        case Some((op, s3)) =>
          match Tag(s3, " ")
          case None => None
          case Some(s4) =>
            match Name(s4)
            case None => None
            case Some((rhs, s5)) =>
              match Tag(s5, " -> ")
              case None => None
              case Some(s6) =>
                match Name(s6)
                case None => None
                case Some((target, s7)) =>
                  match Char(s7, '\n')
                  case None => None
                  case Some(s8) => Some((Gate(op, lhs, rhs, target), s8))
  }

  function GateLine(g: Gate): string
  {
    g.lhs + " " + OpName(g.op) + " " + g.rhs + " -> " + g.target + "\n"
  }

  predicate WellNamed(g: Gate)
  {
    IsName(g.lhs) && IsName(g.rhs) && IsName(g.target)
  }

  /** A gate line is read back. */
  lemma GateOf(g: Gate, rest: string)
    requires WellNamed(g)
    ensures ParseGate(GateLine(g) + rest) == Some((g, rest))
  {
    var s7 := "\n" + rest;
    var s6 := g.target + s7;
    var s5 := " -> " + s6;
    var s4 := g.rhs + s5;
    var s3 := " " + s4;
    var s2 := OpName(g.op) + s3;
    var s1 := " " + s2;
    assert GateLine(g) + rest == g.lhs + s1;
    NameOf(g.lhs, s1);
    TagOf(" ", s2);
    ParseOpOf(g.op, s3);
    TagOf(" ", s4);
    NameOf(g.rhs, s5);
    TagOf(" -> ", s6);
    NameOf(g.target, s7);
  }

  /** `many0(start)`: start lines until one fails to parse. */
  function Starts(s: string): (r: (seq<(string, bool)>, string))
    ensures |r.1| <= |s|
    decreases |s|
  {
    match Start(s)
    case None => ([], s)
    case Some((p, s1)) =>
      var more := Starts(s1);
      ([p] + more.0, more.1)
  }

  /** `many0(gate)`. */
  function Gates(s: string): (r: (seq<Gate>, string))
    ensures |r.1| <= |s|
    decreases |s|
  {
    match ParseGate(s)
    case None => ([], s)
    case Some((g, s1)) =>
      var more := Gates(s1);
      ([g] + more.0, more.1)
  }

  /** `HashMap::from_iter`: a later pair for the same key replaces an earlier one. */
  function FromIter<K, V>(ps: seq<(K, V)>): (m: map<K, V>)
    ensures forall i :: 0 <= i < |ps| ==> ps[i].0 in m
    ensures forall k :: k in m ==> exists i :: 0 <= i < |ps| && ps[i] == (k, m[k])
  {
    if ps == [] then map[]
    else
      var n := |ps| - 1;
      var m0 := FromIter(ps[..n]);
      assert forall i :: 0 <= i < n ==> ps[..n][i] == ps[i];
      m0[ps[n].0 := ps[n].1]
  }

  /** The value kept for a key is the one of its last pair. */
  lemma {:induction false} FromIterLast<K, V>(ps: seq<(K, V)>, i: nat)
    requires i < |ps| && forall j :: i < j < |ps| ==> ps[j].0 != ps[i].0
    ensures FromIter(ps)[ps[i].0] == ps[i].1
  {
    var n := |ps| - 1;
    if i < n {
      var init := ps[..n];
      assert forall j :: i < j < n ==> init[j] == ps[j];
      assert init[i] == ps[i];
      FromIterLast(init, i);
      assert ps[n].0 != ps[i].0;
      assert FromIter(ps) == FromIter(init)[ps[n].0 := ps[n].1];
    }
  }

  /** `Input::parse_from`: one or more start lines, a blank line, one or more gate lines and a newline; the rest is ignored. */
  function Parse(s: string): (r: Option<Input>)
  {
    var (starts, s1) := Starts(s);
    if starts == [] then None
    else
      match Char(s1, '\n')
      case None => None
      case Some(s2) =>
        var (gates, s3) := Gates(s2);
        if gates == [] then None
        else
          match Char(s3, '\n')
          case None => None
          case Some(_) => Some(Input(gates, FromIter(starts)))
  }

  /** The pairs a list of start lines stands for. */
  function StartValues(starts: seq<(string, string)>): (r: seq<(string, bool)>)
    ensures |r| == |starts|
  {
    if starts == [] then [] else [(starts[0].0, starts[0].1 != "0")] + StartValues(starts[1..])
  }

  function StartLines(starts: seq<(string, string)>): string
  {
    if starts == [] then "" else StartLine(starts[0].0, starts[0].1) + StartLines(starts[1..])
  }

  function GateLines(gates: seq<Gate>): string
  {
    if gates == [] then "" else GateLine(gates[0]) + GateLines(gates[1..])
  }

  lemma StartsStep(name: string, token: string, tail: string)
    requires IsName(name) && IsName(token)
    ensures Starts(StartLine(name, token) + tail) == ([(name, token != "0")] + Starts(tail).0, Starts(tail).1)
  {
    StartOf(name, token, tail);
  }

  lemma GatesStep(g: Gate, tail: string)
    requires WellNamed(g)
    ensures Gates(GateLine(g) + tail) == ([g] + Gates(tail).0, Gates(tail).1)
  {
    GateOf(g, tail);
  }

  /** `many0(start)` reads every start line and stops at a line that starts otherwise. */
  lemma {:induction false} StartsOf(starts: seq<(string, string)>, rest: string)
    requires forall i :: 0 <= i < |starts| ==> IsName(starts[i].0) && IsName(starts[i].1)
    requires rest == [] || !IsAlphanumeric(rest[0])
    ensures Starts(StartLines(starts) + rest) == (StartValues(starts), rest)
  {
    if starts == [] {
      assert StartLines(starts) + rest == rest;
      assert Name(rest) == None;
      assert Start(rest) == None;
    } else {
      var tail := StartLines(starts[1..]) + rest;
      assert StartLines(starts) + rest == StartLine(starts[0].0, starts[0].1) + tail;
      StartsStep(starts[0].0, starts[0].1, tail);
      StartsOf(starts[1..], rest);
    }
  }

  /** `many0(gate)` reads every gate line and stops at a line that starts otherwise. */
  lemma {:induction false} GatesOf(gates: seq<Gate>, rest: string)
    requires forall i :: 0 <= i < |gates| ==> WellNamed(gates[i])
    requires rest == [] || !IsAlphanumeric(rest[0])
    ensures Gates(GateLines(gates) + rest) == (gates, rest)
  {
    if gates == [] {
      assert GateLines(gates) + rest == rest;
      assert Name(rest) == None;
      assert ParseGate(rest) == None;
    } else {
      var tail := GateLines(gates[1..]) + rest;
      assert GateLines(gates) + rest == GateLine(gates[0]) + tail;
      GatesStep(gates[0], tail);
      GatesOf(gates[1..], rest);
      assert [gates[0]] + gates[1..] == gates;
    }
  }

  /** The puzzle text is read back, whatever follows the final blank line. */
  lemma ParseOf(starts: seq<(string, string)>, gates: seq<Gate>, rest: string)
    requires starts != [] && gates != []
    requires forall i :: 0 <= i < |starts| ==> IsName(starts[i].0) && IsName(starts[i].1)
    requires forall i :: 0 <= i < |gates| ==> WellNamed(gates[i])
    ensures Parse(StartLines(starts) + ("\n" + (GateLines(gates) + ("\n" + rest)))) == Some(Input(gates, FromIter(StartValues(starts))))
  {
    var s3 := "\n" + rest;
    var s2 := GateLines(gates) + s3;
    var s1 := "\n" + s2;
    StartsOf(starts, s1);
    GatesOf(gates, s3);
    ParseSteps(StartLines(starts) + s1, StartValues(starts), s2, gates, rest);
  }

  lemma ParseSteps(s: string, starts: seq<(string, bool)>, s2: string, gates: seq<Gate>, rest: string)
    requires Starts(s) == (starts, "\n" + s2) && starts != []
    requires Gates(s2) == (gates, "\n" + rest) && gates != []
    ensures Parse(s) == Some(Input(gates, FromIter(starts)))
  {
    assert Char("\n" + s2, '\n') == Some(s2);
    assert Char("\n" + rest, '\n') == Some(rest);
  }

  // ---------------------------------------------------------------------------
  // Evaluation

  /** `targets` in `PartOneMut::new`: each gate under the wire it drives, a later gate replacing an earlier one. */
  function Targets(gates: seq<Gate>): (m: map<string, Gate>)
    ensures forall i :: 0 <= i < |gates| ==> gates[i].target in m
    ensures forall w :: w in m ==> m[w].target == w && exists i :: 0 <= i < |gates| && gates[i] == m[w]
  {
    var ps := seq(|gates|, i requires 0 <= i < |gates| => (gates[i].target, gates[i]));
    var m := FromIter(ps);
    assert forall i :: 0 <= i < |gates| ==> ps[i].0 == gates[i].target;
    assert forall w :: w in m ==> m[w].target == w && exists i :: 0 <= i < |gates| && gates[i] == m[w] by {
      forall w | w in m
        ensures m[w].target == w && exists i :: 0 <= i < |gates| && gates[i] == m[w]
      {
        var i :| 0 <= i < |ps| && ps[i] == (w, m[w]);
        assert gates[i] == m[w];
      }
    }
    m
  }

  /**
   * The circuit can be evaluated: every gate whose output has no start value
   * ranks above both of its inputs, so following inputs never comes back to
   * the same wire.
   */
  ghost predicate Ranked(targets: map<string, Gate>, start: map<string, bool>, rank: string -> nat)
  {
    forall w {:trigger targets[w]} :: w in targets && w !in start ==> rank(targets[w].lhs) < rank(w) && rank(targets[w].rhs) < rank(w)
  }

  /**
   * The value of a wire: its start value if it has one, else its gate
   * applied to the values of the gate's inputs; None when some wire on the
   * way has neither (the `unwrap` on a missing gate).
   */
  ghost function Value(targets: map<string, Gate>, start: map<string, bool>, rank: string -> nat, w: string): Option<bool>
    requires Ranked(targets, start, rank)
    decreases rank(w)
  {
    if w in start then Some(start[w])
    else if w !in targets then None
    else
      var g := targets[w];
      var l := Value(targets, start, rank, g.lhs);
      var r := Value(targets, start, rank, g.rhs);
      if l.Some? && r.Some? then Some(Apply(g.op, l.value, r.value)) else None
  }

  /** Which ranking witnesses that the circuit can be evaluated does not change any wire's value. */
  lemma {:induction false} ValueRankFree(targets: map<string, Gate>, start: map<string, bool>, r1: string -> nat, r2: string -> nat, w: string)
    requires Ranked(targets, start, r1) && Ranked(targets, start, r2)
    ensures Value(targets, start, r1, w) == Value(targets, start, r2, w)
    decreases r1(w)
  {
    if w !in start && w in targets {
      ValueRankFree(targets, start, r1, r2, targets[w].lhs);
      ValueRankFree(targets, start, r1, r2, targets[w].rhs);
    }
  }

  /**
   * A partial assignment of wires that keeps the start values and, for every
   * other wire it covers, covers the gate's inputs and obeys the gate.
   */
  ghost predicate Satisfies(targets: map<string, Gate>, start: map<string, bool>, a: map<string, bool>)
  {
    KeepsStart(start, a) && Driven(targets, start, a) && Obeys(targets, start, a)
  }

  ghost predicate KeepsStart(start: map<string, bool>, a: map<string, bool>)
  {
    forall w :: w in start ==> w in a && a[w] == start[w]
  }

  /** Every assigned wire without a start value has a gate. */
  ghost predicate Driven(targets: map<string, Gate>, start: map<string, bool>, a: map<string, bool>)
  {
    forall w :: w in a && w !in start ==> w in targets
  }

  ghost predicate Obeys(targets: map<string, Gate>, start: map<string, bool>, a: map<string, bool>)
  {
    forall w {:trigger targets[w]} :: w in a && w !in start && w in targets ==>
      targets[w].lhs in a && targets[w].rhs in a
      && a[w] == Apply(targets[w].op, a[targets[w].lhs], a[targets[w].rhs])
  }

  /** Any assignment obeying the start values and the gates agrees with `Value` on every wire it covers. */
  lemma {:induction false} SatisfiesValue(targets: map<string, Gate>, start: map<string, bool>, rank: string -> nat, a: map<string, bool>, w: string)
    requires Ranked(targets, start, rank) && Satisfies(targets, start, a) && w in a
    ensures Value(targets, start, rank, w) == Some(a[w])
    decreases rank(w)
  {
    if w !in start {
      SatisfiesValue(targets, start, rank, a, targets[w].lhs);
      SatisfiesValue(targets, start, rank, a, targets[w].rhs);
    }
  }

  // ---------------------------------------------------------------------------
  // Reading the `z` wires

  /** `starts_with("z")`. */
  predicate IsOutput(w: string)
  {
    w != [] && w[0] == 'z'
  }

  function Outputs(targets: map<string, Gate>): (z: set<string>)
    ensures forall w :: w in z <==> w in targets && IsOutput(w)
  {
    set w | w in targets && IsOutput(w)
  }

  predicate Decreasing(names: seq<string>)
  {
    forall i, j :: 0 <= i < j < |names| ==> Below(names[j], names[i])
  }

  lemma HasLast(S: set<string>)
    requires S != {}
    ensures exists m :: m in S && forall x :: x in S && x != m ==> Below(x, m)
  {
    var m := Greatest(S);
  }

  /** The names of a set, highest first. */
  ghost function Descending(S: set<string>): (names: seq<string>)
    ensures Decreasing(names) && |names| == |S|
    ensures forall x :: x in names <==> x in S
    decreases |S|
  {
    if S == {} then []
    else
      HasLast(S);
      var m :| m in S && forall x :: x in S && x != m ==> Below(x, m);
      var rest := Descending(S - {m});
      var names := [m] + rest;
      assert forall i :: 1 <= i < |names| ==> names[i] == rest[i - 1] && names[i] in S - {m};
      names
  }

  /** Two lists of the same names, each highest first, are equal. */
  lemma {:induction false} DecreasingUnique(a: seq<string>, b: seq<string>)
    requires Decreasing(a) && Decreasing(b) && forall x :: x in a <==> x in b
    ensures a == b
    decreases |a|
  {
    assert (a == []) == (b == []) by {
      if a != [] {
        assert a[0] in b;
      }
      if b != [] {
        assert b[0] in a;
      }
    }
    if a != [] {
      assert a[0] in a && b[0] in b;
      var k :| 0 <= k < |b| && b[k] == a[0];
      var l :| 0 <= l < |a| && a[l] == b[0];
      BelowTotal(a[0], b[0]);
      assert a[0] == b[0];
      BelowIrreflexive(a[0]);
      forall x
        ensures x in a[1..] <==> x in b[1..]
      {
        if x in a[1..] {
          var i :| 1 <= i < |a| && a[i] == x;
          assert x in b && x != b[0];
          var j :| 0 <= j < |b| && b[j] == x;
          assert b[1..][j - 1] == x;
        }
        if x in b[1..] {
          var j :| 1 <= j < |b| && b[j] == x;
          assert x in a && x != a[0];
          var i :| 0 <= i < |a| && a[i] == x;
          assert a[1..][i - 1] == x;
        }
      }
      DecreasingUnique(a[1..], b[1..]);
      assert a == [a[0]] + a[1..] && b == [b[0]] + b[1..];
    }
  }

  // ---------------------------------------------------------------------------
  // Sorting the readings

  type Reading = (string, bool)

  /** Highest name first; equal names may stand in any order. */
  predicate Sorted(ys: seq<Reading>)
  {
    forall i, j :: 0 <= i < j < |ys| ==> !Below(ys[i].0, ys[j].0)
  }

  predicate StrictlySorted(ys: seq<Reading>)
  {
    forall i, j :: 0 <= i < j < |ys| ==> Below(ys[j].0, ys[i].0)
  }

  /** One step of the sort: `x` goes after every reading whose name is not lower. */
  function Insert(ys: seq<Reading>, x: Reading): (r: seq<Reading>)
    ensures multiset(r) == multiset(ys) + multiset{x}
  {
    if ys == [] || Below(ys[0].0, x.0) then [x] + ys
    else
      assert ys == [ys[0]] + ys[1..];
      [ys[0]] + Insert(ys[1..], x)
  }

  /** Whatever `Insert` puts after the front reading comes from the rest of the list or is `x`. */
  lemma InsertFrom(ys: seq<Reading>, x: Reading, j: nat)
    requires j < |Insert(ys, x)|
    ensures Insert(ys, x)[j] == x || exists k :: 0 <= k < |ys| && ys[k] == Insert(ys, x)[j]
  {
    var r := Insert(ys, x);
    assert r[j] in multiset(r);
  }

  lemma {:induction false} InsertSorted(ys: seq<Reading>, x: Reading)
    requires Sorted(ys)
    ensures Sorted(Insert(ys, x))
  {
    var r := Insert(ys, x);
    if ys == [] || Below(ys[0].0, x.0) {
      forall j | 0 < j < |r|
        ensures !Below(x.0, r[j].0)
      {
        assert r[j] == ys[j - 1];
        BelowTotal(ys[0].0, ys[j - 1].0);
        if Below(ys[j - 1].0, ys[0].0) {
          BelowTransitive(ys[j - 1].0, ys[0].0, x.0);
        }
        BelowTotal(r[j].0, x.0);
      }
    } else {
      InsertSorted(ys[1..], x);
      forall j | 0 < j < |r|
        ensures !Below(ys[0].0, r[j].0)
      {
        InsertFrom(ys[1..], x, j - 1);
        if r[j] == x {
          BelowTotal(ys[0].0, x.0);
        }
      }
    }
  }

  lemma {:induction false} InsertStrictlySorted(ys: seq<Reading>, x: Reading)
    requires StrictlySorted(ys) && forall k :: 0 <= k < |ys| ==> ys[k].0 != x.0
    ensures StrictlySorted(Insert(ys, x))
  {
    var r := Insert(ys, x);
    if ys == [] || Below(ys[0].0, x.0) {
      forall j | 0 < j < |r|
        ensures Below(r[j].0, x.0)
      {
        assert r[j] == ys[j - 1];
        if j > 1 {
          BelowTransitive(ys[j - 1].0, ys[0].0, x.0);
        }
      }
    } else {
      InsertStrictlySorted(ys[1..], x);
      BelowTotal(ys[0].0, x.0);
      forall j | 0 < j < |r|
        ensures Below(r[j].0, ys[0].0)
      {
        InsertFrom(ys[1..], x, j - 1);
      }
    }
  }

  /** `res.sort_by(|a, b| b.0.cmp(&a.0))`: the readings reordered, highest name first. */
  method SortByName(xs: seq<Reading>) returns (ys: seq<Reading>)
    ensures multiset(ys) == multiset(xs) && Sorted(ys)
    ensures DistinctNames(xs) ==> StrictlySorted(ys)
  {
    ys := [];
    for i := 0 to |xs|
      invariant multiset(ys) == multiset(xs[..i]) && Sorted(ys)
      invariant DistinctNames(xs) ==> StrictlySorted(ys)
    {
      InsertSorted(ys, xs[i]);
      if DistinctNames(xs) {
        NewName(xs, i, ys);
        InsertStrictlySorted(ys, xs[i]);
      }
      ys := Insert(ys, xs[i]);
      assert xs[..i + 1] == xs[..i] + [xs[i]];
    }
    assert xs[..|xs|] == xs;
  }

  predicate DistinctNames(xs: seq<Reading>)
  {
    forall i, j :: 0 <= i < j < |xs| ==> xs[i].0 != xs[j].0
  }

  /** With distinct names, the readings before position `i` do not share its name. */
  lemma NewName(xs: seq<Reading>, i: nat, ys: seq<Reading>)
    requires DistinctNames(xs) && i < |xs| && multiset(ys) == multiset(xs[..i])
    ensures forall k :: 0 <= k < |ys| ==> ys[k].0 != xs[i].0
  {
    forall k | 0 <= k < |ys|
      ensures ys[k].0 != xs[i].0
    {
      assert ys[k] in multiset(xs[..i]);
      var j :| 0 <= j < i && xs[..i][j] == ys[k];
      assert xs[j] == ys[k];
    }
  }

  // ---------------------------------------------------------------------------
  // Reading a binary number

  /** The bits, most significant first, as a number. */
  function Binary(bits: seq<bool>): (n: nat)
    ensures n < Pow2(|bits|)
  {
    if bits == [] then 0
    else 2 * Binary(bits[..|bits| - 1]) + (if bits[|bits| - 1] then 1 else 0)
  }

  /** The first bit weighs as much as all the others together, plus one. */
  lemma {:induction false} BinaryFront(b: bool, bits: seq<bool>)
    ensures Binary([b] + bits) == (if b then Pow2(|bits|) else 0) + Binary(bits)
    decreases |bits|
  {
    if bits != [] {
      var n := |bits| - 1;
      assert ([b] + bits)[..n + 1] == [b] + bits[..n];
      BinaryFront(b, bits[..n]);
    }
  }

  /** The `w` lowest bits of `n`, most significant first. */
  function ToBits(n: nat, w: nat): (bits: seq<bool>)
    ensures |bits| == w
  {
    if w == 0 then [] else ToBits(n / 2, w - 1) + [n % 2 == 1]
  }

  /** Reading the bits back gives the number when it fits the width. */
  lemma {:induction false} BinaryToBits(n: nat, w: nat)
    requires n < Pow2(w)
    ensures Binary(ToBits(n, w)) == n
  {
    if w > 0 {
      BinaryToBits(n / 2, w - 1);
      assert ToBits(n, w)[..w - 1] == ToBits(n / 2, w - 1);
    }
  }

  const U64: nat := 0x1_0000_0000_0000_0000

  /** The bits joined as `1` and `0` characters. */
  function BitString(bits: seq<bool>): (s: string)
    ensures |s| == |bits|
  {
    if bits == [] then "" else BitString(bits[..|bits| - 1]) + [if bits[|bits| - 1] then '1' else '0']
  }

  function Radix2(s: string): nat
    requires forall i :: 0 <= i < |s| ==> s[i] == '0' || s[i] == '1'
  {
    if s == [] then 0 else 2 * Radix2(s[..|s| - 1]) + (if s[|s| - 1] == '1' then 1 else 0)
  }

  /** `u64::from_str_radix(s, 2)`: an optional `+`, then one or more binary digits, with a value below 2^64. */
  function FromStrRadix2(s: string): (r: Option<nat>)
    ensures r.Some? ==> r.value < U64
  {
    var digits := if s != [] && s[0] == '+' then s[1..] else s;
    if digits == [] || exists i :: 0 <= i < |digits| && digits[i] != '0' && digits[i] != '1' then None
    else if Radix2(digits) >= U64 then None
    else Some(Radix2(digits))
  }

  /** The joined bits parse back to their binary value, unless there are none or the value needs more than 64 bits. */
  lemma {:induction false} FromBitString(bits: seq<bool>)
    ensures FromStrRadix2(BitString(bits)) == if bits == [] || Binary(bits) >= U64 then None else Some(Binary(bits))
  {
    var s := BitString(bits);
    BitStringRadix2(bits);
    if bits != [] {
      assert s[0] == '0' || s[0] == '1';
    }
  }

  lemma {:induction false} BitStringRadix2(bits: seq<bool>)
    ensures forall i :: 0 <= i < |bits| ==> BitString(bits)[i] == (if bits[i] then '1' else '0')
    ensures Radix2(BitString(bits)) == Binary(bits)
  {
    if bits != [] {
      var n := |bits| - 1;
      BitStringRadix2(bits[..n]);
      assert BitString(bits)[..n] == BitString(bits[..n]);
    }
  }

  // ---------------------------------------------------------------------------
  // Part one

  /** The bits of the named wires; None when a wire has no value. */
  ghost function Bits(targets: map<string, Gate>, start: map<string, bool>, rank: string -> nat, names: seq<string>): (r: Option<seq<bool>>)
    requires Ranked(targets, start, rank)
    ensures r.Some? <==> forall i :: 0 <= i < |names| ==> Value(targets, start, rank, names[i]).Some?
    ensures r.Some? ==> |r.value| == |names| && forall i :: 0 <= i < |names| ==> Value(targets, start, rank, names[i]) == Some(r.value[i])
  {
    if names == [] then Some([])
    else
      var v := Value(targets, start, rank, names[0]);
      var rest := Bits(targets, start, rank, names[1..]);
      assert forall i :: 1 <= i < |names| ==> names[i] == names[1..][i - 1];
      if v.Some? && rest.Some? then Some([v.value] + rest.value) else None
  }

  /**
   * Part one's answer: the `z` wires, highest name first, read as a binary
   * number; None (a panic) when a `z` wire has no value, when there is no
   * `z` wire, or when the number does not fit in a `u64`.
   */
  ghost function Readout(targets: map<string, Gate>, start: map<string, bool>, rank: string -> nat): Option<nat>
    requires Ranked(targets, start, rank)
  {
    var bits := Bits(targets, start, rank, Descending(Outputs(targets)));
    if bits.None? then None else FromStrRadix2(BitString(bits.value))
  }

  /** Every `z` wire has a value. */
  ghost predicate Evaluable(targets: map<string, Gate>, start: map<string, bool>, rank: string -> nat)
    requires Ranked(targets, start, rank)
  {
    forall w :: w in Outputs(targets) ==> Value(targets, start, rank, w).Some?
  }

  lemma {:induction false} EvaluableBits(targets: map<string, Gate>, start: map<string, bool>, rank: string -> nat)
    requires Ranked(targets, start, rank)
    ensures Bits(targets, start, rank, Descending(Outputs(targets))).Some? <==> Evaluable(targets, start, rank)
  {
    var names := Descending(Outputs(targets));
    if Evaluable(targets, start, rank) {
      forall i | 0 <= i < |names|
        ensures Value(targets, start, rank, names[i]).Some?
      {
        assert names[i] in Outputs(targets);
      }
    } else {
      var w :| w in Outputs(targets) && Value(targets, start, rank, w).None?;
      assert w in names;
    }
  }

  /** The answer is the binary number of the `z` bits, the highest name's bit worth the most. */
  lemma ReadoutValue(targets: map<string, Gate>, start: map<string, bool>, rank: string -> nat)
    requires Ranked(targets, start, rank)
    ensures Readout(targets, start, rank).Some? <==>
      Outputs(targets) != {} && Evaluable(targets, start, rank)
      && Binary(Bits(targets, start, rank, Descending(Outputs(targets))).value) < U64
    ensures Readout(targets, start, rank).Some? ==>
      Readout(targets, start, rank).value == Binary(Bits(targets, start, rank, Descending(Outputs(targets))).value)
  {
    var bits := Bits(targets, start, rank, Descending(Outputs(targets)));
    EvaluableBits(targets, start, rank);
    if bits.Some? {
      FromBitString(bits.value);
    }
  }

  /** Caching a wire whose inputs are cached, with its gate's result, keeps an assignment obeying the circuit. */
  lemma SatisfiesExtend(targets: map<string, Gate>, start: map<string, bool>, a: map<string, bool>, w: string, b: bool)
    requires Satisfies(targets, start, a) && w !in start && w in targets
    requires targets[w].lhs in a && targets[w].rhs in a
    requires b == Apply(targets[w].op, a[targets[w].lhs], a[targets[w].rhs])
    ensures Satisfies(targets, start, a[w := b])
  {
    assert w in a ==> a[w] == b;
    var a' := a[w := b];
    forall v | v in start
      ensures v in a' && a'[v] == start[v]
    {
      assert v != w;
    }
    assert KeepsStart(start, a');
    forall v | v in a' && v !in start
      ensures v in targets
    {
      if v != w {
        assert v in a;
      }
    }
    assert Driven(targets, start, a');
    ObeysExtend(targets, start, a, w, b);
  }

  lemma ObeysExtend(targets: map<string, Gate>, start: map<string, bool>, a: map<string, bool>, w: string, b: bool)
    requires Obeys(targets, start, a) && w !in start && w in targets && (w in a ==> a[w] == b)
    requires targets[w].lhs in a && targets[w].rhs in a
    requires b == Apply(targets[w].op, a[targets[w].lhs], a[targets[w].rhs])
    ensures Obeys(targets, start, a[w := b])
  {
    var a' := a[w := b];
    forall v | v in a' && v !in start && v in targets
      ensures targets[v].lhs in a' && targets[v].rhs in a'
      ensures a'[v] == Apply(targets[v].op, a'[targets[v].lhs], a'[targets[v].rhs])
    {
      var g := targets[v];
      assert a'[g.lhs] == a[g.lhs] && a'[g.rhs] == a[g.rhs];
      assert v != w ==> v in a;
    }
  }

  /** The bits of a list of readings. */
  function ReadingBits(ys: seq<Reading>): (bits: seq<bool>)
    ensures |bits| == |ys| && forall i :: 0 <= i < |ys| ==> bits[i] == ys[i].1
  {
    seq(|ys|, i requires 0 <= i < |ys| => ys[i].1)
  }

  /** The names of a list of readings. */
  function Names(ys: seq<Reading>): (names: seq<string>)
    ensures |names| == |ys| && forall i :: 0 <= i < |ys| ==> names[i] == ys[i].0
  {
    seq(|ys|, i requires 0 <= i < |ys| => ys[i].0)
  }

  /** One reading per `z` wire, sorted highest name first: the names are `Descending` of the `z` wires. */
  lemma SortedNames(outs: set<string>, res: seq<Reading>, ys: seq<Reading>)
    requires forall i :: 0 <= i < |res| ==> res[i].0 in outs
    requires forall w :: w in outs ==> exists i :: 0 <= i < |res| && res[i].0 == w
    requires multiset(ys) == multiset(res) && StrictlySorted(ys)
    ensures Names(ys) == Descending(outs)
  {
    var names := Names(ys);
    forall x
      ensures x in names <==> x in outs
    {
      if x in names {
        var i :| 0 <= i < |names| && names[i] == x;
        assert ys[i] in multiset(res);
      }
      if x in outs {
        var i :| 0 <= i < |res| && res[i].0 == x;
        assert res[i] in multiset(ys);
        var j :| 0 <= j < |ys| && ys[j] == res[i];
        assert names[j] == x;
      }
    }
    DecreasingUnique(names, Descending(outs));
  }

  /** A value for every `z` wire, in any order: sorted highest name first, its bits read as binary give `Readout`. */
  lemma SortedReadout(targets: map<string, Gate>, start: map<string, bool>, rank: string -> nat, res: seq<Reading>, ys: seq<Reading>)
    requires Ranked(targets, start, rank)
    requires forall i :: 0 <= i < |res| ==>
      res[i].0 in Outputs(targets) && Value(targets, start, rank, res[i].0) == Some(res[i].1)
    requires forall w :: w in Outputs(targets) ==> exists i :: 0 <= i < |res| && res[i].0 == w
    requires multiset(ys) == multiset(res) && StrictlySorted(ys)
    ensures FromStrRadix2(BitString(ReadingBits(ys))) == Readout(targets, start, rank)
  {
    SortedNames(Outputs(targets), res, ys);
    SortedValues(targets, start, rank, res, ys);
    var bits := Bits(targets, start, rank, Names(ys));
    assert bits.value == ReadingBits(ys);
  }

  lemma SortedValues(targets: map<string, Gate>, start: map<string, bool>, rank: string -> nat, res: seq<Reading>, ys: seq<Reading>)
    requires Ranked(targets, start, rank)
    requires forall i :: 0 <= i < |res| ==> Value(targets, start, rank, res[i].0) == Some(res[i].1)
    requires multiset(ys) == multiset(res)
    ensures forall i :: 0 <= i < |ys| ==> Value(targets, start, rank, ys[i].0) == Some(ys[i].1)
  {
    forall i | 0 <= i < |ys|
      ensures Value(targets, start, rank, ys[i].0) == Some(ys[i].1)
    {
      assert ys[i] in multiset(res);
    }
  }

  /** Readings gathered so far: one per wire, none still to visit, each with the wire's value. */
  ghost predicate Gathered(targets: map<string, Gate>, start: map<string, bool>, rank: string -> nat, left: set<string>, acc: seq<Reading>)
    requires Ranked(targets, start, rank)
  {
    DistinctNames(acc)
    && forall i :: 0 <= i < |acc| ==>
         acc[i].0 in Outputs(targets) && acc[i].0 !in left && Value(targets, start, rank, acc[i].0) == Some(acc[i].1)
  }

  /** Every wire of `outs` is still to visit or already read. */
  ghost predicate Covered(outs: set<string>, left: set<string>, acc: seq<Reading>)
  {
    forall w :: w in outs ==> w in left || exists i :: 0 <= i < |acc| && acc[i].0 == w
  }

  lemma GatherStep(targets: map<string, Gate>, start: map<string, bool>, rank: string -> nat, outs: set<string>,
                   left: set<string>, acc: seq<Reading>, w: string, b: bool)
    requires Ranked(targets, start, rank) && outs == Outputs(targets) && left <= outs && w in left
    requires Gathered(targets, start, rank, left, acc) && Covered(outs, left, acc)
    requires Value(targets, start, rank, w) == Some(b)
    ensures Gathered(targets, start, rank, left - {w}, acc + [(w, b)]) && Covered(outs, left - {w}, acc + [(w, b)])
  {
    var acc' := acc + [(w, b)];
    assert forall i :: 0 <= i < |acc| ==> acc'[i] == acc[i] && acc[i].0 != w;
    assert acc'[|acc|] == (w, b);
    forall v | v in outs
      ensures v in left - {w} || exists i :: 0 <= i < |acc'| && acc'[i].0 == v
    {
      if v == w {
        assert acc'[|acc|].0 == v;
      } else if v !in left {
        var i :| 0 <= i < |acc| && acc[i].0 == v;
        assert acc'[i].0 == v;
      }
    }
  }

  /** `PartOneMut`: the memo table of wire values and the gate behind each wire. */
  class Circuit {
    var cache: map<string, bool>
    var targets: map<string, Gate>
    ghost const start: map<string, bool>

    /** Every cached value is the start value or follows from cached inputs by the wire's gate. */
    ghost predicate Valid(rank: string -> nat)
      reads this
    {
      Ranked(targets, start, rank) && Satisfies(targets, start, cache)
    }

    /** `PartOneMut::new`. */
    constructor (input: Input)
      ensures start == input.start && cache == input.start && targets == Targets(input.gates)
      ensures Satisfies(targets, start, cache)
    {
      start := input.start;
      cache := input.start;
      targets := Targets(input.gates);
    }

    /**
     * `calc`: a cached value is returned as it is; otherwise the wire's gate
     * is applied to the inputs' values and the result cached. None stands
     * for the panic on a wire with neither a value nor a gate.
     */
    method Calc(target: string, ghost rank: string -> nat) returns (r: Option<bool>)
      requires Valid(rank)
      modifies this
      ensures Valid(rank) && targets == old(targets)
      ensures r == Value(targets, start, rank, target)
      ensures target in old(cache) ==> r == Some(old(cache)[target]) && cache == old(cache)
      ensures r.Some? ==> target in cache && cache[target] == r.value
      ensures forall w :: w in old(cache) ==> w in cache && cache[w] == old(cache)[w]
      decreases rank(target)
    {
      if target in cache {
        SatisfiesValue(targets, start, rank, cache, target);
        return Some(cache[target]);
      }
      if target !in targets {
        return None;
      }
      var gate := targets[target];
      var lhs := Calc(gate.lhs, rank);
      if lhs.None? {
        return None;
      }
      ghost var mid := cache;
      var rhs := Calc(gate.rhs, rank);
      if rhs.None? {
        return None;
      }
      assert gate.lhs in mid && mid[gate.lhs] == lhs.value;
      var res := Apply(gate.op, lhs.value, rhs.value);
      SatisfiesExtend(targets, start, cache, target, res);
      cache := cache[target := res];
      r := Some(res);
    }

    /** `solve`: every `z` wire evaluated, sorted highest name first, and read as a binary `u64`. */
    method Solve(ghost rank: string -> nat) returns (r: Option<nat>)
      requires Valid(rank)
      modifies this
      ensures Valid(rank) && targets == old(targets)
      ensures forall w :: w in old(cache) ==> w in cache && cache[w] == old(cache)[w]
      ensures r == Readout(targets, start, rank)
    {
      var res := Collect(rank);
      if res.None? {
        ReadoutValue(targets, start, rank);
        return None;
      }
      var sorted := SortByName(res.value);
      SortedReadout(targets, start, rank, res.value, sorted);
      r := FromStrRadix2(BitString(ReadingBits(sorted)));
    }

    /** The `filter_map` over the gates: each `z` wire with its value, in any order; None if one has no value. */
    method Collect(ghost rank: string -> nat) returns (res: Option<seq<Reading>>)
      requires Valid(rank)
      modifies this
      ensures Valid(rank) && targets == old(targets)
      ensures forall w :: w in old(cache) ==> w in cache && cache[w] == old(cache)[w]
      ensures res.None? ==> !Evaluable(targets, start, rank)
      ensures res.Some? ==>
        DistinctNames(res.value)
        && (forall i :: 0 <= i < |res.value| ==>
              res.value[i].0 in Outputs(targets) && Value(targets, start, rank, res.value[i].0) == Some(res.value[i].1))
        && forall w :: w in Outputs(targets) ==> exists i :: 0 <= i < |res.value| && res.value[i].0 == w
    {
      var left := set w | w in targets && IsOutput(w);
      ghost var outs := Outputs(targets);
      var acc: seq<Reading> := [];
      while left != {}
        invariant Valid(rank) && targets == old(targets) && outs == Outputs(targets)
        invariant forall w :: w in old(cache) ==> w in cache && cache[w] == old(cache)[w]
        invariant left <= outs && Gathered(targets, start, rank, left, acc) && Covered(outs, left, acc)
        decreases |left|
      {
        var w :| w in left;
        var b := Calc(w, rank);
        if b.None? {
          return None;
        }
        GatherStep(targets, start, rank, outs, left, acc, w, b.value);
        acc := acc + [(w, b.value)];
        left := left - {w};
      }
      assert Gathered(targets, start, rank, left, acc) && Covered(outs, left, acc);
      return Some(acc);
    }
  }

  /** `PartOne::solve`: the circuit built from the input and solved. */
  method PartOne(input: Input, ghost rank: string -> nat) returns (r: Option<nat>)
    requires Ranked(Targets(input.gates), input.start, rank)
    ensures r == Readout(Targets(input.gates), input.start, rank)
  {
    var circuit := new Circuit(input);
    r := circuit.Solve(rank);
  }
}
