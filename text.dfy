/**
 * Text helpers shared by every puzzle model: the few pieces of Rust's `str`
 * API the parsers use (`split`, `split_once`, `lines`, `split_whitespace`,
 * `trim`, `parse::<u64>()`, `to_string()`), stated over `seq<char>`, plus an
 * `Option` type and integer sums.
 */
module Text {

  datatype Option<T> = None | Some(value: T)

  predicate IsDigit(c: char) { '0' <= c <= '9' }

  function DigitValue(c: char): (d: nat)
    requires IsDigit(c)
    ensures d < 10
  {
    c as int - '0' as int
  }

  function DigitChar(d: nat): (c: char)
    requires d < 10
    ensures IsDigit(c) && DigitValue(c) == d
  {
    (d + '0' as int) as char
  }

  predicate AllDigits(s: string) { forall i :: 0 <= i < |s| ==> IsDigit(s[i]) }

  /**
   * ASCII whitespace only. Rust's `split_whitespace` and `trim` also treat
   * the other Unicode white-space characters as separators.
   */
  predicate IsSpace(c: char) { c == ' ' || c == '\t' || c == '\n' || c == '\r' }

  // ---------------------------------------------------------------------------
  // Numbers

  /** Value of a non-empty string of decimal digits, most significant first. */
  function DigitsValue(s: string): (n: nat)
    requires AllDigits(s)
  {
    if s == [] then 0 else 10 * DigitsValue(s[..|s| - 1]) + DigitValue(s[|s| - 1])
  }

  /** `n.to_string()` for a non-negative integer: shortest decimal spelling. */
  function NatToString(n: nat): (s: string)
    ensures |s| >= 1 && AllDigits(s)
    ensures |s| > 1 ==> s[0] != '0'
  {
    if n < 10 then [DigitChar(n)] else NatToString(n / 10) + [DigitChar(n % 10)]
  }

  /** Spelling accepted by `parse::<u64>()`: an optional `+`, then one or more digits. */
  predicate IsNatLiteral(s: string)
  {
    (|s| > 0 && s[0] != '+' && AllDigits(s)) || (|s| > 1 && s[0] == '+' && AllDigits(s[1..]))
  }

  /** `s.parse::<u64>()` ignoring the 64-bit bound. */
  function ParseNat(s: string): (r: Option<nat>)
    ensures r.Some? <==> IsNatLiteral(s)
    ensures r.Some? && s[0] != '+' ==> r.value == DigitsValue(s)
  {
    if |s| > 1 && s[0] == '+' && AllDigits(s[1..]) then Some(DigitsValue(s[1..]))
    else if |s| > 0 && s[0] != '+' && AllDigits(s) then Some(DigitsValue(s))
    else None
  }

  /** `s.parse::<i64>()` ignoring the 64-bit bound: an optional sign, then one or more digits. */
  function ParseInt(s: string): (r: Option<int>)
    ensures r.Some? <==> IsNatLiteral(s) || (|s| > 1 && s[0] == '-' && |s| > 1 && s[1] != '+' && IsNatLiteral(s[1..]))
    ensures r.Some? && |s| > 1 && s[0] == '-' ==> r.value <= 0
    ensures r.Some? && s[0] != '-' ==> r.value >= 0
  {
    if |s| > 1 && s[0] == '-' && s[1] != '+' && AllDigits(s[1..]) then Some(-(DigitsValue(s[1..]) as int))
    else match ParseNat(s)
      case Some(n) => Some(n as int)
      case None => None
  }

  lemma {:induction false} DigitsValueAppend(s: string, c: char)
    requires AllDigits(s) && IsDigit(c)
    ensures AllDigits(s + [c]) && DigitsValue(s + [c]) == 10 * DigitsValue(s) + DigitValue(c)
  {
    assert (s + [c])[..|s + [c]| - 1] == s;
  }

  lemma {:induction false} DigitsValueOfNatToString(n: nat)
    ensures DigitsValue(NatToString(n)) == n
  {
    if n < 10 {
      assert [DigitChar(n)][..0] == [];
    } else {
      DigitsValueOfNatToString(n / 10);
      DigitsValueAppend(NatToString(n / 10), DigitChar(n % 10));
    }
  }

  /** Printing a number and parsing it back gives the same number. */
  lemma ParseNatToString(n: nat)
    ensures ParseNat(NatToString(n)) == Some(n)
  {
    DigitsValueOfNatToString(n);
  }

  // ---------------------------------------------------------------------------
  // Decimal arithmetic

  function Pow10(e: nat): (p: nat)
    ensures p >= 1
  {
    if e == 0 then 1 else 10 * Pow10(e - 1)
  }

  /** `a * 10^e`, spelled out so that the solver reasons about it linearly. */
  function Shift(a: nat, e: nat): nat
  {
    if e == 0 then a else 10 * Shift(a, e - 1)
  }

  lemma {:induction false} ShiftOne(e: nat)
    ensures Shift(1, e) == Pow10(e) && Shift(10, e) == Pow10(e + 1)
  {
    if e > 0 {
      ShiftOne(e - 1);
    }
  }

  lemma {:induction false} ShiftZero(e: nat)
    ensures Shift(0, e) == 0
  {
    if e > 0 {
      ShiftZero(e - 1);
    }
  }

  lemma {:induction false} ShiftAdd(a: nat, b: nat, e: nat)
    ensures Shift(a + b, e) == Shift(a, e) + Shift(b, e)
  {
    if e > 0 {
      ShiftAdd(a, b, e - 1);
    }
  }

  lemma {:induction false} ShiftMonotone(a: nat, b: nat, e: nat)
    requires a <= b
    ensures Shift(a, e) <= Shift(b, e)
  {
    if e > 0 {
      ShiftMonotone(a, b, e - 1);
    }
  }

  /** A digit times `10^e` is below `10^(e+1)`, and at least `10^e` when the digit is not 0. */
  lemma DigitShift(a: nat, e: nat)
    requires a < 10
    ensures Shift(a, e) + Pow10(e) <= Pow10(e + 1)
    ensures 1 <= a ==> Pow10(e) <= Shift(a, e)
  {
    ShiftAdd(a, 1, e);
    ShiftMonotone(a + 1, 10, e);
    ShiftOne(e);
    if 1 <= a {
      ShiftMonotone(1, a, e);
    }
  }

  lemma {:induction false} Pow10Monotone(a: nat, b: nat)
    requires a <= b
    ensures Pow10(a) <= Pow10(b)
  {
    if a < b {
      Pow10Monotone(a, b - 1);
    }
  }

  /** The number of decimal digits `to_string` prints. */
  function Width(n: nat): nat
  {
    |NatToString(n)|
  }

  /** A number of width `w` lies between `10^(w-1)` and `10^w`. */
  lemma {:induction false} WidthBounds(n: nat)
    ensures Width(n) >= 1 && n < Pow10(Width(n))
    ensures n >= 10 ==> Pow10(Width(n) - 1) <= n
  {
    if n >= 10 {
      WidthBounds(n / 10);
      assert Width(n) == Width(n / 10) + 1;
    }
  }

  /** The width is the exponent of the power of ten just above the number. */
  lemma WidthOf(n: nat, w: nat)
    requires 1 <= w && Pow10(w - 1) <= n < Pow10(w)
    ensures Width(n) == w
  {
    WidthBounds(n);
    if Width(n) < w {
      Pow10Monotone(Width(n), w - 1);
      assert false;
    } else if Width(n) > w {
      Pow10Monotone(w, Width(n) - 1);
      assert false;
    }
  }

  lemma {:induction false} DigitsValueConcat(x: string, y: string)
    requires AllDigits(x) && AllDigits(y)
    ensures AllDigits(x + y) && DigitsValue(x + y) == Shift(DigitsValue(x), |y|) + DigitsValue(y)
  {
    if y != [] {
      var y' := y[..|y| - 1];
      DigitsValueConcat(x, y');
      assert (x + y)[..|x + y| - 1] == x + y';
      assert DigitsValue(x + y) == 10 * DigitsValue(x + y') + DigitValue(y[|y| - 1]);
    } else {
      assert x + y == x;
    }
  }

  /** A spelling of `|s|` digits has a value below `10^|s|`, and at least `10^(|s|-1)` without a leading zero. */
  lemma {:induction false} DigitsValueBounds(s: string)
    requires AllDigits(s)
    ensures DigitsValue(s) < Pow10(|s|)
    ensures s != [] && s[0] != '0' ==> Pow10(|s| - 1) <= DigitsValue(s)
  {
    if s != [] {
      var init := s[..|s| - 1];
      DigitsValueBounds(init);
      if init != [] {
        assert init[0] == s[0];
      }
    }
  }

  // ---------------------------------------------------------------------------
  // Splitting

  predicate OccursAt(s: string, i: nat, sep: string)
  {
    i + |sep| <= |s| && s[i..i + |sep|] == sep
  }

  /** Index of the first occurrence of `sep` in `s` at or after `from`, if any. */
  function FindFrom(s: string, sep: string, from: nat): (r: Option<nat>)
    requires |sep| > 0
    ensures r.Some? ==> from <= r.value && OccursAt(s, r.value, sep)
    ensures r.Some? ==> forall j: nat :: from <= j < r.value ==> !OccursAt(s, j, sep)
    ensures r.None? ==> forall j: nat :: from <= j ==> !OccursAt(s, j, sep)
    decreases |s| - from
  {
    if from + |sep| > |s| then None
    else if s[from..from + |sep|] == sep then Some(from)
    else FindFrom(s, sep, from + 1)
  }

  /** `s.split(sep)`: the pieces between non-overlapping occurrences, left to right. */
  function Split(s: string, sep: string): (pieces: seq<string>)
    requires |sep| > 0
    ensures |pieces| >= 1
    decreases |s|
  {
    match FindFrom(s, sep, 0)
      case None => [s]
      case Some(i) => [s[..i]] + Split(s[i + |sep|..], sep)
  }

  function Join(pieces: seq<string>, sep: string): (s: string)
    requires |pieces| >= 1
  {
    if |pieces| == 1 then pieces[0] else pieces[0] + sep + Join(pieces[1..], sep)
  }

  /** Joining the pieces back with the separator gives the original string. */
  lemma {:induction false} JoinSplit(s: string, sep: string)
    requires |sep| > 0
    ensures Join(Split(s, sep), sep) == s
    decreases |s|
  {
    match FindFrom(s, sep, 0)
      case None =>
      case Some(i) =>
        var rest := s[i + |sep|..];
        var pieces := Split(s, sep);
        assert pieces == [s[..i]] + Split(rest, sep);
        assert pieces[1..] == Split(rest, sep);
        JoinSplit(rest, sep);
        assert Join(pieces, sep) == s[..i] + sep + rest;
        assert s == s[..i] + sep + rest;
  }

  /** No piece contains the separator. */
  lemma {:induction false} SplitPiecesFree(s: string, sep: string, k: nat)
    requires |sep| > 0 && k < |Split(s, sep)|
    ensures forall j: nat :: !OccursAt(Split(s, sep)[k], j, sep)
    decreases |s|
  {
    match FindFrom(s, sep, 0)
      case None =>
      case Some(i) =>
        if k == 0 {
          PrefixFree(s, sep, i);
        } else {
          SplitPiecesFree(s[i + |sep|..], sep, k - 1);
        }
  }

  /** Before the first occurrence of `sep` there is none. */
  lemma PrefixFree(s: string, sep: string, i: nat)
    requires |sep| > 0 && FindFrom(s, sep, 0) == Some(i)
    ensures forall j: nat :: !OccursAt(s[..i], j, sep)
  {
    forall j: nat ensures !OccursAt(s[..i], j, sep) {
      if OccursAt(s[..i], j, sep) {
        assert s[..i][j..j + |sep|] == s[j..j + |sep|];
        assert OccursAt(s, j, sep);
      }
    }
  }

  /** When the separator's first character is absent from `a`, the first occurrence in `a + sep + rest` is right after `a`. */
  lemma FirstOccurrence(a: string, sep: string, rest: string)
    requires |sep| > 0 && sep[0] !in a
    ensures FindFrom(a + sep + rest, sep, 0) == Some(|a|)
  {
    var s := a + sep + rest;
    assert s[|a|..|a| + |sep|] == sep;
    assert OccursAt(s, |a|, sep);
    forall j: nat | j < |a|
      ensures !OccursAt(s, j, sep)
    {
      if j + |sep| <= |s| {
        assert s[j..j + |sep|][0] == a[j];
      }
    }
  }

  /** A string without the separator's only character is one piece. */
  lemma SplitNone(a: string, sep: string)
    requires |sep| == 1 && sep[0] !in a
    ensures Split(a, sep) == [a]
  {
    forall j: nat
      ensures !OccursAt(a, j, sep)
    {
      if j + 1 <= |a| {
        assert a[j..j + 1][0] == a[j];
      }
    }
  }

  /** Splitting `a + sep + rest` gives `a`, then the pieces of `rest`. */
  lemma SplitCons(a: string, sep: string, rest: string)
    requires |sep| > 0 && sep[0] !in a
    ensures Split(a + sep + rest, sep) == [a] + Split(rest, sep)
  {
    var s := a + sep + rest;
    FirstOccurrence(a, sep, rest);
    assert s[..|a|] == a;
    assert s[|a| + |sep|..] == rest;
  }

  /** `s.split_once(sep)`. */
  function SplitOnce(s: string, sep: string): (r: Option<(string, string)>)
    requires |sep| > 0
    ensures r.Some? ==> r.value.0 + sep + r.value.1 == s && forall j: nat :: !OccursAt(r.value.0, j, sep)
    ensures r.None? <==> forall j: nat :: !OccursAt(s, j, sep)
  {
    match FindFrom(s, sep, 0)
      case None => None
      case Some(i) =>
        assert s == s[..i] + sep + s[i + |sep|..];
        PrefixFree(s, sep, i);
        Some((s[..i], s[i + |sep|..]))
  }

  function StripCarriageReturn(line: string): string
  {
    if |line| > 0 && line[|line| - 1] == '\r' then line[..|line| - 1] else line
  }

  function StripAll(lines: seq<string>): (r: seq<string>)
    ensures |r| == |lines|
    ensures forall k :: 0 <= k < |r| ==> r[k] == StripCarriageReturn(lines[k])
  {
    if lines == [] then [] else [StripCarriageReturn(lines[0])] + StripAll(lines[1..])
  }

  /**
   * `s.lines()`: split at `\n` (a `\r` before it is dropped too); a final line
   * ending does not produce an extra empty line.
   */
  function Lines(s: string): (r: seq<string>)
    ensures s == [] ==> r == []
  {
    var pieces := Split(s, "\n");
    var last := pieces[|pieces| - 1];
    StripAll(pieces[..|pieces| - 1]) + (if last == [] then [] else [last])
  }

  /** No line holds a line break. */
  lemma LinesHaveNoNewline(s: string, k: nat)
    requires k < |Lines(s)|
    ensures '\n' !in Lines(s)[k]
  {
    var pieces := Split(s, "\n");
    SplitPiecesFree(s, "\n", if k < |pieces| - 1 then k else |pieces| - 1);
    var p := if k < |pieces| - 1 then pieces[k] else pieces[|pieces| - 1];
    assert Lines(s)[k] == StripCarriageReturn(p) || Lines(s)[k] == p;
    if '\n' in Lines(s)[k] {
      var j :| 0 <= j < |Lines(s)[k]| && Lines(s)[k][j] == '\n';
      assert p[j..j + 1] == "\n";
      assert OccursAt(p, j, "\n");
    }
  }

  /** The non-empty lines of `s`, in order. */
  function NonEmptyLines(s: string): (r: seq<string>)
    ensures forall k :: 0 <= k < |r| ==> r[k] != []
  {
    NonEmpty(Lines(s))
  }

  function NonEmpty(pieces: seq<string>): (r: seq<string>)
    ensures forall k :: 0 <= k < |r| ==> r[k] != []
    ensures |r| <= |pieces|
  {
    if pieces == [] then []
    else if pieces[0] == [] then NonEmpty(pieces[1..])
    else [pieces[0]] + NonEmpty(pieces[1..])
  }

  /** `s.split_whitespace()`: maximal runs of non-space characters. */
  function Words(s: string): (r: seq<string>)
    ensures forall k :: 0 <= k < |r| ==> r[k] != [] && forall j :: 0 <= j < |r[k]| ==> !IsSpace(r[k][j])
    decreases |s|
  {
    if s == [] then []
    else if IsSpace(s[0]) then Words(s[1..])
    else
      var n := WordLength(s);
      [s[..n]] + Words(s[n..])
  }

  /** Length of the run of non-space characters at the start of `s`. */
  function WordLength(s: string): (n: nat)
    ensures n <= |s|
    ensures forall j :: 0 <= j < n ==> !IsSpace(s[j])
    ensures n < |s| ==> IsSpace(s[n])
  {
    if s == [] || IsSpace(s[0]) then 0 else 1 + WordLength(s[1..])
  }

  /** Splitting at the first `sep` when the separator's first character is absent before it. */
  lemma SplitOnceAt(a: string, sep: string, rest: string)
    requires |sep| > 0 && sep[0] !in a
    ensures SplitOnce(a + sep + rest, sep) == Some((a, rest))
  {
    var s := a + sep + rest;
    FirstOccurrence(a, sep, rest);
    assert s[..|a|] == a;
    assert s[|a| + |sep|..] == rest;
  }

  /** A word followed by the end or a space is read whole. */
  lemma {:induction false} WordLengthPrefix(w: string, t: string)
    requires forall j :: 0 <= j < |w| ==> !IsSpace(w[j])
    requires t == [] || IsSpace(t[0])
    ensures WordLength(w + t) == |w|
  {
    if w != [] {
      assert (w + t)[1..] == w[1..] + t;
      WordLengthPrefix(w[1..], t);
    } else {
      assert w + t == t;
    }
  }

  /** Splitting words joined by single spaces gives the words back. */
  lemma {:induction false} WordsJoin(ws: seq<string>)
    requires |ws| >= 1
    requires forall k :: 0 <= k < |ws| ==> ws[k] != [] && forall j :: 0 <= j < |ws[k]| ==> !IsSpace(ws[k][j])
    ensures Words(Join(ws, " ")) == ws
  {
    var w := ws[0];
    if |ws| == 1 {
      WordLengthPrefix(w, []);
      assert w + [] == w;
      assert w[|w|..] == [];
    } else {
      var rest := Join(ws[1..], " ");
      var s := w + " " + rest;
      assert s == w + (" " + rest);
      WordLengthPrefix(w, " " + rest);
      assert s[..|w|] == w;
      assert s[|w|..] == " " + rest;
      assert (" " + rest)[1..] == rest;
      WordsJoin(ws[1..]);
    }
  }

  /** `s.trim_end_matches(c)`: the string without its trailing `c`s. */
  function TrimEnd(s: string, c: char): (r: string)
    ensures |r| <= |s| && r == s[..|r|]
    ensures r == [] || r[|r| - 1] != c
  {
    if s != [] && s[|s| - 1] == c then TrimEnd(s[..|s| - 1], c) else s
  }

  /** `s.trim()`: the string without leading and trailing spaces. */
  function Trim(s: string): (r: string)
    ensures |r| <= |s|
    ensures r != [] ==> !IsSpace(r[0]) && !IsSpace(r[|r| - 1])
    ensures forall j :: 0 <= j < |r| ==> !IsSpace(r[j]) ==> r[j] in s
    decreases |s|
  {
    if s == [] then []
    else if IsSpace(s[0]) then Trim(s[1..])
    else if IsSpace(s[|s| - 1]) then Trim(s[..|s| - 1])
    else s
  }

  // ---------------------------------------------------------------------------
  // Sums

  function Sum(xs: seq<int>): int
  {
    if xs == [] then 0 else xs[0] + Sum(xs[1..])
  }

  lemma {:induction false} SumAppend(xs: seq<int>, ys: seq<int>)
    ensures Sum(xs + ys) == Sum(xs) + Sum(ys)
  {
    if xs == [] {
      assert xs + ys == ys;
    } else {
      assert (xs + ys)[0] == xs[0];
      assert (xs + ys)[1..] == xs[1..] + ys;
      SumAppend(xs[1..], ys);
    }
  }

  /** A total of naturals is a natural. */
  lemma {:induction false} SumNonNegative(x: seq<nat>)
    ensures Sum(x) >= 0
  {
    if x != [] {
      SumNonNegative(x[1..]);
    }
  }

  /** Changing one entry changes the total by the difference. */
  lemma {:induction false} SumUpdate(x: seq<int>, b: nat, k: int)
    requires b < |x|
    ensures Sum(x[b := k]) == Sum(x) - x[b] + k
  {
    if b == 0 {
      assert x[b := k][1..] == x[1..];
    } else {
      assert x[b := k][1..] == x[1..][b - 1 := k];
      SumUpdate(x[1..], b - 1, k);
    }
  }

  // ---------------------------------------------------------------------------
  // Sets

  /** A subset is no larger than the set that holds it. */
  lemma SubsetCard<T>(a: set<T>, b: set<T>)
    requires a <= b
    ensures |a| <= |b|
  {
    assert b == a + (b - a);
  }

  /** The sum of `f` over a finite set, taken in no particular order. */
  ghost function SetSum<T>(s: set<T>, f: T -> int): int
  {
    if s == {} then 0 else var x :| x in s; f(x) + SetSum(s - {x}, f)
  }

  /** Any element can be taken out first. */
  lemma {:induction false} SetSumPick<T>(s: set<T>, f: T -> int, y: T)
    requires y in s
    ensures SetSum(s, f) == f(y) + SetSum(s - {y}, f)
    decreases |s|
  {
    var x :| x in s && SetSum(s, f) == f(x) + SetSum(s - {x}, f);
    if x != y {
      SetSumPick(s - {x}, f, y);
      SetSumPick(s - {y}, f, x);
      assert s - {x} - {y} == s - {y} - {x};
    }
  }

  /** Sums of functions that agree on the set are equal. */
  lemma {:induction false} SetSumSame<T>(s: set<T>, f: T -> int, g: T -> int)
    requires forall x :: x in s ==> f(x) == g(x)
    ensures SetSum(s, f) == SetSum(s, g)
    decreases |s|
  {
    if s != {} {
      var x :| x in s && SetSum(s, f) == f(x) + SetSum(s - {x}, f);
      SetSumPick(s, g, x);
      SetSumSame(s - {x}, f, g);
    }
  }

  /** A function that is zero on the set sums to zero. */
  lemma {:induction false} SetSumZero<T>(s: set<T>, f: T -> int)
    requires forall x :: x in s ==> f(x) == 0
    ensures SetSum(s, f) == 0
    decreases |s|
  {
    if s != {} {
      var x :| x in s && SetSum(s, f) == f(x) + SetSum(s - {x}, f);
      SetSumZero(s - {x}, f);
    }
  }

  /** No element occurs twice. */
  predicate Distinct<T(==)>(xs: seq<T>)
  {
    xs == [] || (Distinct(xs[..|xs| - 1]) && xs[|xs| - 1] !in xs[..|xs| - 1])
  }

  lemma {:induction false} DistinctPairs<T>(xs: seq<T>)
    requires Distinct(xs)
    ensures forall i, j :: 0 <= i < j < |xs| ==> xs[i] != xs[j]
  {
    if xs != [] {
      var ys := xs[..|xs| - 1];
      DistinctPairs(ys);
      assert forall i :: 0 <= i < |ys| ==> ys[i] == xs[i];
    }
  }

  /** A repetition-free list of elements of `S` is no longer than `S` is large. */
  lemma {:induction false} DistinctLength<T>(xs: seq<T>, S: set<T>)
    requires Distinct(xs) && forall c :: c in xs ==> c in S
    ensures |xs| <= |S|
  {
    if xs != [] {
      var ys, x := xs[..|xs| - 1], xs[|xs| - 1];
      assert forall c :: c in ys ==> c in xs;
      DistinctLength(ys, S - {x});
      assert S == (S - {x}) + {x};
    }
  }

  /** Without repetition, a list is as long as the set of its elements is large. */
  lemma {:induction false} DistinctCard<T>(xs: seq<T>)
    requires Distinct(xs)
    ensures |set c | c in xs| == |xs|
  {
    if xs != [] {
      var ys, x := xs[..|xs| - 1], xs[|xs| - 1];
      DistinctCard(ys);
      assert xs == ys + [x];
      assert (set c | c in xs) == (set c | c in ys) + {x};
    }
  }

  // ---------------------------------------------------------------------------
  // Parsing every item

  /** Collecting `parse()` over the pieces into a vector: fails when any piece fails. */
  function ParseEach<T>(pieces: seq<string>, parse: string -> Option<T>): (r: Option<seq<T>>)
    ensures r.Some? <==> forall k :: 0 <= k < |pieces| ==> parse(pieces[k]).Some?
    ensures r.Some? ==> |r.value| == |pieces| && forall k :: 0 <= k < |pieces| ==> r.value[k] == parse(pieces[k]).value
  {
    if pieces == [] then Some([])
    else
      var init := ParseEach(pieces[..|pieces| - 1], parse);
      var last := parse(pieces[|pieces| - 1]);
      assert forall k :: 0 <= k < |pieces| - 1 ==> pieces[..|pieces| - 1][k] == pieces[k];
      if init.None? || last.None? then None else Some(init.value + [last.value])
  }

  // ---------------------------------------------------------------------------
  // Pieces of `nom` parsers

  /** Length of the run of decimal digits at the front of `s` (`take_while(is_digit)`). */
  function DigitRun(s: string): (k: nat)
    ensures k <= |s| && (forall i :: 0 <= i < k ==> IsDigit(s[i])) && (k < |s| ==> !IsDigit(s[k]))
  {
    if s == [] || !IsDigit(s[0]) then 0 else 1 + DigitRun(s[1..])
  }

  /** A run of digits followed by anything but a digit is read whole. */
  lemma {:induction false} DigitRunOf(d: string, t: string)
    requires AllDigits(d) && (t == [] || !IsDigit(t[0]))
    ensures DigitRun(d + t) == |d|
  {
    if d == [] {
      assert d + t == t;
    } else {
      assert (d + t)[1..] == d[1..] + t;
      DigitRunOf(d[1..], t);
    }
  }

  /** `char(c)`, or `tag` of a one-character string. */
  function Char(s: string, c: char): (r: Option<string>)
    ensures r.Some? ==> |r.value| + 1 == |s|
  {
    if s != [] && s[0] == c then Some(s[1..]) else None
  }

  /** `line_ending`: `\n` or `\r\n`. */
  function LineEnding(s: string): (r: Option<string>)
    ensures r.Some? ==> |r.value| < |s|
  {
    if s != [] && s[0] == '\n' then Some(s[1..])
    else if |s| >= 2 && s[0] == '\r' && s[1] == '\n' then Some(s[2..])
    else None
  }

  /**
   * `<` on `String`: lexicographic, a proper prefix coming first. Rust
   * compares the UTF-8 bytes, which orders strings as their characters do.
   */
  predicate Below(a: string, b: string)
    decreases |a|
  {
    if a == [] then b != []
    else if b == [] then false
    else if a[0] != b[0] then a[0] < b[0]
    else Below(a[1..], b[1..])
  }

  lemma {:induction false} BelowIrreflexive(a: string)
    ensures !Below(a, a)
    decreases |a|
  {
    if a != [] {
      BelowIrreflexive(a[1..]);
    }
  }

  lemma {:induction false} BelowTransitive(a: string, b: string, c: string)
    requires Below(a, b) && Below(b, c)
    ensures Below(a, c)
    decreases |a|
  {
    if a != [] && a[0] == b[0] && b[0] == c[0] {
      BelowTransitive(a[1..], b[1..], c[1..]);
    }
  }

  /** Of two names, exactly one comes first unless they are equal. */
  lemma {:induction false} BelowTotal(a: string, b: string)
    ensures a == b || Below(a, b) || Below(b, a)
    ensures !(Below(a, b) && Below(b, a))
    decreases |a|
  {
    if a != [] && b != [] && a[0] == b[0] {
      BelowTotal(a[1..], b[1..]);
      if a[1..] == b[1..] {
        assert a == [a[0]] + a[1..] && b == [b[0]] + b[1..];
      }
    }
  }

  /** Every non-empty set of names has a last one. */
  lemma {:induction false} Greatest(S: set<string>) returns (m: string)
    requires S != {}
    ensures m in S && forall x :: x in S && x != m ==> Below(x, m)
    decreases |S|
  {
    var x :| x in S;
    if S == {x} {
      m := x;
    } else {
      var y := Greatest(S - {x});
      BelowTotal(x, y);
      if Below(x, y) {
        m := y;
      } else {
        m := x;
        forall z | z in S && z != m
          ensures Below(z, m)
        {
          if z != y {
            BelowTransitive(z, y, x);
          }
        }
      }
    }
  }

  /** `tag(t)`. */
  function Tag(s: string, t: string): (r: Option<string>)
    ensures r.Some? ==> s == t + r.value
  {
    if |t| <= |s| && s[..|t|] == t then Some(s[|t|..]) else None
  }

  /** A tag at the front of the text is consumed. */
  lemma TagOf(t: string, rest: string)
    ensures Tag(t + rest, t) == Some(rest)
  {
    assert (t + rest)[..|t|] == t;
    assert (t + rest)[|t|..] == rest;
  }

  /** `2^k`. */
  function Pow2(k: nat): (p: nat)
    ensures p > 0
  {
    if k == 0 then 1 else 2 * Pow2(k - 1)
  }
}
