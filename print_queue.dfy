/**
 * 2024 day 5: page ordering rules `a|b` ("page a goes before page b") and
 * updates, lists of pages.  Part one adds up the middle pages of the updates
 * that break no rule; part two sorts every update that breaks one with the
 * rules as comparator and adds up the middle pages of the results.
 */
module PrintQueue {
  import opened Text

  datatype Order = Order(before: int, after: int)

  datatype Input = Input(limits: seq<Order>, updates: seq<seq<int>>)

  /** The largest value `parse::<i32>()` accepts. */
  const I32Max: int := 0x7fff_ffff

  // ---------------------------------------------------------------------------
  // Grammar: rule lines `a|b`, a line ending, then lines of comma-separated pages

  /** `number`: the digit run parsed as an `i32`; an empty run or a value past `i32::MAX` fails. */
  function Number(s: string): (r: Option<(int, string)>)
    ensures r.Some? ==> 0 <= r.value.0 <= I32Max && |r.value.1| < |s|
  {
    var k := DigitRun(s);
    if k == 0 then None
    else
      assert AllDigits(s[..k]);
      var v := DigitsValue(s[..k]);
      if v > I32Max then None else Some((v, s[k..]))
  }

  /** `order`: number, `|`, number, line ending. */
  function ParseOrder(s: string): (r: Option<(Order, string)>)
    ensures r.Some? ==> |r.value.1| < |s|
  {
    match Number(s)
    case None => None
    case Some((a, s1)) =>
      match Char(s1, '|')
      case None => None
      case Some(s2) =>
        match Number(s2)
        case None => None
        case Some((b, s3)) =>
          match LineEnding(s3)
          case None => None
          case Some(s4) => Some((Order(a, b), s4))
  }

  /**
   * The loop of `separated_list1(char(','), number)` after its first
   * element: a `,` followed by a number adds the number; otherwise the list
   * ends before the `,`.
   */
  function MoreNumbers(s: string): (r: (seq<int>, string))
    ensures |r.1| <= |s|
    decreases |s|
  {
    if s != [] && s[0] == ',' && Number(s[1..]).Some? then
      var (v, t) := Number(s[1..]).value;
      var (vs, rest) := MoreNumbers(t);
      ([v] + vs, rest)
    else ([], s)
  }

  /** `update`: one or more numbers separated by `,`, then a line ending. */
  function ParseUpdate(s: string): (r: Option<(seq<int>, string)>)
    ensures r.Some? ==> |r.value.0| > 0 && |r.value.1| < |s|
  {
    match Number(s)
    case None => None
    case Some((v, s1)) =>
      var (vs, s2) := MoreNumbers(s1);
      match LineEnding(s2)
      case None => None
      case Some(s3) => Some(([v] + vs, s3))
  }

  /** `many0(order)`: rule lines for as long as they parse. */
  function Orders(s: string): (r: (seq<Order>, string))
    ensures |r.1| <= |s|
    decreases |s|
  {
    match ParseOrder(s)
    case None => ([], s)
    case Some((o, t)) =>
      var (os, rest) := Orders(t);
      ([o] + os, rest)
  }

  /** `many0(update)`: update lines for as long as they parse; each holds a page. */
  function Updates(s: string): (r: (seq<seq<int>>, string))
    ensures |r.1| <= |s| && forall k :: 0 <= k < |r.0| ==> |r.0[k]| > 0
    decreases |s|
  {
    match ParseUpdate(s)
    case None => ([], s)
    case Some((u, t)) =>
      var (us, rest) := Updates(t);
      ([u] + us, rest)
  }

  /**
   * `parse_input`: `many1(order)`, a line ending, `many1(update)`; what
   * follows the last update is ignored.
   */
  function ParseInput(s: string): (r: Option<Input>)
    ensures r.Some? ==> |r.value.limits| > 0 && |r.value.updates| > 0
    ensures r.Some? ==> forall k :: 0 <= k < |r.value.updates| ==> |r.value.updates[k]| > 0
  {
    var (os, s1) := Orders(s);
    if os == [] then None
    else
      match LineEnding(s1)
      case None => None
      case Some(s2) =>
        var (us, _) := Updates(s2);
        if us == [] then None else Some(Input(os, us))
  }

  // ---------------------------------------------------------------------------
  // Spelling an input, to state what the grammar accepts

  /** A page number as written: one or more digits of a value that fits an `i32`. */
  predicate Numeral(d: string)
  {
    |d| > 0 && AllDigits(d) && DigitsValue(d) <= I32Max
  }

  predicate AllNumerals(ds: seq<string>)
  {
    forall k :: 0 <= k < |ds| ==> Numeral(ds[k])
  }

  function Values(ds: seq<string>): (vs: seq<int>)
    requires AllNumerals(ds)
    ensures |vs| == |ds|
  {
    if ds == [] then [] else [DigitsValue(ds[0])] + Values(ds[1..])
  }

  /** `,d` for every page after the first. */
  function CommaList(ds: seq<string>): string
  {
    if ds == [] then [] else [','] + (ds[0] + CommaList(ds[1..]))
  }

  /** An update line. */
  function UpdateText(ds: seq<string>): string
    requires |ds| > 0
  {
    ds[0] + (CommaList(ds[1..]) + ['\n'])
  }

  function UpdatesText(us: seq<seq<string>>): string
    requires forall k :: 0 <= k < |us| ==> |us[k]| > 0
  {
    if us == [] then [] else UpdateText(us[0]) + UpdatesText(us[1..])
  }

  /** A rule line `a|b`. */
  function OrderText(a: string, b: string): string
  {
    a + (['|'] + (b + ['\n']))
  }

  function OrdersText(rs: seq<(string, string)>): string
  {
    if rs == [] then [] else OrderText(rs[0].0, rs[0].1) + OrdersText(rs[1..])
  }

  predicate RuleNumerals(rs: seq<(string, string)>)
  {
    forall k :: 0 <= k < |rs| ==> Numeral(rs[k].0) && Numeral(rs[k].1)
  }

  function RuleValues(rs: seq<(string, string)>): (os: seq<Order>)
    requires RuleNumerals(rs)
  {
    if rs == [] then [] else [Order(DigitsValue(rs[0].0), DigitsValue(rs[0].1))] + RuleValues(rs[1..])
  }

  predicate UpdateNumerals(us: seq<seq<string>>)
  {
    forall k :: 0 <= k < |us| ==> |us[k]| > 0 && AllNumerals(us[k])
  }

  function UpdateValues(us: seq<seq<string>>): (vs: seq<seq<int>>)
    requires UpdateNumerals(us)
  {
    if us == [] then [] else [Values(us[0])] + UpdateValues(us[1..])
  }

  /** The whole puzzle input: the rule lines, an empty line, the update lines. */
  function InputText(rs: seq<(string, string)>, us: seq<seq<string>>): string
    requires UpdateNumerals(us)
  {
    OrdersText(rs) + (['\n'] + UpdatesText(us))
  }

  /** A numeral followed by anything but a digit reads as its value. */
  lemma NumberOf(d: string, t: string)
    requires Numeral(d) && (t == [] || !IsDigit(t[0]))
    ensures Number(d + t) == Some((DigitsValue(d), t))
  {
    DigitRunOf(d, t);
    assert (d + t)[..|d|] == d;
    assert (d + t)[|d|..] == t;
  }

  lemma {:induction false} MoreNumbersOf(ds: seq<string>, t: string)
    requires AllNumerals(ds) && (t == [] || (t[0] != ',' && !IsDigit(t[0])))
    ensures MoreNumbers(CommaList(ds) + t) == (Values(ds), t)
  {
    if ds == [] {
      assert CommaList(ds) + t == t;
    } else {
      MoreNumbersOf(ds[1..], t);
      MoreNumbersCons(ds[0], ds[1..], t);
      assert [ds[0]] + ds[1..] == ds;
    }
  }

  lemma MoreNumbersCons(d: string, ds: seq<string>, t: string)
    requires Numeral(d) && AllNumerals(ds) && (t == [] || (t[0] != ',' && !IsDigit(t[0])))
    requires MoreNumbers(CommaList(ds) + t) == (Values(ds), t)
    ensures MoreNumbers(CommaList([d] + ds) + t) == (Values([d] + ds), t)
  {
    var tail := CommaList(ds) + t;
    CommaListStart(ds, t);
    NumberOf(d, tail);
    var s := CommaList([d] + ds) + t;
    CommaListCons(d, ds, t);
    MoreNumbersStep(s, DigitsValue(d), tail);
    assert Values([d] + ds) == [DigitsValue(d)] + Values(ds);
  }

  lemma CommaListCons(d: string, ds: seq<string>, t: string)
    ensures CommaList([d] + ds) + t == [','] + (d + (CommaList(ds) + t))
    ensures (CommaList([d] + ds) + t)[1..] == d + (CommaList(ds) + t)
  {
    assert ([d] + ds)[1..] == ds;
  }

  lemma CommaListStart(ds: seq<string>, t: string)
    ensures ds == [] ==> CommaList(ds) + t == t
    ensures ds != [] ==> (CommaList(ds) + t)[0] == ','
  {
  }

  lemma MoreNumbersStep(s: string, v: int, t: string)
    requires s != [] && s[0] == ',' && Number(s[1..]) == Some((v, t))
    ensures MoreNumbers(s) == ([v] + MoreNumbers(t).0, MoreNumbers(t).1)
  {
  }

  lemma ParseUpdateSteps(s: string, v: int, s1: string, s3: string)
    requires Number(s) == Some((v, s1)) && LineEnding(MoreNumbers(s1).1) == Some(s3)
    ensures ParseUpdate(s) == Some(([v] + MoreNumbers(s1).0, s3))
  {
  }

  lemma ParseOrderSteps(s: string, a: int, s1: string, s2: string, b: int, s3: string, s4: string)
    requires Number(s) == Some((a, s1)) && Char(s1, '|') == Some(s2)
    requires Number(s2) == Some((b, s3)) && LineEnding(s3) == Some(s4)
    ensures ParseOrder(s) == Some((Order(a, b), s4))
  {
  }

  lemma NewLine(t: string)
    ensures LineEnding(['\n'] + t) == Some(t) && !IsDigit((['\n'] + t)[0]) && (['\n'] + t)[0] != ','
  {
    assert (['\n'] + t)[1..] == t;
  }

  /** An update line reads back as its pages. */
  lemma UpdateOf(ds: seq<string>, t: string)
    requires |ds| > 0 && AllNumerals(ds)
    ensures ParseUpdate(UpdateText(ds) + t) == Some((Values(ds), t))
  {
    var s := UpdateText(ds) + t;
    var nl := ['\n'] + t;
    var rest := CommaList(ds[1..]) + nl;
    UpdateTextSplit(ds, t);
    NewLine(t);
    CommaListStart(ds[1..], nl);
    NumberOf(ds[0], rest);
    MoreNumbersOf(ds[1..], nl);
    ParseUpdateSteps(s, DigitsValue(ds[0]), rest, t);
  }

  lemma UpdateTextSplit(ds: seq<string>, t: string)
    requires |ds| > 0
    ensures UpdateText(ds) + t == ds[0] + (CommaList(ds[1..]) + (['\n'] + t))
  {
  }

  lemma {:induction false} UpdatesOf(us: seq<seq<string>>)
    requires UpdateNumerals(us)
    ensures Updates(UpdatesText(us)) == (UpdateValues(us), [])
  {
    if us != [] {
      UpdateOf(us[0], UpdatesText(us[1..]));
      UpdatesOf(us[1..]);
    }
  }

  /** A rule line reads back as its two pages. */
  lemma OrderOf(a: string, b: string, t: string)
    requires Numeral(a) && Numeral(b)
    ensures ParseOrder(OrderText(a, b) + t) == Some((Order(DigitsValue(a), DigitsValue(b)), t))
  {
    var s := OrderText(a, b) + t;
    var nl := ['\n'] + t;
    var bar := ['|'] + (b + nl);
    assert s == a + bar;
    NumberOf(a, bar);
    assert bar[1..] == b + nl;
    NewLine(t);
    NumberOf(b, nl);
    ParseOrderSteps(s, DigitsValue(a), bar, b + nl, DigitsValue(b), nl, t);
  }

  lemma {:induction false} OrdersOf(rs: seq<(string, string)>, t: string)
    requires RuleNumerals(rs) && t != [] && t[0] == '\n'
    ensures Orders(OrdersText(rs) + t) == (RuleValues(rs), t)
  {
    if rs == [] {
      assert OrdersText(rs) + t == t;
      assert DigitRun(t) == 0;
    } else {
      assert OrdersText(rs) + t == OrderText(rs[0].0, rs[0].1) + (OrdersText(rs[1..]) + t);
      OrderOf(rs[0].0, rs[0].1, OrdersText(rs[1..]) + t);
      OrdersOf(rs[1..], t);
    }
  }

  /** A spelled-out input with at least one rule and one update reads back as its rules and updates. */
  lemma ParseInputOf(rs: seq<(string, string)>, us: seq<seq<string>>)
    requires |rs| > 0 && RuleNumerals(rs) && |us| > 0 && UpdateNumerals(us)
    ensures ParseInput(InputText(rs, us)) == Some(Input(RuleValues(rs), UpdateValues(us)))
  {
    OrdersOf(rs, ['\n'] + UpdatesText(us));
    UpdatesOf(us);
    assert (['\n'] + UpdatesText(us))[1..] == UpdatesText(us);
  }

  // ---------------------------------------------------------------------------
  // Rules and correct updates

  /** The `HashSet` of `(before, after)` pairs. */
  function Good(limits: seq<Order>): (good: set<(int, int)>)
    ensures forall a, b :: (a, b) in good <==> Order(a, b) in limits
  {
    set o | o in limits :: (o.before, o.after)
  }

  /** Part one's filter: no page has a rule putting it before a page earlier in the update. */
  predicate InOrder(u: seq<int>, good: set<(int, int)>)
  {
    forall i, j :: 0 <= j < i < |u| ==> (u[i], u[j]) !in good
  }

  /** Part two's filter: some page has a rule putting it before an earlier page. */
  predicate BreaksRule(u: seq<int>, good: set<(int, int)>)
  {
    exists i :: 1 <= i < |u| && exists j :: 0 <= j < i && (u[i], u[j]) in good
  }

  function Middle(u: seq<int>): int
    requires |u| > 0
  {
    u[|u| / 2]
  }

  predicate NonEmpty(us: seq<seq<int>>)
  {
    forall k :: 0 <= k < |us| ==> |us[k]| > 0
  }

  function Middles(us: seq<seq<int>>): (ms: seq<int>)
    requires NonEmpty(us)
    ensures |ms| == |us| && forall k :: 0 <= k < |us| ==> ms[k] == Middle(us[k])
  {
    if us == [] then [] else [Middle(us[0])] + Middles(us[1..])
  }

  function CorrectOnes(us: seq<seq<int>>, good: set<(int, int)>): (r: seq<seq<int>>)
    ensures forall k :: 0 <= k < |r| ==> r[k] in us && InOrder(r[k], good)
  {
    if us == [] then [] else (if InOrder(us[0], good) then [us[0]] else []) + CorrectOnes(us[1..], good)
  }

  function IncorrectOnes(us: seq<seq<int>>, good: set<(int, int)>): (r: seq<seq<int>>)
    ensures forall k :: 0 <= k < |r| ==> r[k] in us && BreaksRule(r[k], good)
  {
    if us == [] then [] else (if BreaksRule(us[0], good) then [us[0]] else []) + IncorrectOnes(us[1..], good)
  }

  /** Part one. */
  function PartOne(input: Input): int
    requires NonEmpty(input.updates)
  {
    CorrectTotal(input.updates, Good(input.limits))
  }

  /** The two filters split the updates: each update is in exactly one of them. */
  lemma BreaksRuleIff(u: seq<int>, good: set<(int, int)>)
    ensures BreaksRule(u, good) <==> !InOrder(u, good)
  {
    if !InOrder(u, good) {
      var i, j :| 0 <= j < i < |u| && (u[i], u[j]) in good;
      assert 1 <= i < |u| && 0 <= j < i && (u[i], u[j]) in good;
    }
  }

  lemma {:induction false} Partition(us: seq<seq<int>>, good: set<(int, int)>)
    ensures multiset(CorrectOnes(us, good)) + multiset(IncorrectOnes(us, good)) == multiset(us)
  {
    if us != [] {
      Partition(us[1..], good);
      BreaksRuleIff(us[0], good);
      assert us == [us[0]] + us[1..];
    }
  }

  // ---------------------------------------------------------------------------
  // Part two: sorting by the rules

  /** Part two's comparator returns `Less` for `a, b` exactly when they differ and a rule puts `a` first. */
  predicate Before(a: int, b: int, good: set<(int, int)>)
  {
    a != b && (a, b) in good
  }

  /** Inserting `x` into a sorted update, passing every page it comes before. */
  function Insert(s: seq<int>, x: int, good: set<(int, int)>): (r: seq<int>)
    ensures multiset(r) == multiset(s) + multiset{x}
  {
    if s == [] || !Before(x, s[|s| - 1], good) then s + [x]
    else
      assert s == s[..|s| - 1] + [s[|s| - 1]];
      Insert(s[..|s| - 1], x, good) + [s[|s| - 1]]
  }

  /** `sort_by` with the rules' comparator, as an insertion sort. */
  function Sort(u: seq<int>, good: set<(int, int)>): (r: seq<int>)
    ensures multiset(r) == multiset(u)
  {
    if u == [] then []
    else
      assert u == u[..|u| - 1] + [u[|u| - 1]];
      Insert(Sort(u[..|u| - 1], good), u[|u| - 1], good)
  }

  predicate Within(s: seq<int>, pages: set<int>)
  {
    forall k :: 0 <= k < |s| ==> s[k] in pages
  }

  /** No rule puts a page before itself. */
  predicate Irreflexive(good: set<(int, int)>, pages: set<int>)
  {
    forall a :: a in pages ==> (a, a) !in good
  }

  /** Of two different pages exactly one goes first. */
  predicate Connected(good: set<(int, int)>, pages: set<int>)
  {
    forall a, b :: a in pages && b in pages && a != b ==> ((a, b) in good <==> (b, a) !in good)
  }

  predicate Transitive(good: set<(int, int)>, pages: set<int>)
  {
    forall a, b, c :: a in pages && b in pages && c in pages && (a, b) in good && (b, c) in good ==> (a, c) in good
  }

  /** The rules order the pages totally: what makes the comparator a total order on them. */
  predicate TotalOn(good: set<(int, int)>, pages: set<int>)
  {
    Irreflexive(good, pages) && Connected(good, pages) && Transitive(good, pages)
  }

  lemma UseIrreflexive(good: set<(int, int)>, pages: set<int>, a: int)
    requires Irreflexive(good, pages) && a in pages
    ensures (a, a) !in good
  {
  }

  lemma UseConnected(good: set<(int, int)>, pages: set<int>, a: int, b: int)
    requires Connected(good, pages) && a in pages && b in pages && a != b
    ensures (a, b) in good <==> (b, a) !in good
  {
  }

  lemma UseTransitive(good: set<(int, int)>, pages: set<int>, a: int, b: int, c: int)
    requires Transitive(good, pages) && a in pages && b in pages && c in pages
    ensures (a, b) in good && (b, c) in good ==> (a, c) in good
  {
  }

  lemma InOrderSnoc(t: seq<int>, z: int, good: set<(int, int)>)
    requires InOrder(t, good) && forall k :: 0 <= k < |t| ==> (z, t[k]) !in good
    ensures InOrder(t + [z], good)
  {
  }

  /** The page appended when `x` stops is preceded by pages `x` may follow. */
  lemma StopsInOrder(s: seq<int>, x: int, good: set<(int, int)>, pages: set<int>)
    requires TotalOn(good, pages) && Within(s, pages) && x in pages && InOrder(s, good)
    requires s != [] ==> !Before(x, s[|s| - 1], good)
    ensures InOrder(s + [x], good)
  {
    forall k | 0 <= k < |s|
      ensures (x, s[k]) !in good
    {
      var last := s[|s| - 1];
      if x == last {
        if k == |s| - 1 {
          UseIrreflexive(good, pages, x);
        }
      } else if s[k] != last {
        assert (last, s[k]) !in good;
        UseConnected(good, pages, s[k], last);
        UseTransitive(good, pages, x, s[k], last);
      }
    }
    InOrderSnoc(s, x, good);
  }

  lemma {:induction false} InsertOrdered(s: seq<int>, x: int, good: set<(int, int)>, pages: set<int>)
    requires TotalOn(good, pages) && Within(s, pages) && x in pages && InOrder(s, good)
    ensures InOrder(Insert(s, x, good), good)
  {
    if s == [] || !Before(x, s[|s| - 1], good) {
      StopsInOrder(s, x, good, pages);
    } else {
      var last := s[|s| - 1];
      var init := s[..|s| - 1];
      InsertOrdered(init, x, good, pages);
      var t := Insert(init, x, good);
      forall k | 0 <= k < |t|
        ensures (last, t[k]) !in good
      {
        assert t[k] in multiset(t);
        if t[k] != x {
          assert t[k] in multiset(init);
          var j :| 0 <= j < |init| && init[j] == t[k];
          assert s[j] == t[k];
        } else {
          UseConnected(good, pages, x, last);
        }
      }
      InOrderSnoc(t, last, good);
    }
  }

  /** When the rules order an update's pages totally, part two's sort leaves it breaking no rule. */
  lemma {:induction false} SortOrders(u: seq<int>, good: set<(int, int)>, pages: set<int>)
    requires TotalOn(good, pages) && Within(u, pages)
    ensures InOrder(Sort(u, good), good)
  {
    if u != [] {
      var init := u[..|u| - 1];
      SortOrders(init, good, pages);
      var t := Sort(init, good);
      forall k | 0 <= k < |t|
        ensures t[k] in pages
      {
        assert t[k] in multiset(init);
      }
      InsertOrdered(t, u[|u| - 1], good, pages);
    }
  }

  /** An update that breaks no rule is left as it is. */
  lemma {:induction false} SortKeepsInOrder(u: seq<int>, good: set<(int, int)>)
    requires InOrder(u, good)
    ensures Sort(u, good) == u
  {
    if u != [] {
      var init := u[..|u| - 1];
      var last := u[|u| - 1];
      assert u == init + [last];
      InOrderInit(u, good);
      SortKeepsInOrder(init, good);
      LastAfter(u, good);
      InsertAtEnd(init, last, good);
    }
  }

  lemma LastAfter(u: seq<int>, good: set<(int, int)>)
    requires InOrder(u, good) && u != []
    ensures |u| == 1 || !Before(u[|u| - 1], u[|u| - 2], good)
  {
  }

  lemma InOrderInit(u: seq<int>, good: set<(int, int)>)
    requires InOrder(u, good) && u != []
    ensures InOrder(u[..|u| - 1], good)
  {
    var init := u[..|u| - 1];
    forall i, j | 0 <= j < i < |init|
      ensures (init[i], init[j]) !in good
    {
      assert init[i] == u[i] && init[j] == u[j];
    }
  }

  lemma InsertAtEnd(s: seq<int>, x: int, good: set<(int, int)>)
    requires s == [] || !Before(x, s[|s| - 1], good)
    ensures Insert(s, x, good) == s + [x]
  {
  }

  /** So, when the rules order its pages totally, part two's sort changes exactly the updates part two selects. */
  lemma SortChangesIff(u: seq<int>, good: set<(int, int)>, pages: set<int>)
    requires TotalOn(good, pages) && Within(u, pages)
    ensures Sort(u, good) != u <==> BreaksRule(u, good)
  {
    BreaksRuleIff(u, good);
    if InOrder(u, good) {
      SortKeepsInOrder(u, good);
    } else {
      SortOrders(u, good, pages);
    }
  }

  /**
   * Under a total order there is one arrangement of the pages that breaks no
   * rule, so the middle page part two adds does not depend on which sort is
   * used.
   */
  lemma {:induction false} SortedUnique(a: seq<int>, b: seq<int>, good: set<(int, int)>, pages: set<int>)
    requires TotalOn(good, pages) && Within(a, pages)
    requires multiset(a) == multiset(b) && InOrder(a, good) && InOrder(b, good)
    ensures a == b
  {
    if a == [] {
      assert |b| == |multiset(b)| == 0;
    } else {
      assert |b| == |multiset(b)| == |a|;
      SameFirst(a, b, good, pages);
      SameRest(a, b);
      assert InOrder(a[1..], good) && InOrder(b[1..], good) && Within(a[1..], pages);
      SortedUnique(a[1..], b[1..], good, pages);
      assert a == [a[0]] + a[1..] && b == [b[0]] + b[1..];
    }
  }

  /** Two orderings of the same pages breaking no rule start with the same page. */
  lemma SameFirst(a: seq<int>, b: seq<int>, good: set<(int, int)>, pages: set<int>)
    requires TotalOn(good, pages) && Within(a, pages) && a != [] && b != []
    requires multiset(a) == multiset(b) && InOrder(a, good) && InOrder(b, good)
    ensures a[0] == b[0]
  {
    assert b[0] in multiset(a) && a[0] in multiset(b);
  }

  lemma SameRest(a: seq<int>, b: seq<int>)
    requires a != [] && b != [] && a[0] == b[0] && multiset(a) == multiset(b)
    ensures multiset(a[1..]) == multiset(b[1..])
  {
    assert a == [a[0]] + a[1..] && b == [b[0]] + b[1..];
    assert multiset(a[1..]) == multiset(a) - multiset{a[0]};
    assert multiset(b[1..]) == multiset(b) - multiset{b[0]};
  }

  function SortAll(us: seq<seq<int>>, good: set<(int, int)>): (r: seq<seq<int>>)
    ensures |r| == |us| && forall k :: 0 <= k < |us| ==> r[k] == Sort(us[k], good)
  {
    if us == [] then [] else [Sort(us[0], good)] + SortAll(us[1..], good)
  }

  lemma SortAllNonEmpty(us: seq<seq<int>>, good: set<(int, int)>)
    requires NonEmpty(us)
    ensures NonEmpty(SortAll(us, good))
  {
    forall k | 0 <= k < |us|
      ensures |Sort(us[k], good)| > 0
    {
      assert |multiset(Sort(us[k], good))| == |multiset(us[k])|;
    }
  }

  /** Part two. */
  function PartTwo(input: Input): int
    requires NonEmpty(input.updates)
  {
    FixedTotal(input.updates, Good(input.limits))
  }

  /**
   * Together the two parts add up the middle pages of every update after
   * part two's sort: an update part one counts is one the sort leaves alone.
   */
  lemma PartsAddUp(input: Input)
    requires NonEmpty(input.updates)
    ensures PartOne(input) + PartTwo(input) == SortedTotal(input.updates, Good(input.limits))
  {
    var good := Good(input.limits);
    MiddlesSplit(input.updates, good);
  }

  /** Part one's sum over `us`. */
  function CorrectTotal(us: seq<seq<int>>, good: set<(int, int)>): int
    requires NonEmpty(us)
  {
    var ok := CorrectOnes(us, good);
    assert NonEmpty(ok);
    Sum(Middles(ok))
  }

  /** Part two's sum over `us`. */
  function FixedTotal(us: seq<seq<int>>, good: set<(int, int)>): int
    requires NonEmpty(us)
  {
    var bad := IncorrectOnes(us, good);
    SortAllNonEmpty(bad, good);
    Sum(Middles(SortAll(bad, good)))
  }

  /** The middle pages of every update after sorting, added up. */
  function SortedTotal(us: seq<seq<int>>, good: set<(int, int)>): int
    requires NonEmpty(us)
  {
    SortAllNonEmpty(us, good);
    Sum(Middles(SortAll(us, good)))
  }

  lemma SortedTotalCons(u: seq<int>, rest: seq<seq<int>>, good: set<(int, int)>)
    requires |u| > 0 && NonEmpty(rest)
    ensures NonEmpty([u] + rest)
    ensures SortedTotal([u] + rest, good) == Middle(Sort(u, good)) + SortedTotal(rest, good)
  {
    var us := [u] + rest;
    assert us[1..] == rest;
    SortAllNonEmpty(us, good);
    SortAllNonEmpty(rest, good);
    assert SortAll(us, good) == [Sort(u, good)] + SortAll(rest, good);
    assert Middles(SortAll(us, good)) == [Middle(Sort(u, good))] + Middles(SortAll(rest, good));
  }

  lemma CorrectCons(u: seq<int>, rest: seq<seq<int>>, good: set<(int, int)>)
    requires |u| > 0 && NonEmpty(rest) && InOrder(u, good)
    ensures NonEmpty([u] + rest)
    ensures CorrectTotal([u] + rest, good) == Middle(u) + CorrectTotal(rest, good)
    ensures FixedTotal([u] + rest, good) == FixedTotal(rest, good)
  {
    var us := [u] + rest;
    assert us[1..] == rest;
    BreaksRuleIff(u, good);
    assert CorrectOnes(us, good) == [u] + CorrectOnes(rest, good);
    assert IncorrectOnes(us, good) == IncorrectOnes(rest, good);
    var ok := CorrectOnes(rest, good);
    assert NonEmpty(ok);
    assert Middles([u] + ok) == [Middle(u)] + Middles(ok);
  }

  lemma IncorrectCons(u: seq<int>, rest: seq<seq<int>>, good: set<(int, int)>)
    requires |u| > 0 && NonEmpty(rest) && !InOrder(u, good)
    ensures NonEmpty([u] + rest)
    ensures CorrectTotal([u] + rest, good) == CorrectTotal(rest, good)
    ensures FixedTotal([u] + rest, good) == Middle(Sort(u, good)) + FixedTotal(rest, good)
  {
    var us := [u] + rest;
    assert us[1..] == rest;
    BreaksRuleIff(u, good);
    assert CorrectOnes(us, good) == CorrectOnes(rest, good);
    var bad := IncorrectOnes(rest, good);
    assert IncorrectOnes(us, good) == [u] + bad;
    assert NonEmpty(bad);
    SortAllNonEmpty([u] + bad, good);
    SortAllNonEmpty(bad, good);
    assert ([u] + bad)[1..] == bad;
    assert SortAll([u] + bad, good) == [Sort(u, good)] + SortAll(bad, good);
    assert Middles(SortAll([u] + bad, good)) == [Middle(Sort(u, good))] + Middles(SortAll(bad, good));
  }

  lemma {:induction false} MiddlesSplit(us: seq<seq<int>>, good: set<(int, int)>)
    requires NonEmpty(us)
    ensures CorrectTotal(us, good) + FixedTotal(us, good) == SortedTotal(us, good)
  {
    if us != [] {
      var u := us[0];
      var rest := us[1..];
      assert us == [u] + rest;
      MiddlesSplit(rest, good);
      SortedTotalCons(u, rest, good);
      if InOrder(u, good) {
        SortKeepsInOrder(u, good);
        CorrectCons(u, rest, good);
      } else {
        IncorrectCons(u, rest, good);
      }
    }
  }
}
