/**
 * 2024 day 2: a report (a row of levels) is safe when it moves in one
 * direction throughout, by 1 to 3 at every step; the answer counts the safe
 * reports.
 */
module Reports {
  import opened Text

  /**
   * `Input::parse_from`: one report per line, levels separated by
   * whitespace; a token that is not a number is `None` here where the source
   * panics on `unwrap`.
   */
  function ParseReports(s: string): (r: Option<seq<seq<int>>>)
    ensures r.Some? ==> |r.value| == |Lines(s)|
  {
    ParseLines(Lines(s))
  }

  function ParseLines(lines: seq<string>): (r: Option<seq<seq<int>>>)
    ensures r.Some? ==> |r.value| == |lines|
    ensures r.Some? ==> forall k :: 0 <= k < |lines| ==> ParseLevels(Words(lines[k])) == Some(r.value[k])
    ensures r.None? <==> exists k :: 0 <= k < |lines| && ParseLevels(Words(lines[k])).None?
  {
    if lines == [] then Some([])
    else
      match (ParseLevels(Words(lines[0])), ParseLines(lines[1..]))
      case (Some(v), Some(rest)) => Some([v] + rest)
      case _ => None
  }

  function ParseLevels(tokens: seq<string>): (r: Option<seq<int>>)
    ensures r.Some? <==> forall k :: 0 <= k < |tokens| ==> ParseInt(tokens[k]).Some?
    ensures r.Some? ==> |r.value| == |tokens| && forall k :: 0 <= k < |tokens| ==> ParseInt(tokens[k]) == Some(r.value[k])
  {
    if tokens == [] then Some([])
    else
      match (ParseInt(tokens[0]), ParseLevels(tokens[1..]))
      case (Some(x), Some(rest)) => Some([x] + rest)
      case _ => None
  }

  function Abs(x: int): int { if x < 0 then -x else x }

  /** Every step has the direction of the first step and a size of 1 to 3. */
  predicate Safe(v: seq<int>)
    requires |v| >= 1
  {
    forall i :: 0 <= i < |v| - 1 ==>
      (v[i] < v[i + 1]) == (v[0] < v[1]) && 1 <= Abs(v[i] - v[i + 1]) <= 3
  }

  /**
   * The inner `check` of `PartOne::solve`: walk the adjacent pairs and stop
   * at the first that turns or jumps. The source computes `v.len() - 1` on a
   * `usize`, so an empty report would underflow: it is excluded here.
   */
  method Check(v: seq<int>) returns (safe: bool)
    requires |v| >= 1
    ensures safe == Safe(v)
  {
    for i := 0 to |v| - 1
      invariant forall k :: 0 <= k < i ==>
        (v[k] < v[k + 1]) == (v[0] < v[1]) && 1 <= Abs(v[k] - v[k + 1]) <= 3
    {
      var a, b := v[i], v[i + 1];
      if (a < b) != (v[0] < v[1]) {
        return false;
      }
      if Abs(a - b) < 1 || Abs(a - b) > 3 {
        return false;
      }
    }
    return true;
  }

  /** Steadily increasing by 1 to 3, or steadily decreasing by 1 to 3. */
  predicate Gradual(v: seq<int>)
  {
    (forall i :: 0 <= i < |v| - 1 ==> 1 <= v[i + 1] - v[i] <= 3) ||
    (forall i :: 0 <= i < |v| - 1 ==> 1 <= v[i] - v[i + 1] <= 3)
  }

  /** The check agrees with the plain reading of the rule. */
  lemma SafeIffGradual(v: seq<int>)
    requires |v| >= 1
    ensures Safe(v) <==> Gradual(v)
  {
    if |v| >= 2 {
      if Safe(v) {
        if v[0] < v[1] {
          assert forall i :: 0 <= i < |v| - 1 ==> 1 <= v[i + 1] - v[i] <= 3;
        } else {
          assert forall i :: 0 <= i < |v| - 1 ==> 1 <= v[i] - v[i + 1] <= 3;
        }
      }
      if Gradual(v) {
        assert forall i :: 0 <= i < |v| - 1 ==> (v[i] < v[i + 1]) == (v[0] < v[1]);
      }
    }
  }

  /** Two equal neighbours make a report unsafe. */
  lemma EqualNeighboursUnsafe(v: seq<int>, i: int)
    requires 0 <= i < |v| - 1 && v[i] == v[i + 1]
    ensures !Safe(v)
  {
  }

  /** Number of safe reports; `None` when some report is empty. */
  function CountSafe(reports: seq<seq<int>>): (r: Option<nat>)
    ensures r.Some? <==> forall k :: 0 <= k < |reports| ==> |reports[k]| >= 1
    ensures r.Some? ==> r.value <= |reports|
  {
    if reports == [] then Some(0)
    else
      var last := reports[|reports| - 1];
      match CountSafe(reports[..|reports| - 1])
      case None => None
      case Some(n) => if |last| == 0 then None else Some(n + if Safe(last) then 1 else 0)
  }

  /** `PartOne::solve`: count the reports that pass `check`. */
  method Solve(reports: seq<seq<int>>) returns (r: Option<nat>)
    ensures r == CountSafe(reports)
  {
    var count := 0;
    for k := 0 to |reports|
      invariant CountSafe(reports[..k]) == Some(count)
    {
      assert reports[..k + 1][..k] == reports[..k];
      if |reports[k]| == 0 {
        return None;
      }
      var safe := Check(reports[k]);
      if safe {
        count := count + 1;
      }
    }
    assert reports[..|reports|] == reports;
    return Some(count);
  }
}
