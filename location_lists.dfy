/**
 * 2024 day 1: two columns of location ids; the answer pairs the smallest
 * with the smallest, the second smallest with the second smallest, and so
 * on, and sums the distances of the pairs.
 */
module LocationLists {
  import opened Text
  import opened Sorting

  datatype Input = Input(left: seq<int>, right: seq<int>)

  /**
   * `Input::parse_from`: the whitespace-separated tokens are taken two at a
   * time, the first of each pair into `left` and the second into `right`;
   * an odd last token is ignored without being parsed.
   */
  function ParseInput(s: string): (r: Option<Input>)
  {
    match ParsePairs(Words(s))
    case None => None
    case Some((l, rt)) => Some(Input(l, rt))
  }

  function ParsePairs(tokens: seq<string>): (r: Option<(seq<int>, seq<int>)>)
    ensures r.Some? ==> |r.value.0| == |r.value.1| == |tokens| / 2
    ensures r.Some? ==> forall i :: 0 <= i < |tokens| / 2 ==>
      ParseInt(tokens[2 * i]) == Some(r.value.0[i]) && ParseInt(tokens[2 * i + 1]) == Some(r.value.1[i])
    ensures r.None? <==> exists k :: 0 <= k < |tokens| / 2 * 2 && ParseInt(tokens[k]).None?
  {
    if |tokens| < 2 then Some(([], []))
    else
      match (ParseInt(tokens[0]), ParseInt(tokens[1]), ParsePairs(tokens[2..]))
      case (Some(a), Some(b), Some((l, rt))) =>
        Some(([a] + l, [b] + rt))
      case _ =>
        None
  }

  /** The zip of two lists, summing `|a - b|` over the pairs. */
  function PairDistance(xs: seq<int>, ys: seq<int>): (d: int)
    ensures d >= 0
  {
    if xs == [] || ys == [] then 0
    else (if xs[0] >= ys[0] then xs[0] - ys[0] else ys[0] - xs[0]) + PairDistance(xs[1..], ys[1..])
  }

  /** `Problem::solve`: sort both lists, then sum the distances of the pairs. */
  function Solve(input: Input): (total: int)
    ensures total >= 0
  {
    PairDistance(Sort(input.left), Sort(input.right))
  }

  /** The total depends only on which ids each column holds, not on their order. */
  lemma SolveOrderIndependent(a: Input, b: Input)
    requires multiset(a.left) == multiset(b.left) && multiset(a.right) == multiset(b.right)
    ensures Solve(a) == Solve(b)
  {
    SortOrderIndependent(a.left, b.left);
    SortOrderIndependent(a.right, b.right);
  }

  /** Exchanging the columns keeps the total. */
  lemma {:induction false} PairDistanceSymmetric(xs: seq<int>, ys: seq<int>)
    ensures PairDistance(xs, ys) == PairDistance(ys, xs)
  {
    if xs != [] && ys != [] {
      PairDistanceSymmetric(xs[1..], ys[1..]);
    }
  }

  /** Identical columns are at distance zero. */
  lemma {:induction false} PairDistanceSelf(xs: seq<int>)
    ensures PairDistance(xs, xs) == 0
  {
    if xs != [] {
      PairDistanceSelf(xs[1..]);
    }
  }
}
