/**
 * 2025 day 8: junction boxes in space are wired together, closest pairs
 * first, and a union-find structure tracks the circuits they form. Part one
 * wires a fixed number of closest pairs and multiplies the sizes of the three
 * largest circuits; part two wires pairs until one circuit remains.
 */
module Circuits {
  import opened Text
  import Sorting

  datatype Point = Point(x: int, y: int, z: int)

  /** A candidate wire: the squared distance and the indices `i < j` of its boxes. */
  datatype Edge = Edge(d: int, i: nat, j: nat)

  // ---------------------------------------------------------------------------
  // Geometry and parsing

  lemma Square(a: int)
    ensures a * a >= 0 && (a * a == 0 <==> a == 0)
  {
  }

  /** `dist2`: the squared Euclidean distance. */
  function Dist2(p: Point, q: Point): (d: int)
  {
    (p.x - q.x) * (p.x - q.x) + (p.y - q.y) * (p.y - q.y) + (p.z - q.z) * (p.z - q.z)
  }

  /** The squared distance is never negative, symmetric, and zero exactly between equal points. */
  lemma Dist2Metric(p: Point, q: Point)
    ensures Dist2(p, q) >= 0 && Dist2(p, q) == Dist2(q, p)
    ensures Dist2(p, q) == 0 <==> p == q
  {
    Square(p.x - q.x);
    Square(p.y - q.y);
    Square(p.z - q.z);
    assert (q.x - p.x) * (q.x - p.x) == (p.x - q.x) * (p.x - q.x);
    assert (q.y - p.y) * (q.y - p.y) == (p.y - q.y) * (p.y - q.y);
    assert (q.z - p.z) * (q.z - p.z) == (p.z - q.z) * (p.z - q.z);
  }

  /** The numbers of a line, in order, or nothing if one of them does not parse. */
  function ParseNumbers(pieces: seq<string>): (r: Option<seq<int>>)
    ensures r.Some? <==> forall k :: 0 <= k < |pieces| ==> ParseInt(pieces[k]).Some?
    ensures r.Some? ==> |r.value| == |pieces| && forall k :: 0 <= k < |pieces| ==> r.value[k] == ParseInt(pieces[k]).value
  {
    if pieces == [] then Some([])
    else
      match ParseNumbers(pieces[..|pieces| - 1])
      case None => None
      case Some(init) =>
        match ParseInt(pieces[|pieces| - 1])
        case None => None
        case Some(v) => Some(init + [v])
  }

  /** A line is three comma-separated integers. */
  function ParsePoint(line: string): (r: Option<Point>)
    ensures r.Some? <==> ParseNumbers(Split(line, ",")).Some? && |Split(line, ",")| == 3
    ensures r.Some? ==> var v := ParseNumbers(Split(line, ",")).value; r.value == Point(v[0], v[1], v[2])
  {
    match ParseNumbers(Split(line, ","))
    case None => None
    case Some(v) => if |v| == 3 then Some(Point(v[0], v[1], v[2])) else None
  }

  /** `parse_from`: every line is a point. */
  function ParsePoints(lines: seq<string>): (r: Option<seq<Point>>)
    ensures r.Some? <==> forall k :: 0 <= k < |lines| ==> ParsePoint(lines[k]).Some?
    ensures r.Some? ==> |r.value| == |lines| && forall k :: 0 <= k < |lines| ==> r.value[k] == ParsePoint(lines[k]).value
  {
    if lines == [] then Some([])
    else
      match ParsePoints(lines[..|lines| - 1])
      case None => None
      case Some(init) =>
        match ParsePoint(lines[|lines| - 1])
        case None => None
        case Some(p) => Some(init + [p])
  }

  function ParseInput(s: string): Option<seq<Point>>
  {
    ParsePoints(Lines(s))
  }

  // ---------------------------------------------------------------------------
  // The candidate wires

  /** The wires from box `i` to the boxes `i + 1 .. j - 1`, in order. */
  function RowEdges(points: seq<Point>, i: nat, j: nat): (r: seq<Edge>)
    requires i < |points| && j <= |points|
  {
    if j <= i + 1 then [] else RowEdges(points, i, j - 1) + [Edge(Dist2(points[i], points[j - 1]), i, j - 1)]
  }

  /** The wires whose first box is below `i`, in the order the nested loops push them. */
  function PairsBelow(points: seq<Point>, i: nat): (r: seq<Edge>)
    requires i <= |points|
  {
    if i == 0 then [] else PairsBelow(points, i - 1) + RowEdges(points, i - 1, |points|)
  }

  function AllPairs(points: seq<Point>): seq<Edge>
  {
    PairsBelow(points, |points|)
  }

  /** The nested loops that push every pair `i < j` with its distance. */
  method BuildPairs(points: seq<Point>) returns (distances: seq<Edge>)
    ensures distances == AllPairs(points)
  {
    distances := [];
    for i := 0 to |points|
      invariant distances == PairsBelow(points, i)
    {
      for j := i + 1 to |points|
        invariant distances == PairsBelow(points, i) + RowEdges(points, i, j)
      {
        distances := distances + [Edge(Dist2(points[i], points[j]), i, j)];
      }
    }
  }

  /** `e` is the wire between two boxes `i < j`, with their distance. */
  predicate IsPair(points: seq<Point>, e: Edge)
  {
    e.i < e.j < |points| && e.d == Dist2(points[e.i], points[e.j])
  }

  /** `(i, j)` comes strictly before `(i2, j2)` in lexicographic order. */
  predicate IndexBefore(a: Edge, b: Edge)
  {
    a.i < b.i || (a.i == b.i && a.j < b.j)
  }

  lemma {:induction false} RowEdgesFacts(points: seq<Point>, i: nat, j: nat)
    requires i < |points| && j <= |points|
    ensures forall e :: e in RowEdges(points, i, j) <==> IsPair(points, e) && e.i == i && e.j < j
    ensures forall a, b :: 0 <= a < b < |RowEdges(points, i, j)| ==> IndexBefore(RowEdges(points, i, j)[a], RowEdges(points, i, j)[b])
  {
    if j > i + 1 {
      RowEdgesFacts(points, i, j - 1);
    }
  }

  /** The pushed list holds exactly the pairs below `i`, in increasing order of their indices. */
  lemma {:induction false} PairsBelowFacts(points: seq<Point>, i: nat)
    requires i <= |points|
    ensures forall e :: e in PairsBelow(points, i) <==> IsPair(points, e) && e.i < i
    ensures forall a, b :: 0 <= a < b < |PairsBelow(points, i)| ==> IndexBefore(PairsBelow(points, i)[a], PairsBelow(points, i)[b])
  {
    if i > 0 {
      PairsBelowFacts(points, i - 1);
      RowEdgesFacts(points, i - 1, |points|);
      var p, r := PairsBelow(points, i - 1), RowEdges(points, i - 1, |points|);
      assert PairsBelow(points, i) == p + r;
      forall x, y | x in p && y in r
        ensures IndexBefore(x, y)
      {
      }
      ConcatIndexBefore(p, r);
    }
  }

  lemma ConcatIndexBefore(p: seq<Edge>, r: seq<Edge>)
    requires forall a, b :: 0 <= a < b < |p| ==> IndexBefore(p[a], p[b])
    requires forall a, b :: 0 <= a < b < |r| ==> IndexBefore(r[a], r[b])
    requires forall x, y :: x in p && y in r ==> IndexBefore(x, y)
    ensures forall a, b :: 0 <= a < b < |p + r| ==> IndexBefore((p + r)[a], (p + r)[b])
  {
    forall a, b | 0 <= a < b < |p + r|
      ensures IndexBefore((p + r)[a], (p + r)[b])
    {
      if b < |p| {
        assert (p + r)[a] == p[a] && (p + r)[b] == p[b];
      } else if a >= |p| {
        assert (p + r)[a] == r[a - |p|] && (p + r)[b] == r[b - |p|];
      } else {
        assert (p + r)[a] == p[a] && (p + r)[b] == r[b - |p|];
        assert p[a] in p && r[b - |p|] in r;
      }
    }
  }

  // ---------------------------------------------------------------------------
  // Sorting the wires

  /** Shorter wires first; equal lengths in the order the pairs were pushed. */
  predicate EdgeBefore(a: Edge, b: Edge)
  {
    a.d < b.d || (a.d == b.d && IndexBefore(a, b))
  }

  predicate EdgesSorted(s: seq<Edge>)
  {
    forall a, b :: 0 <= a < b < |s| ==> EdgeBefore(s[a], s[b])
  }

  /** The edges are ordered by `EdgeBefore`, which is total on distinct edges. */
  lemma EdgeOrderTotal(a: Edge, b: Edge)
    ensures a == b || EdgeBefore(a, b) || EdgeBefore(b, a)
    ensures !(EdgeBefore(a, b) && EdgeBefore(b, a))
  {
  }

  lemma SortedCons(x: Edge, t: seq<Edge>)
    requires EdgesSorted(t) && forall k :: 0 <= k < |t| ==> EdgeBefore(x, t[k])
    ensures EdgesSorted([x] + t)
  {
    forall a, b | 0 <= a < b < |[x] + t|
      ensures EdgeBefore(([x] + t)[a], ([x] + t)[b])
    {
      if a > 0 {
        assert ([x] + t)[a] == t[a - 1] && ([x] + t)[b] == t[b - 1];
      }
    }
  }

  function InsertEdge(e: Edge, s: seq<Edge>): (r: seq<Edge>)
    requires EdgesSorted(s) && e !in s
    ensures EdgesSorted(r) && multiset(r) == multiset(s) + multiset{e} && |r| == |s| + 1
  {
    if s == [] then [e]
    else if EdgeBefore(e, s[0]) then
      SortedCons(e, s);
      [e] + s
    else
      assert s == [s[0]] + s[1..];
      var rest := InsertEdge(e, s[1..]);
      EdgeOrderTotal(e, s[0]);
      InsertAfter(e, s, rest);
      [s[0]] + rest
  }

  lemma InsertAfter(e: Edge, s: seq<Edge>, rest: seq<Edge>)
    requires s != [] && EdgesSorted(s) && EdgeBefore(s[0], e)
    requires EdgesSorted(rest) && multiset(rest) == multiset(s[1..]) + multiset{e}
    ensures EdgesSorted([s[0]] + rest) && multiset([s[0]] + rest) == multiset(s) + multiset{e}
  {
    assert s == [s[0]] + s[1..];
    forall k | 0 <= k < |rest|
      ensures EdgeBefore(s[0], rest[k])
    {
      assert rest[k] in multiset(rest);
      if rest[k] != e {
        assert rest[k] in multiset(s[1..]);
        var m :| 0 <= m < |s[1..]| && s[1..][m] == rest[k];
        assert s[m + 1] == rest[k];
      }
    }
    SortedCons(s[0], rest);
  }

  predicate Distinct(s: seq<Edge>)
  {
    forall a, b :: 0 <= a < b < |s| ==> s[a] != s[b]
  }

  lemma DistinctLast(s: seq<Edge>, sorted: seq<Edge>)
    requires s != [] && Distinct(s) && multiset(sorted) == multiset(s[..|s| - 1])
    ensures Distinct(s[..|s| - 1]) && s[|s| - 1] !in sorted
  {
    assert s[|s| - 1] !in multiset(s[..|s| - 1]);
  }

  /** `sort_by` on the distance: the wires in ascending order of length. */
  function SortEdges(s: seq<Edge>): (r: seq<Edge>)
    requires Distinct(s)
    ensures EdgesSorted(r) && multiset(r) == multiset(s) && |r| == |s|
  {
    if s == [] then []
    else
      assert Distinct(s[..|s| - 1]);
      var sorted := SortEdges(s[..|s| - 1]);
      DistinctLast(s, sorted);
      assert s == s[..|s| - 1] + [s[|s| - 1]];
      InsertEdge(s[|s| - 1], sorted)
  }

  lemma PairsDistinct(points: seq<Point>)
    ensures Distinct(AllPairs(points))
  {
    PairsBelowFacts(points, |points|);
  }

  /** The wires in the order both parts take them. */
  function SortedPairs(points: seq<Point>): (r: seq<Edge>)
    ensures forall e :: e in r <==> IsPair(points, e)
    ensures forall t :: 0 <= t < |r| ==> r[t].i < r[t].j < |points|
    ensures EdgesSorted(r)
  {
    PairsDistinct(points);
    PairsBelowFacts(points, |points|);
    var r := SortEdges(AllPairs(points));
    assert forall e :: e in r <==> e in multiset(AllPairs(points));
    assert forall t :: 0 <= t < |r| ==> r[t] in r;
    r
  }

  /**
   * The stable sort on the distance keeps pairs of equal length in the order
   * they were pushed, which is the order of their indices.
   */
  lemma SortKeepsPushOrder(points: seq<Point>)
    ensures forall a, b :: 0 <= a < b < |AllPairs(points)| ==> IndexBefore(AllPairs(points)[a], AllPairs(points)[b])
    ensures forall a, b :: 0 <= a < b < |SortedPairs(points)| && SortedPairs(points)[a].d == SortedPairs(points)[b].d ==>
      IndexBefore(SortedPairs(points)[a], SortedPairs(points)[b])
  {
    PairsBelowFacts(points, |points|);
  }

  // ---------------------------------------------------------------------------
  // Circuits as labels

  /** Every box in its own circuit, labelled by its index. */
  function Identity(n: nat): (cls: seq<nat>)
    ensures |cls| == n && forall i :: 0 <= i < n ==> cls[i] == i
  {
    seq(n, i => i)
  }

  /** Joining the circuits of `x` and `y`: the circuit of `x` takes the label of `y`'s. */
  function Link(cls: seq<nat>, x: nat, y: nat): (r: seq<nat>)
    requires x < |cls| && y < |cls|
    ensures |r| == |cls|
  {
    seq(|cls|, i requires 0 <= i < |cls| => if cls[i] == cls[x] then cls[y] else cls[i])
  }

  /** After a link `x` and `y` share a circuit, and two boxes share one exactly when they did before or both were in the circuits of `x` or `y`. */
  lemma LinkJoins(cls: seq<nat>, x: nat, y: nat)
    requires x < |cls| && y < |cls|
    ensures Link(cls, x, y)[x] == Link(cls, x, y)[y]
    ensures forall a, b :: 0 <= a < |cls| && 0 <= b < |cls| ==>
      (Link(cls, x, y)[a] == Link(cls, x, y)[b] <==>
        cls[a] == cls[b] || ((cls[a] == cls[x] || cls[a] == cls[y]) && (cls[b] == cls[x] || cls[b] == cls[y])))
  {
  }

  /** The distinct circuit labels. */
  function Labels(cls: seq<nat>): set<nat>
  {
    set i | 0 <= i < |cls| :: cls[i]
  }

  /** Linking two different circuits removes exactly one label. */
  lemma LinkLabels(cls: seq<nat>, x: nat, y: nat)
    requires x < |cls| && y < |cls|
    ensures cls[x] == cls[y] ==> Link(cls, x, y) == cls
    ensures cls[x] != cls[y] ==> Labels(Link(cls, x, y)) == Labels(cls) - {cls[x]} && |Labels(Link(cls, x, y))| == |Labels(cls)| - 1
  {
    if cls[x] != cls[y] {
      var r := Link(cls, x, y);
      forall c
        ensures c in Labels(r) <==> c in Labels(cls) - {cls[x]}
      {
        if c in Labels(cls) - {cls[x]} {
          var i :| 0 <= i < |cls| && cls[i] == c;
          if c == cls[y] {
            assert r[y] == c;
          } else {
            assert r[i] == c;
          }
        }
      }
      assert cls[x] in Labels(cls);
    }
  }

  lemma {:induction false} IdentityLabels(n: nat)
    ensures forall i :: i in Labels(Identity(n)) <==> 0 <= i < n
    ensures |Labels(Identity(n))| == n
  {
    forall i
      ensures i in Labels(Identity(n)) <==> 0 <= i < n
    {
      if 0 <= i < n {
        assert Identity(n)[i] == i;
      }
    }
    if n > 0 {
      IdentityLabels(n - 1);
      assert Labels(Identity(n)) == Labels(Identity(n - 1)) + {n - 1};
    } else {
      assert Labels(Identity(n)) == {};
    }
  }

  /** A single label means a single circuit. */
  lemma OneLabel(cls: seq<nat>)
    requires |Labels(cls)| == 1
    ensures forall a, b :: 0 <= a < |cls| && 0 <= b < |cls| ==> cls[a] == cls[b]
  {
    var c :| c in Labels(cls);
    forall d | d in Labels(cls)
      ensures d == c
    {
      if d != c {
        SubsetCard({c, d}, Labels(cls));
      }
    }
    forall a | 0 <= a < |cls|
      ensures cls[a] == c
    {
      assert cls[a] in Labels(cls);
    }
  }

  /** The circuits after linking along the first `k` wires. */
  function LinkAll(n: nat, es: seq<Edge>, k: nat): (cls: seq<nat>)
    requires k <= |es| && forall e :: e in es ==> e.i < n && e.j < n
    ensures |cls| == n
  {
    if k == 0 then Identity(n)
    else Link(LinkAll(n, es, k - 1), es[k - 1].i, es[k - 1].j)
  }

  // ---------------------------------------------------------------------------
  // The union-find forest

  /** Parents stay in range and lead upwards in `height`, which is bounded by `bound`. */
  ghost predicate Forest(parent: seq<nat>, height: seq<nat>, bound: nat)
  {
    |height| == |parent|
    && forall x {:trigger parent[x]} :: 0 <= x < |parent| ==>
      parent[x] < |parent| && height[x] <= bound && (parent[x] != x ==> height[x] < height[parent[x]])
  }

  /** The root reached by following parents. */
  ghost function RootOf(parent: seq<nat>, height: seq<nat>, bound: nat, x: nat): (r: nat)
    requires Forest(parent, height, bound) && x < |parent|
    ensures r < |parent| && parent[r] == r
    decreases bound - height[x]
  {
    if parent[x] == x then x else RootOf(parent, height, bound, parent[x])
  }

  lemma {:induction false} RootHigher(parent: seq<nat>, height: seq<nat>, bound: nat, x: nat)
    requires Forest(parent, height, bound) && x < |parent| && parent[x] != x
    ensures height[x] < height[RootOf(parent, height, bound, x)]
    decreases bound - height[x]
  {
    if parent[parent[x]] != parent[x] {
      RootHigher(parent, height, bound, parent[x]);
    }
  }

  /** Pointing `x` straight at its root changes no root. */
  lemma {:induction false} CompressRoot(parent: seq<nat>, height: seq<nat>, bound: nat, x: nat, y: nat)
    requires Forest(parent, height, bound) && x < |parent| && y < |parent|
    requires RootOf(parent, height, bound, x) != x
    requires Forest(parent[x := RootOf(parent, height, bound, x)], height, bound)
    ensures RootOf(parent[x := RootOf(parent, height, bound, x)], height, bound, y) == RootOf(parent, height, bound, y)
    decreases bound - height[y]
  {
    if parent[y] != y && y != x {
      CompressRoot(parent, height, bound, x, parent[y]);
    }
  }

  lemma CompressForest(parent: seq<nat>, height: seq<nat>, bound: nat, x: nat)
    requires Forest(parent, height, bound) && x < |parent| && RootOf(parent, height, bound, x) != x
    ensures Forest(parent[x := RootOf(parent, height, bound, x)], height, bound)
  {
    var r := RootOf(parent, height, bound, x);
    RootHigher(parent, height, bound, x);
    var parent2 := parent[x := r];
    forall y | 0 <= y < |parent2|
      ensures parent2[y] < |parent2| && height[y] <= bound
      ensures parent2[y] != y ==> height[y] < height[parent2[y]]
    {
      assert parent[y] < |parent| && height[y] <= bound && (parent[y] != y ==> height[y] < height[parent[y]]);
    }
  }

  /** Hanging root `p1` under root `p2` moves exactly the boxes of `p1` to `p2`. */
  lemma {:induction false} LinkRoot(parent: seq<nat>, height: seq<nat>, bound: nat, p1: nat, p2: nat, height2: seq<nat>, bound2: nat, y: nat)
    requires Forest(parent, height, bound) && p1 < |parent| && p2 < |parent| && y < |parent|
    requires parent[p1] == p1 && parent[p2] == p2 && p1 != p2
    requires Forest(parent[p1 := p2], height2, bound2)
    ensures RootOf(parent[p1 := p2], height2, bound2, y) ==
      if RootOf(parent, height, bound, y) == p1 then p2 else RootOf(parent, height, bound, y)
    decreases bound - height[y]
  {
    if parent[y] != y {
      LinkRoot(parent, height, bound, p1, p2, height2, bound2, parent[y]);
    }
  }

  lemma LinkForest(parent: seq<nat>, height: seq<nat>, bound: nat, p1: nat, p2: nat)
    requires Forest(parent, height, bound) && p1 < |parent| && p2 < |parent|
    requires parent[p1] == p1 && parent[p2] == p2 && p1 != p2
    ensures Forest(parent[p1 := p2], height[p2 := Max(height[p2], height[p1] + 1)], Max(bound, height[p1] + 1))
  {
    var parent2, height2 := parent[p1 := p2], height[p2 := Max(height[p2], height[p1] + 1)];
    forall x | 0 <= x < |parent2|
      ensures parent2[x] < |parent2| && height2[x] <= Max(bound, height[p1] + 1)
      ensures parent2[x] != x ==> height2[x] < height2[parent2[x]]
    {
      assert parent[x] < |parent| && height[x] <= bound && (parent[x] != x ==> height[x] < height[parent[x]]);
    }
  }

  function Max(a: nat, b: nat): nat
  {
    if a < b then b else a
  }

  /** `DSU`: `parent` is the forest; the ghost `classes` is the circuit labelling it stands for. */
  class Dsu {
    var parent: seq<nat>
    ghost var height: seq<nat>
    ghost var bound: nat
    ghost var classes: seq<nat>

    ghost predicate Valid()
      reads this
    {
      Forest(parent, height, bound) && |classes| == |parent|
      && forall x :: 0 <= x < |parent| ==> classes[x] == RootOf(parent, height, bound, x)
    }

    /** `DSU::new`: every element its own class. */
    constructor(size: nat)
      ensures Valid() && classes == Identity(size)
    {
      parent := seq(size, i => i);
      height := seq(size, _ => 0);
      bound := 0;
      classes := Identity(size);
    }

    /** `get_class`: the root of `x`, pointing `x` straight at it; out of range is an error. */
    method GetClass(x: nat) returns (r: Option<nat>)
      requires Valid()
      modifies this
      ensures Valid() && classes == old(classes) && height == old(height) && bound == old(bound)
      ensures x < |classes| ==> r == Some(classes[x]) && parent[classes[x]] == classes[x]
      ensures x >= |classes| ==> r == None
      decreases if x < |height| then bound - height[x] else 0
    {
      if x >= |parent| {
        return None;
      }
      var p := parent[x];
      if p == x {
        return Some(x);
      }
      RootHigher(parent, height, bound, x);
      var root := GetClass(p);
      var rv := root.value;
      if rv != x {
        CompressForest(parent, height, bound, x);
        forall y | 0 <= y < |parent|
          ensures RootOf(parent[x := rv], height, bound, y) == RootOf(parent, height, bound, y)
        {
          CompressRoot(parent, height, bound, x, y);
        }
        parent := parent[x := rv];
      }
      return Some(rv);
    }

    /** `merge`: the circuit of `x` joins the circuit of `y`; out of range is an error. */
    method Merge(x: nat, y: nat) returns (ok: bool)
      requires Valid()
      modifies this
      ensures Valid()
      ensures ok <==> x < |old(classes)| && y < |old(classes)|
      ensures ok ==> classes == Link(old(classes), x, y)
      ensures !ok ==> classes == old(classes)
    {
      var c1 := GetClass(x);
      if c1.None? {
        return false;
      }
      var c2 := GetClass(y);
      if c2.None? {
        return false;
      }
      var p1, p2 := c1.value, c2.value;
      if p1 != p2 {
        var height2 := height[p2 := Max(height[p2], height[p1] + 1)];
        var bound2 := Max(bound, height[p1] + 1);
        LinkForest(parent, height, bound, p1, p2);
        forall z | 0 <= z < |parent|
          ensures RootOf(parent[p1 := p2], height2, bound2, z) == Link(classes, x, y)[z]
        {
          LinkRoot(parent, height, bound, p1, p2, height2, bound2, z);
        }
        parent := parent[p1 := p2];
        height := height2;
        bound := bound2;
        classes := Link(classes, x, y);
      } else {
        LinkLabels(classes, x, y);
      }
      return true;
    }
  }

  // ---------------------------------------------------------------------------
  // Part one: the three largest circuits

  /** `count`: how many boxes carry each label, built box by box. */
  function Counts(cls: seq<nat>): (m: map<nat, nat>)
    ensures forall c :: c in m <==> c in cls
    ensures forall c :: c in m ==> m[c] == multiset(cls)[c]
  {
    if cls == [] then map[]
    else
      var init, c := cls[..|cls| - 1], cls[|cls| - 1];
      assert cls == init + [c];
      var m := Counts(init);
      m[c := (if c in m then m[c] else 0) + 1]
  }

  /** The values of `m` on `keys`, with repetitions, in some order. */
  ghost function ValuesOn(m: map<nat, nat>, keys: set<nat>): seq<int>
    requires keys <= m.Keys
  {
    if keys == {} then []
    else
      var k :| k in keys;
      [m[k] as int] + ValuesOn(m, keys - {k})
  }

  /** The values may be taken out in any order. */
  lemma ValuesOnAny(m: map<nat, nat>, keys: set<nat>, k: nat)
    requires keys <= m.Keys && k in keys
    ensures multiset(ValuesOn(m, keys)) == multiset{m[k] as int} + multiset(ValuesOn(m, keys - {k}))
    decreases keys
  {
    var k2 :| k2 in keys && ValuesOn(m, keys) == [m[k2] as int] + ValuesOn(m, keys - {k2});
    if k2 != k {
      ValuesOnAny(m, keys - {k2}, k);
      ValuesOnAny(m, keys - {k}, k2);
      assert keys - {k2} - {k} == keys - {k} - {k2};
    }
  }

  /** The sizes of the circuits, one per label. */
  ghost function Sizes(cls: seq<nat>): seq<int>
  {
    ValuesOn(Counts(cls), Counts(cls).Keys)
  }

  lemma {:induction false} ValuesOnSize(m: map<nat, nat>, keys: set<nat>)
    requires keys <= m.Keys
    ensures |ValuesOn(m, keys)| == |keys|
    ensures forall k :: 0 <= k < |ValuesOn(m, keys)| ==> exists c :: c in keys && ValuesOn(m, keys)[k] == m[c]
    decreases keys
  {
    if keys != {} {
      var c :| c in keys && ValuesOn(m, keys) == [m[c] as int] + ValuesOn(m, keys - {c});
      ValuesOnSize(m, keys - {c});
    }
  }

  /** There is one size per circuit, and each circuit holds at least one box. */
  lemma SizesPerCircuit(cls: seq<nat>)
    ensures |Sizes(cls)| == |Labels(cls)|
    ensures forall k :: 0 <= k < |Sizes(cls)| ==> Sizes(cls)[k] >= 1
  {
    var m := Counts(cls);
    ValuesOnSize(m, m.Keys);
    assert m.Keys == Labels(cls) by {
      forall c
        ensures c in m.Keys <==> c in Labels(cls)
      {
        if c in cls {
          var i :| 0 <= i < |cls| && cls[i] == c;
        }
      }
    }
  }

  function Product(xs: seq<int>): int
  {
    if xs == [] then 1 else Product(xs[..|xs| - 1]) * xs[|xs| - 1]
  }

  /** The product of the last three values, or of all when there are fewer. */
  function LastThreeProduct(sorted: seq<int>): int
  {
    if |sorted| <= 3 then Product(sorted) else Product(sorted[|sorted| - 3..])
  }

  /** The product of the three largest values (or of all, when there are fewer). */
  function Largest3(xs: seq<int>): int
  {
    LastThreeProduct(Sorting.Sort(xs))
  }

  lemma SortedPairsInRange(points: seq<Point>)
    ensures forall e :: e in SortedPairs(points) ==> e.i < |points| && e.j < |points|
  {
  }

  /** The answer of part one: link the first `steps` wires, then multiply the three largest circuit sizes. */
  ghost function PartOne(points: seq<Point>, steps: nat): int
  {
    var es := SortedPairs(points);
    SortedPairsInRange(points);
    Largest3(Sizes(LinkAll(|points|, es, if steps < |es| then steps else |es|)))
  }

  /** The sorted list the solvers build is `SortedPairs`. */
  method SortedDistances(points: seq<Point>) returns (distances: seq<Edge>)
    ensures distances == SortedPairs(points)
    ensures forall t :: 0 <= t < |distances| ==> distances[t].i < |points| && distances[t].j < |points|
  {
    distances := BuildPairs(points);
    PairsDistinct(points);
    distances := SortEdges(distances);
    SortedPairsInRange(points);
  }

  /** The loop linking the first `k` wires. */
  method LinkFirst(dsu: Dsu, distances: seq<Edge>, k: nat)
    requires dsu.Valid() && k <= |distances|
    requires forall e :: e in distances ==> e.i < |dsu.classes| && e.j < |dsu.classes|
    requires dsu.classes == Identity(|dsu.classes|)
    modifies dsu
    ensures dsu.Valid() && dsu.classes == LinkAll(|old(dsu.classes)|, distances, k)
  {
    ghost var n := |dsu.classes|;
    for t := 0 to k
      invariant dsu.Valid() && dsu.classes == LinkAll(n, distances, t)
    {
      var ok := dsu.Merge(distances[t].i, distances[t].j);
    }
  }

  lemma CountsStep(cls: seq<nat>, i: nat)
    requires i < |cls|
    ensures Counts(cls[..i + 1]) == Counts(cls[..i])[cls[i] := (if cls[i] in Counts(cls[..i]) then Counts(cls[..i])[cls[i]] else 0) + 1]
  {
    assert cls[..i + 1][..i] == cls[..i];
  }

  /** The loop counting the boxes of every class. */
  method CountClasses(dsu: Dsu) returns (count: map<nat, nat>)
    requires dsu.Valid()
    modifies dsu
    ensures dsu.Valid() && dsu.classes == old(dsu.classes)
    ensures count == Counts(dsu.classes)
  {
    ghost var cls := dsu.classes;
    count := map[];
    for i := 0 to |dsu.parent|
      invariant dsu.Valid() && dsu.classes == cls && count == Counts(cls[..i])
    {
      var c := dsu.GetClass(i);
      var cv := c.value;
      CountsStep(cls, i);
      count := count[cv := (if cv in count then count[cv] else 0) + 1];
    }
    assert cls[..|cls|] == cls;
  }

  /** `vals` and the values on `rest` together are the values of `count`. */
  ghost predicate Collected(count: map<nat, nat>, rest: set<nat>, vals: seq<int>)
  {
    rest <= count.Keys && multiset(vals) + multiset(ValuesOn(count, rest)) == multiset(ValuesOn(count, count.Keys))
  }

  lemma CollectedStep(count: map<nat, nat>, rest: set<nat>, vals: seq<int>, key: nat)
    requires Collected(count, rest, vals) && key in rest
    ensures Collected(count, rest - {key}, vals + [count[key] as int])
  {
    ValuesOnAny(count, rest, key);
  }

  /** The entries of the map, in whatever order it yields them. */
  method Entries(count: map<nat, nat>) returns (vals: seq<int>)
    ensures multiset(vals) == multiset(ValuesOn(count, count.Keys))
  {
    vals := [];
    var rest := count.Keys;
    while rest != {}
      invariant Collected(count, rest, vals)
      decreases |rest|
    {
      var key :| key in rest;
      CollectedStep(count, rest, vals, key);
      vals := vals + [count[key]];
      rest := rest - {key};
    }
    assert ValuesOn(count, rest) == [];
  }

  /** `solve_part1`. */
  method SolvePartOne(points: seq<Point>, steps: nat) returns (r: int)
    ensures r == PartOne(points, steps)
  {
    var dsu := new Dsu(|points|);
    var distances := SortedDistances(points);
    var k := if steps < |distances| then steps else |distances|;
    LinkFirst(dsu, distances, k);
    var count := CountClasses(dsu);
    var vals := Entries(count);
    Sorting.SortOrderIndependent(vals, Sizes(dsu.classes));
    r := LastThreeProduct(Sorting.Sort(vals));
  }

  // ---------------------------------------------------------------------------
  // Part two: the wire that closes the last circuit

  /** Walk the wires from `t`, counting links of different circuits, and stop at the `n - 1`-th. */
  function Kruskal(n: nat, es: seq<Edge>, t: nat, cls: seq<nat>, merges: nat): (r: Option<Edge>)
    requires t <= |es| && |cls| == n && forall e :: e in es ==> e.i < n && e.j < n
    ensures r.Some? ==> r.value in es
    decreases |es| - t
  {
    if t == |es| then None
    else
      var e := es[t];
      if cls[e.i] != cls[e.j] then
        if merges + 1 == n - 1 then Some(e)
        else Kruskal(n, es, t + 1, Link(cls, e.i, e.j), merges + 1)
      else Kruskal(n, es, t + 1, cls, merges)
  }

  /** `as u64` on a 64-bit product. */
  function AsU64(v: int): int
  {
    if v < 0 then v + 0x1_0000_0000_0000_0000 else v
  }

  /** The answer of part two: the product of the x coordinates of the wire that closes the last circuit. */
  function PartTwo(points: seq<Point>): (r: Option<int>)
  {
    var es := SortedPairs(points);
    SortedPairsInRange(points);
    match Kruskal(|points|, es, 0, Identity(|points|), 0)
    case None => None
    case Some(e) => Some(AsU64(points[e.i].x * points[e.j].x))
  }

  /** `solve_part2`; running out of wires is `None`, where the source reaches `unreachable!()`. */
  method SolvePartTwo(points: seq<Point>) returns (r: Option<int>)
    ensures r == PartTwo(points)
  {
    var n := |points|;
    var dsu := new Dsu(n);
    var distances := SortedDistances(points);
    SortedPairsInRange(points);
    ghost var answer := Kruskal(n, distances, 0, Identity(n), 0);
    PartTwoOf(points);
    var merges := 0;
    for t := 0 to |distances|
      invariant dsu.Valid() && |dsu.classes| == n
      invariant Kruskal(n, distances, t, dsu.classes, merges) == answer
    {
      var p1, p2 := distances[t].i, distances[t].j;
      ghost var cls := dsu.classes;
      KruskalStep(n, distances, t, cls, merges);
      var c1 := dsu.GetClass(p1);
      var c2 := dsu.GetClass(p2);
      assert dsu.classes == cls && c1 == Some(cls[p1]) && c2 == Some(cls[p2]);
      if c1.value != c2.value {
        var ok := dsu.Merge(p1, p2);
        assert dsu.classes == Link(cls, p1, p2);
        merges := merges + 1;
        if merges == n - 1 {
          return Some(AsU64(points[p1].x * points[p2].x));
        }
      }
    }
    return None;
  }

  /** Part two's answer, read off the wire the walk stops at. */
  lemma PartTwoOf(points: seq<Point>)
    ensures var k := Kruskal(|points|, SortedPairs(points), 0, Identity(|points|), 0);
      (k.None? ==> PartTwo(points) == None) &&
      (k.Some? ==>
        k.value.i < |points| && k.value.j < |points| &&
        PartTwo(points) == Some(AsU64(points[k.value.i].x * points[k.value.j].x)))
  {
    SortedPairsInRange(points);
  }

  /** One wire of the walk: a wire joining two circuits links them, or closes the last one. */
  lemma KruskalStep(n: nat, es: seq<Edge>, t: nat, cls: seq<nat>, merges: nat)
    requires t < |es| && |cls| == n && forall e :: e in es ==> e.i < n && e.j < n
    ensures es[t].i < n && es[t].j < n
    ensures cls[es[t].i] == cls[es[t].j] ==> Kruskal(n, es, t, cls, merges) == Kruskal(n, es, t + 1, cls, merges)
    ensures cls[es[t].i] != cls[es[t].j] && merges + 1 == n - 1 ==> Kruskal(n, es, t, cls, merges) == Some(es[t])
    ensures cls[es[t].i] != cls[es[t].j] && merges + 1 != n - 1 ==>
      Kruskal(n, es, t, cls, merges) == Kruskal(n, es, t + 1, Link(cls, es[t].i, es[t].j), merges + 1)
  {
    assert es[t] in es;
  }

  /** While walking, `merges` links have removed `merges` labels, and the labels are those of the wires passed. */
  predicate Walked(n: nat, es: seq<Edge>, t: nat, cls: seq<nat>, merges: nat)
    requires forall e :: e in es ==> e.i < n && e.j < n
  {
    t <= |es| && cls == LinkAll(n, es, t) && merges + |Labels(cls)| == n
  }

  /** The wire part two answers with leaves two circuits before it and one after it. */
  lemma {:induction false} KruskalCloses(n: nat, es: seq<Edge>, t: nat, cls: seq<nat>, merges: nat)
    requires forall e :: e in es ==> e.i < n && e.j < n
    requires Walked(n, es, t, cls, merges)
    requires Kruskal(n, es, t, cls, merges).Some?
    ensures exists u :: (t <= u < |es| && es[u] == Kruskal(n, es, t, cls, merges).value
      && |Labels(LinkAll(n, es, u))| == 2 && |Labels(LinkAll(n, es, u + 1))| == 1)
    decreases |es| - t
  {
    var e := es[t];
    LinkLabels(cls, e.i, e.j);
    assert LinkAll(n, es, t + 1) == Link(cls, e.i, e.j);
    if cls[e.i] != cls[e.j] {
      if merges + 1 == n - 1 {
        assert es[t] == Kruskal(n, es, t, cls, merges).value;
      } else {
        KruskalCloses(n, es, t + 1, Link(cls, e.i, e.j), merges + 1);
      }
    } else {
      KruskalCloses(n, es, t + 1, cls, merges);
    }
    assert LinkAll(n, es, t) == cls;
  }

  /** If part two runs out of wires, at least two circuits are left. */
  lemma {:induction false} KruskalRunsOut(n: nat, es: seq<Edge>, t: nat, cls: seq<nat>, merges: nat)
    requires forall e :: e in es ==> e.i < n && e.j < n
    requires Walked(n, es, t, cls, merges) && |Labels(cls)| >= 2
    requires Kruskal(n, es, t, cls, merges).None?
    ensures |Labels(LinkAll(n, es, |es|))| >= 2
    decreases |es| - t
  {
    if t < |es| {
      var e := es[t];
      LinkLabels(cls, e.i, e.j);
      assert LinkAll(n, es, t + 1) == Link(cls, e.i, e.j);
      if cls[e.i] != cls[e.j] {
        KruskalRunsOut(n, es, t + 1, Link(cls, e.i, e.j), merges + 1);
      } else {
        KruskalRunsOut(n, es, t + 1, cls, merges);
      }
    }
  }

  /** Boxes that share a circuit keep sharing one. */
  lemma {:induction false} LinkAllKeepsJoined(n: nat, es: seq<Edge>, u: nat, v: nat, a: nat, b: nat)
    requires forall e :: e in es ==> e.i < n && e.j < n
    requires u <= v <= |es| && a < n && b < n && LinkAll(n, es, u)[a] == LinkAll(n, es, u)[b]
    ensures LinkAll(n, es, v)[a] == LinkAll(n, es, v)[b]
    decreases v - u
  {
    if u < v {
      LinkAllKeepsJoined(n, es, u + 1, v, a, b);
    }
  }

  /** Once every pair has been wired, all boxes share one circuit. */
  lemma AllPairsJoin(points: seq<Point>)
    requires |points| >= 1
    ensures |Labels(LinkAll(|points|, SortedPairs(points), |SortedPairs(points)|))| == 1
  {
    var n, es := |points|, SortedPairs(points);
    SortedPairsInRange(points);
    var cls := LinkAll(n, es, |es|);
    forall b | 0 < b < n
      ensures cls[b] == cls[0]
    {
      JoinedToFirst(points, b);
    }
    AllOneLabel(cls);
  }

  /** Every box ends in the circuit of box 0, since the wire between them is among the pairs. */
  lemma JoinedToFirst(points: seq<Point>, b: nat)
    requires 0 < b < |points|
    ensures LinkAll(|points|, SortedPairs(points), |SortedPairs(points)|)[b] == LinkAll(|points|, SortedPairs(points), |SortedPairs(points)|)[0]
  {
    var n, es := |points|, SortedPairs(points);
    SortedPairsInRange(points);
    var e := Edge(Dist2(points[0], points[b]), 0, b);
    assert e in es;
    var u :| 0 <= u < |es| && es[u] == e;
    LinkJoins(LinkAll(n, es, u), 0, b);
    LinkAllKeepsJoined(n, es, u + 1, |es|, 0, b);
  }

  lemma AllOneLabel(cls: seq<nat>)
    requires |cls| >= 1 && forall b :: 0 < b < |cls| ==> cls[b] == cls[0]
    ensures Labels(cls) == {cls[0]}
  {
  }

  /** With two boxes or more part two always answers, with the wire that joins the last two circuits into one. */
  lemma PartTwoAnswers(points: seq<Point>)
    requires |points| >= 2
    ensures PartTwo(points).Some?
    ensures var es := SortedPairs(points);
      exists u :: (0 <= u < |es| && PartTwo(points) == Some(AsU64(points[es[u].i].x * points[es[u].j].x))
        && |Labels(LinkAll(|points|, es, u))| == 2 && |Labels(LinkAll(|points|, es, u + 1))| == 1)
  {
    var n, es := |points|, SortedPairs(points);
    SortedPairsInRange(points);
    IdentityLabels(n);
    assert Walked(n, es, 0, Identity(n), 0);
    if Kruskal(n, es, 0, Identity(n), 0).None? {
      KruskalRunsOut(n, es, 0, Identity(n), 0);
      AllPairsJoin(points);
      assert false;
    }
    KruskalCloses(n, es, 0, Identity(n), 0);
  }
}
