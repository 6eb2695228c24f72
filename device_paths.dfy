/**
 * 2025 day 11: devices with outputs form a directed graph. `paths(from, to)`
 * orders the devices reachable from `from` by a depth-first search (each pushed
 * after its successors) and then counts paths by accumulating, along that
 * order, the counts of each device's successors. Part one counts `you -> out`;
 * part two combines counts through `fft` and `dac`.
 */
module DevicePaths {
  import opened Text

  type Vertex = string

  /** Each device with an entry, with its output devices in input order (`HashMap<Vertex, Vec<Vertex>>`). */
  type Graph = map<Vertex, seq<Vertex>>

  // ---------------------------------------------------------------------------
  // Parsing

  /** `from: a b c`: the device and its outputs; no `": "` is an error. */
  function ParseLine(line: string): Option<(Vertex, seq<Vertex>)>
  {
    match SplitOnce(line, ": ")
    case None => None
    case Some((from, to)) => Some((from, Words(to)))
  }

  /** A line fails exactly when it has no `": "`; otherwise it is the device, `": "`, and its outputs separated by white space. */
  lemma ParseLineShape(line: string)
    ensures ParseLine(line).None? <==> forall j: nat :: !OccursAt(line, j, ": ")
    ensures ParseLine(line).Some? ==>
      exists rest :: line == ParseLine(line).value.0 + ": " + rest && ParseLine(line).value.1 == Words(rest)
  {
  }

  /** `entry(from).or_insert_with(Vec::new).extend(to)`. */
  function Extend(edges: Graph, from: Vertex, to: seq<Vertex>): Graph
  {
    edges[from := (if from in edges then edges[from] else []) + to]
  }

  /** The whole input: every line must parse; the entries are then built line by line. */
  function ParseGraph(lines: seq<string>): Option<Graph>
  {
    match ParseEach(lines, ParseLine)
    case None => None
    case Some(entries) => Some(Build(entries))
  }

  /** The map built from the parsed lines, in order. */
  function Build(entries: seq<(Vertex, seq<Vertex>)>): Graph
  {
    if entries == [] then map[]
    else
      var last := entries[|entries| - 1];
      Extend(Build(entries[..|entries| - 1]), last.0, last.1)
  }

  /** The outputs the entries list for device `v`, concatenated in line order. */
  function Listed(entries: seq<(Vertex, seq<Vertex>)>, v: Vertex): seq<Vertex>
  {
    if entries == [] then []
    else
      var last := entries[|entries| - 1];
      Listed(entries[..|entries| - 1], v) + (if last.0 == v then last.1 else [])
  }

  /** A device has an entry exactly when some line starts with it, and its outputs are those of all its lines, in order. */
  lemma {:induction false} BuildListed(entries: seq<(Vertex, seq<Vertex>)>, v: Vertex)
    ensures v in Build(entries) <==> exists k :: 0 <= k < |entries| && entries[k].0 == v
    ensures v in Build(entries) ==> Build(entries)[v] == Listed(entries, v)
    ensures v !in Build(entries) ==> Listed(entries, v) == []
  {
    if entries != [] {
      var init := entries[..|entries| - 1];
      BuildListed(init, v);
      if v in Build(init) {
        var k :| 0 <= k < |init| && init[k].0 == v;
        assert entries[k] == init[k];
      }
      if exists k :: 0 <= k < |entries| && entries[k].0 == v {
        var k :| 0 <= k < |entries| && entries[k].0 == v;
        if k < |init| {
          assert entries[k] == init[k];
        }
      }
    }
  }

  // ---------------------------------------------------------------------------
  // Paths in an acyclic graph

  /** The graph has no cycle: `rank` strictly decreases along every edge. */
  predicate Ranked(edges: Graph, rank: map<Vertex, nat>)
  {
    forall v :: v in edges ==> v in rank && Descends(edges, rank, v)
  }

  predicate Descends(edges: Graph, rank: map<Vertex, nat>, v: Vertex)
    requires v in edges && v in rank
  {
    forall k :: 0 <= k < |edges[v]| ==> edges[v][k] in rank && rank[edges[v][k]] < rank[v]
  }

  function Start(v: Vertex, to: Vertex): nat
  {
    if v == to then 1 else 0
  }

  function Height(rank: map<Vertex, nat>, v: Vertex): nat
  {
    if v in rank then rank[v] else 0
  }

  /**
   * The number of paths from `v` to `to`: one for stopping at `to`, plus those
   * continuing through each listed output (a repeated output counts again).
   */
  function Walks(edges: Graph, rank: map<Vertex, nat>, to: Vertex, v: Vertex): nat
    requires Ranked(edges, rank)
    decreases Height(rank, v), 1, 0
  {
    Start(v, to) + (if v in edges then WalksFrom(edges, rank, to, edges[v], rank[v]) else 0)
  }

  /** The paths to `to` through the listed outputs, each below `bound`. */
  function WalksFrom(edges: Graph, rank: map<Vertex, nat>, to: Vertex, succs: seq<Vertex>, bound: nat): nat
    requires Ranked(edges, rank)
    requires forall k :: 0 <= k < |succs| ==> succs[k] in rank && rank[succs[k]] < bound
    decreases bound, 0, |succs|
  {
    if succs == [] then 0
    else WalksFrom(edges, rank, to, succs[..|succs| - 1], bound) + Walks(edges, rank, to, succs[|succs| - 1])
  }

  /** Every edge `path[i] -> path[i + 1]` is listed in the graph. */
  predicate Connected(edges: Graph, path: seq<Vertex>)
  {
    forall i :: 0 <= i < |path| - 1 ==> path[i] in edges && path[i + 1] in edges[path[i]]
  }

  /** The paths from `v` to `to`, listed one per choice of output at each step. */
  function AllPaths(edges: Graph, rank: map<Vertex, nat>, to: Vertex, v: Vertex): (r: seq<seq<Vertex>>)
    requires Ranked(edges, rank)
    decreases Height(rank, v), 1, 0
  {
    (if v == to then [[v]] else []) + (if v in edges then PathsFrom(edges, rank, to, v, edges[v], rank[v]) else [])
  }

  /** The paths `[v] + p` for each listed output and each path `p` from it. */
  function PathsFrom(edges: Graph, rank: map<Vertex, nat>, to: Vertex, v: Vertex, succs: seq<Vertex>, bound: nat): (r: seq<seq<Vertex>>)
    requires Ranked(edges, rank)
    requires forall k :: 0 <= k < |succs| ==> succs[k] in rank && rank[succs[k]] < bound
    decreases bound, 0, |succs|
  {
    if succs == [] then []
    else
      var tail := AllPaths(edges, rank, to, succs[|succs| - 1]);
      PathsFrom(edges, rank, to, v, succs[..|succs| - 1], bound) + seq(|tail|, i requires 0 <= i < |tail| => [v] + tail[i])
  }

  /** Every listed path starts at `v`, ends at `to` and follows edges; `Walks` is their number. */
  lemma {:induction false} AllPathsCounted(edges: Graph, rank: map<Vertex, nat>, to: Vertex, v: Vertex)
    requires Ranked(edges, rank)
    ensures |AllPaths(edges, rank, to, v)| == Walks(edges, rank, to, v)
    ensures forall p :: p in AllPaths(edges, rank, to, v) ==> IsPath(edges, v, to, p)
    decreases Height(rank, v), 1, 0
  {
    if v in edges {
      PathsFromCounted(edges, rank, to, v, edges[v], rank[v]);
    }
  }

  predicate IsPath(edges: Graph, from: Vertex, to: Vertex, p: seq<Vertex>)
  {
    p != [] && p[0] == from && p[|p| - 1] == to && Connected(edges, p)
  }

  lemma {:induction false} PathsFromCounted(edges: Graph, rank: map<Vertex, nat>, to: Vertex, v: Vertex, succs: seq<Vertex>, bound: nat)
    requires Ranked(edges, rank) && v in edges
    requires forall k :: 0 <= k < |succs| ==> succs[k] in rank && rank[succs[k]] < bound
    requires forall k :: 0 <= k < |succs| ==> succs[k] in edges[v]
    ensures |PathsFrom(edges, rank, to, v, succs, bound)| == WalksFrom(edges, rank, to, succs, bound)
    ensures forall p :: p in PathsFrom(edges, rank, to, v, succs, bound) ==> IsPath(edges, v, to, p)
    decreases bound, 0, |succs|
  {
    if succs != [] {
      var init := succs[..|succs| - 1];
      var t := succs[|succs| - 1];
      PathsFromCounted(edges, rank, to, v, init, bound);
      AllPathsCounted(edges, rank, to, t);
      var tail := AllPaths(edges, rank, to, t);
      forall i | 0 <= i < |tail|
        ensures IsPath(edges, v, to, [v] + tail[i])
      {
        assert tail[i] in tail;
        Prepend(edges, v, t, to, tail[i]);
      }
    }
  }

  /** A path from a listed output, with `v` in front, is a path from `v`. */
  lemma Prepend(edges: Graph, v: Vertex, t: Vertex, to: Vertex, p: seq<Vertex>)
    requires v in edges && t in edges[v] && IsPath(edges, t, to, p)
    ensures IsPath(edges, v, to, [v] + p)
  {
    var q := [v] + p;
    forall i | 0 <= i < |q| - 1
      ensures q[i] in edges && q[i + 1] in edges[q[i]]
    {
      if i > 0 {
        assert q[i] == p[i - 1] && q[i + 1] == p[i];
      }
    }
  }

  // ---------------------------------------------------------------------------
  // The depth-first search

  /** Every device named in the graph, with or without an entry. */
  function Names(edges: Graph): set<Vertex>
  {
    edges.Keys + set v, k | v in edges && 0 <= k < |edges[v]| :: edges[v][k]
  }

  predicate Unrepeated(order: seq<Vertex>)
  {
    forall i, j :: 0 <= i < j < |order| ==> order[i] != order[j]
  }

  /** Each device of `order` has an entry, and its outputs that have entries come earlier. */
  predicate PostOrdered(edges: Graph, order: seq<Vertex>)
  {
    forall i :: 0 <= i < |order| ==> order[i] in edges && OutputsBefore(edges, order, i)
  }

  predicate OutputsBefore(edges: Graph, order: seq<Vertex>, i: nat)
    requires i < |order| && order[i] in edges
  {
    forall k :: 0 <= k < |edges[order[i]]| && edges[order[i]][k] in edges ==> edges[order[i]][k] in order[..i]
  }

  /** Appending keeps the earlier devices' outputs before them. */
  lemma PostOrderedAppend(edges: Graph, order: seq<Vertex>, v: Vertex, used: set<Vertex>)
    requires PostOrdered(edges, order) && v in edges && Visited(edges, edges[v], used, order)
    ensures PostOrdered(edges, order + [v])
  {
    var longer := order + [v];
    forall i | 0 <= i < |longer|
      ensures longer[i] in edges && OutputsBefore(edges, longer, i)
    {
      if i < |order| {
        assert longer[..i] == order[..i];
        assert OutputsBefore(edges, order, i);
      } else {
        assert longer[..i] == order;
      }
    }
  }

  lemma {:induction false} SubsetNoLarger(a: set<Vertex>, b: set<Vertex>)
    requires a <= b
    ensures |a| <= |b|
    decreases |b|
  {
    if a != {} {
      var x :| x in a;
      SubsetNoLarger(a - {x}, b - {x});
    }
  }

  /** What a prefix holds, the longer sequence holds. */
  lemma Grown(before: seq<Vertex>, after: seq<Vertex>)
    requires before <= after
    ensures forall u :: u in before ==> u in after
  {
    forall u | u in before
      ensures u in after
    {
      var k :| 0 <= k < |before| && before[k] == u;
      assert after[k] == u;
    }
  }

  /** Every device of `succs` is used and, if it has an entry, pushed. */
  predicate Visited(edges: Graph, succs: seq<Vertex>, used: set<Vertex>, order: seq<Vertex>)
  {
    forall k :: 0 <= k < |succs| ==> succs[k] in used && (succs[k] in edges ==> succs[k] in order)
  }

  lemma VisitedMore(edges: Graph, succs: seq<Vertex>, i: nat, used: set<Vertex>, order: seq<Vertex>, used': set<Vertex>, order': seq<Vertex>)
    requires i < |succs| && Visited(edges, succs[..i], used, order)
    requires used <= used' && order <= order'
    requires succs[i] in used' && (succs[i] in edges ==> succs[i] in order')
    ensures Visited(edges, succs[..i + 1], used', order')
  {
    Grown(order, order');
    assert forall k :: 0 <= k < i ==> succs[..i][k] == succs[k];
  }

  /** Marking an unused named device shrinks the set of devices left to visit. */
  lemma FewerLeft(names: set<Vertex>, before: set<Vertex>, after: set<Vertex>, t: Vertex)
    requires before <= after && t in names && t !in after
    ensures |names - (after + {t})| < |names - before|
  {
    var smaller, larger := names - (after + {t}), names - before;
    SubsetNoLarger(smaller, larger - {t});
  }

  class Search {
    const edges: Graph
    var used: set<Vertex>
    var order: seq<Vertex>

    /** The `visited` set and the `order` vector of `paths`, both empty. */
    constructor(edges: Graph)
      ensures this.edges == edges && used == {} && order == []
    {
      this.edges := edges;
      used := {};
      order := [];
    }

    /** A device has been pushed if it has an entry. */
    ghost predicate Finished(u: Vertex)
      reads this
    {
      u in edges ==> u in order
    }

    /** The search invariant: every used device is in progress or finished, and `order` is a distinct post-order of used devices not in progress. */
    ghost predicate Searching(inProgress: set<Vertex>)
      reads this
    {
      (forall u :: u in used ==> u in inProgress || Finished(u))
      && (forall u :: u in order ==> u in used && u !in inProgress)
      && PostOrdered(edges, order) && Unrepeated(order)
    }

    /** The invariant once the visit of `v` is over: `v` itself may be pushed without being marked used. */
    ghost predicate Searched(inProgress: set<Vertex>, v: Vertex)
      reads this
    {
      (forall u :: u in used ==> u in inProgress || Finished(u))
      && (forall u :: u in order ==> (u in used || u == v) && u !in inProgress)
      && PostOrdered(edges, order) && Unrepeated(order)
    }

    /** The search only adds used devices and pushes devices. */
    ghost predicate Grows(before: set<Vertex>, pushed: seq<Vertex>)
      reads this
    {
      before <= used && pushed <= order
    }

    /**
     * `dfs`: visits the unused outputs of `v` (marking each used before descending)
     * and then pushes `v`, if `v` has an entry. `stack` holds the devices whose
     * visits are in progress; in an acyclic graph they all rank above `v`.
     */
    method Dfs(v: Vertex, ghost stack: set<Vertex>, ghost rank: map<Vertex, nat>)
      requires Ranked(edges, rank)
      requires forall s :: s in stack ==> s in rank && v in rank && rank[v] < rank[s]
      requires v !in order && Searching(stack + {v})
      modifies this
      decreases |Names(edges) - used|, 1
      ensures Grows(old(used), old(order))
      ensures v in edges ==> v in order
      ensures v !in edges ==> used == old(used) && order == old(order)
      ensures Searched(stack, v)
    {
      if v in edges {
        var succs := edges[v];
        for i := 0 to |succs|
          invariant Grows(old(used), old(order)) && Searching(stack + {v})
          invariant Visited(edges, succs[..i], used, order)
        {
          assert Descends(edges, rank, v);
          SubsetNoLarger(Names(edges) - used, Names(edges) - old(used));
          ghost var before, pushed := used, order;
          Visit(v, succs[i], stack, rank);
          VisitedMore(edges, succs, i, before, pushed, used, order);
        }
        assert succs[..|succs|] == succs;
        assert v !in stack;
        Push(v, stack);
      }
    }

    /** `order.push(v)` once all outputs of `v` are visited. */
    method Push(v: Vertex, ghost stack: set<Vertex>)
      requires v in edges && v !in stack && Searching(stack + {v}) && Visited(edges, edges[v], used, order)
      modifies this
      ensures used == old(used) && order == old(order) + [v] && Searched(stack, v)
    {
      PostOrderedAppend(edges, order, v, used);
      order := order + [v];
    }

    /** One output `t` of `v`: if unused, mark it and descend; either way it ends up finished. */
    method Visit(v: Vertex, t: Vertex, ghost stack: set<Vertex>, ghost rank: map<Vertex, nat>)
      requires Ranked(edges, rank) && v in edges && t in edges[v]
      requires v in rank && t in rank && rank[t] < rank[v]
      requires forall s :: s in stack ==> s in rank && rank[v] < rank[s]
      requires Searching(stack + {v})
      modifies this
      decreases |Names(edges) - used|, 0
      ensures Grows(old(used), old(order)) && Searching(stack + {v})
      ensures t in used && Finished(t)
    {
      if t !in used {
        assert t in Names(edges);
        FewerLeft(Names(edges), used, used, t);
        used := used + {t};
        Dfs(t, stack + {v}, rank);
      }
    }
  }

  function Get(counts: map<Vertex, nat>, v: Vertex): nat
  {
    if v in counts then counts[v] else 0
  }

  /** Devices processed so far hold their path counts; the others their starting count. */
  ghost predicate Tallied(edges: Graph, rank: map<Vertex, nat>, to: Vertex, done: seq<Vertex>, paths: map<Vertex, nat>)
    requires Ranked(edges, rank)
  {
    forall u :: Get(paths, u) == if u in done then Walks(edges, rank, to, u) else Start(u, to)
  }

  /** The inner loop of `paths` for `order[i]`: add each output's count to the device's. */
  method AddOutputs(edges: Graph, ghost rank: map<Vertex, nat>, to: Vertex, order: seq<Vertex>, i: nat, paths: map<Vertex, nat>)
    returns (r: map<Vertex, nat>)
    requires Ranked(edges, rank) && PostOrdered(edges, order) && Unrepeated(order) && i < |order|
    requires Tallied(edges, rank, to, order[..i], paths)
    ensures Tallied(edges, rank, to, order[..i] + [order[i]], r)
  {
    var v := order[i];
    var succs := edges[v];
    assert OutputsBefore(edges, order, i);
    assert Descends(edges, rank, v);
    assert v !in order[..i];
    r := paths;
    for k := 0 to |succs|
      invariant forall u :: u != v ==> Get(r, u) == Get(paths, u)
      invariant Get(r, v) == Start(v, to) + WalksFrom(edges, rank, to, succs[..k], rank[v])
    {
      var t := succs[k];
      assert succs[..k + 1][..k] == succs[..k];
      assert t != v;
      assert Get(r, t) == Walks(edges, rank, to, t) by {
        if t !in edges {
          assert t !in order[..i];
        }
      }
      r := r[v := Get(r, v) + Get(r, t)];
    }
    assert succs[..|succs|] == succs;
  }

  /**
   * `paths`: the number of paths from `from` to `to`, by a depth-first search
   * from `from` and then one pass over the post-order accumulating the counts of
   * each device's outputs.
   */
  method Paths(edges: Graph, from: Vertex, to: Vertex, ghost rank: map<Vertex, nat>) returns (n: nat)
    requires Ranked(edges, rank)
    ensures n == Walks(edges, rank, to, from)
  {
    var search := new Search(edges);
    search.Dfs(from, {}, rank);
    var order := search.order;
    var paths: map<Vertex, nat> := map[to := 1];
    for i := 0 to |order|
      invariant Tallied(edges, rank, to, order[..i], paths)
    {
      paths := AddOutputs(edges, rank, to, order, i, paths);
      assert order[..i + 1] == order[..i] + [order[i]];
    }
    assert order[..|order|] == order;
    n := Get(paths, from);
  }

  /** Part one: the paths from `you` to `out`. */
  method SolvePartOne(edges: Graph, ghost rank: map<Vertex, nat>) returns (n: nat)
    requires Ranked(edges, rank)
    ensures n == Walks(edges, rank, "out", "you")
  {
    n := Paths(edges, "you", "out", rank);
  }

  /** Part two: the paths `svr -> fft -> dac -> out` plus the paths `svr -> dac -> fft -> out`, counted leg by leg. */
  method SolvePartTwo(edges: Graph, ghost rank: map<Vertex, nat>) returns (n: nat)
    requires Ranked(edges, rank)
    ensures n == Walks(edges, rank, "fft", "svr") * Walks(edges, rank, "dac", "fft") * Walks(edges, rank, "out", "dac")
              + Walks(edges, rank, "dac", "svr") * Walks(edges, rank, "fft", "dac") * Walks(edges, rank, "out", "fft")
  {
    var a := Paths(edges, "svr", "fft", rank);
    var b := Paths(edges, "fft", "dac", rank);
    var c := Paths(edges, "dac", "out", rank);
    var d := Paths(edges, "svr", "dac", rank);
    var e := Paths(edges, "dac", "fft", rank);
    var f := Paths(edges, "fft", "out", rank);
    n := a * b * c + d * e * f;
  }
}
