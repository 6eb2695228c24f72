/**
 * 2024 day 23: a network map lists connections between computers. Part one
 * counts the sets of three mutually connected computers with at least one
 * name starting with `t`; part two finds a largest set of mutually
 * connected computers and spells it as its names, sorted and joined by
 * commas.
 */
module LanParty {
  import opened Text

  // ---------------------------------------------------------------------------
  // Parsing

  type Edge = (string, string)

  /** `split_once('-')`: the names before and after the first dash. */
  function ParseEdge(line: string): (r: Option<Edge>)
    ensures r.Some? <==> '-' in line
    ensures r.Some? ==> r.value.0 + "-" + r.value.1 == line && '-' !in r.value.0
  {
    var r := SplitOnce(line, "-");
    if r.Some? then
      assert forall j: nat :: j < |r.value.0| ==> r.value.0[j] != '-' by {
        forall j: nat | j < |r.value.0|
          ensures r.value.0[j] != '-'
        {
          assert !OccursAt(r.value.0, j, "-");
        }
      }
      r
    else
      assert forall j: nat :: j < |line| ==> line[j] != '-' by {
        forall j: nat | j < |line|
          ensures line[j] != '-'
        {
          assert !OccursAt(line, j, "-");
        }
      }
      r
  }

  /** A line made of a dash-free name, a dash and another name reads back as the two names. */
  lemma ParseEdgeFormat(a: string, b: string)
    requires '-' !in a
    ensures ParseEdge(a + "-" + b) == Some((a, b))
  {
    SplitOnceAt(a, "-", b);
  }

  /** One connection per non-empty line; a line without a dash fails the whole input. */
  function Parse(s: string): (r: Option<seq<Edge>>)
    ensures r.Some? <==> forall k :: 0 <= k < |NonEmptyLines(s)| ==> '-' in NonEmptyLines(s)[k]
    ensures r.Some? ==> |r.value| == |NonEmptyLines(s)|
  {
    ParseEach(NonEmptyLines(s), ParseEdge)
  }

  // ---------------------------------------------------------------------------
  // The network

  /** The computers named by the connections: `vertices`. */
  function Vertices(edges: seq<Edge>): set<string>
  {
    if edges == [] then {} else Vertices(edges[..|edges| - 1]) + {edges[|edges| - 1].0, edges[|edges| - 1].1}
  }

  /** Some connection joins `a` and `b`, in either direction. */
  predicate Linked(edges: seq<Edge>, a: string, b: string)
  {
    edges != [] && (Linked(edges[..|edges| - 1], a, b) || edges[|edges| - 1] == (a, b) || edges[|edges| - 1] == (b, a))
  }

  /** Linked computers are computers of the network. */
  lemma {:induction false} LinkedVertices(edges: seq<Edge>, a: string, b: string)
    requires Linked(edges, a, b)
    ensures a in Vertices(edges) && b in Vertices(edges)
  {
    var init := edges[..|edges| - 1];
    if Linked(init, a, b) {
      LinkedVertices(init, a, b);
    }
  }

  /** No computer is connected to itself and no connection is listed twice, in either direction. */
  predicate Simple(edges: seq<Edge>)
  {
    edges == [] ||
    (var init, e := edges[..|edges| - 1], edges[|edges| - 1];
     Simple(init) && e.0 != e.1 && !Linked(init, e.0, e.1))
  }

  function Get(g: map<string, seq<string>>, v: string): seq<string>
  {
    if v in g then g[v] else []
  }

  /** The adjacency lists part one builds: each connection `a-b` appends `b` to `a`'s list and `a` to `b`'s. */
  function Lists(edges: seq<Edge>): (g: map<string, seq<string>>)
    ensures g.Keys == Vertices(edges)
  {
    if edges == [] then map[]
    else
      var g := Lists(edges[..|edges| - 1]);
      var (a, b) := edges[|edges| - 1];
      var g1 := g[a := Get(g, a) + [b]];
      g1[b := Get(g1, b) + [a]]
  }

  /** A list holds exactly the computers linked to its owner, so adjacency is symmetric. */
  lemma {:induction false} ListsLinked(edges: seq<Edge>, v: string, w: string)
    ensures w in Get(Lists(edges), v) <==> Linked(edges, v, w)
    ensures w in Get(Lists(edges), v) <==> v in Get(Lists(edges), w)
  {
    if edges != [] {
      var init := edges[..|edges| - 1];
      ListsLinked(init, v, w);
      ListsLinked(init, w, v);
    }
  }

  /** In a simple network no list repeats a computer. */
  lemma {:induction false} ListsDistinct(edges: seq<Edge>, v: string)
    requires Simple(edges)
    ensures Distinct(Get(Lists(edges), v))
  {
    if edges != [] {
      var init := edges[..|edges| - 1];
      var g := Lists(init);
      var (a, b) := edges[|edges| - 1];
      var g1 := g[a := Get(g, a) + [b]];
      ListsDistinct(init, v);
      var g2 := g1[b := Get(g1, b) + [a]];
      assert Lists(edges) == g2;
      if v == a {
        ListsLinked(init, a, b);
        var xs := Get(g, a);
        assert Get(g2, v) == xs + [b];
        assert (xs + [b])[..|xs|] == xs;
      } else if v == b {
        ListsLinked(init, b, a);
        ListsLinked(init, a, b);
        var xs := Get(g1, b);
        assert xs == Get(g, b);
        assert Get(g2, v) == xs + [a];
        assert (xs + [a])[..|xs|] == xs;
      } else {
        assert Get(g2, v) == Get(g, v);
      }
    }
  }

  /** Part one's first loop: the adjacency lists and the set of computers. */
  method BuildLists(edges: seq<Edge>) returns (graph: map<string, seq<string>>, vertices: set<string>)
    ensures graph == Lists(edges) && vertices == Vertices(edges)
  {
    graph, vertices := map[], {};
    for i := 0 to |edges|
      invariant graph == Lists(edges[..i]) && vertices == Vertices(edges[..i])
    {
      assert edges[..i + 1][..i] == edges[..i];
      var (a, b) := edges[i];
      graph := graph[a := Get(graph, a) + [b]];
      graph := graph[b := Get(graph, b) + [a]];
      vertices := vertices + {a, b};
    }
    assert edges[..|edges|] == edges;
  }

  // ---------------------------------------------------------------------------
  // Part one

  type Triple = (string, string, string)

  /** Three mutually linked computers, listed in increasing order. */
  predicate Triangle(edges: seq<Edge>, t: Triple)
  {
    Below(t.0, t.1) && Below(t.1, t.2) && Linked(edges, t.0, t.1) && Linked(edges, t.0, t.2) && Linked(edges, t.1, t.2)
  }

  /** `starts_with("t")`. */
  predicate Tee(name: string)
  {
    |name| > 0 && name[0] == 't'
  }

  predicate HasTee(t: Triple)
  {
    Tee(t.0) || Tee(t.1) || Tee(t.2)
  }

  /** The sets of three mutually linked computers, one of them named `t…`, each listed once in increasing order. */
  function TeeTriangles(edges: seq<Edge>): set<Triple>
  {
    var vs := Vertices(edges);
    set a, b, c | a in vs && b in vs && c in vs && Triangle(edges, (a, b, c)) && HasTee((a, b, c)) :: (a, b, c)
  }

  /** The triples recorded so far: exactly the triangles whose first computer is done, without repetition in a simple network. */
  ghost predicate Found(edges: seq<Edge>, done: set<string>, triples: seq<Triple>)
  {
    (forall i :: 0 <= i < |triples| ==> Triangle(edges, triples[i]) && triples[i].0 in done)
    && (forall t :: Triangle(edges, t) && t.0 in done ==> t in triples)
    && (Simple(edges) ==> Distinct(triples))
  }

  /** Triple `t` comes before position (`j`, `k`) of the two inner loops over `adj`. */
  predicate Upto(t: Triple, adj: seq<string>, j: nat, k: nat)
  {
    j <= |adj| && (t.1 in adj[..j] || (j < |adj| && t.1 == adj[j] && k <= |adj| && t.2 in adj[..k]))
  }

  /** Every triple appended to `triples` since is a triangle of `v1` met before (`j`, `k`). */
  ghost predicate Sound(edges: seq<Edge>, v1: string, adj: seq<string>, triples: seq<Triple>, cur: seq<Triple>, j: nat, k: nat)
  {
    |cur| >= |triples| && cur[..|triples|] == triples
    && forall i :: |triples| <= i < |cur| ==> cur[i].0 == v1 && Triangle(edges, cur[i]) && Upto(cur[i], adj, j, k)
  }

  /** Every triangle of `v1` met before (`j`, `k`) has been appended. */
  ghost predicate Complete(edges: seq<Edge>, v1: string, adj: seq<string>, cur: seq<Triple>, j: nat, k: nat)
  {
    forall t :: Triangle(edges, t) && t.0 == v1 && Upto(t, adj, j, k) ==> t in cur
  }

  /** After the inner loops for `v1` reached (`j`, `k`): `cur` extends `triples` by exactly the triangles of `v1` met so far. */
  ghost predicate Progress(edges: seq<Edge>, v1: string, adj: seq<string>, triples: seq<Triple>, cur: seq<Triple>, j: nat, k: nat, simple: bool)
  {
    Sound(edges, v1, adj, triples, cur, j, k) && Complete(edges, v1, adj, cur, j, k) && (simple ==> Distinct(cur))
  }

  /** The triple a pass of the innermost loop appends, if any. */
  function Cell(edges: seq<Edge>, v1: string, v2: string, v3: string): seq<Triple>
  {
    if Below(v2, v3) && v3 in Get(Lists(edges), v2) then [(v1, v2, v3)] else []
  }

  lemma CellSound(edges: seq<Edge>, v1: string, adj: seq<string>, triples: seq<Triple>, cur: seq<Triple>, j: nat, k: nat)
    requires adj == Get(Lists(edges), v1) && j < |adj| && k < |adj| && Below(v1, adj[j])
    requires Sound(edges, v1, adj, triples, cur, j, k)
    ensures Sound(edges, v1, adj, triples, cur + Cell(edges, v1, adj[j], adj[k]), j, k + 1)
  {
    var v2, v3 := adj[j], adj[k];
    var next := cur + Cell(edges, v1, v2, v3);
    assert adj[..k + 1] == adj[..k] + [v3];
    ListsLinked(edges, v1, v2);
    ListsLinked(edges, v2, v3);
    ListsLinked(edges, v1, v3);
    assert next[..|triples|] == cur[..|triples|];
    forall i | |triples| <= i < |next|
      ensures next[i].0 == v1 && Triangle(edges, next[i]) && Upto(next[i], adj, j, k + 1)
    {
      if i < |cur| {
        assert next[i] == cur[i];
      }
    }
  }

  lemma CellComplete(edges: seq<Edge>, v1: string, adj: seq<string>, cur: seq<Triple>, j: nat, k: nat)
    requires adj == Get(Lists(edges), v1) && j < |adj| && k < |adj|
    requires Complete(edges, v1, adj, cur, j, k)
    ensures Complete(edges, v1, adj, cur + Cell(edges, v1, adj[j], adj[k]), j, k + 1)
  {
    var v2, v3 := adj[j], adj[k];
    var next := cur + Cell(edges, v1, v2, v3);
    assert adj[..k + 1] == adj[..k] + [v3];
    ListsLinked(edges, v2, v3);
    forall t | Triangle(edges, t) && t.0 == v1 && Upto(t, adj, j, k + 1)
      ensures t in next
    {
      if Upto(t, adj, j, k) {
        assert t in cur;
      } else {
        assert t == (v1, v2, v3);
      }
    }
  }

  lemma CellDistinct(v1: string, adj: seq<string>, triples: seq<Triple>, cur: seq<Triple>, t: Triple, j: nat, k: nat)
    requires j < |adj| && k < |adj| && t == (v1, adj[j], adj[k])
    requires forall i :: 0 <= i < |triples| ==> triples[i].0 != v1
    requires forall a, b :: 0 <= a < b < |adj| ==> adj[a] != adj[b]
    requires |cur| >= |triples| && cur[..|triples|] == triples
    requires forall i :: |triples| <= i < |cur| ==> Upto(cur[i], adj, j, k)
    requires Distinct(cur)
    ensures Distinct(cur + [t])
  {
    forall i | 0 <= i < |cur|
      ensures cur[i] != t
    {
      if i < |triples| {
        assert triples[i] == cur[i];
      } else if cur[i].1 in adj[..j] {
        var a :| 0 <= a < j && adj[a] == cur[i].1;
      } else {
        var a :| 0 <= a < k && adj[a] == cur[i].2;
      }
    }
    assert (cur + [t])[..|cur|] == cur;
  }

  /** One pass of the innermost loop: `(v1, adj[j], adj[k])` is appended exactly when it is a triangle. */
  lemma CellStep(edges: seq<Edge>, v1: string, adj: seq<string>, triples: seq<Triple>, cur: seq<Triple>,
                 j: nat, k: nat, simple: bool)
    requires adj == Get(Lists(edges), v1) && j < |adj| && k < |adj| && Below(v1, adj[j])
    requires forall i :: 0 <= i < |triples| ==> triples[i].0 != v1
    requires simple ==> forall a, b :: 0 <= a < b < |adj| ==> adj[a] != adj[b]
    requires Progress(edges, v1, adj, triples, cur, j, k, simple)
    ensures Progress(edges, v1, adj, triples, cur + Cell(edges, v1, adj[j], adj[k]), j, k + 1, simple)
  {
    CellSound(edges, v1, adj, triples, cur, j, k);
    CellComplete(edges, v1, adj, cur, j, k);
    var c := Cell(edges, v1, adj[j], adj[k]);
    if simple {
      if c == [] {
        assert cur + c == cur;
      } else {
        CellDistinct(v1, adj, triples, cur, c[0], j, k);
        assert c == [c[0]];
      }
    }
  }

  /** Leaving the innermost loop, or skipping `adj[j]` because it does not come after `v1`. */
  lemma RowStep(edges: seq<Edge>, v1: string, adj: seq<string>, triples: seq<Triple>, cur: seq<Triple>, j: nat, k: nat, simple: bool)
    requires adj == Get(Lists(edges), v1) && j < |adj|
    requires k == |adj| || (k == 0 && !Below(v1, adj[j]))
    requires Progress(edges, v1, adj, triples, cur, j, k, simple)
    ensures Progress(edges, v1, adj, triples, cur, j + 1, 0, simple)
  {
    assert adj[..j + 1] == adj[..j] + [adj[j]];
    assert adj[..|adj|] == adj;
    forall t | Triangle(edges, t) && t.0 == v1 && Upto(t, adj, j + 1, 0)
      ensures t in cur
    {
      ListsLinked(edges, v1, t.2);
    }
  }

  /**
   * The two inner loops for one computer `v1`: every later neighbour `v2`,
   * then every neighbour `v3` after `v2` that `v2` is linked to, appending
   * the triple.
   */
  method Extend(edges: seq<Edge>, graph: map<string, seq<string>>, v1: string, triples: seq<Triple>)
    returns (triples': seq<Triple>)
    requires graph == Lists(edges) && v1 in graph
    requires forall i :: 0 <= i < |triples| ==> triples[i].0 != v1
    ensures |triples| <= |triples'| && triples'[..|triples|] == triples
    ensures forall i :: |triples| <= i < |triples'| ==> triples'[i].0 == v1 && Triangle(edges, triples'[i])
    ensures forall t :: Triangle(edges, t) && t.0 == v1 ==> t in triples'
    ensures Simple(edges) && Distinct(triples) ==> Distinct(triples')
  {
    var adj := graph[v1];
    ghost var simple := Simple(edges) && Distinct(triples);
    if simple {
      ListsDistinct(edges, v1);
      DistinctPairs(adj);
    }
    triples' := triples;
    for j := 0 to |adj|
      invariant Progress(edges, v1, adj, triples, triples', j, 0, simple)
    {
      var v2 := adj[j];
      if !Below(v1, v2) {
        RowStep(edges, v1, adj, triples, triples', j, 0, simple);
        continue;
      }
      triples' := ExtendRow(edges, graph, v1, adj, j, triples, triples', simple);
    }
    Finish(edges, v1, adj, triples, triples', simple);
  }

  /** The innermost loop, for the neighbour `adj[j]` of `v1` that comes after it. */
  method ExtendRow(edges: seq<Edge>, graph: map<string, seq<string>>, v1: string, adj: seq<string>, j: nat,
                   triples: seq<Triple>, cur: seq<Triple>, ghost simple: bool)
    returns (next: seq<Triple>)
    requires graph == Lists(edges) && adj == Get(graph, v1) && j < |adj| && Below(v1, adj[j])
    requires forall i :: 0 <= i < |triples| ==> triples[i].0 != v1
    requires simple ==> forall a, b :: 0 <= a < b < |adj| ==> adj[a] != adj[b]
    requires Progress(edges, v1, adj, triples, cur, j, 0, simple)
    ensures Progress(edges, v1, adj, triples, next, j + 1, 0, simple)
  {
    var v2 := adj[j];
    ListsLinked(edges, v1, v2);
    LinkedVertices(edges, v1, v2);
    next := cur;
    for k := 0 to |adj|
      invariant Progress(edges, v1, adj, triples, next, j, k, simple)
    {
      var v3 := adj[k];
      CellStep(edges, v1, adj, triples, next, j, k, simple);
      if Below(v2, v3) && v3 in graph[v2] {
        next := next + [(v1, v2, v3)];
      }
    }
    RowStep(edges, v1, adj, triples, next, j, |adj|, simple);
  }

  /** Past the last neighbour, every triangle of `v1` has been appended. */
  lemma Finish(edges: seq<Edge>, v1: string, adj: seq<string>, triples: seq<Triple>, cur: seq<Triple>, simple: bool)
    requires adj == Get(Lists(edges), v1)
    requires Progress(edges, v1, adj, triples, cur, |adj|, 0, simple)
    ensures |triples| <= |cur| && cur[..|triples|] == triples
    ensures forall i :: |triples| <= i < |cur| ==> cur[i].0 == v1 && Triangle(edges, cur[i])
    ensures forall t :: Triangle(edges, t) && t.0 == v1 ==> t in cur
    ensures simple ==> Distinct(cur)
  {
    assert adj[..|adj|] == adj;
    forall t | Triangle(edges, t) && t.0 == v1
      ensures t in cur
    {
      ListsLinked(edges, v1, t.1);
      assert Upto(t, adj, |adj|, 0);
    }
  }

  /** Part one's outer loop over `vertices` keeps `Found` for one more computer. */
  lemma FoundStep(edges: seq<Edge>, done: set<string>, v1: string, triples: seq<Triple>, triples': seq<Triple>)
    requires Found(edges, done, triples) && v1 !in done
    requires |triples| <= |triples'| && triples'[..|triples|] == triples
    requires forall i :: |triples| <= i < |triples'| ==> triples'[i].0 == v1 && Triangle(edges, triples'[i])
    requires forall t :: Triangle(edges, t) && t.0 == v1 ==> t in triples'
    requires Simple(edges) && Distinct(triples) ==> Distinct(triples')
    ensures Found(edges, done + {v1}, triples')
  {
    forall i | 0 <= i < |triples'|
      ensures Triangle(edges, triples'[i]) && triples'[i].0 in done + {v1}
    {
      if i < |triples| {
        assert triples'[i] == triples[i];
      }
    }
    forall t | Triangle(edges, t) && t.0 in done + {v1}
      ensures t in triples'
    {
      if t.0 != v1 {
        var i :| 0 <= i < |triples| && triples[i] == t;
        assert triples'[i] == t;
      }
    }
  }

  /** Once every computer is done, the `t` triples recorded are exactly the `t` triangles. */
  lemma Recorded(edges: seq<Edge>, triples: seq<Triple>)
    requires Found(edges, Vertices(edges), triples)
    ensures (set t | t in triples && HasTee(t)) == TeeTriangles(edges)
  {
    forall t | t in triples && HasTee(t)
      ensures t in TeeTriangles(edges)
    {
      LinkedVertices(edges, t.0, t.1);
      LinkedVertices(edges, t.1, t.2);
    }
  }

  /** `filter(..).count()`: the triples naming a `t…` computer. */
  function TeeCount(ts: seq<Triple>): (r: nat)
    ensures r <= |ts|
  {
    if ts == [] then 0 else TeeCount(ts[..|ts| - 1]) + (if HasTee(ts[|ts| - 1]) then 1 else 0)
  }

  /** Counting with repetition gives at least the number of different triples, exactly that number without repetition. */
  lemma {:induction false} TeeCountSet(ts: seq<Triple>)
    ensures TeeCount(ts) >= |set t | t in ts && HasTee(t)|
    ensures Distinct(ts) ==> TeeCount(ts) == |set t | t in ts && HasTee(t)|
    ensures TeeCount(ts) == 0 <==> (set t | t in ts && HasTee(t)) == {}
  {
    if ts != [] {
      var init, x := ts[..|ts| - 1], ts[|ts| - 1];
      assert ts == init + [x];
      var a := set t | t in init && HasTee(t);
      var b := set t | t in ts && HasTee(t);
      TeeCountSet(init);
      if HasTee(x) {
        assert b == a + {x};
        assert x in b;
      } else {
        assert b == a;
      }
    }
  }

  /**
   * Part one: every computer in turn, appending its triangles, then counting
   * those naming a `t…` computer. Each triangle is met once from its first
   * computer; a connection listed twice makes its triangles count twice.
   */
  method SolvePartOne(edges: seq<Edge>) returns (r: nat)
    ensures r >= |TeeTriangles(edges)|
    ensures r == 0 <==> TeeTriangles(edges) == {}
    ensures Simple(edges) ==> r == |TeeTriangles(edges)|
  {
    var graph, vertices := BuildLists(edges);
    var triples: seq<Triple> := [];
    ghost var done: set<string> := {};
    var rest := vertices;
    while rest != {}
      invariant rest <= vertices && done == vertices - rest
      invariant Found(edges, done, triples)
      decreases |rest|
    {
      var v1 :| v1 in rest;
      var triples' := Extend(edges, graph, v1, triples);
      FoundStep(edges, done, v1, triples, triples');
      triples := triples';
      rest := rest - {v1};
      done := done + {v1};
    }
    Recorded(edges, triples);
    TeeCountSet(triples);
    r := TeeCount(triples);
  }

  // ---------------------------------------------------------------------------
  // Part two

  /** Links go both ways. */
  lemma {:induction false} LinkedSymmetric(edges: seq<Edge>, a: string, b: string)
    ensures Linked(edges, a, b) <==> Linked(edges, b, a)
  {
    if edges != [] {
      LinkedSymmetric(edges[..|edges| - 1], a, b);
    }
  }

  /** Part two's first loop: each computer's set of neighbours, and the set of computers. */
  method BuildSets(edges: seq<Edge>) returns (graph: map<string, set<string>>, vertices: set<string>)
    ensures graph.Keys == vertices && vertices == Vertices(edges)
    ensures forall v, w :: v in graph ==> (w in graph[v] <==> Linked(edges, v, w))
  {
    graph, vertices := map[], {};
    for i := 0 to |edges|
      invariant graph.Keys == vertices && vertices == Vertices(edges[..i])
      invariant forall v, w :: v in graph ==> (w in graph[v] <==> Linked(edges[..i], v, w))
    {
      assert edges[..i + 1][..i] == edges[..i];
      var (a, b) := edges[i];
      ghost var before := graph;
      graph := graph[a := (if a in graph then graph[a] else {}) + {b}];
      graph := graph[b := (if b in graph then graph[b] else {}) + {a}];
      vertices := vertices + {a, b};
      forall v, w | v in graph
        ensures w in graph[v] <==> Linked(edges[..i + 1], v, w)
      {
        if Linked(edges[..i], v, w) {
          LinkedVertices(edges[..i], v, w);
        }
        assert Linked(edges[..i + 1], v, w) <==> Linked(edges[..i], v, w) || (a, b) == (v, w) || (a, b) == (w, v);
        assert w in graph[v] <==> (v in before && w in before[v]) || (v == a && w == b) || (v == b && w == a);
      }
    }
    assert edges[..|edges|] == edges;
  }

  /** Computers in increasing order, each linked to every other: what the search queues. */
  predicate Chain(edges: seq<Edge>, c: seq<string>)
  {
    |c| >= 1 && (forall i :: 0 <= i < |c| ==> c[i] in Vertices(edges))
    && forall i, j :: 0 <= i < j < |c| ==> Below(c[i], c[j]) && Linked(edges, c[i], c[j])
  }

  /** A set of computers, each linked to every other. */
  predicate Clique(edges: seq<Edge>, S: set<string>)
  {
    S <= Vertices(edges) && forall a, b :: a in S && b in S && a != b ==> Linked(edges, a, b)
  }

  /** An increasing list repeats nothing. */
  lemma {:induction false} IncreasingDistinct(c: seq<string>)
    requires forall i, j :: 0 <= i < j < |c| ==> Below(c[i], c[j])
    ensures Distinct(c)
  {
    if c != [] {
      var init := c[..|c| - 1];
      IncreasingDistinct(init);
      forall i | 0 <= i < |init|
        ensures init[i] != c[|c| - 1]
      {
        BelowIrreflexive(c[i]);
        assert Below(c[i], c[|c| - 1]);
      }
      assert c == init + [c[|c| - 1]];
    }
  }

  /** No chain is longer than the network has computers. */
  lemma ChainLength(edges: seq<Edge>, c: seq<string>)
    requires Chain(edges, c)
    ensures |c| <= |Vertices(edges)|
  {
    IncreasingDistinct(c);
    DistinctLength(c, Vertices(edges));
  }

  /**
   * The test part two applies to a queued chain `c` and a computer `v`:
   * `v` comes after the last computer and is linked to all of them exactly
   * when appending `v` gives a chain.
   */
  lemma ExtendChain(edges: seq<Edge>, c: seq<string>, v: string)
    requires Chain(edges, c) && v in Vertices(edges)
    ensures Chain(edges, c + [v]) <==> Below(c[|c| - 1], v) && forall i :: 0 <= i < |c| ==> Linked(edges, v, c[i])
  {
    var d := c + [v];
    if Below(c[|c| - 1], v) && forall i :: 0 <= i < |c| ==> Linked(edges, v, c[i]) {
      forall i, j | 0 <= i < j < |d|
        ensures Below(d[i], d[j]) && Linked(edges, d[i], d[j])
      {
        if j == |c| {
          LinkedSymmetric(edges, v, c[i]);
          if i < |c| - 1 {
            BelowTransitive(c[i], c[|c| - 1], v);
          }
        }
      }
    }
    if Chain(edges, d) {
      forall i | 0 <= i < |c|
        ensures Linked(edges, v, c[i])
      {
        assert Linked(edges, d[i], d[|c|]);
        LinkedSymmetric(edges, v, c[i]);
      }
      assert Below(d[|c| - 1], d[|c|]);
    }
  }

  /** Every clique of `k` computers can be listed as a chain of length `k`. */
  lemma {:induction false} SortClique(edges: seq<Edge>, S: set<string>)
    requires S != {} && Clique(edges, S)
    ensures exists c :: Chain(edges, c) && |c| == |S| && forall i :: 0 <= i < |c| ==> c[i] in S
    decreases |S|
  {
    var m := Greatest(S);
    if S == {m} {
      var c := [m];
      assert Chain(edges, c) && |c| == |S|;
    } else {
      var R := S - {m};
      SortClique(edges, R);
      var c :| Chain(edges, c) && |c| == |R| && forall i :: 0 <= i < |c| ==> c[i] in R;
      var d := c + [m];
      forall i, j | 0 <= i < j < |d|
        ensures Below(d[i], d[j]) && Linked(edges, d[i], d[j])
      {
        if j == |c| {
          assert d[i] in R;
        }
      }
      assert Chain(edges, d) && |d| == |S|;
      assert forall i :: 0 <= i < |d| ==> d[i] in S;
    }
  }

  function Power(b: nat, e: nat): (r: nat)
    ensures b > 0 ==> r > 0
  {
    if e == 0 then 1 else b * Power(b, e - 1)
  }

  /**
   * What a queued chain of length `k` is worth towards termination: every
   * chain it yields is one longer, and there are at most `n` of those, each
   * worth less than an `(n + 1)`-th of it.
   */
  function Worth(n: nat, k: nat): nat
  {
    if k <= n then Power(n + 1, n - k) else 0
  }

  /** A chain outweighs the `n` longer ones it can yield. */
  lemma WorthStep(n: nat, k: nat)
    requires k <= n
    ensures n * Worth(n, k + 1) < Worth(n, k)
  {
    if k < n {
      var w := Power(n + 1, n - k - 1);
      assert Worth(n, k) == (n + 1) * w;
      assert (n + 1) * w == n * w + w;
    }
  }

  function Weight(queue: seq<seq<string>>, n: nat): nat
  {
    if queue == [] then 0 else Worth(n, |queue[0]|) + Weight(queue[1..], n)
  }

  lemma {:induction false} WeightSnoc(queue: seq<seq<string>>, c: seq<string>, n: nat)
    ensures Weight(queue + [c], n) == Weight(queue, n) + Worth(n, |c|)
  {
    if queue != [] {
      assert (queue + [c])[1..] == queue[1..] + [c];
      WeightSnoc(queue[1..], c, n);
    }
  }

  /** Every chain queued so far is a chain, and was popped or is still queued. */
  ghost predicate Queued(edges: seq<Edge>, popped: set<seq<string>>, pushed: set<seq<string>>, queue: seq<seq<string>>)
  {
    forall c :: c in pushed ==> Chain(edges, c) && (c in popped || c in queue)
  }

  /** The queue holds queued chains of at least `k` computers, by non-decreasing length. */
  ghost predicate Ordered(queue: seq<seq<string>>, pushed: set<seq<string>>, k: nat)
  {
    (forall i :: 0 <= i < |queue| ==> queue[i] in pushed && |queue[i]| >= k)
    && forall i, j :: 0 <= i < j < |queue| ==> |queue[i]| <= |queue[j]|
  }

  ghost predicate Bounded(pushed: set<seq<string>>, k: nat)
  {
    forall c :: c in pushed ==> |c| <= k
  }

  /** Every single computer was queued. */
  ghost predicate Singles(edges: seq<Edge>, pushed: set<seq<string>>)
  {
    forall v :: v in Vertices(edges) ==> [v] in pushed
  }

  /** Every chain extending a popped chain was queued, except the extensions of `front` by computers in `rest`. */
  ghost predicate Extended(edges: seq<Edge>, popped: set<seq<string>>, pushed: set<seq<string>>, front: seq<string>, rest: set<string>)
  {
    forall c :: Chain(edges, c) && |c| >= 2 && c[..|c| - 1] in popped && (c[..|c| - 1] != front || c[|c| - 1] !in rest) ==> c in pushed
  }

  /** `last` is a longest chain queued, once any chain of two was. */
  ghost predicate Longest(pushed: set<seq<string>>, last: Option<seq<string>>)
  {
    (last.Some? ==> last.value in pushed && |last.value| >= 2 && Bounded(pushed, |last.value|))
    && (last.None? ==> Bounded(pushed, 1))
  }

  /** The breadth-first search between two pops. */
  ghost predicate Bfs(edges: seq<Edge>, queue: seq<seq<string>>, popped: set<seq<string>>, pushed: set<seq<string>>,
                      last: Option<seq<string>>)
  {
    Queued(edges, popped, pushed, queue) && Ordered(queue, pushed, 0)
    && (queue != [] ==> Bounded(pushed, |queue[0]| + 1))
    && Singles(edges, pushed) && Extended(edges, popped, pushed, [], {}) && Longest(pushed, last)
  }

  /**
   * The search while it tries each computer against the popped chain
   * `front`: only the extensions of `front` by computers already tried are
   * sure to be queued, and the weight of the queue has grown by at most one
   * longer chain per computer tried.
   */
  ghost predicate Trying(edges: seq<Edge>, front: seq<string>, rest: set<string>, tail: seq<seq<string>>, queue: seq<seq<string>>,
                         popped: set<seq<string>>, pushed: set<seq<string>>, last: Option<seq<string>>)
  {
    var n := |Vertices(edges)|;
    rest <= Vertices(edges) && Chain(edges, front) && front in popped
    && Queued(edges, popped, pushed, queue) && Ordered(queue, pushed, |front|) && Bounded(pushed, |front| + 1)
    && Singles(edges, pushed) && Extended(edges, popped, pushed, front, rest) && Longest(pushed, last)
    && Weight(queue, n) <= Budget(tail, n, |rest|, |front| + 1)
  }

  /** What the queue may weigh with `left` computers still to try against a front chain of length `k - 1`. */
  function Budget(tail: seq<seq<string>>, n: nat, left: nat, k: nat): int
  {
    Weight(tail, n) + (n - left) * Worth(n, k)
  }

  lemma PopQueued(edges: seq<Edge>, popped: set<seq<string>>, pushed: set<seq<string>>, queue: seq<seq<string>>)
    requires Queued(edges, popped, pushed, queue) && queue != []
    ensures Queued(edges, popped + {queue[0]}, pushed, queue[1..])
  {
    forall c | c in pushed
      ensures c in popped + {queue[0]} || c in queue[1..]
    {
      if c in queue && c != queue[0] {
        var i :| 0 <= i < |queue| && queue[i] == c;
        assert queue[1..][i - 1] == c;
      }
    }
  }

  lemma PopOrdered(queue: seq<seq<string>>, pushed: set<seq<string>>)
    requires Ordered(queue, pushed, 0) && queue != []
    ensures Ordered(queue[1..], pushed, |queue[0]|)
  {
    var tail := queue[1..];
    forall i | 0 <= i < |tail|
      ensures tail[i] in pushed && |tail[i]| >= |queue[0]|
    {
      assert tail[i] == queue[i + 1];
    }
    forall i, j | 0 <= i < j < |tail|
      ensures |tail[i]| <= |tail[j]|
    {
      assert tail[i] == queue[i + 1] && tail[j] == queue[j + 1];
    }
  }

  /** Popping the front chain starts trying every computer against it. */
  lemma PopStep(edges: seq<Edge>, queue: seq<seq<string>>, popped: set<seq<string>>, pushed: set<seq<string>>, last: Option<seq<string>>)
    requires Bfs(edges, queue, popped, pushed, last) && queue != []
    ensures Trying(edges, queue[0], Vertices(edges), queue[1..], queue[1..], popped + {queue[0]}, pushed, last)
  {
    var front := queue[0];
    assert front in pushed;
    PopQueued(edges, popped, pushed, queue);
    PopOrdered(queue, pushed);
    forall c | Chain(edges, c) && |c| >= 2 && c[..|c| - 1] in popped + {front}
               && (c[..|c| - 1] != front || c[|c| - 1] !in Vertices(edges))
      ensures c in pushed
    {
      assert c[|c| - 1] in Vertices(edges);
      assert c[..|c| - 1] != [];
    }
  }

  lemma PushQueued(edges: seq<Edge>, popped: set<seq<string>>, pushed: set<seq<string>>, queue: seq<seq<string>>, d: seq<string>)
    requires Queued(edges, popped, pushed, queue) && Chain(edges, d)
    ensures Queued(edges, popped, pushed + {d}, queue + [d])
  {
    forall c | c in pushed + {d}
      ensures c in popped || c in queue + [d]
    {
      if c in queue {
        var i :| 0 <= i < |queue| && queue[i] == c;
        assert (queue + [d])[i] == c;
      } else if c == d {
        assert (queue + [d])[|queue|] == c;
      }
    }
  }

  lemma PushOrdered(queue: seq<seq<string>>, pushed: set<seq<string>>, k: nat, d: seq<string>)
    requires Ordered(queue, pushed, k) && Bounded(pushed, k + 1) && |d| == k + 1
    ensures Ordered(queue + [d], pushed + {d}, k)
  {
    var q := queue + [d];
    forall i | 0 <= i < |q|
      ensures q[i] in pushed + {d} && |q[i]| >= k
    {
      if i < |queue| {
        assert q[i] == queue[i];
      }
    }
    forall i, j | 0 <= i < j < |q|
      ensures |q[i]| <= |q[j]|
    {
      assert q[i] == queue[i];
      if j < |queue| {
        assert q[j] == queue[j];
      }
    }
  }

  lemma TryExtended(edges: seq<Edge>, popped: set<seq<string>>, pushed: set<seq<string>>, front: seq<string>, rest: set<string>,
                    v: string, pushed': set<seq<string>>)
    requires Extended(edges, popped, pushed, front, rest) && pushed <= pushed'
    requires Chain(edges, front + [v]) ==> front + [v] in pushed'
    ensures Extended(edges, popped, pushed', front, rest - {v})
  {
    forall c | Chain(edges, c) && |c| >= 2 && c[..|c| - 1] in popped && (c[..|c| - 1] != front || c[|c| - 1] !in rest - {v})
      ensures c in pushed'
    {
      if c[..|c| - 1] == front && c[|c| - 1] == v {
        assert c == front + [v];
      }
    }
  }

  lemma TryWeight(n: nat, rest: set<string>, v: string, k: nat, queue: seq<seq<string>>, tail: seq<seq<string>>, queue': seq<seq<string>>)
    requires v in rest && |rest| <= n
    requires Weight(queue, n) <= Budget(tail, n, |rest|, k)
    requires queue' == queue || (exists d :: |d| == k && queue' == queue + [d])
    ensures Weight(queue', n) <= Budget(tail, n, |rest - {v}|, k)
  {
    var w := Worth(n, k);
    assert |rest - {v}| == |rest| - 1;
    assert (n - |rest| + 1) * w == (n - |rest|) * w + w;
    if queue' != queue {
      var d :| |d| == k && queue' == queue + [d];
      WeightSnoc(queue, d, n);
    }
  }

  /** Trying one more computer `v` against the front chain, queuing the extension when it is a chain. */
  lemma TryStep(edges: seq<Edge>, front: seq<string>, rest: set<string>, tail: seq<seq<string>>, queue: seq<seq<string>>,
                popped: set<seq<string>>, pushed: set<seq<string>>, last: Option<seq<string>>, v: string,
                queue': seq<seq<string>>, pushed': set<seq<string>>, last': Option<seq<string>>)
    requires Trying(edges, front, rest, tail, queue, popped, pushed, last) && v in rest
    requires Chain(edges, front + [v]) ==> queue' == queue + [front + [v]] && pushed' == pushed + {front + [v]} && last' == Some(front + [v])
    requires !Chain(edges, front + [v]) ==> queue' == queue && pushed' == pushed && last' == last
    ensures Trying(edges, front, rest - {v}, tail, queue', popped, pushed', last')
  {
    var d := front + [v];
    var n := |Vertices(edges)|;
    assert Weight(queue', n) <= Budget(tail, n, |rest - {v}|, |front| + 1) by {
      SubsetCard(rest, Vertices(edges));
      TryWeight(n, rest, v, |front| + 1, queue, tail, queue');
    }
    assert Extended(edges, popped, pushed', front, rest - {v}) by {
      TryExtended(edges, popped, pushed, front, rest, v, pushed');
    }
    if Chain(edges, d) {
      assert Queued(edges, popped, pushed', queue') by {
        PushQueued(edges, popped, pushed, queue, d);
      }
      assert Ordered(queue', pushed', |front|) by {
        PushOrdered(queue, pushed, |front|, d);
      }
      assert Bounded(pushed', |front| + 1) && Longest(pushed', last') && Singles(edges, pushed');
    }
    assert rest - {v} <= Vertices(edges);
    assert Chain(edges, front);
    assert front in popped;
    assert Queued(edges, popped, pushed', queue');
    assert Ordered(queue', pushed', |front|);
    assert Bounded(pushed', |front| + 1);
    assert Singles(edges, pushed');
  }

  /** Having tried every computer, the search is back between pops, with a lighter queue. */
  lemma DoneStep(edges: seq<Edge>, front: seq<string>, tail: seq<seq<string>>, queue: seq<seq<string>>,
                 popped: set<seq<string>>, pushed: set<seq<string>>, last: Option<seq<string>>)
    requires Trying(edges, front, {}, tail, queue, popped, pushed, last)
    ensures Bfs(edges, queue, popped, pushed, last)
    ensures Weight(queue, |Vertices(edges)|) < Weight([front] + tail, |Vertices(edges)|)
  {
    var n := |Vertices(edges)|;
    ChainLength(edges, front);
    WorthStep(n, |front|);
    assert ([front] + tail)[1..] == tail;
    if queue != [] {
      assert |queue[0]| >= |front|;
    }
    forall c | Chain(edges, c) && |c| >= 2 && c[..|c| - 1] in popped
      ensures c in pushed
    {
    }
  }

  /** Once the queue is empty, every chain has been queued. */
  lemma {:induction false} AllQueued(edges: seq<Edge>, popped: set<seq<string>>, pushed: set<seq<string>>,
                                     last: Option<seq<string>>, c: seq<string>)
    requires Bfs(edges, [], popped, pushed, last) && Chain(edges, c)
    ensures c in pushed
    decreases |c|
  {
    if |c| == 1 {
      assert c == [c[0]];
    } else {
      var init := c[..|c| - 1];
      assert Chain(edges, init) by {
        assert forall i :: 0 <= i < |init| ==> init[i] == c[i];
      }
      AllQueued(edges, popped, pushed, last, init);
    }
  }

  /** A longest chain lists a largest clique. */
  lemma LongestChain(edges: seq<Edge>, c: seq<string>)
    requires Chain(edges, c) && forall d :: Chain(edges, d) ==> |d| <= |c|
    ensures forall S :: Clique(edges, S) ==> |S| <= |c|
  {
    forall S | Clique(edges, S)
      ensures |S| <= |c|
    {
      if S != {} {
        SortClique(edges, S);
      }
    }
  }

  /** Two different linked computers, in order, make a chain of two. */
  lemma PairChain(edges: seq<Edge>, a: string, b: string)
    requires Linked(edges, a, b) && a != b
    ensures Chain(edges, [a, b]) || Chain(edges, [b, a])
  {
    LinkedVertices(edges, a, b);
    LinkedSymmetric(edges, a, b);
    BelowTotal(a, b);
  }

  /** No two different computers are linked. */
  ghost predicate Unlinked(edges: seq<Edge>)
  {
    forall a, b :: Linked(edges, a, b) ==> a == b
  }

  /** With the queue empty, `last` is a longest chain, and is absent exactly when no two computers are linked. */
  lemma Searched(edges: seq<Edge>, popped: set<seq<string>>, pushed: set<seq<string>>, last: Option<seq<string>>)
    requires Bfs(edges, [], popped, pushed, last)
    ensures last.None? <==> Unlinked(edges)
    ensures last.Some? ==> Chain(edges, last.value) && |last.value| >= 2 && forall d :: Chain(edges, d) ==> |d| <= |last.value|
  {
    forall c | Chain(edges, c)
      ensures c in pushed
    {
      AllQueued(edges, popped, pushed, last, c);
    }
    forall a, b | Linked(edges, a, b) && a != b
      ensures last.Some?
    {
      PairChain(edges, a, b);
    }
    assert Queued(edges, popped, pushed, []) && Longest(pushed, last);
    if last.Some? {
      var c := last.value;
      assert Chain(edges, c);
      BelowIrreflexive(c[0]);
      assert Linked(edges, c[0], c[1]) && c[0] != c[1];
      assert !Unlinked(edges);
    } else {
      assert Unlinked(edges);
    }
  }

  /** `VecDeque::from_iter` over `vertices`: one single-computer chain per computer, in the set's order. */
  method Singletons(edges: seq<Edge>, vertices: set<string>) returns (queue: seq<seq<string>>, ghost pushed: set<seq<string>>)
    requires vertices == Vertices(edges)
    ensures Bfs(edges, queue, {}, pushed, None)
  {
    queue, pushed := [], {};
    var rest := vertices;
    while rest != {}
      invariant rest <= vertices
      invariant forall c :: c in pushed ==> Chain(edges, c) && |c| == 1 && c in queue
      invariant forall i :: 0 <= i < |queue| ==> queue[i] in pushed
      invariant forall v :: v in vertices - rest ==> [v] in pushed
      decreases |rest|
    {
      var v :| v in rest;
      queue := queue + [[v]];
      pushed := pushed + {[v]};
      rest := rest - {v};
    }
    assert Bounded(pushed, 1);
  }

  /**
   * The inner loop of the search: every computer `v` that comes after the
   * last computer of `front` and is linked to all of it extends `front`; the
   * extension is queued and remembered as `last`.
   */
  method Extensions(edges: seq<Edge>, graph: map<string, set<string>>, vertices: set<string>, front: seq<string>,
                    ghost tail: seq<seq<string>>, queue: seq<seq<string>>, ghost popped: set<seq<string>>,
                    ghost pushed: set<seq<string>>, last: Option<seq<string>>)
    returns (queue': seq<seq<string>>, ghost pushed': set<seq<string>>, last': Option<seq<string>>)
    requires graph.Keys == vertices && vertices == Vertices(edges)
    requires forall v, w :: v in graph ==> (w in graph[v] <==> Linked(edges, v, w))
    requires Trying(edges, front, vertices, tail, queue, popped, pushed, last)
    ensures Trying(edges, front, {}, tail, queue', popped, pushed', last')
  {
    queue', pushed', last' := queue, pushed, last;
    var untried := vertices;
    while untried != {}
      invariant Trying(edges, front, untried, tail, queue', popped, pushed', last')
      decreases |untried|
    {
      var v :| v in untried;
      ExtendChain(edges, front, v);
      ghost var q, p, l := queue', pushed', last';
      if Below(front[|front| - 1], v) && forall i :: 0 <= i < |front| ==> front[i] in graph[v] {
        var next := front + [v];
        last' := Some(next);
        queue' := queue' + [next];
        pushed' := pushed' + {next};
      }
      TryStep(edges, front, untried, tail, q, popped, p, l, v, queue', pushed', last');
      untried := untried - {v};
    }
  }

  /**
   * The search of part two: every single computer is queued, then the chain
   * at the front of the queue is extended by every later computer linked to
   * all of it, each extension queued and remembered as `last`.
   */
  method Search(edges: seq<Edge>, graph: map<string, set<string>>, vertices: set<string>) returns (last: Option<seq<string>>)
    requires graph.Keys == vertices && vertices == Vertices(edges)
    requires forall v, w :: v in graph ==> (w in graph[v] <==> Linked(edges, v, w))
    ensures last.None? <==> Unlinked(edges)
    ensures last.Some? ==> Chain(edges, last.value) && |last.value| >= 2 && forall d :: Chain(edges, d) ==> |d| <= |last.value|
  {
    var queue;
    ghost var pushed;
    queue, pushed := Singletons(edges, vertices);
    last := None;
    ghost var popped: set<seq<string>> := {};
    ghost var n := |vertices|;
    while queue != []
      invariant Bfs(edges, queue, popped, pushed, last)
      decreases Weight(queue, n)
    {
      var front := queue[0];
      ghost var before := queue;
      assert before == [front] + before[1..];
      PopStep(edges, queue, popped, pushed, last);
      queue := queue[1..];
      popped := popped + {front};
      queue, pushed, last := Extensions(edges, graph, vertices, front, before[1..], queue, popped, pushed, last);
      DoneStep(edges, front, before[1..], queue, popped, pushed, last);
    }
    Searched(edges, popped, pushed, last);
  }

  /**
   * Part two: the last chain the search queued, spelled as its names joined
   * by commas; `None` where `unwrap` panics, because no two computers are
   * linked.
   */
  method SolvePartTwo(edges: seq<Edge>) returns (r: Option<string>)
    ensures r.None? <==> Unlinked(edges)
    ensures r.Some? ==> exists c :: Chain(edges, c) && |c| >= 2 && r.value == Join(c, ",")
                                    && (forall d :: Chain(edges, d) ==> |d| <= |c|)
                                    && (forall S :: Clique(edges, S) ==> |S| <= |c|)
  {
    var graph, vertices := BuildSets(edges);
    var last := Search(edges, graph, vertices);
    if last.None? {
      return None;
    }
    var c := last.value;
    LongestChain(edges, c);
    r := Some(Join(c, ","));
  }
}
