/**
 * Linen layout (2024 day 19): towel patterns are stored in a trie, and a
 * design is checked by a left-to-right table over its positions: part one
 * records which prefixes can be laid out with towels, part two counts the
 * ways to do it.
 */
module Towels {
  import opened Text

  // ---------------------------------------------------------------------------
  // Input

  datatype Input = Input(towels: seq<string>, designs: seq<string>)

  /** Towels before the first blank line, separated by ", "; designs are the non-empty lines after it. */
  function Parse(s: string): (r: Option<Input>)
    ensures r.None? <==> forall j: nat :: !OccursAt(s, j, "\n\n")
    ensures r.Some? ==> forall k :: 0 <= k < |r.value.designs| ==> r.value.designs[k] != []
  {
    match SplitOnce(s, "\n\n")
      case None => None
      case Some((a, b)) => Some(Input(Split(a, ", "), NonEmptyLines(b)))
  }

  /** The towel list joined back with ", " is the text before the first blank line. */
  lemma ParseTowels(a: string, b: string)
    requires '\n' !in a
    ensures Parse(a + "\n\n" + b).Some?
    ensures Join(Parse(a + "\n\n" + b).value.towels, ", ") == a
  {
    SplitOnceAt(a, "\n\n", b);
    JoinSplit(a, ", ");
  }

  // ---------------------------------------------------------------------------
  // Splitting a design into towels

  /** The towels laid side by side. */
  function Concat(ws: seq<string>): (s: string)
  {
    if ws == [] then [] else Concat(ws[..|ws| - 1]) + ws[|ws| - 1]
  }

  /** `ws` is a way to lay out `s` with non-empty towels from `words`. */
  predicate Splits(words: set<string>, ws: seq<string>, s: string)
  {
    (forall t :: 0 <= t < |ws| ==> ws[t] != [] && ws[t] in words) && Concat(ws) == s
  }

  ghost predicate Composed(words: set<string>, s: string)
  {
    exists ws :: Splits(words, ws, s)
  }

  /** The number of layouts of `s`, counted by the position where the last towel starts. */
  function Ways(words: set<string>, s: string): nat
    decreases |s|, 1
  {
    if s == [] then 1 else WaysBefore(words, s, |s|)
  }

  /** Layouts of `s` whose last towel starts before position `m`. */
  function WaysBefore(words: set<string>, s: string, m: nat): nat
    requires m <= |s|
    decreases |s|, 0, m
  {
    if m == 0 then 0
    else WaysBefore(words, s, m - 1) + (if s[m - 1..] in words then Ways(words, s[..m - 1]) else 0)
  }

  /** The layouts themselves, in the order `Ways` counts them. */
  function Layouts(words: set<string>, s: string): seq<seq<string>>
    decreases |s|, 1
  {
    if s == [] then [[]] else LayoutsBefore(words, s, |s|)
  }

  function LayoutsBefore(words: set<string>, s: string, m: nat): seq<seq<string>>
    requires m <= |s|
    decreases |s|, 0, m
  {
    if m == 0 then []
    else LayoutsBefore(words, s, m - 1) + (if s[m - 1..] in words then Extend(Layouts(words, s[..m - 1]), s[m - 1..]) else [])
  }

  /** Every layout in `ls` followed by the towel `w`. */
  function Extend(ls: seq<seq<string>>, w: string): (r: seq<seq<string>>)
    ensures |r| == |ls| && forall i :: 0 <= i < |r| ==> r[i] == ls[i] + [w]
  {
    if ls == [] then [] else [ls[0] + [w]] + Extend(ls[1..], w)
  }

  lemma ConcatSnoc(ws: seq<string>, w: string)
    ensures Concat(ws + [w]) == Concat(ws) + w
  {
    assert (ws + [w])[..|ws|] == ws;
  }

  /** Adding a towel to a layout of a prefix gives a layout of the longer string. */
  lemma SplitsSnoc(words: set<string>, ws: seq<string>, s: string, j: nat)
    requires j < |s| && s[j..] in words && Splits(words, ws, s[..j])
    ensures Splits(words, ws + [s[j..]], s)
  {
    ConcatSnoc(ws, s[j..]);
    assert s[..j] + s[j..] == s;
  }

  /** A layout of a non-empty string ends with a towel `s[j..]` after a layout of `s[..j]`. */
  lemma SplitsLast(words: set<string>, ws: seq<string>, s: string) returns (j: nat)
    requires Splits(words, ws, s) && s != []
    ensures j < |s| && ws != [] && ws[|ws| - 1] == s[j..] && s[j..] in words
    ensures Splits(words, ws[..|ws| - 1], s[..j])
  {
    assert ws != [];
    var init, w := ws[..|ws| - 1], ws[|ws| - 1];
    assert Concat(ws) == Concat(init) + w;
    j := |Concat(init)|;
    assert s[..j] == Concat(init) && s[j..] == w;
  }

  /** Every listed layout of `s` is a layout of `s`. */
  lemma {:induction false} LayoutsSound(words: set<string>, s: string, i: nat)
    requires i < |Layouts(words, s)|
    ensures Splits(words, Layouts(words, s)[i], s)
    decreases |s|, 1
  {
    if s != [] {
      LayoutsBeforeSound(words, s, |s|, i);
    }
  }

  lemma {:induction false} LayoutsBeforeSound(words: set<string>, s: string, m: nat, i: nat)
    requires m <= |s| && i < |LayoutsBefore(words, s, m)|
    ensures Splits(words, LayoutsBefore(words, s, m)[i], s)
    decreases |s|, 0, m
  {
    var before := LayoutsBefore(words, s, m - 1);
    if i < |before| {
      LayoutsBeforeSound(words, s, m - 1, i);
    } else {
      var j := m - 1;
      var ls := Layouts(words, s[..j]);
      LayoutsSound(words, s[..j], i - |before|);
      SplitsSnoc(words, ls[i - |before|], s, j);
    }
  }

  /** Every layout of `s` is listed. */
  lemma {:induction false} LayoutsComplete(words: set<string>, ws: seq<string>, s: string)
    requires Splits(words, ws, s)
    ensures ws in Layouts(words, s)
    decreases |s|
  {
    if s == [] {
      if ws != [] {
        var j := SplitsLast(words, ws, s);
      }
    } else {
      var j := SplitsLast(words, ws, s);
      var init := ws[..|ws| - 1];
      LayoutsComplete(words, init, s[..j]);
      var k :| 0 <= k < |Layouts(words, s[..j])| && Layouts(words, s[..j])[k] == init;
      assert ws == init + [s[j..]];
      LayoutsBeforeHas(words, s, |s|, j, k);
    }
  }

  /** The block of towel `s[j..]` lies inside the layouts whose last towel starts before `m`. */
  lemma {:induction false} LayoutsBeforeHas(words: set<string>, s: string, m: nat, j: nat, k: nat)
    requires j < m <= |s| && s[j..] in words && k < |Layouts(words, s[..j])|
    ensures Layouts(words, s[..j])[k] + [s[j..]] in LayoutsBefore(words, s, m)
    decreases m
  {
    if j < m - 1 {
      LayoutsBeforeHas(words, s, m - 1, j, k);
    } else {
      var e := Extend(Layouts(words, s[..j]), s[j..]);
      assert e[k] in e;
    }
  }

  /** `Ways` counts the listed layouts. */
  lemma {:induction false} LayoutsCount(words: set<string>, s: string)
    ensures |Layouts(words, s)| == Ways(words, s)
    decreases |s|, 1
  {
    if s != [] {
      LayoutsBeforeCount(words, s, |s|);
    }
  }

  lemma {:induction false} LayoutsBeforeCount(words: set<string>, s: string, m: nat)
    requires m <= |s|
    ensures |LayoutsBefore(words, s, m)| == WaysBefore(words, s, m)
    decreases |s|, 0, m
  {
    if m > 0 {
      LayoutsBeforeCount(words, s, m - 1);
      LayoutsCount(words, s[..m - 1]);
    }
  }

  /** The layouts whose last towel starts before `m` end with a towel longer than `|s| - m`. */
  lemma {:induction false} LayoutsBeforeLast(words: set<string>, s: string, m: nat, i: nat)
    requires m <= |s| && i < |LayoutsBefore(words, s, m)|
    ensures LayoutsBefore(words, s, m)[i] != []
    ensures |LayoutsBefore(words, s, m)[i][|LayoutsBefore(words, s, m)[i]| - 1]| > |s| - m
    decreases m
  {
    var before := LayoutsBefore(words, s, m - 1);
    if i < |before| {
      LayoutsBeforeLast(words, s, m - 1, i);
    } else {
      var ws := LayoutsBefore(words, s, m)[i];
      assert ws == Layouts(words, s[..m - 1])[i - |before|] + [s[m - 1..]];
    }
  }

  predicate NoRepeats<T(==)>(xs: seq<T>)
  {
    forall i, j :: 0 <= i < j < |xs| ==> xs[i] != xs[j]
  }

  /** No layout is listed twice, so `Ways` is the number of distinct layouts. */
  lemma {:induction false} LayoutsDistinct(words: set<string>, s: string)
    ensures NoRepeats(Layouts(words, s))
    decreases |s|, 1
  {
    if s != [] {
      LayoutsBeforeDistinct(words, s, |s|);
    }
  }

  lemma {:induction false} LayoutsBeforeDistinct(words: set<string>, s: string, m: nat)
    requires m <= |s|
    ensures NoRepeats(LayoutsBefore(words, s, m))
    decreases |s|, 0, m
  {
    if m > 0 {
      var before := LayoutsBefore(words, s, m - 1);
      LayoutsBeforeDistinct(words, s, m - 1);
      if s[m - 1..] in words {
        var ls := Layouts(words, s[..m - 1]);
        var e := Extend(ls, s[m - 1..]);
        LayoutsDistinct(words, s[..m - 1]);
        ExtendDistinct(ls, s[m - 1..]);
        forall i, j | 0 <= i < |before| && 0 <= j < |e|
          ensures before[i] != e[j]
        {
          LayoutsBeforeLast(words, s, m - 1, i);
          assert e[j][|e[j]| - 1] == s[m - 1..];
        }
        AppendDistinct(before, e);
      }
    }
  }

  lemma ExtendDistinct(ls: seq<seq<string>>, w: string)
    requires NoRepeats(ls)
    ensures NoRepeats(Extend(ls, w))
  {
    var e := Extend(ls, w);
    assert forall i :: 0 <= i < |e| ==> e[i][..|e[i]| - 1] == ls[i];
  }

  lemma AppendDistinct<T>(xs: seq<T>, ys: seq<T>)
    requires NoRepeats(xs) && NoRepeats(ys)
    requires forall i, j :: 0 <= i < |xs| && 0 <= j < |ys| ==> xs[i] != ys[j]
    ensures NoRepeats(xs + ys)
  {
    var zs := xs + ys;
    forall i, j | 0 <= i < j < |zs|
      ensures zs[i] != zs[j]
    {
      if j < |xs| {
        assert zs[i] == xs[i] && zs[j] == xs[j];
      } else if i < |xs| {
        assert zs[i] == xs[i] && zs[j] == ys[j - |xs|];
      } else {
        assert zs[i] == ys[i - |xs|] && zs[j] == ys[j - |xs|];
      }
    }
  }

  /** A design can be laid out exactly when it has at least one layout. */
  lemma ComposedWays(words: set<string>, s: string)
    ensures Composed(words, s) <==> Ways(words, s) > 0
  {
    LayoutsCount(words, s);
    if Composed(words, s) {
      var ws :| Splits(words, ws, s);
      LayoutsComplete(words, ws, s);
    }
    if Ways(words, s) > 0 {
      LayoutsSound(words, s, 0);
    }
  }

  // ---------------------------------------------------------------------------
  // The trie

  type Kids = seq<map<char, nat>>

  /**
   * The shape of a trie stored in an arena: node 0 is the root, `kids[n]` maps
   * a character to the child of `n` along it, `terminal[n]` marks the end of an
   * inserted string. `node` maps every path spelled from the root to the node
   * it reaches, `paths` maps back, and `words` is the set of inserted strings.
   */
  ghost predicate Shaped(kids: Kids, terminal: seq<bool>, node: map<string, nat>, paths: seq<string>, words: set<string>)
  {
    && |terminal| == |kids| && |paths| == |kids| && [] in node && node[[]] == 0
    && (forall p {:trigger p in node} :: p in node ==> node[p] < |kids| && paths[node[p]] == p && (terminal[node[p]] <==> p in words))
    && (forall p, c {:trigger Edge(kids, node, p, c)} :: Edge(kids, node, p, c) ==> p + [c] in node && kids[node[p]][c] == node[p + [c]])
    && (forall q {:trigger Inner(node, q)} :: Inner(node, q) ==> Edge(kids, node, q[..|q| - 1], q[|q| - 1]))
    && (forall w {:trigger w in words} :: w in words ==> w in node)
  }

  /** The node of path `p` has an edge along `c`. */
  ghost predicate Edge(kids: Kids, node: map<string, nat>, p: string, c: char)
  {
    p in node && node[p] < |kids| && c in kids[node[p]]
  }

  /** `q` is a path of the trie other than the root's. */
  ghost predicate Inner(node: map<string, nat>, q: string)
  {
    q in node && q != []
  }

  /** Following `c` from the node of `p` reaches the node of `p + [c]`, and fails exactly when no path continues that way. */
  lemma EdgeIff(kids: Kids, terminal: seq<bool>, node: map<string, nat>, paths: seq<string>, words: set<string>, p: string, c: char)
    requires Shaped(kids, terminal, node, paths, words) && p in node
    ensures c in kids[node[p]] <==> p + [c] in node
    ensures c in kids[node[p]] ==> kids[node[p]][c] == node[p + [c]]
  {
    if p + [c] in node {
      var q := p + [c];
      assert Inner(node, q);
      assert q[..|q| - 1] == p;
    }
    if c in kids[node[p]] {
      assert Edge(kids, node, p, c);
    }
  }

  /** Every prefix of a path in the trie is in the trie. */
  lemma {:induction false} PrefixClosed(kids: Kids, terminal: seq<bool>, node: map<string, nat>, paths: seq<string>, words: set<string>, q: string, k: nat)
    requires Shaped(kids, terminal, node, paths, words) && q in node && k <= |q|
    ensures q[..k] in node
    decreases |q| - k
  {
    if k < |q| {
      var p := q[..|q| - 1];
      assert Inner(node, q);
      PrefixClosed(kids, terminal, node, paths, words, p, k);
      assert p[..k] == q[..k];
    } else {
      assert q[..k] == q;
    }
  }

  /** The arena with a new empty node, hung under node `n` along `c`. */
  function Sprout(kids: Kids, n: nat, c: char): (r: Kids)
    requires n < |kids|
    ensures |r| == |kids| + 1 && r[n] == kids[n][c := |kids|] && r[|kids|] == map[]
    ensures forall k :: 0 <= k < |kids| && k != n ==> r[k] == kids[k]
  {
    var edges: map<char, nat> := kids[n][c := |kids|];
    kids[n := edges] + [map[]]
  }

  /** Adding a missing child along `c` under the node of `p` keeps the shape. */
  lemma Grow(kids: Kids, terminal: seq<bool>, node: map<string, nat>, paths: seq<string>, words: set<string>, p: string, c: char)
    requires Shaped(kids, terminal, node, paths, words) && p in node && c !in kids[node[p]]
    ensures p + [c] !in node
    ensures Shaped(Sprout(kids, node[p], c), terminal + [false],
                   node[p + [c] := |kids|], paths + [p + [c]], words)
  {
    EdgeIff(kids, terminal, node, paths, words, p, c);
    GrowNodes(kids, terminal, node, paths, words, p, c);
    GrowEdges(kids, terminal, node, paths, words, p, c);
    GrowAllHangs(kids, terminal, node, paths, words, p, c);
  }

  lemma GrowNodes(kids: Kids, terminal: seq<bool>, node: map<string, nat>, paths: seq<string>, words: set<string>, p: string, c: char)
    requires Shaped(kids, terminal, node, paths, words) && p in node && p + [c] !in node
    ensures forall r {:trigger r in node[p + [c] := |kids|]} :: r in node[p + [c] := |kids|] ==>
      node[p + [c] := |kids|][r] < |kids| + 1 && (paths + [p + [c]])[node[p + [c] := |kids|][r]] == r &&
      ((terminal + [false])[node[p + [c] := |kids|][r]] <==> r in words)
  {
    var q := p + [c];
    var m: nat := |kids|;
    var node' := node[q := m];
    forall r | r in node'
      ensures node'[r] < |kids| + 1 && (paths + [q])[node'[r]] == r && ((terminal + [false])[node'[r]] <==> r in words)
    {
      if r != q {
        assert r in node;
      } else {
        assert q !in words;
      }
    }
  }

  lemma GrowEdges(kids: Kids, terminal: seq<bool>, node: map<string, nat>, paths: seq<string>, words: set<string>, p: string, c: char)
    requires Shaped(kids, terminal, node, paths, words) && p in node && c !in kids[node[p]] && p + [c] !in node
    ensures forall r, d {:trigger Edge(Sprout(kids, node[p], c), node[p + [c] := |kids|], r, d)} ::
      Edge(Sprout(kids, node[p], c), node[p + [c] := |kids|], r, d) ==>
        r + [d] in node[p + [c] := |kids|] &&
        Sprout(kids, node[p], c)[node[p + [c] := |kids|][r]][d] == node[p + [c] := |kids|][r + [d]]
  {
    forall r, d | Edge(Sprout(kids, node[p], c), node[p + [c] := |kids|], r, d)
      ensures r + [d] in node[p + [c] := |kids|]
      ensures Sprout(kids, node[p], c)[node[p + [c] := |kids|][r]][d] == node[p + [c] := |kids|][r + [d]]
    {
      GrowEdge(kids, terminal, node, paths, words, p, c, r, d);
    }
  }

  lemma GrowAllHangs(kids: Kids, terminal: seq<bool>, node: map<string, nat>, paths: seq<string>, words: set<string>, p: string, c: char)
    requires Shaped(kids, terminal, node, paths, words) && p in node && c !in kids[node[p]] && p + [c] !in node
    ensures forall r {:trigger Inner(node[p + [c] := |kids|], r)} :: Inner(node[p + [c] := |kids|], r) ==>
      Edge(Sprout(kids, node[p], c), node[p + [c] := |kids|], r[..|r| - 1], r[|r| - 1])
  {
    forall r | Inner(node[p + [c] := |kids|], r)
      ensures Edge(Sprout(kids, node[p], c), node[p + [c] := |kids|], r[..|r| - 1], r[|r| - 1])
    {
      GrowHangs(kids, terminal, node, paths, words, p, c, r);
    }
  }

  /** A path of the grown arena hangs off its parent: the new one off `p`, the others as before. */
  lemma GrowHangs(kids: Kids, terminal: seq<bool>, node: map<string, nat>, paths: seq<string>, words: set<string>,
                  p: string, c: char, r: string)
    requires Shaped(kids, terminal, node, paths, words) && p in node && c !in kids[node[p]] && p + [c] !in node
    requires Inner(node[p + [c] := |kids|], r)
    ensures Edge(Sprout(kids, node[p], c), node[p + [c] := |kids|], r[..|r| - 1], r[|r| - 1])
  {
    var q := p + [c];
    assert q[..|q| - 1] == p;
    if r != q {
      assert Inner(node, r);
    }
  }

  /** An edge of the grown arena is the new edge or an old one. */
  lemma GrowEdge(kids: Kids, terminal: seq<bool>, node: map<string, nat>, paths: seq<string>, words: set<string>,
                 p: string, c: char, r: string, d: char)
    requires Shaped(kids, terminal, node, paths, words) && p in node && c !in kids[node[p]] && p + [c] !in node
    requires Edge(Sprout(kids, node[p], c), node[p + [c] := |kids|], r, d)
    ensures r + [d] in node[p + [c] := |kids|]
    ensures Sprout(kids, node[p], c)[node[p + [c] := |kids|][r]][d] == node[p + [c] := |kids|][r + [d]]
  {
    var n, m, q := node[p], |kids|, p + [c];
    var kids', node' := Sprout(kids, n, c), node[q := m];
    assert r != q;
    assert r in node && node'[r] == node[r];
    assert (r + [d])[..|r|] == r && (r + [d])[|r|] == d;
    assert q[..|p|] == p && q[|p|] == c;
    if node[r] == n {
      assert paths[node[r]] == r;
      if d != c {
        assert Edge(kids, node, r, d);
      }
    } else {
      assert Edge(kids, node, r, d);
    }
  }

  /** Marking the node of `s` as terminal records `s` as inserted. */
  lemma Mark(kids: Kids, terminal: seq<bool>, node: map<string, nat>, paths: seq<string>, words: set<string>, s: string)
    requires Shaped(kids, terminal, node, paths, words) && s in node
    ensures Shaped(kids, terminal[node[s] := true], node, paths, words + {s})
  {
  }

  /** A trie of strings over the arena described by `Shaped`. */
  class Trie {
    var kids: Kids
    var terminal: seq<bool>
    ghost var node: map<string, nat>
    ghost var paths: seq<string>
    ghost var words: set<string>

    ghost predicate Valid()
      reads this
    {
      Shaped(kids, terminal, node, paths, words)
    }

    constructor ()
      ensures Valid() && words == {} && node.Keys == {[]}
    {
      kids := [map[]];
      terminal := [false];
      node := map[[] := 0];
      paths := [[]];
      words := {};
    }

    /** The child of node `n` along `c`, if there is one. */
    function TryGo(n: nat, c: char): (r: Option<nat>)
      reads this
      requires n < |kids|
      ensures r.Some? ==> c in kids[n]
    {
      if c in kids[n] then Some(kids[n][c]) else None
    }

    /** Following `c` from the node of `p` reaches the node of `p + [c]`, and fails exactly when no inserted path continues that way. */
    lemma TryGoPath(p: string, c: char)
      requires Valid() && p in node
      ensures TryGo(node[p], c).Some? <==> p + [c] in node
      ensures TryGo(node[p], c).Some? ==> TryGo(node[p], c).value == node[p + [c]]
    {
      EdgeIff(kids, terminal, node, paths, words, p, c);
    }

    /** The child of the node of `p` along `c`, made when missing. */
    method Go(ghost p: string, n: nat, c: char) returns (m: nat)
      requires Valid() && p in node && n == node[p]
      modifies this
      ensures Valid() && words == old(words)
      ensures p + [c] in node && m == node[p + [c]]
      ensures node.Keys == old(node.Keys) + {p + [c]}
      ensures forall q :: q in old(node) ==> node[q] == old(node)[q]
    {
      TryGoPath(p, c);
      if c in kids[n] {
        m := kids[n][c];
      } else {
        Grow(kids, terminal, node, paths, words, p, c);
        m := |kids|;
        kids := Sprout(kids, n, c);
        terminal := terminal + [false];
        node := node[p + [c] := m];
        paths := paths + [p + [c]];
      }
    }

    /** Stores `s`: after it the node reached by `s` is terminal, and no node was removed or moved. */
    method Insert(s: string)
      requires Valid()
      modifies this
      ensures Valid() && words == old(words) + {s}
      ensures s in node && terminal[node[s]]
      ensures forall q :: q in old(node) ==> q in node && node[q] == old(node)[q]
    {
      var n := 0;
      for i := 0 to |s|
        invariant Valid() && words == old(words) && s[..i] in node && n == node[s[..i]]
        invariant forall q :: q in old(node) ==> q in node && node[q] == old(node)[q]
      {
        n := Go(s[..i], n, s[i]);
        assert s[..i] + [s[i]] == s[..i + 1];
      }
      assert s[..|s|] == s;
      Mark(kids, terminal, node, paths, words, s);
      terminal := terminal[n := true];
      words := words + {s};
    }

    /** The lengths of the inserted strings that are prefixes of `s`, shortest first. */
    method Prefixes(s: string) returns (res: seq<nat>)
      requires Valid()
      ensures res == Matches(words, s, |s|)
    {
      res := [];
      var n := 0;
      var i := 0;
      assert s[..0] == [];
      while i < |s|
        invariant i <= |s| && s[..i] in node && n == node[s[..i]]
        invariant res == Matches(words, s, i)
        decreases |s| - i
      {
        TryGoPath(s[..i], s[i]);
        assert s[..i] + [s[i]] == s[..i + 1];
        match TryGo(n, s[i]) {
          case Some(next) =>
            n := next;
            if terminal[n] {
              res := res + [i + 1];
            }
            i := i + 1;
          case None =>
            Unmatched(s, i);
            return;
        }
      }
    }

    /** Once `s[..i + 1]` leaves the trie, no longer prefix of `s` was inserted. */
    lemma Unmatched(s: string, i: nat)
      requires Valid() && i < |s| && s[..i + 1] !in node
      ensures Matches(words, s, |s|) == Matches(words, s, i)
    {
      forall j | i < j <= |s|
        ensures !Prefixed(words, s, j)
      {
        assert s[..j][..i + 1] == s[..i + 1];
        if s[..j] in words {
          PrefixClosed(kids, terminal, node, paths, words, s[..j], i + 1);
        }
      }
      MatchesBeyond(words, s, i, |s|);
    }
  }

  /** `s[..j]` was inserted. */
  predicate Prefixed(words: set<string>, s: string, j: nat)
  {
    j <= |s| && s[..j] in words
  }

  /** The lengths `j` in `1..k` with `s[..j]` in `words`, increasing. */
  ghost function Matches(words: set<string>, s: string, k: nat): seq<nat>
    requires k <= |s|
  {
    if k == 0 then [] else Matches(words, s, k - 1) + (if s[..k] in words then [k] else [])
  }

  /** `Matches` lists exactly the lengths of the inserted prefixes of `s` up to `k`. */
  lemma {:induction false} MatchesHas(words: set<string>, s: string, k: nat, j: nat)
    requires k <= |s|
    ensures j in Matches(words, s, k) <==> 1 <= j <= k && s[..j] in words
  {
    if k > 0 {
      MatchesHas(words, s, k - 1, j);
    }
  }

  /** `Matches` is strictly increasing. */
  lemma {:induction false} MatchesIncreasing(words: set<string>, s: string, k: nat)
    requires k <= |s|
    ensures forall a, b :: 0 <= a < b < |Matches(words, s, k)| ==> Matches(words, s, k)[a] < Matches(words, s, k)[b]
  {
    if k > 0 {
      MatchesIncreasing(words, s, k - 1);
      var m := Matches(words, s, k - 1);
      forall t | 0 <= t < |m|
        ensures m[t] < k
      {
        MatchesHas(words, s, k - 1, m[t]);
      }
    }
  }

  /** Past `i`, when no longer prefix was inserted, the list does not grow. */
  lemma {:induction false} MatchesBeyond(words: set<string>, s: string, i: nat, k: nat)
    requires i <= k <= |s| && forall j :: i < j <= |s| ==> !Prefixed(words, s, j)
    ensures Matches(words, s, k) == Matches(words, s, i)
  {
    if k > i {
      assert !Prefixed(words, s, k);
      MatchesBeyond(words, s, i, k - 1);
    }
  }

  // ---------------------------------------------------------------------------
  // The tables

  /**
   * Entry `k` of the counting table once positions before `i` are processed:
   * the layouts of `s[..k]` whose last towel starts before `i`.
   */
  function Partial(words: set<string>, s: string, i: nat, k: nat): nat
    requires k <= |s|
  {
    if k == 0 then 1 else WaysBefore(words, s[..k], if i < k then i else k)
  }

  /** Processing position `i` adds the layouts of `s[..i]` to every entry `k` with `s[i..k]` a towel. */
  lemma PartialStep(words: set<string>, s: string, i: nat, k: nat)
    requires i < |s| && k <= |s|
    ensures Partial(words, s, i + 1, k) == Partial(words, s, i, k) + (if i < k && s[i..k] in words then Ways(words, s[..i]) else 0)
  {
    if i < k {
      var t := s[..k];
      assert t[..i] == s[..i];
      assert t[i..] == s[i..k];
    }
  }

  /** Once position `k` is reached, entry `k` holds the layouts of `s[..k]`. */
  lemma PartialDone(words: set<string>, s: string, k: nat)
    requires k <= |s|
    ensures Partial(words, s, k, k) == Ways(words, s[..k])
  {
  }

  /** Towel lengths matched at position `i` name exactly the entries `i + j` with `s[i..i + j]` a towel. */
  lemma MatchesAt(words: set<string>, s: string, i: nat, k: nat)
    requires i < k <= |s|
    ensures (k - i) in Matches(words, s[i..], |s| - i) <==> s[i..k] in words
  {
    MatchesHas(words, s[i..], |s| - i, k - i);
    assert s[i..][..k - i] == s[i..k];
  }

  /** Part two's inner loop: `counts[i + j] += counts[i]` for each matched length `j`. */
  method Spread(counts: array<nat>, ghost words: set<string>, ghost s: string, i: nat, js: seq<nat>)
    requires counts.Length == |s| + 1 && i < |s| && js == Matches(words, s[i..], |s| - i)
    requires forall k :: 0 <= k <= |s| ==> counts[k] == Partial(words, s, i, k)
    modifies counts
    ensures forall k :: 0 <= k <= |s| ==> counts[k] == Partial(words, s, i + 1, k)
  {
    ghost var w := Ways(words, s[..i]);
    PartialDone(words, s, i);
    MatchesIncreasing(words, s[i..], |s| - i);
    for t := 0 to |js|
      invariant counts[i] == w
      invariant forall k :: 0 <= k <= |s| ==> counts[k] == Partial(words, s, i, k) + (if k - i in js[..t] then w else 0)
    {
      MatchesHas(words, s[i..], |s| - i, js[t]);
      assert js[t] !in js[..t];
      assert js[..t + 1] == js[..t] + [js[t]];
      counts[i + js[t]] := counts[i + js[t]] + counts[i];
    }
    assert js[..|js|] == js;
    forall k | 0 <= k <= |s|
      ensures counts[k] == Partial(words, s, i + 1, k)
    {
      PartialStep(words, s, i, k);
      if i < k {
        MatchesAt(words, s, i, k);
      } else if k - i in js {
        MatchesHas(words, s[i..], |s| - i, k - i);
      }
    }
  }

  /** `PartTwo::check`: the number of layouts of the design. */
  method CountWays(trie: Trie, design: string) returns (r: nat)
    requires trie.Valid()
    ensures r == Ways(trie.words, design)
  {
    var n := |design|;
    var counts := new nat[n + 1](k => if k == 0 then 1 else 0);
    for i := 0 to n
      invariant forall k :: 0 <= k <= n ==> counts[k] == Partial(trie.words, design, i, k)
    {
      var js := trie.Prefixes(design[i..]);
      Spread(counts, trie.words, design, i, js);
    }
    r := counts[n];
    PartialDone(trie.words, design, n);
    assert design[..n] == design;
  }

  /** Part one's inner loop: `reachable[i + j] = true` for each matched length `j`, from a reachable `i`. */
  method Reach(reachable: array<bool>, ghost words: set<string>, ghost s: string, i: nat, js: seq<nat>)
    requires reachable.Length == |s| + 1 && i < |s| && js == Matches(words, s[i..], |s| - i)
    requires forall k :: 0 <= k <= |s| ==> (reachable[k] <==> Partial(words, s, i, k) > 0)
    requires reachable[i]
    modifies reachable
    ensures forall k :: 0 <= k <= |s| ==> (reachable[k] <==> Partial(words, s, i + 1, k) > 0)
  {
    PartialDone(words, s, i);
    MatchesHas(words, s[i..], |s| - i, 0);
    for t := 0 to |js|
      invariant forall k :: 0 <= k <= |s| ==> (reachable[k] <==> Partial(words, s, i, k) > 0 || k - i in js[..t])
    {
      MatchesHas(words, s[i..], |s| - i, js[t]);
      assert js[..t + 1] == js[..t] + [js[t]];
      reachable[i + js[t]] := true;
    }
    assert js[..|js|] == js;
    forall k | 0 <= k <= |s|
      ensures reachable[k] <==> Partial(words, s, i + 1, k) > 0
    {
      PartialStep(words, s, i, k);
      if i < k {
        MatchesAt(words, s, i, k);
      } else if k - i in js {
        MatchesHas(words, s[i..], |s| - i, k - i);
      }
    }
  }

  /** `PartOne::check`: whether the design can be laid out with the towels. */
  method CanMake(trie: Trie, design: string) returns (ok: bool)
    requires trie.Valid()
    ensures ok <==> Composed(trie.words, design)
  {
    var n := |design|;
    var reachable := new bool[n + 1](k => k == 0);
    for i := 0 to n
      invariant forall k :: 0 <= k <= n ==> (reachable[k] <==> Partial(trie.words, design, i, k) > 0)
    {
      if !reachable[i] {
        forall k | 0 <= k <= n
          ensures reachable[k] <==> Partial(trie.words, design, i + 1, k) > 0
        {
          PartialDone(trie.words, design, i);
          PartialStep(trie.words, design, i, k);
        }
        continue;
      }
      var js := trie.Prefixes(design[i..]);
      Reach(reachable, trie.words, design, i, js);
    }
    ok := reachable[n];
    PartialDone(trie.words, design, n);
    assert design[..n] == design;
    ComposedWays(trie.words, design);
  }

  // ---------------------------------------------------------------------------
  // Both parts

  /** The trie holding every towel. */
  method Build(towels: seq<string>) returns (trie: Trie)
    ensures fresh(trie) && trie.Valid() && trie.words == set t | t in towels
  {
    trie := new Trie();
    for k := 0 to |towels|
      invariant fresh(trie) && trie.Valid() && trie.words == set t | t in towels[..k]
    {
      trie.Insert(towels[k]);
      assert towels[..k + 1] == towels[..k] + [towels[k]];
    }
    assert towels[..|towels|] == towels;
  }

  /** How many of the designs can be laid out. */
  ghost function Possible(words: set<string>, designs: seq<string>): nat
  {
    if designs == [] then 0
    else Possible(words, designs[..|designs| - 1]) + (if Composed(words, designs[|designs| - 1]) then 1 else 0)
  }

  /** The layouts of all designs together. */
  function Arrangements(words: set<string>, designs: seq<string>): nat
  {
    if designs == [] then 0
    else Arrangements(words, designs[..|designs| - 1]) + Ways(words, designs[|designs| - 1])
  }

  /** Part one: the number of designs that can be laid out with the towels. */
  method SolvePartOne(input: Input) returns (count: nat)
    ensures count == Possible((set t | t in input.towels), input.designs)
  {
    var trie := Build(input.towels);
    count := 0;
    for k := 0 to |input.designs|
      invariant trie.Valid() && trie.words == (set t | t in input.towels)
      invariant count == Possible(trie.words, input.designs[..k])
    {
      var ok := CanMake(trie, input.designs[k]);
      assert input.designs[..k + 1][..k] == input.designs[..k];
      if ok {
        count := count + 1;
      }
    }
    assert input.designs[..|input.designs|] == input.designs;
  }

  /** Part two: the total number of layouts over all designs. */
  method SolvePartTwo(input: Input) returns (total: nat)
    ensures total == Arrangements((set t | t in input.towels), input.designs)
  {
    var trie := Build(input.towels);
    total := 0;
    for k := 0 to |input.designs|
      invariant trie.Valid() && trie.words == (set t | t in input.towels)
      invariant total == Arrangements(trie.words, input.designs[..k])
    {
      var r := CountWays(trie, input.designs[k]);
      assert input.designs[..k + 1][..k] == input.designs[..k];
      total := total + r;
    }
    assert input.designs[..|input.designs|] == input.designs;
  }

  /** Every design that can be laid out has at least one layout, so part one never exceeds part two. */
  lemma {:induction false} PossibleAtMostArrangements(words: set<string>, designs: seq<string>)
    ensures Possible(words, designs) <= Arrangements(words, designs)
  {
    if designs != [] {
      PossibleAtMostArrangements(words, designs[..|designs| - 1]);
      ComposedWays(words, designs[|designs| - 1]);
    }
  }
}
