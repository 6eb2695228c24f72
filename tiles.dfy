/**
 * 2025 day 9: red tiles are the corners of a closed rectilinear polygon.
 * Part one finds the largest rectangle with two red corners; part two only
 * counts rectangles that stay inside the polygon, which it checks on a
 * compressed grid whose outside is found by a flood fill.
 */
module Tiles {
  import opened Text

  datatype Point = Point(x: int, y: int)

  datatype Cell = Unknown | Outside | Boundary

  function Abs(n: int): int { if n < 0 then -n else n }

  function Min(a: int, b: int): int { if a <= b then a else b }

  function Max(a: int, b: int): int { if a >= b then a else b }

  // ---------------------------------------------------------------------------
  // Parsing

  /** A line is `x,y`. */
  function ParsePoint(line: string): Option<Point>
  {
    match SplitOnce(line, ",")
    case None => None
    case Some((a, b)) =>
      match (ParseInt(a), ParseInt(b))
      case (Some(x), Some(y)) => Some(Point(x, y))
      case _ => None
  }

  function ParsePoints(lines: seq<string>): (r: Option<seq<Point>>)
    ensures r.Some? <==> forall k :: 0 <= k < |lines| ==> ParsePoint(lines[k]).Some?
    ensures r.Some? ==> |r.value| == |lines| && forall k :: 0 <= k < |lines| ==> r.value[k] == ParsePoint(lines[k]).value
  {
    if lines == [] then Some([])
    else
      var init := ParsePoints(lines[..|lines| - 1]);
      var last := ParsePoint(lines[|lines| - 1]);
      assert forall k :: 0 <= k < |lines| - 1 ==> lines[..|lines| - 1][k] == lines[k];
      if init.None? || last.None? then None else Some(init.value + [last.value])
  }

  function ParseInput(s: string): Option<seq<Point>>
  {
    ParsePoints(Lines(s))
  }

  // ---------------------------------------------------------------------------
  // Part one

  /** The number of tiles of the rectangle with opposite corners `p` and `q`. */
  function Area(p: Point, q: Point): int
  {
    (Abs(q.x - p.x) + 1) * (Abs(q.y - p.y) + 1)
  }

  lemma AreaPositive(p: Point, q: Point)
    ensures Area(p, q) >= 1
  {
    var a, b := Abs(q.x - p.x), Abs(q.y - p.y);
    assert (a + 1) * (b + 1) == a * b + a + b + 1;
    assert a * b >= 0;
  }

  /** Where the inner maximum is reached: the other corner among `qs` giving the largest area with `p1`. */
  function RowArg(p1: Point, qs: seq<Point>): (k: nat)
    requires qs != []
    ensures k < |qs| && forall j :: 0 <= j < |qs| ==> Area(p1, qs[j]) <= Area(p1, qs[k])
  {
    if |qs| == 1 then 0
    else
      var k := RowArg(p1, qs[..|qs| - 1]);
      assert forall j :: 0 <= j < |qs| - 1 ==> qs[..|qs| - 1][j] == qs[j];
      if Area(p1, qs[k]) >= Area(p1, qs[|qs| - 1]) then k else |qs| - 1
  }

  /** Where the outer maximum of the row maxima is reached. */
  function RowsArg(ps: seq<Point>, qs: seq<Point>): (r: (nat, nat))
    requires ps != [] && qs != []
    ensures r.0 < |ps| && r.1 < |qs|
    ensures forall a, b :: 0 <= a < |ps| && 0 <= b < |qs| ==> Area(ps[a], qs[b]) <= Area(ps[r.0], qs[r.1])
  {
    if |ps| == 1 then (0, RowArg(ps[0], qs))
    else
      var (a, b) := RowsArg(ps[..|ps| - 1], qs);
      assert forall j :: 0 <= j < |ps| - 1 ==> ps[..|ps| - 1][j] == ps[j];
      var k := RowArg(ps[|ps| - 1], qs);
      if Area(ps[a], qs[b]) >= Area(ps[|ps| - 1], qs[k]) then (a, b) else (|ps| - 1, k)
  }

  /** Part one: the largest rectangle spanned by two red tiles; an empty input has none, where the source panics. */
  function PartOne(points: seq<Point>): (r: Option<int>)
    ensures r.None? <==> points == []
    ensures r.Some? ==> r.value >= 1
    ensures r.Some? ==> forall a, b :: 0 <= a < |points| && 0 <= b < |points| ==> Area(points[a], points[b]) <= r.value
    ensures r.Some? ==> exists a, b :: 0 <= a < |points| && 0 <= b < |points| && Area(points[a], points[b]) == r.value
  {
    if points == [] then None
    else
      var (a, b) := RowsArg(points, points);
      AreaPositive(points[a], points[b]);
      Some(Area(points[a], points[b]))
  }

  // ---------------------------------------------------------------------------
  // Compressed axes

  predicate Increasing(s: seq<int>)
  {
    forall a, b :: 0 <= a < b < |s| ==> s[a] < s[b]
  }

  /** Inserting into an ordered set kept as an increasing sequence. */
  function Insert(v: int, s: seq<int>): (r: seq<int>)
    requires Increasing(s)
    ensures Increasing(r)
    ensures forall u :: u in r <==> u in s || u == v
  {
    if s == [] then [v]
    else if v < s[0] then [v] + s
    else if v == s[0] then s
    else
      var rest := Insert(v, s[1..]);
      assert forall u :: u in s[1..] ==> s[0] < u;
      assert forall k :: 0 <= k < |rest| ==> s[0] < rest[k] by {
        assert forall k :: 0 <= k < |rest| ==> rest[k] in rest;
      }
      [s[0]] + rest
  }

  /** `BTreeSet::from_iter`: the distinct values in increasing order. */
  function FromIter(vals: seq<int>): (r: seq<int>)
    ensures Increasing(r)
    ensures forall u :: u in r <==> u in vals
  {
    if vals == [] then []
    else Insert(vals[|vals| - 1], FromIter(vals[..|vals| - 1]))
  }

  function MaxOf(s: seq<int>): (m: int)
    requires s != []
    ensures m in s && forall k :: 0 <= k < |s| ==> s[k] <= m
  {
    if |s| == 1 then s[0]
    else Max(MaxOf(s[..|s| - 1]), s[|s| - 1])
  }

  function Successors(s: seq<int>): (r: seq<int>)
    ensures |r| == |s| && forall k :: 0 <= k < |s| ==> r[k] == s[k] + 1
  {
    seq(|s|, k requires 0 <= k < |s| => s[k] + 1)
  }

  /** The compressed axis: every coordinate, every coordinate plus one, -1 and the largest coordinate plus one. */
  function Axis(coords: seq<int>): (axis: seq<int>)
    requires coords != []
  {
    var base := FromIter(coords);
    FromIter(base + [-1, MaxOf(base) + 1] + Successors(base))
  }

  lemma AxisSource(coords: seq<int>, u: int)
    requires coords != []
    ensures var base := FromIter(coords);
      u in base + [-1, MaxOf(base) + 1] + Successors(base) <==>
        u in coords || u - 1 in coords || u == -1 || u == MaxOf(base) + 1
  {
    var base := FromIter(coords);
    var t := Successors(base);
    if u - 1 in coords {
      var k :| 0 <= k < |base| && base[k] == u - 1;
      assert t[k] == u;
    }
    if u in t {
      var k :| 0 <= k < |t| && t[k] == u;
      assert base[k] == u - 1;
    }
  }

  /** The axis is increasing, and holds exactly the coordinates, their successors, -1 and the largest coordinate plus one. */
  lemma AxisFacts(coords: seq<int>)
    requires coords != []
    ensures Increasing(Axis(coords))
    ensures forall u :: u in Axis(coords) <==>
      u in coords || u - 1 in coords || u == -1 || u == MaxOf(FromIter(coords)) + 1
    ensures forall c :: c in coords ==> c < MaxOf(FromIter(coords)) + 1
  {
    var base := FromIter(coords);
    forall u
      ensures u in Axis(coords) <==> u in coords || u - 1 in coords || u == -1 || u == MaxOf(base) + 1
    {
      AxisSource(coords, u);
    }
    forall c | c in coords
      ensures c < MaxOf(base) + 1
    {
      var k :| 0 <= k < |base| && base[k] == c;
    }
  }

  /** `x_map`: each axis value to its index. */
  function IndexMap(axis: seq<int>): (m: map<int, nat>)
    requires Increasing(axis)
    ensures forall u :: u in m <==> u in axis
    ensures forall k :: 0 <= k < |axis| ==> axis[k] in m && m[axis[k]] == k
  {
    map k | 0 <= k < |axis| :: axis[k] := k
  }

  /** On an increasing axis the order of indices is the order of values. */
  lemma IndexOrder(axis: seq<int>, a: nat, b: nat)
    requires Increasing(axis) && a < |axis| && b < |axis|
    ensures a <= b <==> axis[a] <= axis[b]
  {
  }

  // ---------------------------------------------------------------------------
  // The polygon's boundary

  /** The segment from point `k` to the next point, cyclically. */
  function Next(points: seq<Point>, k: nat): Point
    requires k < |points|
  {
    points[(k + 1) % |points|]
  }

  /** Cell `(cx, cy)` of the compressed grid lies in the bounding box of segment `k`. */
  predicate OnSegment(points: seq<Point>, xs: seq<int>, ys: seq<int>, k: nat, cx: int, cy: int)
    requires k < |points|
  {
    0 <= cx < |xs| && 0 <= cy < |ys|
    && Min(points[k].x, Next(points, k).x) <= xs[cx] <= Max(points[k].x, Next(points, k).x)
    && Min(points[k].y, Next(points, k).y) <= ys[cy] <= Max(points[k].y, Next(points, k).y)
  }

  /** Cell `(cx, cy)` lies on one of the first `i` segments. */
  predicate OnSegments(points: seq<Point>, xs: seq<int>, ys: seq<int>, i: nat, cx: int, cy: int)
    requires i <= |points|
  {
    exists k :: 0 <= k < i && OnSegment(points, xs, ys, k, cx, cy)
  }

  /** The axes belong to the points: increasing, and holding every coordinate. */
  predicate AxesFor(points: seq<Point>, xs: seq<int>, ys: seq<int>)
  {
    Increasing(xs) && Increasing(ys)
    && (forall k :: 0 <= k < |points| ==> points[k].x in xs && points[k].y in ys)
  }

  /** The field's cells are Boundary exactly on `painted`, and Unknown elsewhere. */
  ghost predicate Painted(field: array2<Cell>, painted: set<(int, int)>)
    reads field
  {
    forall cy, cx :: 0 <= cy < field.Length0 && 0 <= cx < field.Length1 ==>
      field[cy, cx] == if (cx, cy) in painted then Boundary else Unknown
  }

  /** The cells of the compressed box `[x1, x2] x [y1, y2]`. */
  ghost function Box(x1: int, x2: int, y1: int, y2: int): set<(int, int)>
  {
    set cx, cy | x1 <= cx <= x2 && y1 <= cy <= y2 :: (cx, cy)
  }

  /** The grid cells on the first `i` segments. */
  ghost function SegmentCells(points: seq<Point>, xs: seq<int>, ys: seq<int>, i: nat): set<(int, int)>
    requires i <= |points|
  {
    set cx, cy | 0 <= cx < |xs| && 0 <= cy < |ys| && OnSegments(points, xs, ys, i, cx, cy) :: (cx, cy)
  }

  /** The field's cells are Boundary exactly on the first `i` segments, and Unknown elsewhere. */
  ghost predicate Marked(field: array2<Cell>, points: seq<Point>, xs: seq<int>, ys: seq<int>, i: nat)
    requires i <= |points|
    reads field
  {
    field.Length0 == |ys| && field.Length1 == |xs| && Painted(field, SegmentCells(points, xs, ys, i))
  }

  /** The compressed box of segment `k`: the indices of its smallest and largest x and y. */
  function BoxOf(points: seq<Point>, xs: seq<int>, ys: seq<int>, k: nat): (r: (nat, nat, nat, nat))
    requires AxesFor(points, xs, ys) && k < |points|
    ensures r.0 <= r.1 < |xs| && r.2 <= r.3 < |ys|
  {
    var xm, ym, q := IndexMap(xs), IndexMap(ys), Next(points, k);
    assert q.x in xs && q.y in ys;
    var x1, x2 := xm[Min(points[k].x, q.x)], xm[Max(points[k].x, q.x)];
    var y1, y2 := ym[Min(points[k].y, q.y)], ym[Max(points[k].y, q.y)];
    IndexOrder(xs, x1, x2);
    IndexOrder(ys, y1, y2);
    (x1, x2, y1, y2)
  }

  /** A grid cell is on segment `k` exactly when it is in the segment's compressed box. */
  lemma SegmentIndices(points: seq<Point>, xs: seq<int>, ys: seq<int>, k: nat, cx: int, cy: int)
    requires AxesFor(points, xs, ys) && k < |points|
    requires 0 <= cx < |xs| && 0 <= cy < |ys|
    ensures var b := BoxOf(points, xs, ys, k);
      OnSegment(points, xs, ys, k, cx, cy) <==> b.0 <= cx <= b.1 && b.2 <= cy <= b.3
  {
    var b := BoxOf(points, xs, ys, k);
    IndexOrder(xs, b.0, cx);
    IndexOrder(xs, cx, b.1);
    IndexOrder(ys, b.2, cy);
    IndexOrder(ys, cy, b.3);
  }

  /** The loop marking every segment's box as Boundary. */
  method MarkBoundary(field: array2<Cell>, points: seq<Point>, xs: seq<int>, ys: seq<int>)
    requires AxesFor(points, xs, ys) && Marked(field, points, xs, ys, 0)
    modifies field
    ensures Marked(field, points, xs, ys, |points|)
  {
    var xm, ym := IndexMap(xs), IndexMap(ys);
    for i := 0 to |points|
      invariant Marked(field, points, xs, ys, i)
    {
      var p, q := points[i], points[(i + 1) % |points|];
      assert q.x in xs && q.y in ys;
      var x1, x2 := xm[Min(p.x, q.x)], xm[Max(p.x, q.x)];
      var y1, y2 := ym[Min(p.y, q.y)], ym[Max(p.y, q.y)];
      assert (x1, x2, y1, y2) == BoxOf(points, xs, ys, i);
      SegmentCellsStep(points, xs, ys, i);
      MarkBox(field, SegmentCells(points, xs, ys, i), x1, x2, y1, y2);
    }
  }

  lemma SegmentCellsAt(points: seq<Point>, xs: seq<int>, ys: seq<int>, i: nat, cx: int, cy: int)
    requires i <= |points|
    ensures (cx, cy) in SegmentCells(points, xs, ys, i) <==> OnSegments(points, xs, ys, i, cx, cy)
  {
    if OnSegments(points, xs, ys, i, cx, cy) {
      var k :| 0 <= k < i && OnSegment(points, xs, ys, k, cx, cy);
    }
  }

  lemma OnSegmentsStep(points: seq<Point>, xs: seq<int>, ys: seq<int>, i: nat, cx: int, cy: int)
    requires i < |points|
    ensures OnSegments(points, xs, ys, i + 1, cx, cy) <==>
      OnSegments(points, xs, ys, i, cx, cy) || OnSegment(points, xs, ys, i, cx, cy)
  {
    if OnSegments(points, xs, ys, i + 1, cx, cy) && !OnSegment(points, xs, ys, i, cx, cy) {
      var k :| 0 <= k < i + 1 && OnSegment(points, xs, ys, k, cx, cy);
      assert k < i;
    }
  }

  lemma SegmentCellsStepAt(points: seq<Point>, xs: seq<int>, ys: seq<int>, i: nat, cx: int, cy: int)
    requires AxesFor(points, xs, ys) && i < |points|
    ensures var b := BoxOf(points, xs, ys, i);
      (cx, cy) in SegmentCells(points, xs, ys, i + 1) <==>
        (cx, cy) in SegmentCells(points, xs, ys, i) || (b.0 <= cx <= b.1 && b.2 <= cy <= b.3)
  {
    SegmentCellsAt(points, xs, ys, i, cx, cy);
    SegmentCellsAt(points, xs, ys, i + 1, cx, cy);
    OnSegmentsStep(points, xs, ys, i, cx, cy);
    if 0 <= cx < |xs| && 0 <= cy < |ys| {
      SegmentIndices(points, xs, ys, i, cx, cy);
    }
  }

  /** One segment adds its box to the marked cells. */
  lemma SegmentCellsStep(points: seq<Point>, xs: seq<int>, ys: seq<int>, i: nat)
    requires AxesFor(points, xs, ys) && i < |points|
    ensures var b := BoxOf(points, xs, ys, i);
      SegmentCells(points, xs, ys, i + 1) == SegmentCells(points, xs, ys, i) + Box(b.0, b.1, b.2, b.3)
  {
    var b := BoxOf(points, xs, ys, i);
    forall c ensures c in SegmentCells(points, xs, ys, i + 1) <==> c in SegmentCells(points, xs, ys, i) + Box(b.0, b.1, b.2, b.3) {
      SegmentCellsStepAt(points, xs, ys, i, c.0, c.1);
    }
  }

  /** The two inner loops: every cell of one box becomes Boundary. */
  method MarkBox(field: array2<Cell>, ghost painted: set<(int, int)>, x1: nat, x2: nat, y1: nat, y2: nat)
    requires Painted(field, painted) && x1 <= x2 < field.Length1 && y1 <= y2 < field.Length0
    modifies field
    ensures Painted(field, painted + Box(x1, x2, y1, y2))
  {
    for xx := x1 to x2 + 1
      invariant Painted(field, painted + Box(x1, xx - 1, y1, y2))
    {
      for yy := y1 to y2 + 1
        invariant Painted(field, painted + Box(x1, xx - 1, y1, y2) + Box(xx, xx, y1, yy - 1))
      {
        field[yy, xx] := Boundary;
      }
    }
  }

  // ---------------------------------------------------------------------------
  // Flood fill of the outside

  /** The four directions, in the order the fill tries them. */
  function Dir(d: int): (int, int)
  {
    if d == 0 then (-1, 0) else if d == 1 then (1, 0) else if d == 2 then (0, -1) else (0, 1)
  }

  function Neighbour(c: (int, int), d: int): (int, int)
  {
    (c.0 + Dir(d).0, c.1 + Dir(d).1)
  }

  predicate InGrid(c: (int, int), width: int, height: int)
  {
    0 <= c.0 < width && 0 <= c.1 < height
  }

  /** Cell `c` (column, row) is off the field or no longer Unknown. */
  ghost predicate Settled(field: array2<Cell>, c: (int, int))
    reads field
  {
    InGrid(c, field.Length1, field.Length0) ==> field[c.1, c.0] != Unknown
  }

  /** No neighbour of `c` is left Unknown. */
  ghost predicate Closed(field: array2<Cell>, c: (int, int))
    reads field
  {
    forall d :: 0 <= d < 4 ==> Settled(field, Neighbour(c, d))
  }

  /** `region` holds every non-wall grid neighbour of itself and of the start `(0, 0)`. */
  ghost predicate RegionClosed(region: set<(int, int)>, walls: set<(int, int)>, width: int, height: int)
  {
    forall c, d :: ((c in region || c == (0, 0)) && 0 <= d < 4
      && InGrid(Neighbour(c, d), width, height) && Neighbour(c, d) !in walls) ==> Neighbour(c, d) in region
  }

  ghost function GridCells(width: int, height: int): set<(int, int)>
  {
    set cx, cy | 0 <= cx < width && 0 <= cy < height :: (cx, cy)
  }

  /** The invariant of the fill's queue `q` (every cell ever pushed, `q[0]` the start). */
  ghost predicate Filling(field: array2<Cell>, walls: set<(int, int)>, region: set<(int, int)>,
                          q: seq<(int, int)>, unknown: set<(int, int)>)
    reads field
  {
    |q| >= 1 && q[0] == (0, 0)
    && (forall cy, cx :: 0 <= cy < field.Length0 && 0 <= cx < field.Length1 ==>
          (field[cy, cx] == Boundary <==> (cx, cy) in walls)
          && (field[cy, cx] == Unknown ==> (cx, cy) in unknown)
          && (field[cy, cx] == Outside ==> (cx, cy) in q[1..]))
    && (forall k :: 0 < k < |q| ==>
          InGrid(q[k], field.Length1, field.Length0) && field[q[k].1, q[k].0] == Outside && q[k] in region)
  }

  /** The first `n` cells of the queue have been processed. */
  ghost predicate ClosedUpTo(field: array2<Cell>, q: seq<(int, int)>, n: int)
    requires n <= |q|
    reads field
  {
    forall k :: 0 <= k < n ==> Closed(field, q[k])
  }

  /**
   * The breadth-first fill from `(0, 0)`: Unknown neighbours become Outside and are queued.
   * Afterwards the walls are unchanged, no Outside cell and not the start has an Unknown
   * neighbour, and every Outside cell lies in any region closed around the start.
   */
  method FloodFill(field: array2<Cell>, ghost walls: set<(int, int)>, ghost region: set<(int, int)>)
    requires Painted(field, walls) && RegionClosed(region, walls, field.Length1, field.Length0)
    modifies field
    ensures forall cy, cx :: 0 <= cy < field.Length0 && 0 <= cx < field.Length1 ==>
      (field[cy, cx] == Boundary <==> (cx, cy) in walls)
      && (field[cy, cx] == Outside ==> (cx, cy) in region && Closed(field, (cx, cy)))
    ensures Closed(field, (0, 0))
  {
    ghost var unknown := GridCells(field.Length1, field.Length0);
    var q := [(0, 0)];
    var head := 0;
    while head < |q|
      invariant 0 <= head <= |q|
      invariant Filling(field, walls, region, q, unknown) && ClosedUpTo(field, q, head)
      decreases |unknown|, |q| - head
    {
      q, unknown := Visit(field, walls, region, q, unknown, head);
      head := head + 1;
    }
    FillDone(field, walls, region, q, unknown);
  }

  /** One turn of the fill: the neighbours of queue cell `head` are settled. */
  method Visit(field: array2<Cell>, ghost walls: set<(int, int)>, ghost region: set<(int, int)>,
               q: seq<(int, int)>, ghost unknown: set<(int, int)>, head: nat)
    returns (q': seq<(int, int)>, ghost unknown': set<(int, int)>)
    requires head < |q| && Filling(field, walls, region, q, unknown) && ClosedUpTo(field, q, head)
    requires RegionClosed(region, walls, field.Length1, field.Length0)
    modifies field
    ensures |unknown'| + |q'| == |unknown| + |q| && |q'| >= |q|
    ensures Filling(field, walls, region, q', unknown') && ClosedUpTo(field, q', head + 1)
  {
    q', unknown' := q, unknown;
    var c := q[head];
    for d := 0 to 4
      invariant head < |q'| && c == q'[head] && |unknown'| + |q'| == |unknown| + |q| && |q'| >= |q|
      invariant Filling(field, walls, region, q', unknown') && ClosedUpTo(field, q', head)
      invariant forall e :: 0 <= e < d ==> Settled(field, Neighbour(c, e))
    {
      q', unknown' := Settle(field, walls, region, q', unknown', head, d);
    }
  }

  /** The fill's look at direction `d` from queue cell `head`: an Unknown neighbour becomes Outside and is queued. */
  method Settle(field: array2<Cell>, ghost walls: set<(int, int)>, ghost region: set<(int, int)>,
                q: seq<(int, int)>, ghost unknown: set<(int, int)>, head: nat, d: int)
    returns (q': seq<(int, int)>, ghost unknown': set<(int, int)>)
    requires head < |q| && 0 <= d < 4 && Filling(field, walls, region, q, unknown) && ClosedUpTo(field, q, head)
    requires RegionClosed(region, walls, field.Length1, field.Length0)
    modifies field
    ensures |unknown'| + |q'| == |unknown| + |q| && |q'| >= |q| && q'[head] == q[head]
    ensures Filling(field, walls, region, q', unknown') && ClosedUpTo(field, q', head)
    ensures Settled(field, Neighbour(q[head], d))
    ensures forall cy, cx :: 0 <= cy < field.Length0 && 0 <= cx < field.Length1 && old(field[cy, cx]) != Unknown ==>
      field[cy, cx] == old(field[cy, cx])
  {
    q', unknown' := q, unknown;
    var n := Neighbour(q[head], d);
    if 0 <= n.0 < field.Length1 && 0 <= n.1 < field.Length0 && field[n.1, n.0] == Unknown {
      assert n in unknown && n !in walls;
      assert n in region;
      field[n.1, n.0] := Outside;
      q' := q + [n];
      unknown' := unknown - {n};
      assert q'[1..] == q[1..] + [n];
    }
  }

  /** With the queue exhausted, every Outside cell has been processed. */
  lemma FillDone(field: array2<Cell>, walls: set<(int, int)>, region: set<(int, int)>,
                 q: seq<(int, int)>, unknown: set<(int, int)>)
    requires Filling(field, walls, region, q, unknown) && ClosedUpTo(field, q, |q|)
    ensures forall cy, cx :: 0 <= cy < field.Length0 && 0 <= cx < field.Length1 ==>
      (field[cy, cx] == Boundary <==> (cx, cy) in walls)
      && (field[cy, cx] == Outside ==> (cx, cy) in region && Closed(field, (cx, cy)))
    ensures Closed(field, (0, 0))
  {
    assert Closed(field, q[0]);
    forall cy, cx | 0 <= cy < field.Length0 && 0 <= cx < field.Length1 && field[cy, cx] == Outside
      ensures (cx, cy) in region && Closed(field, (cx, cy))
    {
      var k :| 0 <= k < |q| - 1 && q[1..][k] == (cx, cy);
      assert q[k + 1] == (cx, cy);
    }
  }

  // ---------------------------------------------------------------------------
  // The polygon

  function Xs(points: seq<Point>): (r: seq<int>)
    ensures |r| == |points| && forall k :: 0 <= k < |points| ==> r[k] == points[k].x
  {
    seq(|points|, k requires 0 <= k < |points| => points[k].x)
  }

  function Ys(points: seq<Point>): (r: seq<int>)
    ensures |r| == |points| && forall k :: 0 <= k < |points| ==> r[k] == points[k].y
  {
    seq(|points|, k requires 0 <= k < |points| => points[k].y)
  }

  /** The compressed axes hold every corner's coordinates. */
  lemma AxesOfPoints(points: seq<Point>)
    requires points != []
    ensures AxesFor(points, Axis(Xs(points)), Axis(Ys(points)))
    ensures |Axis(Xs(points))| >= 2 && |Axis(Ys(points))| >= 2
  {
    AxisFacts(Xs(points));
    AxisFacts(Ys(points));
    forall k | 0 <= k < |points|
      ensures points[k].x in Axis(Xs(points)) && points[k].y in Axis(Ys(points))
    {
      assert Xs(points)[k] == points[k].x && Ys(points)[k] == points[k].y;
    }
    AxisTwo(Xs(points));
    AxisTwo(Ys(points));
  }

  /** The axis holds at least a coordinate and the largest coordinate plus one. */
  lemma AxisTwo(coords: seq<int>)
    requires coords != []
    ensures |Axis(coords)| >= 2
  {
    AxisFacts(coords);
    var axis := Axis(coords);
    var m := MaxOf(FromIter(coords));
    var c := coords[0];
    assert c in coords;
    assert c in axis && m + 1 in axis && c < m + 1;
  }

  /** A corner lies on the compressed grid of `Polygon::new`. */
  lemma CornerOnGrid(points: seq<Point>, xs: seq<int>, ys: seq<int>, k: nat)
    requires AxesFor(points, xs, ys) && k < |points|
    ensures points[k].x in IndexMap(xs) && IndexMap(xs)[points[k].x] < |xs|
    ensures points[k].y in IndexMap(ys) && IndexMap(ys)[points[k].y] < |ys|
  {
    assert points[k].x in xs && points[k].y in ys;
    var a :| 0 <= a < |xs| && xs[a] == points[k].x;
    var b :| 0 <= b < |ys| && ys[b] == points[k].y;
  }

  /**
   * `Polygon::new`: the compressed axes, their index maps, and the field whose
   * Boundary cells are the segments' boxes and whose Outside cells were reached
   * by the flood fill from the corner `(0, 0)`.
   */
  class Polygon {
    const xs: seq<int>
    const ys: seq<int>
    const xMap: map<int, nat>
    const yMap: map<int, nat>
    const field: array2<Cell>

    /** The polygon was built from `points`. */
    ghost predicate Of(points: seq<Point>)
      reads field
    {
      points != [] && AxesOf(points, xs, ys, xMap, yMap) && Filled(field, points, xs, ys)
    }

    constructor (points: seq<Point>, ghost region: set<(int, int)>)
      requires points != []
      requires RegionClosed(region, SegmentCells(points, Axis(Xs(points)), Axis(Ys(points)), |points|),
                            |Axis(Xs(points))|, |Axis(Ys(points))|)
      ensures fresh(field) && Of(points)
      ensures forall cy, cx :: 0 <= cy < field.Length0 && 0 <= cx < field.Length1 && field[cy, cx] == Outside ==>
        (cx, cy) in region
    {
      var x, y, xm, ym := BuildAxes(points);
      var f := BuildField(points, x, y, region);
      xs, ys, xMap, yMap, field := x, y, xm, ym, f;
    }

    /** A corner whose coordinates index the field. */
    predicate Fits(p: Point)
    {
      p.x in xMap && xMap[p.x] < field.Length1 && p.y in yMap && yMap[p.y] < field.Length0
    }

    /** No cell of the compressed rectangle between two corners is Outside. */
    predicate Accepted(p1: Point, p2: Point)
      requires Fits(p1) && Fits(p2)
      reads field
    {
      !AnyOutside(Min(xMap[p1.x], xMap[p2.x]), Max(xMap[p1.x], xMap[p2.x]), Min(yMap[p1.y], yMap[p2.y]), Max(yMap[p1.y], yMap[p2.y]))
    }

    /** The outer `(x1..=x2).any(..)`: some column of the rectangle has an Outside cell. */
    predicate AnyOutside(x1: nat, x2: nat, y1: nat, y2: nat)
      requires x2 < field.Length1 && y2 < field.Length0
      reads field
      decreases x2 + 1 - x1
    {
      x1 <= x2 && (ColumnOutside(x1, y1, y2) || AnyOutside(x1 + 1, x2, y1, y2))
    }

    /** The inner `(y1..=y2).any(..)` over column `xx`. */
    predicate ColumnOutside(xx: nat, y1: nat, y2: nat)
      requires xx < field.Length1 && y2 < field.Length0
      reads field
      decreases y2 + 1 - y1
    {
      y1 <= y2 && (field[y1, xx] == Outside || ColumnOutside(xx, y1 + 1, y2))
    }

    lemma {:induction false} ColumnOutsideIff(xx: nat, y1: nat, y2: nat)
      requires xx < field.Length1 && y2 < field.Length0
      ensures ColumnOutside(xx, y1, y2) <==> exists yy :: y1 <= yy <= y2 && field[yy, xx] == Outside
      decreases y2 + 1 - y1
    {
      if y1 <= y2 {
        ColumnOutsideIff(xx, y1 + 1, y2);
      }
    }

    /** The two `any`s find an Outside cell exactly when the rectangle holds one. */
    lemma {:induction false} AnyOutsideIff(x1: nat, x2: nat, y1: nat, y2: nat)
      requires x2 < field.Length1 && y2 < field.Length0
      ensures AnyOutside(x1, x2, y1, y2) <==>
        exists xx, yy :: x1 <= xx <= x2 && y1 <= yy <= y2 && field[yy, xx] == Outside
      decreases x2 + 1 - x1
    {
      if x1 <= x2 {
        AnyOutsideIff(x1 + 1, x2, y1, y2);
        ColumnOutsideIff(x1, y1, y2);
        if AnyOutside(x1, x2, y1, y2) {
          if ColumnOutside(x1, y1, y2) {
            var yy :| y1 <= yy <= y2 && field[yy, x1] == Outside;
          }
        }
      }
    }

    /** The inner `filter_map(..).max().unwrap_or(0)`: the largest accepted rectangle with corner `p1` and another among the first `n` of `qs`. */
    function RowBest(p1: Point, qs: seq<Point>, n: nat): (r: int)
      requires n <= |qs| && Fits(p1) && forall j :: 0 <= j < |qs| ==> Fits(qs[j])
      reads field
      ensures r >= 0
    {
      if n == 0 then 0
      else
        var m := RowBest(p1, qs, n - 1);
        if Accepted(p1, qs[n - 1]) && Area(p1, qs[n - 1]) > m then Area(p1, qs[n - 1]) else m
    }

    /** The row best bounds every accepted rectangle with corner `p1`, and is one of them unless it is 0. */
    lemma {:induction false} RowBestIsMax(p1: Point, qs: seq<Point>, n: nat)
      requires n <= |qs| && Fits(p1) && forall j :: 0 <= j < |qs| ==> Fits(qs[j])
      ensures forall j :: 0 <= j < n && Accepted(p1, qs[j]) ==> Area(p1, qs[j]) <= RowBest(p1, qs, n)
      ensures RowBest(p1, qs, n) == 0
        || exists j :: 0 <= j < n && Accepted(p1, qs[j]) && Area(p1, qs[j]) == RowBest(p1, qs, n)
    {
      if n > 0 {
        RowBestIsMax(p1, qs, n - 1);
      }
    }

    /** Every corner of the polygon indexes its field. */
    lemma CornersFit(points: seq<Point>)
      requires Of(points)
      ensures forall j :: 0 <= j < |points| ==> Fits(points[j])
    {
      forall j | 0 <= j < |points|
        ensures Fits(points[j])
      {
        CornerOnGrid(points, xs, ys, j);
      }
    }

    /**
     * Part two on the built polygon: the largest rectangle between two corners whose
     * compressed cells are all inside, or 0 when there is none.
     */
    function Answer(points: seq<Point>): (r: int)
      requires forall j :: 0 <= j < |points| ==> Fits(points[j])
      reads field
      ensures r >= 0
    {
      MaxOrZero(Rows(points, |points|))
    }

    /** Part two's answer bounds every accepted rectangle. */
    lemma AnswerBounds(points: seq<Point>)
      requires forall j :: 0 <= j < |points| ==> Fits(points[j])
      ensures forall a, b :: 0 <= a < |points| && 0 <= b < |points| && Accepted(points[a], points[b]) ==>
        Area(points[a], points[b]) <= Answer(points)
    {
      forall a, b | 0 <= a < |points| && 0 <= b < |points| && Accepted(points[a], points[b])
        ensures Area(points[a], points[b]) <= Answer(points)
      {
        AnswerBoundsAt(points, a, b);
      }
    }

    lemma AnswerBoundsAt(points: seq<Point>, a: nat, b: nat)
      requires a < |points| && b < |points| && forall j :: 0 <= j < |points| ==> Fits(points[j])
      requires Accepted(points[a], points[b])
      ensures Area(points[a], points[b]) <= Answer(points)
    {
      var rows := Rows(points, |points|);
      RowBestIsMax(points[a], points, |points|);
      assert rows[a] == RowBest(points[a], points, |points|);
      assert rows[a] <= MaxOrZero(rows);
    }

    /** Part two's answer is an accepted rectangle unless it is 0. */
    lemma AnswerAttained(points: seq<Point>)
      requires forall j :: 0 <= j < |points| ==> Fits(points[j])
      ensures Answer(points) == 0 || exists a, b :: (0 <= a < |points| && 0 <= b < |points|
        && Accepted(points[a], points[b]) && Area(points[a], points[b]) == Answer(points))
    {
      var rows := Rows(points, |points|);
      var r := Answer(points);
      if r != 0 {
        var a :| 0 <= a < |rows| && rows[a] == r;
        RowBestIsMax(points[a], points, |points|);
        var b :| 0 <= b < |points| && Accepted(points[a], points[b]) && Area(points[a], points[b]) == r;
      }
    }

    /** Every segment's rectangle is accepted, so the answer is at least its area. */
    lemma SegmentsBelowAnswer(points: seq<Point>)
      requires Of(points)
      ensures forall j :: 0 <= j < |points| ==> Fits(points[j])
      ensures forall i :: 0 <= i < |points| ==> Area(points[i], Next(points, i)) <= Answer(points)
    {
      CornersFit(points);
      forall i | 0 <= i < |points|
        ensures Area(points[i], Next(points, i)) <= Answer(points)
      {
        SegmentAccepted(points, i);
        var k := (i + 1) % |points|;
        assert Next(points, i) == points[k];
        AnswerBoundsAt(points, i, k);
      }
    }

    /** Part two's answer is one of the rectangles part one maximises over, so it is at most part one's. */
    lemma AnswerBelowPartOne(points: seq<Point>)
      requires points != [] && forall j :: 0 <= j < |points| ==> Fits(points[j])
      ensures PartOne(points).Some? && Answer(points) <= PartOne(points).value
      ensures Answer(points) == 0 || exists a, b :: 0 <= a < |points| && 0 <= b < |points| && Area(points[a], points[b]) == Answer(points)
    {
      AnswerAttained(points);
    }

    /** The rectangle between two consecutive corners lies on the boundary, so it is never rejected. */
    lemma SegmentAccepted(points: seq<Point>, i: nat)
      requires Of(points) && i < |points|
      ensures Fits(points[i]) && Fits(Next(points, i)) && Accepted(points[i], Next(points, i))
    {
      CornersFit(points);
      var p, q := points[i], Next(points, i);
      assert Fits(q) by {
        assert q == points[(i + 1) % |points|];
      }
      var b := BoxOf(points, xs, ys, i);
      AxesMin(xs, p.x, q.x);
      AxesMin(ys, p.y, q.y);
      AnyOutsideIff(b.0, b.1, b.2, b.3);
      forall xx, yy | b.0 <= xx <= b.1 && b.2 <= yy <= b.3
        ensures field[yy, xx] != Outside
      {
        SegmentIndices(points, xs, ys, i, xx, yy);
        SegmentCellsAt(points, xs, ys, |points|, xx, yy);
      }
    }

    /** The row bests of the first `n` corners, in order. */
    function Rows(points: seq<Point>, n: nat): (r: seq<int>)
      requires n <= |points| && forall j :: 0 <= j < |points| ==> Fits(points[j])
      reads field
      ensures |r| == n && forall a {:trigger r[a]} :: 0 <= a < n ==> r[a] == RowBest(points[a], points, |points|)
    {
      if n == 0 then [] else Rows(points, n - 1) + [RowBest(points[n - 1], points, |points|)]
    }
  }

  /** The outer `max().unwrap_or(0)`. */
  function MaxOrZero(vals: seq<int>): (r: int)
    ensures r >= 0 && forall k :: 0 <= k < |vals| ==> vals[k] <= r
    ensures r == 0 || exists k :: 0 <= k < |vals| && vals[k] == r
  {
    if vals == [] then 0
    else
      var m := MaxOrZero(vals[..|vals| - 1]);
      assert forall k :: 0 <= k < |vals| - 1 ==> vals[..|vals| - 1][k] == vals[k];
      if vals[|vals| - 1] > m then vals[|vals| - 1] else m
  }

  /** Taking the smaller of two axis values commutes with looking up their indices. */
  lemma AxesMin(axis: seq<int>, u: int, v: int)
    requires Increasing(axis) && u in axis && v in axis
    ensures var m := IndexMap(axis);
      Min(m[u], m[v]) == m[Min(u, v)] && Max(m[u], m[v]) == m[Max(u, v)]
  {
    var m := IndexMap(axis);
    var a :| 0 <= a < |axis| && axis[a] == u;
    var b :| 0 <= b < |axis| && axis[b] == v;
    IndexOrder(axis, a, b);
  }

  /** The compressed axes of the corners and their index maps. */
  ghost predicate AxesOf(points: seq<Point>, xs: seq<int>, ys: seq<int>, xMap: map<int, nat>, yMap: map<int, nat>)
  {
    points != [] && xs == Axis(Xs(points)) && ys == Axis(Ys(points)) && AxesFor(points, xs, ys)
    && xMap == IndexMap(xs) && yMap == IndexMap(ys)
  }

  /** The axes and index maps of `Polygon::new`. */
  method BuildAxes(points: seq<Point>) returns (xs: seq<int>, ys: seq<int>, xMap: map<int, nat>, yMap: map<int, nat>)
    requires points != []
    ensures AxesOf(points, xs, ys, xMap, yMap)
  {
    AxesOfPoints(points);
    xs, ys := Axis(Xs(points)), Axis(Ys(points));
    xMap, yMap := IndexMap(xs), IndexMap(ys);
  }

  /**
   * The finished field: Boundary exactly on the segments' boxes, no Outside cell and
   * not the start with an Unknown neighbour.
   */
  ghost predicate Filled(field: array2<Cell>, points: seq<Point>, xs: seq<int>, ys: seq<int>)
    reads field
  {
    field.Length0 == |ys| && field.Length1 == |xs|
    && (forall cy, cx :: 0 <= cy < field.Length0 && 0 <= cx < field.Length1 ==>
          (field[cy, cx] == Boundary <==> (cx, cy) in SegmentCells(points, xs, ys, |points|))
          && (field[cy, cx] == Outside ==> Closed(field, (cx, cy))))
    && Closed(field, (0, 0))
  }

  /** The field of `Polygon::new`: all Unknown, then the boundary marked, then the outside filled. */
  method BuildField(points: seq<Point>, xs: seq<int>, ys: seq<int>, ghost region: set<(int, int)>)
    returns (field: array2<Cell>)
    requires AxesFor(points, xs, ys)
    requires RegionClosed(region, SegmentCells(points, xs, ys, |points|), |xs|, |ys|)
    ensures fresh(field) && Filled(field, points, xs, ys)
    ensures forall cy, cx :: 0 <= cy < field.Length0 && 0 <= cx < field.Length1 && field[cy, cx] == Outside ==>
      (cx, cy) in region
  {
    field := new Cell[|ys|, |xs|]((_, _) => Unknown);
    MarkBoundary(field, points, xs, ys);
    FloodFill(field, SegmentCells(points, xs, ys, |points|), region);
  }

  /** Every non-wall grid cell: a region closed around any start. */
  lemma AllOpenClosed(walls: set<(int, int)>, width: int, height: int)
    ensures RegionClosed(GridCells(width, height) - walls, walls, width, height)
  {
  }

  /**
   * Part two: build the polygon and take the largest accepted rectangle. An empty
   * input has none, where the source panics. The answer is at least the rectangle of
   * any segment and at most part one's answer.
   */
  method SolvePartTwo(points: seq<Point>) returns (r: Option<int>)
    ensures r.None? <==> points == []
    ensures r.Some? ==> PartOne(points).Some? && 1 <= r.value <= PartOne(points).value
    ensures r.Some? ==> forall i :: 0 <= i < |points| ==> Area(points[i], Next(points, i)) <= r.value
    ensures r.Some? ==> exists a, b :: 0 <= a < |points| && 0 <= b < |points| && Area(points[a], points[b]) == r.value
  {
    if points == [] {
      return None;
    }
    ghost var xs, ys := Axis(Xs(points)), Axis(Ys(points));
    ghost var walls := SegmentCells(points, xs, ys, |points|);
    AllOpenClosed(walls, |xs|, |ys|);
    var polygon := new Polygon(points, GridCells(|xs|, |ys|) - walls);
    polygon.CornersFit(points);
    var best := polygon.Answer(points);
    polygon.SegmentsBelowAnswer(points);
    polygon.AnswerBelowPartOne(points);
    AreaPositive(points[0], Next(points, 0));
    r := Some(best);
  }
}
