/**
 * A chain of keypads (aoc2024 problem 21).
 *
 * A human presses keys on a directional keypad; each key press drives the arm
 * of a robot standing in front of the next keypad, and the last robot types on
 * a numeric keypad.  Layer 0 is the human, layers 1..L are the directional
 * keypads of the L robots in between, and layer L+1 is the numeric keypad.
 *
 * Two solvers are modelled:
 *  - the literal state machine (`Go1`, `Run`) and the breadth-first search
 *    over its states (`ShortestTypings`);
 *  - the cost oracle (`Cost`), which counts the human key presses needed to
 *    move one arm from one key to another and press it, memoised by the
 *    `Oracle` class, and summed per code by `CodeCost`.
 *
 * The oracle as the code writes it is `CostAsWritten`; it differs from the
 * intended oracle in three places, each exhibited by a lemma below.
 */
module Keypads {
  import opened Text

  // ---------------------------------------------------------------------------
  // Geometry.  `x` is the row (growing downwards), `y` the column.

  datatype Direction = Left | Right | Up | Down
  datatype Pos = Pos(x: int, y: int)
  datatype Vector = Vector(dx: int, dy: int)
  datatype Action = Move(dir: Direction) | Type(key: char) | Activate

  const Zero := Vector(0, 0)

  /** Rest position of an arm over a directional keypad: its `A` key. */
  const DirectionalA := Pos(0, 2)

  /** Rest position of the arm over the numeric keypad: its `A` key. */
  const NumericA := Pos(3, 2)

  function Abs(n: int): nat { if n < 0 then -n else n }

  function Min(a: nat, b: nat): nat { if a <= b then a else b }

  function Plus(p: Pos, v: Vector): Pos { Pos(p.x + v.dx, p.y + v.dy) }

  function Add(v: Vector, w: Vector): Vector { Vector(v.dx + w.dx, v.dy + w.dy) }

  /** `Pos::to`: the displacement leading from `p` to `q`. */
  function To(p: Pos, q: Pos): Vector
  {
    Vector(q.x - p.x, q.y - p.y)
  }

  /** `To` is the displacement: adding it to `p` gives `q`, and it is zero exactly when `p` is `q`. */
  lemma ToIsDisplacement(p: Pos, q: Pos)
    ensures Plus(p, To(p, q)) == q
    ensures To(p, q) == Zero <==> p == q
  {
  }

  /** `Vector::to`: the displacement leading from point `v` to point `w`. */
  function Between(v: Vector, w: Vector): Vector
  {
    Vector(w.dx - v.dx, w.dy - v.dy)
  }

  /** Adding `Between(v, w)` to `v` gives `w`. */
  lemma BetweenIsDisplacement(v: Vector, w: Vector)
    ensures Add(v, Between(v, w)) == w
  {
  }

  /** `Vector::len`: Manhattan length. */
  function Len(v: Vector): nat { Abs(v.dx) + Abs(v.dy) }

  /** Number of axes along which `v` moves at all. */
  function Axes(v: Vector): nat { (if v.dx != 0 then 1 else 0) + (if v.dy != 0 then 1 else 0) }

  /** `Direction::offset`: one step of an arm. */
  function Offset(d: Direction): (v: Vector)
    ensures Len(v) == 1 && Axes(v) == 1
  {
    match d
      case Left => Vector(0, -1)
      case Right => Vector(0, 1)
      case Up => Vector(-1, 0)
      case Down => Vector(1, 0)
  }

  /** `Pos::shifted`. */
  function Shifted(p: Pos, d: Direction): (q: Pos)
    ensures To(p, q) == Offset(d)
  {
    Plus(p, Offset(d))
  }

  /**
   * `Vector::extra_clicks`: once an arm points at an arrow key, every further
   * step in the same direction costs one more press of `A` at the layer below.
   */
  function ExtraClicks(v: Vector): (n: nat)
    ensures n + Axes(v) == Len(v)
  {
    (if Abs(v.dx) > 1 then Abs(v.dx) - 1 else 0) + (if Abs(v.dy) > 1 then Abs(v.dy) - 1 else 0)
  }

  // ---------------------------------------------------------------------------
  // Keypads

  type Panel = seq<seq<Option<Action>>>

  /** `Panel::action`: the key under `p`, if `p` is inside the grid and not its gap. */
  function ActionAt(panel: Panel, p: Pos): Option<Action>
  {
    if 0 <= p.x < |panel| && 0 <= p.y < |panel[p.x]| then panel[p.x][p.y] else None
  }

  function DirectionalPanel(): Panel
  {
    [ [None, Some(Move(Up)), Some(Activate)],
      [Some(Move(Left)), Some(Move(Down)), Some(Move(Right))] ]
  }

  function NumericPanel(): Panel
  {
    [ [Some(Type('7')), Some(Type('8')), Some(Type('9'))],
      [Some(Type('4')), Some(Type('5')), Some(Type('6'))],
      [Some(Type('1')), Some(Type('2')), Some(Type('3'))],
      [None, Some(Type('0')), Some(Type('A'))] ]
  }

  /** `Direction::button_pos`: where the key of `d` lies, seen from the `A` key. */
  function ButtonPos(d: Direction): Vector
  {
    match d
      case Left => Vector(1, -2)
      case Right => Vector(1, 0)
      case Up => Vector(0, -1)
      case Down => Vector(1, -1)
  }

  /** `ButtonPos` agrees with the layout of the directional keypad. */
  lemma ButtonPosIsKey(d: Direction)
    ensures ActionAt(DirectionalPanel(), Plus(DirectionalA, ButtonPos(d))) == Some(Move(d))
  {
    match d
      case Left => assert ActionAt(DirectionalPanel(), Pos(1, 0)) == Some(Move(Left));
      case Right => assert ActionAt(DirectionalPanel(), Pos(1, 2)) == Some(Move(Right));
      case Up => assert ActionAt(DirectionalPanel(), Pos(0, 1)) == Some(Move(Up));
      case Down => assert ActionAt(DirectionalPanel(), Pos(1, 1)) == Some(Move(Down));
  }

  predicate InGrid(panel: Panel, p: Pos)
  {
    0 <= p.x < |panel| && 0 <= p.y < |panel[p.x]|
  }

  /** `StateMachine::new`: one directional keypad per robot, the numeric keypad last. */
  function Machine(layers: nat): (panels: seq<Panel>)
    ensures |panels| == layers + 1
    ensures forall i :: 0 <= i < layers ==> panels[i] == DirectionalPanel()
    ensures panels[layers] == NumericPanel()
  {
    seq(layers, _ => DirectionalPanel()) + [NumericPanel()]
  }

  /**
   * The cell no arm may ever point at on the keypad of `layer` (1..L+1): the
   * one cell of the grid that holds no key.
   */
  function Gap(layers: nat, layer: nat): Pos
  {
    if layer == layers + 1 then Pos(3, 0) else Pos(0, 0)
  }

  /** `Gap` is the one cell of the grid of a keypad that holds no key. */
  lemma GapIsTheHole(layers: nat, layer: nat, p: Pos)
    requires 1 <= layer <= layers + 1
    requires InGrid(Machine(layers)[layer - 1], p)
    ensures InGrid(Machine(layers)[layer - 1], Gap(layers, layer))
    ensures ActionAt(Machine(layers)[layer - 1], p).None? <==> p == Gap(layers, layer)
  {
  }

  // ---------------------------------------------------------------------------
  // The state machine

  datatype State = State(robots: seq<Pos>, output: seq<char>)

  /** `StateMachine::start`: every arm rests on the `A` key of its keypad. */
  function Start(layers: nat): (s: State)
    ensures |s.robots| == layers + 1 && s.output == []
    ensures forall i :: 0 <= i < layers ==> ActionAt(Machine(layers)[i], s.robots[i]) == Some(Activate)
    ensures ActionAt(Machine(layers)[layers], s.robots[layers]) == Some(Type('A'))
  {
    State(seq(layers, _ => DirectionalA) + [NumericA], [])
  }

  /** Only the last keypad carries keys that type characters, and all its keys do. */
  ghost predicate TypesOnLast(panels: seq<Panel>)
  {
    |panels| >= 1 && TypesOnly(panels[|panels| - 1])
  }

  ghost predicate TypesOnly(panel: Panel)
  {
    forall p :: ActionAt(panel, p).Some? ==> ActionAt(panel, p).value.Type?
  }

  lemma MachineTypesOnLast(layers: nat)
    ensures TypesOnLast(Machine(layers))
  {
    var last := Machine(layers)[layers];
    forall p | ActionAt(last, p).Some? ensures ActionAt(last, p).value.Type? {
      assert 0 <= p.x < 4 && 0 <= p.y < 3;
    }
  }

  predicate OnKeys(panels: seq<Panel>, robots: seq<Pos>)
  {
    |robots| == |panels| && forall i :: 0 <= i < |panels| ==> ActionAt(panels[i], robots[i]).Some?
  }

  /** `t` is `s` with one more character typed. */
  predicate TypedOne(s: State, t: State)
  {
    t.robots == s.robots && |t.output| == |s.output| + 1 && t.output[..|s.output|] == s.output
  }

  /** `t` is `s` with arm `j` moved by one step. */
  predicate MovedOne(s: State, t: State, j: int)
  {
    0 <= j < |s.robots| && |t.robots| == |s.robots| && t.output == s.output &&
    Len(To(s.robots[j], t.robots[j])) == 1 &&
    forall i :: 0 <= i < |s.robots| && i != j ==> t.robots[i] == s.robots[i]
  }

  /**
   * `StateMachine::go1`: the effect of `a` applied at `layer`.  `None` when an
   * arm would leave its keypad or point at the gap and a key is pressed there.
   */
  function Go1(panels: seq<Panel>, s: State, a: Action, layer: nat): (r: Option<State>)
    requires TypesOnLast(panels) && |s.robots| == |panels|
    requires layer <= |panels| && (layer == |panels| ==> a.Type?)
    ensures a.Type? ==> r == Some(State(s.robots, s.output + [a.key]))
    ensures a.Move? ==> (r.Some? <==> ActionAt(panels[layer], Shifted(s.robots[layer], a.dir)).Some?)
    ensures a.Move? && r.Some? ==> r.value == State(s.robots[layer := Shifted(s.robots[layer], a.dir)], s.output)
    ensures a.Activate? && ActionAt(panels[layer], s.robots[layer]).None? ==> r.None?
    ensures r.Some? ==> TypedOne(s, r.value) || exists j :: layer <= j < |panels| && MovedOne(s, r.value, j)
    ensures r.Some? && OnKeys(panels, s.robots) ==> OnKeys(panels, r.value.robots)
    decreases |panels| - layer
  {
    match a
      case Move(d) =>
        var p := Shifted(s.robots[layer], d);
        if ActionAt(panels[layer], p).None? then None
        else
          var t := State(s.robots[layer := p], s.output);
          assert MovedOne(s, t, layer);
          Some(t)
      case Type(c) =>
        assert s.output + [c] == (s.output + [c])[..|s.output|] + [c];
        Some(State(s.robots, s.output + [c]))
      case Activate =>
        match ActionAt(panels[layer], s.robots[layer])
          case None => None
          case Some(next) => Go1(panels, s, next, layer + 1)
  }

  /** `StateMachine::go`: a key pressed by the human. */
  function Go(panels: seq<Panel>, s: State, a: Action): (r: Option<State>)
    requires TypesOnLast(panels) && |s.robots| == |panels|
    ensures r.Some? ==> |r.value.robots| == |panels|
    ensures r.Some? ==> |s.output| <= |r.value.output| <= |s.output| + 1 && r.value.output[..|s.output|] == s.output
  {
    Go1(panels, s, a, 0)
  }

  /** The state after the human presses `keys` in order, if no press fails. */
  function Run(panels: seq<Panel>, s: State, keys: seq<Action>): (r: Option<State>)
    requires TypesOnLast(panels) && |s.robots| == |panels|
    ensures r.Some? ==> |r.value.robots| == |panels|
  {
    if keys == [] then Some(s)
    else match Run(panels, s, keys[..|keys| - 1])
      case None => None
      case Some(t) => Go(panels, t, keys[|keys| - 1])
  }

  predicate IsPrefix(out: seq<char>, code: seq<char>)
  {
    |code| >= |out| && forall i :: 0 <= i < |out| ==> code[i] == out[i]
  }

  /** `PartOne::is_dead_end`: the output typed so far starts no code. */
  predicate IsDeadEnd(codes: seq<seq<char>>, out: seq<char>)
  {
    !exists k :: 0 <= k < |codes| && IsPrefix(out, codes[k])
  }

  /** Pruning dead ends loses nothing: no key sequence ever turns a dead end into a code. */
  lemma {:induction false} DeadEndStaysDead(panels: seq<Panel>, codes: seq<seq<char>>, s: State, keys: seq<Action>)
    requires TypesOnLast(panels) && |s.robots| == |panels|
    requires IsDeadEnd(codes, s.output)
    requires Run(panels, s, keys).Some?
    ensures IsDeadEnd(codes, Run(panels, s, keys).value.output)
    ensures Run(panels, s, keys).value.output !in codes
  {
    var t := Run(panels, s, keys).value;
    if keys != [] {
      DeadEndStaysDead(panels, codes, s, keys[..|keys| - 1]);
      var u := Run(panels, s, keys[..|keys| - 1]).value;
      assert t == Go(panels, u, keys[|keys| - 1]).value;
      forall k | 0 <= k < |codes| && IsPrefix(t.output, codes[k]) ensures false {
        assert IsPrefix(u.output, codes[k]);
      }
    }
  }

  const HumanKeys: seq<Action> := [Activate, Move(Left), Move(Right), Move(Up), Move(Down)]

  /** Every key of `keys` is one the human can press. */
  predicate HumanPresses(keys: seq<Action>)
  {
    forall i :: 0 <= i < |keys| ==> keys[i] in HumanKeys
  }

  /** The human can type `code` with exactly `keys`. */
  predicate Produces(layers: nat, keys: seq<Action>, code: seq<char>)
  {
    MachineTypesOnLast(layers);
    var r := Run(Machine(layers), Start(layers), keys);
    HumanPresses(keys) && r.Some? && r.value.output == code
  }

  /** The human can type `code` with `n` key presses. */
  ghost predicate Typable(layers: nat, code: seq<char>, n: nat)
  {
    exists keys :: |keys| == n && Produces(layers, keys, code)
  }

  /** No typing of `code` is shorter than `n` key presses. */
  ghost predicate Minimal(layers: nat, code: seq<char>, n: nat)
  {
    forall keys :: Produces(layers, keys, code) ==> |keys| >= n
  }

  /** Every discovered state is reached from `start` by its recorded keys, as many as its distance. */
  ghost predicate Reached(layers: nat, distance: map<State, nat>, paths: map<State, seq<Action>>)
  {
    MachineTypesOnLast(layers);
    distance.Keys == paths.Keys &&
    forall st :: st in distance ==>
      |paths[st]| == distance[st] && HumanPresses(paths[st]) && Run(Machine(layers), Start(layers), paths[st]) == Some(st)
  }

  /** Every queued state is discovered, at the distance queued with it. */
  predicate Queued(queue: seq<(nat, State)>, distance: map<State, nat>)
  {
    forall e :: e in queue ==> e.1 in distance && distance[e.1] == e.0
  }

  /**
   * Every answer is a code the human types with as many keys as its recorded
   * distance and with no fewer, and none repeats.
   */
  ghost predicate Answered(layers: nat, codes: seq<seq<char>>, answers: seq<(seq<char>, nat)>, answerPaths: seq<seq<Action>>)
  {
    |answerPaths| == |answers| &&
    (forall k :: 0 <= k < |answers| ==> answers[k].0 in codes) &&
    (forall k :: 0 <= k < |answers| ==> |answerPaths[k]| == answers[k].1 && Produces(layers, answerPaths[k], answers[k].0)) &&
    (forall k :: 0 <= k < |answers| ==> Minimal(layers, answers[k].0, answers[k].1)) &&
    (forall k, l :: 0 <= k < l < |answers| ==> answers[k].0 != answers[l].0)
  }

  /** `remaining` holds the codes not answered yet. */
  ghost predicate Pending(codes: seq<seq<char>>, answers: seq<(seq<char>, nat)>, remaining: set<seq<char>>)
  {
    (forall k :: 0 <= k < |answers| ==> answers[k].0 !in remaining) &&
    (forall c :: c in remaining ==> c in codes) &&
    (forall c :: c in codes && c !in remaining ==> exists k :: 0 <= k < |answers| && answers[k].0 == c)
  }

  /** The state the search moves to from `s` with `key`: `None` when the press fails or leads to a dead end. */
  ghost function Next(layers: nat, codes: seq<seq<char>>, s: State, key: Action): (r: Option<State>)
    requires |s.robots| == layers + 1
    ensures r.Some? ==> |r.value.robots| == layers + 1 && !IsDeadEnd(codes, r.value.output)
  {
    MachineTypesOnLast(layers);
    var n := Go(Machine(layers), s, key);
    if n.Some? && !IsDeadEnd(codes, n.value.output) then n else None
  }

  /** Every state one key away from `s` is discovered, at most one step further than `s`. */
  ghost predicate ClosedAt(layers: nat, codes: seq<seq<char>>, distance: map<State, nat>, s: State)
  {
    s in distance && |s.robots| == layers + 1 &&
    forall key :: key in HumanKeys && Next(layers, codes, s, key).Some? ==>
      Next(layers, codes, s, key).value in distance && distance[Next(layers, codes, s, key).value] <= distance[s] + 1
  }

  predicate InQueue(queue: seq<(nat, State)>, t: State)
  {
    exists i :: 0 <= i < |queue| && queue[i].1 == t
  }

  /**
   * The breadth-first invariant: the queue is ordered by distance and spans
   * two levels; every discovered state is processed (`done`) or queued; every
   * processed state has its successors discovered.
   */
  ghost predicate Explored(layers: nat, codes: seq<seq<char>>, distance: map<State, nat>, queue: seq<(nat, State)>,
                           done: set<State>, level: nat)
  {
    Start(layers) in distance && distance[Start(layers)] == 0 &&
    (forall i, j :: 0 <= i <= j < |queue| ==> queue[i].0 <= queue[j].0) &&
    (forall i :: 0 <= i < |queue| ==> level <= queue[i].0 <= level + 1) &&
    (forall t :: t in distance ==> distance[t] <= level + 1) &&
    (forall t :: t in distance ==> t in done || InQueue(queue, t)) &&
    (forall s :: s in done ==> ClosedAt(layers, codes, distance, s))
  }

  /** Every processed state whose output is a code has had that code answered. */
  ghost predicate Reported(codes: seq<seq<char>>, done: set<State>, remaining: set<seq<char>>)
  {
    forall s :: s in done && s.output in codes ==> s.output !in remaining
  }

  /** Every discovered state closer than `bound` is processed. */
  ghost predicate Settled(distance: map<State, nat>, done: set<State>, bound: nat)
  {
    forall t :: t in distance && distance[t] < bound ==> t in done
  }

  /**
   * `PartOne::solve`, the search: breadth-first over machine states, skipping
   * dead ends, recording the distance at which each code is first typed.
   * `fuel` bounds the number of states taken from the queue; `finished` says
   * whether the queue ran empty within it.  Every answer is the length of a
   * shortest typing of its code; when the search finishes, every code that
   * can be typed at all is answered.
   */
  method ShortestTypings(layers: nat, codes: seq<seq<char>>, fuel: nat)
    returns (answers: seq<(seq<char>, nat)>, finished: bool)
    ensures forall k :: 0 <= k < |answers| ==> answers[k].0 in codes
    ensures forall k :: 0 <= k < |answers| ==> Typable(layers, answers[k].0, answers[k].1)
    ensures forall k :: 0 <= k < |answers| ==> Minimal(layers, answers[k].0, answers[k].1)
    ensures forall k, l :: 0 <= k < l < |answers| ==> answers[k].0 != answers[l].0
    ensures finished ==> forall c, keys :: c in codes && Produces(layers, keys, c) ==> exists k :: 0 <= k < |answers| && answers[k].0 == c
  {
    MachineTypesOnLast(layers);
    var start := Start(layers);
    var distance: map<State, nat> := map[start := 0];
    ghost var paths: map<State, seq<Action>> := map[start := []];
    var queue: seq<(nat, State)> := [(0, start)];
    var remaining: set<seq<char>> := set k | 0 <= k < |codes| :: codes[k];
    ghost var answerPaths: seq<seq<Action>> := [];
    ghost var done: set<State> := {};
    ghost var level: nat := 0;
    answers := [];
    assert queue[0].1 == start && InQueue(queue, start);
    var steps := 0;
    while queue != [] && steps < fuel
      invariant Reached(layers, distance, paths) && Queued(queue, distance)
      invariant Answered(layers, codes, answers, answerPaths) && Pending(codes, answers, remaining)
      invariant Explored(layers, codes, distance, queue, done, level) && Reported(codes, done, remaining)
      decreases fuel - steps
    {
      var (dist, state) := queue[0];
      assert queue[0] in queue;
      SettledBelowHead(layers, codes, distance, queue, done, level);
      NoShorterTyping(layers, codes, distance, queue, done, level, remaining, state, dist);
      ghost var popped, before, old_remaining := queue, distance, remaining;
      ReachedRobots(layers, distance, paths, state);
      queue := queue[1..];
      answers, answerPaths, remaining := Record(layers, codes, answers, answerPaths, remaining, distance, paths, state);
      distance, paths, queue := Expand(layers, codes, state, dist, distance, paths, queue);
      SearchStep(layers, codes, before, popped, done, level, distance, queue, state, dist);
      ReportedStep(codes, done, state, old_remaining, remaining);
      done, level := done + {state}, dist;
      steps := steps + 1;
    }
    finished := queue == [];
    Concluded(layers, codes, distance, queue, done, level, answers, answerPaths, remaining, finished);
  }

  /** What the search establishes once it stops. */
  lemma Concluded(layers: nat, codes: seq<seq<char>>, distance: map<State, nat>, queue: seq<(nat, State)>, done: set<State>,
                  level: nat, answers: seq<(seq<char>, nat)>, answerPaths: seq<seq<Action>>, remaining: set<seq<char>>,
                  finished: bool)
    requires finished ==> queue == []
    requires Answered(layers, codes, answers, answerPaths) && Pending(codes, answers, remaining)
    requires Explored(layers, codes, distance, queue, done, level) && Reported(codes, done, remaining)
    ensures forall k :: 0 <= k < |answers| ==> answers[k].0 in codes
    ensures forall k :: 0 <= k < |answers| ==> Typable(layers, answers[k].0, answers[k].1)
    ensures forall k :: 0 <= k < |answers| ==> Minimal(layers, answers[k].0, answers[k].1)
    ensures forall k, l :: 0 <= k < l < |answers| ==> answers[k].0 != answers[l].0
    ensures finished ==> forall c, keys :: c in codes && Produces(layers, keys, c) ==> exists k :: 0 <= k < |answers| && answers[k].0 == c
  {
    AnsweredHasKeys(layers, codes, answers, answerPaths);
    if finished {
      AllAnswered(layers, codes, distance, done, level, answers, remaining);
    }
  }

  lemma AnsweredHasKeys(layers: nat, codes: seq<seq<char>>, answers: seq<(seq<char>, nat)>, answerPaths: seq<seq<Action>>)
    requires Answered(layers, codes, answers, answerPaths)
    ensures forall k :: 0 <= k < |answers| ==> Typable(layers, answers[k].0, answers[k].1)
  {
    forall k | 0 <= k < |answers|
      ensures Typable(layers, answers[k].0, answers[k].1)
    {
      assert |answerPaths[k]| == answers[k].1 && Produces(layers, answerPaths[k], answers[k].0);
    }
  }

  lemma ReachedProduces(layers: nat, distance: map<State, nat>, paths: map<State, seq<Action>>, st: State)
    requires Reached(layers, distance, paths) && st in distance
    ensures |paths[st]| == distance[st] && Produces(layers, paths[st], st.output)
  {
  }

  /** A state one key away from a discovered state is reached by one more key. */
  lemma ReachedExtend(layers: nat, distance: map<State, nat>, paths: map<State, seq<Action>>, st: State, key: Action, next: State)
    requires Reached(layers, distance, paths) && st in distance && key in HumanKeys
    requires TypesOnLast(Machine(layers)) && |st.robots| == layers + 1 && Go(Machine(layers), st, key) == Some(next)
    ensures Reached(layers, distance[next := distance[st] + 1], paths[next := paths[st] + [key]])
  {
    var p := paths[st] + [key];
    assert p[..|p| - 1] == paths[st];
    assert Run(Machine(layers), Start(layers), p) == Some(next);
    var distance', paths' := distance[next := distance[st] + 1], paths[next := p];
    forall u | u in distance'
      ensures |paths'[u]| == distance'[u] && HumanPresses(paths'[u]) && Run(Machine(layers), Start(layers), paths'[u]) == Some(u)
    {
      if u != next {
        assert u in distance;
      }
    }
    assert distance'.Keys == distance.Keys + {next} == paths'.Keys;
  }

  lemma QueuedExtend(queue: seq<(nat, State)>, distance: map<State, nat>, next: State, d: nat)
    requires Queued(queue, distance) && next !in distance
    ensures Queued(queue + [(d, next)], distance[next := d])
  {
    forall e | e in queue + [(d, next)] ensures e.1 in distance[next := d] && distance[next := d][e.1] == e.0 {
      if e in queue {
        assert e.1 in distance;
      }
    }
  }

  /** The keys the human presses to reach `t` from the start. */
  ghost predicate Typed(layers: nat, keys: seq<Action>, t: State)
  {
    MachineTypesOnLast(layers);
    HumanPresses(keys) && Run(Machine(layers), Start(layers), keys) == Some(t)
  }

  /**
   * A state typed with no more keys than `bound`, through no dead end, is
   * discovered no further than its number of keys, when every discovered state
   * closer than `bound` is processed.
   */
  lemma {:induction false} ShorterReaches(layers: nat, codes: seq<seq<char>>, distance: map<State, nat>, queue: seq<(nat, State)>,
                                          done: set<State>, level: nat, bound: nat, keys: seq<Action>, t: State)
    requires Explored(layers, codes, distance, queue, done, level) && Settled(distance, done, bound)
    requires |keys| <= bound && Typed(layers, keys, t) && !IsDeadEnd(codes, t.output)
    ensures t in distance && distance[t] <= |keys|
    decreases |keys|
  {
    MachineTypesOnLast(layers);
    var panels := Machine(layers);
    if keys != [] {
      var front := keys[..|keys| - 1];
      var key := keys[|keys| - 1];
      var u := Run(panels, Start(layers), front).value;
      assert Go(panels, u, key) == Some(t);
      assert !IsDeadEnd(codes, u.output) by {
        var k :| 0 <= k < |codes| && IsPrefix(t.output, codes[k]);
        assert IsPrefix(u.output, codes[k]);
      }
      assert HumanPresses(front) && key in HumanKeys;
      ShorterReaches(layers, codes, distance, queue, done, level, bound, front, u);
      assert u in done;
      assert ClosedAt(layers, codes, distance, u);
      assert Next(layers, codes, u, key) == Some(t);
    }
  }

  /** A code typed with fewer keys than `bound` has been answered, when every state closer than `bound` is processed. */
  lemma NotShorter(layers: nat, codes: seq<seq<char>>, distance: map<State, nat>, queue: seq<(nat, State)>,
                   done: set<State>, level: nat, remaining: set<seq<char>>, bound: nat, keys: seq<Action>, c: seq<char>)
    requires Explored(layers, codes, distance, queue, done, level) && Settled(distance, done, bound)
    requires Reported(codes, done, remaining)
    requires c in codes && Produces(layers, keys, c)
    ensures |keys| < bound ==> c !in remaining
  {
    MachineTypesOnLast(layers);
    if |keys| < bound {
      var t := Run(Machine(layers), Start(layers), keys).value;
      assert !IsDeadEnd(codes, t.output) by {
        var k :| 0 <= k < |codes| && codes[k] == c;
        assert IsPrefix(t.output, codes[k]);
      }
      ShorterReaches(layers, codes, distance, queue, done, level, bound, keys, t);
    }
  }

  /** Processing a state whose output is no longer pending keeps every processed code reported. */
  lemma ReportedStep(codes: seq<seq<char>>, done: set<State>, state: State, remaining: set<seq<char>>, remaining': set<seq<char>>)
    requires Reported(codes, done, remaining) && remaining' <= remaining && state.output !in remaining'
    ensures Reported(codes, done + {state}, remaining')
  {
  }

  lemma ReachedRobots(layers: nat, distance: map<State, nat>, paths: map<State, seq<Action>>, st: State)
    requires Reached(layers, distance, paths) && st in distance
    ensures |st.robots| == layers + 1
  {
    MachineTypesOnLast(layers);
    assert Run(Machine(layers), Start(layers), paths[st]) == Some(st);
  }

  /** Every discovered state closer than the head of the queue is processed. */
  lemma SettledBelowHead(layers: nat, codes: seq<seq<char>>, distance: map<State, nat>, queue: seq<(nat, State)>,
                         done: set<State>, level: nat)
    requires Explored(layers, codes, distance, queue, done, level) && Queued(queue, distance) && queue != []
    ensures Settled(distance, done, queue[0].0)
    ensures queue[0].1 in distance && distance[queue[0].1] == queue[0].0
    ensures forall t :: t in distance ==> distance[t] <= queue[0].0 + 1
  {
    assert queue[0] in queue;
    forall t | t in distance && distance[t] < queue[0].0 ensures t in done {
      assert !InQueue(queue, t) by {
        forall i | 0 <= i < |queue| ensures queue[i].1 != t {
          assert queue[i] in queue;
        }
      }
    }
  }

  /** The first state typing a code is dequeued at the length of a shortest typing of it. */
  lemma NoShorterTyping(layers: nat, codes: seq<seq<char>>, distance: map<State, nat>, queue: seq<(nat, State)>,
                        done: set<State>, level: nat, remaining: set<seq<char>>, state: State, dist: nat)
    requires Explored(layers, codes, distance, queue, done, level) && Settled(distance, done, dist)
    requires Reported(codes, done, remaining) && forall c :: c in remaining ==> c in codes
    ensures state.output in remaining ==> Minimal(layers, state.output, dist)
  {
    if state.output in remaining {
      forall keys | Produces(layers, keys, state.output) ensures |keys| >= dist {
        NotShorter(layers, codes, distance, queue, done, level, remaining, dist, keys, state.output);
      }
    }
  }

  /** Once the queue is empty, every code the human can type has been answered. */
  lemma AllAnswered(layers: nat, codes: seq<seq<char>>, distance: map<State, nat>, done: set<State>, level: nat,
                    answers: seq<(seq<char>, nat)>, remaining: set<seq<char>>)
    requires Explored(layers, codes, distance, [], done, level) && Reported(codes, done, remaining)
    requires Pending(codes, answers, remaining)
    ensures forall c, keys :: c in codes && Produces(layers, keys, c) ==> exists k :: 0 <= k < |answers| && answers[k].0 == c
  {
    forall c, keys | c in codes && Produces(layers, keys, c) ensures exists k :: 0 <= k < |answers| && answers[k].0 == c {
      NotShorter(layers, codes, distance, [], done, level, remaining, |keys| + 1, keys, c);
    }
  }

  /** Records the output of `state` as an answer when it is a code not typed before. */
  method Record(layers: nat, codes: seq<seq<char>>, answers: seq<(seq<char>, nat)>, ghost answerPaths: seq<seq<Action>>,
                remaining: set<seq<char>>, distance: map<State, nat>, ghost paths: map<State, seq<Action>>, state: State)
    returns (answers': seq<(seq<char>, nat)>, ghost answerPaths': seq<seq<Action>>, remaining': set<seq<char>>)
    requires Answered(layers, codes, answers, answerPaths) && Pending(codes, answers, remaining)
    requires Reached(layers, distance, paths) && state in distance
    requires state.output in remaining ==> Minimal(layers, state.output, distance[state])
    ensures state.output in remaining ==> answers' == answers + [(state.output, distance[state])] && remaining' == remaining - {state.output}
    ensures state.output !in remaining ==> answers' == answers && remaining' == remaining
    ensures Answered(layers, codes, answers', answerPaths') && Pending(codes, answers', remaining')
  {
    answers', answerPaths', remaining' := answers, answerPaths, remaining;
    if state.output in remaining {
      ReachedProduces(layers, distance, paths, state);
      AnswerAppend(layers, codes, answers, answerPaths, remaining, state.output, distance[state], paths[state]);
      answers' := answers + [(state.output, distance[state])];
      answerPaths' := answerPaths + [paths[state]];
      remaining' := remaining - {state.output};
    }
  }

  /** Answering a pending code with a shortest typing keeps the answers and the pending codes consistent. */
  lemma AnswerAppend(layers: nat, codes: seq<seq<char>>, answers: seq<(seq<char>, nat)>, answerPaths: seq<seq<Action>>,
                     remaining: set<seq<char>>, c: seq<char>, d: nat, path: seq<Action>)
    requires Answered(layers, codes, answers, answerPaths) && Pending(codes, answers, remaining)
    requires c in remaining && |path| == d && Produces(layers, path, c) && Minimal(layers, c, d)
    ensures Answered(layers, codes, answers + [(c, d)], answerPaths + [path])
    ensures Pending(codes, answers + [(c, d)], remaining - {c})
  {
    AnsweredAppend(layers, codes, answers, answerPaths, c, d, path);
    PendingRemove(codes, answers, remaining, c, d);
  }

  lemma AnsweredAppend(layers: nat, codes: seq<seq<char>>, answers: seq<(seq<char>, nat)>, answerPaths: seq<seq<Action>>,
                       c: seq<char>, d: nat, path: seq<Action>)
    requires Answered(layers, codes, answers, answerPaths)
    requires c in codes && (forall k :: 0 <= k < |answers| ==> answers[k].0 != c)
    requires |path| == d && Produces(layers, path, c) && Minimal(layers, c, d)
    ensures Answered(layers, codes, answers + [(c, d)], answerPaths + [path])
  {
    var answers', paths' := answers + [(c, d)], answerPaths + [path];
    forall k | 0 <= k < |answers'|
      ensures answers'[k].0 in codes && |paths'[k]| == answers'[k].1 && Produces(layers, paths'[k], answers'[k].0)
      ensures Minimal(layers, answers'[k].0, answers'[k].1)
    {
      if k < |answers| {
        assert answers'[k] == answers[k] && paths'[k] == answerPaths[k];
      }
    }
    forall k, l | 0 <= k < l < |answers'| ensures answers'[k].0 != answers'[l].0 {
      assert answers'[k] == answers[k];
      if l < |answers| {
        assert answers'[l] == answers[l];
      }
    }
  }

  lemma PendingRemove(codes: seq<seq<char>>, answers: seq<(seq<char>, nat)>, remaining: set<seq<char>>, c: seq<char>, d: nat)
    requires Pending(codes, answers, remaining) && c in remaining
    ensures Pending(codes, answers + [(c, d)], remaining - {c})
  {
    var answers' := answers + [(c, d)];
    assert answers'[|answers|].0 == c;
    forall c' | c' in codes && c' !in remaining - {c} ensures exists k :: 0 <= k < |answers'| && answers'[k].0 == c' {
      if c' != c {
        var k :| 0 <= k < |answers| && answers[k].0 == c';
        assert answers'[k].0 == c';
      }
    }
  }

  /** The search only discovers states, one step beyond `dist`, and appends them to its queue. */
  ghost predicate Expanded(distance: map<State, nat>, queue: seq<(nat, State)>, distance': map<State, nat>, queue': seq<(nat, State)>,
                           dist: nat)
  {
    Extends(distance, distance') && |queue| <= |queue'| && queue'[..|queue|] == queue &&
    (forall i :: |queue| <= i < |queue'| ==> queue'[i].0 == dist + 1) &&
    (forall t :: t in distance' && t !in distance ==> distance'[t] == dist + 1 && InQueue(queue', t))
  }

  lemma ExpandedStep(distance: map<State, nat>, queue: seq<(nat, State)>, distance': map<State, nat>, queue': seq<(nat, State)>,
                     dist: nat, next: State)
    requires Expanded(distance, queue, distance', queue', dist) && next !in distance'
    ensures Expanded(distance, queue, distance'[next := dist + 1], queue' + [(dist + 1, next)], dist)
  {
    var distance'', queue'' := distance'[next := dist + 1], queue' + [(dist + 1, next)];
    assert queue''[..|queue|] == queue'[..|queue|];
    assert queue''[|queue'|].1 == next;
    forall t | t in distance'' && t !in distance ensures distance''[t] == dist + 1 && InQueue(queue'', t) {
      if t != next {
        var i :| 0 <= i < |queue'| && queue'[i].1 == t;
        assert queue''[i] == queue'[i];
      }
    }
  }

  /** `key` pressed in `state` leads nowhere new, or to a discovered state at most one step further. */
  ghost predicate Handled(layers: nat, codes: seq<seq<char>>, distance: map<State, nat>, state: State, dist: nat, key: Action)
    requires |state.robots| == layers + 1
  {
    Next(layers, codes, state, key).Some? ==>
      Next(layers, codes, state, key).value in distance && distance[Next(layers, codes, state, key).value] <= dist + 1
  }

  /** Queues every state one key away from `state` that is new and not a dead end. */
  method Expand(layers: nat, codes: seq<seq<char>>, state: State, dist: nat, distance: map<State, nat>,
                ghost paths: map<State, seq<Action>>, queue: seq<(nat, State)>)
    returns (distance': map<State, nat>, ghost paths': map<State, seq<Action>>, queue': seq<(nat, State)>)
    requires Reached(layers, distance, paths) && Queued(queue, distance)
    requires state in distance && distance[state] == dist && |state.robots| == layers + 1
    requires forall t :: t in distance ==> distance[t] <= dist + 1
    ensures Reached(layers, distance', paths') && Queued(queue', distance')
    ensures Expanded(distance, queue, distance', queue', dist)
    ensures ClosedAt(layers, codes, distance', state)
  {
    MachineTypesOnLast(layers);
    var panels := Machine(layers);
    distance', paths', queue' := distance, paths, queue;
    for i := 0 to |HumanKeys|
      invariant Reached(layers, distance', paths') && Queued(queue', distance')
      invariant Expanded(distance, queue, distance', queue', dist)
      invariant state in distance' && distance'[state] == dist
      invariant forall t :: t in distance' ==> distance'[t] <= dist + 1
      invariant HandledUpTo(layers, codes, distance', state, dist, i)
    {
      var key := HumanKeys[i];
      var next := Go(panels, state, key);
      ghost var prev := distance';
      assert Next(layers, codes, state, key) == if next.Some? && !IsDeadEnd(codes, next.value.output) then next else None;
      if next.Some? && !IsDeadEnd(codes, next.value.output) && next.value !in distance' {
        var d: nat := dist + 1;
        ReachedExtend(layers, distance', paths', state, key, next.value);
        QueuedExtend(queue', distance', next.value, d);
        ExpandedStep(distance, queue, distance', queue', dist, next.value);
        distance' := distance'[next.value := d];
        paths' := paths'[next.value := paths'[state] + [key]];
        queue' := queue' + [(d, next.value)];
      }
      assert Extends(prev, distance') && Handled(layers, codes, distance', state, dist, key);
      HandledStep(layers, codes, prev, distance', state, dist, i);
    }
    forall key | key in HumanKeys && Next(layers, codes, state, key).Some?
      ensures Next(layers, codes, state, key).value in distance' && distance'[Next(layers, codes, state, key).value] <= distance'[state] + 1
    {
      var j :| 0 <= j < |HumanKeys| && HumanKeys[j] == key;
      assert Handled(layers, codes, distance', state, dist, HumanKeys[j]);
    }
  }

  /** The first `i` human keys are handled from `state`. */
  ghost predicate HandledUpTo(layers: nat, codes: seq<seq<char>>, distance: map<State, nat>, state: State, dist: nat, i: nat)
  {
    |state.robots| == layers + 1 &&
    forall j :: 0 <= j < i && j < |HumanKeys| ==> Handled(layers, codes, distance, state, dist, HumanKeys[j])
  }

  lemma HandledStep(layers: nat, codes: seq<seq<char>>, distance: map<State, nat>, distance': map<State, nat>,
                    state: State, dist: nat, i: nat)
    requires HandledUpTo(layers, codes, distance, state, dist, i) && i < |HumanKeys| && Extends(distance, distance')
    requires Handled(layers, codes, distance', state, dist, HumanKeys[i])
    ensures HandledUpTo(layers, codes, distance', state, dist, i + 1)
  {
    forall j | 0 <= j < i + 1 ensures Handled(layers, codes, distance', state, dist, HumanKeys[j]) {
      if j < i {
        assert Handled(layers, codes, distance, state, dist, HumanKeys[j]);
      }
    }
  }

  /** Closure of a processed state survives discovering more states. */
  lemma ClosedGrows(layers: nat, codes: seq<seq<char>>, distance: map<State, nat>, distance': map<State, nat>, s: State)
    requires ClosedAt(layers, codes, distance, s) && Extends(distance, distance')
    ensures ClosedAt(layers, codes, distance', s)
  {
    forall key | key in HumanKeys && Next(layers, codes, s, key).Some?
      ensures Next(layers, codes, s, key).value in distance' && distance'[Next(layers, codes, s, key).value] <= distance'[s] + 1
    {
      assert Next(layers, codes, s, key).value in distance;
    }
  }

  /** Taking the head of the queue and expanding it keeps the breadth-first invariant, one level on. */
  lemma SearchStep(layers: nat, codes: seq<seq<char>>, distance: map<State, nat>, queue: seq<(nat, State)>, done: set<State>,
                   level: nat, distance': map<State, nat>, queue': seq<(nat, State)>, state: State, dist: nat)
    requires Explored(layers, codes, distance, queue, done, level) && Queued(queue, distance)
    requires queue != [] && queue[0] == (dist, state)
    requires Expanded(distance, queue[1..], distance', queue', dist)
    requires ClosedAt(layers, codes, distance', state)
    ensures Explored(layers, codes, distance', queue', done + {state}, dist)
  {
    var rest := queue[1..];
    assert forall i :: 0 <= i < |rest| ==> queue'[i] == rest[i] == queue[i + 1];
    assert forall i :: 0 <= i < |queue'| ==> dist <= queue'[i].0 <= dist + 1 by {
      forall i | 0 <= i < |queue'| ensures dist <= queue'[i].0 <= dist + 1 {
        if i < |rest| {
          assert queue[0].0 <= queue[i + 1].0;
        }
      }
    }
    assert forall i, j :: 0 <= i <= j < |queue'| ==> queue'[i].0 <= queue'[j].0 by {
      forall i, j | 0 <= i <= j < |queue'| ensures queue'[i].0 <= queue'[j].0 {
        if j < |rest| {
          assert queue[i + 1].0 <= queue[j + 1].0;
        }
      }
    }
    forall t | t in distance' ensures t in done + {state} || InQueue(queue', t) {
      if t in distance && t !in done && t != state {
        var i :| 0 <= i < |queue| && queue[i].1 == t;
        assert queue'[i - 1] == queue[i];
      }
    }
    forall s | s in done + {state} ensures ClosedAt(layers, codes, distance', s) {
      if s != state {
        ClosedGrows(layers, codes, distance, distance', s);
      }
    }
  }

  // ---------------------------------------------------------------------------
  // Parsing and scoring

  predicate IsCodeChar(c: char) { c == 'A' || IsDigit(c) }

  /** `Input::parse_from`: the non-empty lines, each made of `A` and digits only. */
  function ParseCodes(s: string): (r: Option<seq<seq<char>>>)
    ensures r.Some? <==> forall k, i :: 0 <= k < |NonEmptyLines(s)| && 0 <= i < |NonEmptyLines(s)[k]| ==> IsCodeChar(NonEmptyLines(s)[k][i])
    ensures r.Some? ==> r.value == NonEmptyLines(s)
  {
    var lines := NonEmptyLines(s);
    if forall k, i :: 0 <= k < |lines| && 0 <= i < |lines[k]| ==> IsCodeChar(lines[k][i]) then Some(lines) else None
  }

  /** The code without its final character parses as a number. */
  predicate HasNumericPart(code: seq<char>)
  {
    |code| >= 1 && ParseInt(code[..|code| - 1]).Some?
  }

  /** The number the code starts with; `solve` demands that it parses (`unwrap`), so callers require `HasNumericPart`. */
  function NumericPart(code: seq<char>): (n: int)
    ensures HasNumericPart(code) ==> Some(n) == ParseInt(code[..|code| - 1])
  {
    if HasNumericPart(code) then ParseInt(code[..|code| - 1]).value else 0
  }

  /** Sum of numeric part times key presses over the answers. */
  function Complexity(answers: seq<(seq<char>, nat)>): int
  {
    if answers == [] then 0
    else Complexity(answers[..|answers| - 1]) + Term(answers[|answers| - 1])
  }

  function Term(answer: (seq<char>, nat)): int
  {
    NumericPart(answer.0) * answer.1
  }

  /** Dropping the answer at `j` removes exactly its term from the sum. */
  lemma {:induction false} ComplexityRemove(answers: seq<(seq<char>, nat)>, j: nat)
    requires j < |answers|
    ensures Complexity(answers) == Complexity(answers[..j] + answers[j + 1..]) + Term(answers[j])
    decreases |answers|
  {
    var n := |answers|;
    var rest := answers[..j] + answers[j + 1..];
    if j < n - 1 {
      var front := answers[..n - 1];
      ComplexityRemove(front, j);
      assert front[..j] + front[j + 1..] == rest[..n - 2];
      assert rest[n - 2] == answers[n - 1];
    } else {
      assert rest == answers[..n - 1];
    }
  }

  /** The sum does not depend on the order of the answers (a `HashMap` iterates in no fixed order). */
  lemma {:induction false} ComplexityPermutation(a: seq<(seq<char>, nat)>, b: seq<(seq<char>, nat)>)
    requires multiset(a) == multiset(b)
    ensures Complexity(a) == Complexity(b)
    decreases |a|
  {
    if a != [] {
      var j := MatchLast(a, b);
      ComplexityPermutation(a[..|a| - 1], b[..j] + b[j + 1..]);
      ComplexityRemove(b, j);
    } else {
      assert |b| == |multiset(b)|;
    }
  }

  /** Where the last element of `a` sits in its permutation `b`; the rests are permutations too. */
  lemma MatchLast<T>(a: seq<T>, b: seq<T>) returns (j: nat)
    requires multiset(a) == multiset(b) && a != []
    ensures j < |b| && b[j] == a[|a| - 1]
    ensures multiset(a[..|a| - 1]) == multiset(b[..j] + b[j + 1..])
  {
    var n := |a|;
    assert a[n - 1] in multiset(b);
    j :| 0 <= j < |b| && b[j] == a[n - 1];
    MultisetRemove(a, n - 1);
    assert a[..n - 1] + a[n..] == a[..n - 1];
    MultisetRemove(b, j);
  }

  lemma MultisetRemove<T>(s: seq<T>, j: nat)
    requires j < |s|
    ensures multiset(s[..j] + s[j + 1..]) == multiset(s) - multiset{s[j]}
  {
    assert s == s[..j] + [s[j]] + s[j + 1..];
  }

  // ---------------------------------------------------------------------------
  // Candidate routes for one arm movement (`Vector::to_paths2`)

  /**
   * One way to move an arm by a displacement: `down` is the walk of the arm
   * one layer below over its directional keypad, from `A` back to `A`, as
   * successive displacements; `current` is the walk of this arm, as segments.
   */
  datatype Candidate = Candidate(down: seq<Vector>, current: seq<Vector>)

  /** Positions reached after each displacement of `path`, starting from `pos`. */
  function Visits(pos: Pos, path: seq<Vector>): (r: seq<Pos>)
    ensures |r| == |path|
    decreases |path|
  {
    if path == [] then [] else [Plus(pos, path[0])] + Visits(Plus(pos, path[0]), path[1..])
  }

  lemma VisitsOne(pos: Pos, a: Vector)
    ensures Visits(pos, [a]) == [Plus(pos, a)]
  {
    assert [a][1..] == [];
  }

  lemma VisitsTwo(pos: Pos, a: Vector, b: Vector)
    ensures Visits(pos, [a, b]) == [Plus(pos, a), Plus(Plus(pos, a), b)]
  {
    assert [a, b][1..] == [b];
    VisitsOne(Plus(pos, a), b);
  }

  /** The walk from `pos` along `path` never stands on `g`, not even at the start. */
  predicate Avoids(g: Pos, pos: Pos, path: seq<Vector>)
  {
    pos != g && g !in Visits(pos, path)
  }

  /** `to_circular_path`, from the point `cur`: through every point, then back to the origin. */
  function CircularFrom(cur: Vector, points: seq<Vector>): (path: seq<Vector>)
    ensures |path| == |points| + 1
    decreases |points|
  {
    if points == [] then [Between(cur, Zero)]
    else [Between(cur, points[0])] + CircularFrom(points[0], points[1..])
  }

  /** A walk along `CircularFrom(cur, points)` from `base + cur` stands on every point in turn, then on `base`. */
  lemma {:induction false} VisitsCircular(base: Pos, cur: Vector, points: seq<Vector>)
    ensures Visits(Plus(base, cur), CircularFrom(cur, points))
         == seq(|points|, k requires 0 <= k < |points| => Plus(base, points[k])) + [base]
    decreases |points|
  {
    if points == [] {
    } else {
      VisitsCircular(base, points[0], points[1..]);
      var tail := seq(|points| - 1, k requires 0 <= k < |points| - 1 => Plus(base, points[1..][k]));
      assert Plus(Plus(base, cur), Between(cur, points[0])) == Plus(base, points[0]);
      assert seq(|points|, k requires 0 <= k < |points| => Plus(base, points[k])) == [Plus(base, points[0])] + tail;
    }
  }

  /** The `k`-th displacement of a circular path from `cur`: from the previous point to the next one. */
  function Leg(cur: Vector, points: seq<Vector>, k: nat): Vector
    requires k <= |points|
  {
    Between(if k == 0 then cur else points[k - 1], if k < |points| then points[k] else Zero)
  }

  lemma {:induction false} CircularFromAt(cur: Vector, points: seq<Vector>, k: nat)
    requires k <= |points|
    ensures CircularFrom(cur, points)[k] == Leg(cur, points, k)
    decreases |points|
  {
    if points != [] && k > 0 {
      CircularFromAt(points[0], points[1..], k - 1);
    }
  }

  /** `to_circular_path` as the code runs it: a loop that keeps the previous point. */
  method ToCircularPath(points: seq<Vector>) returns (res: seq<Vector>)
    ensures res == CircularFrom(Zero, points)
  {
    res := [];
    var cur := Zero;
    var i := 0;
    while i < |points|
      invariant 0 <= i <= |points| && cur == (if i == 0 then Zero else points[i - 1])
      invariant |res| == i && forall k :: 0 <= k < i ==> res[k] == Leg(Zero, points, k)
    {
      var leg := Between(cur, points[i]);
      assert leg == Leg(Zero, points, i);
      res := res + [leg];
      cur := points[i];
      i := i + 1;
    }
    var last := Between(cur, Zero);
    assert last == Leg(Zero, points, i);
    res := res + [last];
    ghost var whole := CircularFrom(Zero, points);
    forall k | 0 <= k < |res| ensures res[k] == whole[k] {
      CircularFromAt(Zero, points, k);
    }
  }

  /** The walk one layer down for one key: from `A` to the key, back to `A`. */
  lemma CircularOne(a: Vector)
    ensures Visits(DirectionalA, CircularFrom(Zero, [a])) == [Plus(DirectionalA, a), DirectionalA]
  {
    VisitsCircular(DirectionalA, Zero, [a]);
    assert Plus(DirectionalA, Zero) == DirectionalA;
  }

  /** The walk one layer down for two keys: from `A` to each key in turn, back to `A`. */
  lemma CircularTwo(a: Vector, b: Vector)
    ensures Visits(DirectionalA, CircularFrom(Zero, [a, b])) == [Plus(DirectionalA, a), Plus(DirectionalA, b), DirectionalA]
  {
    VisitsCircular(DirectionalA, Zero, [a, b]);
    assert Plus(DirectionalA, Zero) == DirectionalA;
  }

  function VerticalOf(v: Vector): Direction { if v.dx < 0 then Up else Down }
  function HorizontalOf(v: Vector): Direction { if v.dy < 0 then Left else Right }

  /**
   * `Vector::to_paths2` as written: a straight move when `v` has one axis (or
   * none), otherwise horizontal-first and vertical-first.
   */
  function ToPaths2(v: Vector): (cs: seq<Candidate>)
    ensures |cs| == (if v.dx != 0 && v.dy != 0 then 2 else 1)
  {
    var vertical := VerticalOf(v);
    var horizontal := HorizontalOf(v);
    if v.dx == 0 then
      [Candidate(CircularFrom(Zero, [ButtonPos(horizontal)]), [v])]
    else if v.dy == 0 then
      [Candidate(CircularFrom(Zero, [ButtonPos(vertical)]), [v])]
    else
      [ Candidate(CircularFrom(Zero, [ButtonPos(horizontal), ButtonPos(vertical)]), [Vector(0, v.dy), Vector(v.dx, 0)]),
        Candidate(CircularFrom(Zero, [ButtonPos(vertical), ButtonPos(horizontal)]), [Vector(v.dx, 0), Vector(0, v.dy)]) ]
  }

  /**
   * The intended candidates: as `ToPaths2`, except that staying in place is
   * a single press of `A` one layer down.
   */
  function Candidates(v: Vector): (cs: seq<Candidate>)
    ensures 1 <= |cs| <= 2
  {
    if v.dx == 0 && v.dy == 0 then [Candidate([Zero], [Zero])] else ToPaths2(v)
  }

  /** A walk one layer down along the moves of `path`: it stays on keys, never over the gap, and ends back on `A`. */
  predicate DownWalkOnKeys(path: seq<Vector>)
  {
    |path| >= 1 &&
    (forall p :: p in Visits(DirectionalA, path) ==> ActionAt(DirectionalPanel(), p).Some?) &&
    Avoids(Pos(0, 0), DirectionalA, path) &&
    Visits(DirectionalA, path)[|path| - 1] == DirectionalA
  }

  lemma DownWalkFrom(path: seq<Vector>, visits: seq<Pos>)
    requires Visits(DirectionalA, path) == visits && |visits| >= 1 && visits[|visits| - 1] == DirectionalA
    requires forall p :: p in visits ==> ActionAt(DirectionalPanel(), p).Some?
    requires ActionAt(DirectionalPanel(), Pos(0, 0)).None?
    ensures DownWalkOnKeys(path)
  {
    assert Pos(0, 0) !in visits;
  }

  lemma DownWalkToOne(h: Vector)
    requires ActionAt(DirectionalPanel(), Plus(DirectionalA, h)).Some?
    ensures DownWalkOnKeys(CircularFrom(Zero, [h]))
  {
    CircularOne(h);
    assert ActionAt(DirectionalPanel(), DirectionalA) == Some(Activate);
    assert ActionAt(DirectionalPanel(), Pos(0, 0)) == None;
    DownWalkFrom(CircularFrom(Zero, [h]), [Plus(DirectionalA, h), DirectionalA]);
  }

  lemma DownWalkToTwo(h: Vector, w: Vector)
    requires ActionAt(DirectionalPanel(), Plus(DirectionalA, h)).Some?
    requires ActionAt(DirectionalPanel(), Plus(DirectionalA, w)).Some?
    ensures DownWalkOnKeys(CircularFrom(Zero, [h, w]))
  {
    CircularTwo(h, w);
    assert ActionAt(DirectionalPanel(), DirectionalA) == Some(Activate);
    assert ActionAt(DirectionalPanel(), Pos(0, 0)) == None;
    DownWalkFrom(CircularFrom(Zero, [h, w]), [Plus(DirectionalA, h), Plus(DirectionalA, w), DirectionalA]);
  }

  lemma DownWalkStay()
    ensures DownWalkOnKeys([Zero])
  {
    VisitsOne(DirectionalA, Zero);
    assert Plus(DirectionalA, Zero) == DirectionalA;
    assert ActionAt(DirectionalPanel(), DirectionalA) == Some(Activate);
    assert ActionAt(DirectionalPanel(), Pos(0, 0)) == None;
    var visits := [DirectionalA];
    assert forall p :: p in visits ==> p == DirectionalA;
    DownWalkFrom([Zero], visits);
  }

  /** The candidates of a move along one axis: one straight segment. */
  lemma CandidatesStraight(v: Vector, d: Direction)
    requires (v.dx == 0) != (v.dy == 0)
    requires d == (if v.dx == 0 then HorizontalOf(v) else VerticalOf(v))
    ensures Candidates(v) == [Candidate(CircularFrom(Zero, [ButtonPos(d)]), [v])]
  {
  }

  /** The candidates of a move along both axes: horizontal first, then vertical first. */
  lemma CandidatesCorner(v: Vector)
    requires v.dx != 0 && v.dy != 0
    ensures Candidates(v) ==
      [ Candidate(CircularFrom(Zero, [ButtonPos(HorizontalOf(v)), ButtonPos(VerticalOf(v))]), [Vector(0, v.dy), Vector(v.dx, 0)]),
        Candidate(CircularFrom(Zero, [ButtonPos(VerticalOf(v)), ButtonPos(HorizontalOf(v))]), [Vector(v.dx, 0), Vector(0, v.dy)]) ]
  {
  }

  lemma DownWalksOfOne(cs: seq<Candidate>, h: Vector, current: seq<Vector>)
    requires ActionAt(DirectionalPanel(), Plus(DirectionalA, h)).Some?
    requires cs == [Candidate(CircularFrom(Zero, [h]), current)]
    ensures forall c :: c in cs ==> DownWalkOnKeys(c.down)
  {
    DownWalkToOne(h);
  }

  lemma DownWalksOfTwo(cs: seq<Candidate>, h: Vector, w: Vector, current0: seq<Vector>, current1: seq<Vector>)
    requires ActionAt(DirectionalPanel(), Plus(DirectionalA, h)).Some?
    requires ActionAt(DirectionalPanel(), Plus(DirectionalA, w)).Some?
    requires cs == [Candidate(CircularFrom(Zero, [h, w]), current0), Candidate(CircularFrom(Zero, [w, h]), current1)]
    ensures forall c :: c in cs ==> DownWalkOnKeys(c.down)
  {
    DownWalkToTwo(h, w);
    DownWalkToTwo(w, h);
  }

  /** One layer down, each candidate presses one key per axis moved along, then `A`. */
  lemma DownLength(v: Vector)
    ensures forall c :: c in Candidates(v) ==> |c.down| == Axes(v) + 1
  {
    if v.dx == 0 && v.dy == 0 {
      assert Candidates(v) == [Candidate([Zero], [Zero])];
    } else if v.dx != 0 && v.dy != 0 {
      CandidatesCorner(v);
      DownLengthOfTwo(Candidates(v), ButtonPos(HorizontalOf(v)), ButtonPos(VerticalOf(v)),
                      [Vector(0, v.dy), Vector(v.dx, 0)], [Vector(v.dx, 0), Vector(0, v.dy)]);
    } else {
      var d := if v.dx == 0 then HorizontalOf(v) else VerticalOf(v);
      CandidatesStraight(v, d);
      assert |CircularFrom(Zero, [ButtonPos(d)])| == 2;
    }
  }

  lemma DownLengthOfTwo(cs: seq<Candidate>, h: Vector, w: Vector, current0: seq<Vector>, current1: seq<Vector>)
    requires cs == [Candidate(CircularFrom(Zero, [h, w]), current0), Candidate(CircularFrom(Zero, [w, h]), current1)]
    ensures forall c :: c in cs ==> |c.down| == 3
  {
  }

  /** Every walk one layer down stays on keys of the directional keypad and ends on `A`. */
  lemma DownWalksOnKeys(v: Vector)
    ensures forall c :: c in Candidates(v) ==> DownWalkOnKeys(c.down)
  {
    if v.dx == 0 && v.dy == 0 {
      DownWalkStay();
      assert Candidates(v) == [Candidate([Zero], [Zero])];
    } else if v.dx != 0 && v.dy != 0 {
      CandidatesCorner(v);
      ButtonPosIsKey(HorizontalOf(v));
      ButtonPosIsKey(VerticalOf(v));
      DownWalksOfTwo(Candidates(v), ButtonPos(HorizontalOf(v)), ButtonPos(VerticalOf(v)),
                     [Vector(0, v.dy), Vector(v.dx, 0)], [Vector(v.dx, 0), Vector(0, v.dy)]);
    } else {
      var d := if v.dx == 0 then HorizontalOf(v) else VerticalOf(v);
      CandidatesStraight(v, d);
      ButtonPosIsKey(d);
      DownWalksOfOne(Candidates(v), ButtonPos(d), [v]);
    }
  }

  /** The candidates whose walk on this keypad never crosses `g` (the `filter_map` test). */
  function Survivors(cs: seq<Candidate>, start: Pos, g: Pos): (r: seq<Candidate>)
    ensures forall c :: c in r ==> c in cs && g !in Visits(start, c.current)
    ensures forall c :: c in cs && g !in Visits(start, c.current) ==> c in r
  {
    if cs == [] then []
    else
      var c := cs[|cs| - 1];
      Survivors(cs[..|cs| - 1], start, g) + (if g !in Visits(start, c.current) then [c] else [])
  }

  /** Moving between two keys always leaves at least one candidate that avoids the gap. */
  lemma SurvivorsNonEmpty(v: Vector, start: Pos, g: Pos)
    requires start != g && Plus(start, v) != g
    ensures Survivors(Candidates(v), start, g) != []
  {
    var cs := Candidates(v);
    if v.dx == 0 && v.dy == 0 {
      VisitsOne(start, Zero);
      assert cs[0] in cs;
    } else if v.dx == 0 || v.dy == 0 {
      VisitsOne(start, v);
      assert cs[0] in cs;
    } else {
      VisitsTwo(start, Vector(0, v.dy), Vector(v.dx, 0));
      VisitsTwo(start, Vector(v.dx, 0), Vector(0, v.dy));
      assert cs[0] in cs && cs[1] in cs;
      if Pos(start.x, start.y + v.dy) != g {
        assert g !in Visits(start, cs[0].current);
      } else {
        assert g !in Visits(start, cs[1].current);
      }
    }
  }

  // ---------------------------------------------------------------------------
  // The intended cost oracle

  predicate CostArgs(layers: nat, layer: nat, start: Pos, finish: Pos)
  {
    layer <= layers + 1 && (layer >= 1 ==> start != Gap(layers, layer) && finish != Gap(layers, layer))
  }

  /**
   * Human key presses needed to move the arm of `layer` from `start` to
   * `finish` and press that key, when every arm below rests on `A` before and
   * after.  Layer 0 is the human: one press.
   */
  function Cost(layers: nat, layer: nat, start: Pos, finish: Pos): nat
    requires CostArgs(layers, layer, start, finish)
    decreases layer, 2, 0
  {
    if layer == 0 then 1 else CheapestMove(layers, layer, start, finish)
  }

  /** A robot's move: the cheapest surviving candidate, plus one press per further step in a straight line. */
  function CheapestMove(layers: nat, layer: nat, start: Pos, finish: Pos): nat
    requires CostArgs(layers, layer, start, finish) && layer >= 1
    decreases layer, 1, 0
  {
    var v := To(start, finish);
    AliveCandidates(layers, layer, start, finish);
    Best(layers, layer, Survivors(Candidates(v), start, Gap(layers, layer))).value + ExtraClicks(v)
  }

  /** Some candidate of every move between two keys survives, and its walk one layer down avoids the gap. */
  lemma AliveCandidates(layers: nat, layer: nat, start: Pos, finish: Pos)
    requires CostArgs(layers, layer, start, finish) && layer >= 1
    ensures Survivors(Candidates(To(start, finish)), start, Gap(layers, layer)) != []
    ensures DownsAvoidGap(Survivors(Candidates(To(start, finish)), start, Gap(layers, layer)))
  {
    var v := To(start, finish);
    ToIsDisplacement(start, finish);
    SurvivorsNonEmpty(v, start, Gap(layers, layer));
    DownWalksOnKeys(v);
    var alive := Survivors(Candidates(v), start, Gap(layers, layer));
    forall k | 0 <= k < |alive| ensures Avoids(Pos(0, 0), DirectionalA, alive[k].down) {
      assert alive[k] in alive;
    }
  }

  /** Every candidate's walk one layer down avoids the gap of the directional keypad. */
  predicate DownsAvoidGap(cs: seq<Candidate>)
  {
    forall k :: 0 <= k < |cs| ==> Avoids(Pos(0, 0), DirectionalA, cs[k].down)
  }

  /** The cheapest down walk among `cs`; `None` when there is none. */
  function Best(layers: nat, layer: nat, cs: seq<Candidate>): (r: Option<nat>)
    requires 1 <= layer <= layers + 1
    requires DownsAvoidGap(cs)
    ensures r.None? <==> cs == []
    decreases layer, 0, |cs|
  {
    if cs == [] then None
    else
      var c := cs[|cs| - 1];
      assert c in cs;
      var w := WalkCost(layers, layer - 1, DirectionalA, c.down);
      match Best(layers, layer, cs[..|cs| - 1])
        case None => Some(w)
        case Some(b) => Some(Min(b, w))
  }

  /** Presses for the arm of `layer` to walk along `path` from `pos`, pressing each key reached. */
  function WalkCost(layers: nat, layer: nat, pos: Pos, path: seq<Vector>): (n: nat)
    requires layer <= layers
    requires layer >= 1 ==> Avoids(Gap(layers, layer), pos, path)
    decreases layer, 3, |path|
  {
    if path == [] then 0
    else
      var next := Plus(pos, path[0]);
      Cost(layers, layer, pos, next) + WalkCost(layers, layer, next, path[1..])
  }

  /** Each step of a walk costs at least one press. */
  lemma {:induction false} WalkCostAtLeastLength(layers: nat, layer: nat, pos: Pos, path: seq<Vector>)
    requires layer <= layers
    requires layer >= 1 ==> Avoids(Gap(layers, layer), pos, path)
    ensures WalkCost(layers, layer, pos, path) >= |path|
    decreases layer, 3, |path|
  {
    if path != [] {
      var next := Plus(pos, path[0]);
      assert Visits(pos, path)[0] == next;
      CostAtLeastOne(layers, layer, pos, next);
      WalkCostAtLeastLength(layers, layer, next, path[1..]);
    }
  }

  /** Every move costs at least one press. */
  lemma CostAtLeastOne(layers: nat, layer: nat, start: Pos, finish: Pos)
    requires CostArgs(layers, layer, start, finish)
    ensures Cost(layers, layer, start, finish) >= 1
    decreases layer, 2
  {
    if layer >= 1 {
      CostAtLeastDistance(layers, layer, start, finish);
    }
  }

  /** On the bottom layer every step is one press: the walk costs its length. */
  lemma {:induction false} WalkCostOfHuman(layers: nat, pos: Pos, path: seq<Vector>)
    ensures WalkCost(layers, 0, pos, path) == |path|
    decreases |path|
  {
    if path != [] {
      WalkCostOfHuman(layers, Plus(pos, path[0]), path[1..]);
    }
  }

  /** If every candidate walks at least `m` steps down, the best costs at least `m`. */
  lemma {:induction false} BestAtLeast(layers: nat, layer: nat, cs: seq<Candidate>, m: nat)
    requires 1 <= layer <= layers + 1 && cs != []
    requires DownsAvoidGap(cs)
    requires forall k :: 0 <= k < |cs| ==> |cs[k].down| >= m
    ensures Best(layers, layer, cs).value >= m
    decreases layer, 0, |cs|
  {
    LastWalkAtLeastLength(layers, layer, cs);
    if |cs| > 1 {
      BestAtLeast(layers, layer, cs[..|cs| - 1], m);
    }
  }

  lemma {:induction false} LastWalkAtLeastLength(layers: nat, layer: nat, cs: seq<Candidate>)
    requires 1 <= layer <= layers + 1 && cs != []
    requires DownsAvoidGap(cs)
    ensures WalkCost(layers, layer - 1, DirectionalA, cs[|cs| - 1].down) >= |cs[|cs| - 1].down|
    decreases layer, 0, 0
  {
    var down := cs[|cs| - 1].down;
    assert Avoids(Pos(0, 0), DirectionalA, down);
    assert layer - 1 >= 1 ==> Gap(layers, layer - 1) == Pos(0, 0);
    WalkCostAtLeastLength(layers, layer - 1, DirectionalA, down);
  }

  /** If every candidate walks exactly `m` steps down to the human, the best costs exactly `m`. */
  lemma {:induction false} BestOfHuman(layers: nat, cs: seq<Candidate>, m: nat)
    requires 1 <= layers + 1 && cs != []
    requires DownsAvoidGap(cs)
    requires forall k :: 0 <= k < |cs| ==> |cs[k].down| == m
    ensures Best(layers, 1, cs) == Some(m)
    decreases |cs|
  {
    var c := cs[|cs| - 1];
    assert c in cs;
    WalkCostOfHuman(layers, DirectionalA, c.down);
    if |cs| > 1 {
      forall d | d in cs[..|cs| - 1] ensures d in cs { }
      BestOfHuman(layers, cs[..|cs| - 1], m);
    }
  }

  /** Any move costs at least its Manhattan length plus the final press. */
  lemma CostAtLeastDistance(layers: nat, layer: nat, start: Pos, finish: Pos)
    requires CostArgs(layers, layer, start, finish) && layer >= 1
    ensures Cost(layers, layer, start, finish) >= Len(To(start, finish)) + 1
    decreases layer, 1
  {
    var v := To(start, finish);
    var alive := Survivors(Candidates(v), start, Gap(layers, layer));
    AliveCandidates(layers, layer, start, finish);
    SurvivorsDownLength(v, start, Gap(layers, layer));
    BestAtLeast(layers, layer, alive, Axes(v) + 1);
    CostFromBest(layers, layer, start, finish);
  }

  /** The robot driven by the human directly needs exactly its Manhattan distance plus one press. */
  lemma CostOfFirstRobot(layers: nat, start: Pos, finish: Pos)
    requires CostArgs(layers, 1, start, finish)
    ensures Cost(layers, 1, start, finish) == Len(To(start, finish)) + 1
  {
    var v := To(start, finish);
    var alive := Survivors(Candidates(v), start, Gap(layers, 1));
    AliveCandidates(layers, 1, start, finish);
    SurvivorsDownLength(v, start, Gap(layers, 1));
    BestOfHuman(layers, alive, Axes(v) + 1);
    CostFromBest(layers, 1, start, finish);
  }

  /** Every surviving candidate walks one step per axis, then back to `A`. */
  lemma SurvivorsDownLength(v: Vector, start: Pos, g: Pos)
    ensures forall k :: 0 <= k < |Survivors(Candidates(v), start, g)| ==> |Survivors(Candidates(v), start, g)[k].down| == Axes(v) + 1
  {
    DownLength(v);
    var alive := Survivors(Candidates(v), start, g);
    forall k | 0 <= k < |alive| ensures |alive[k].down| == Axes(v) + 1 {
      assert alive[k] in alive;
    }
  }

  /** Pressing the key the arm already points at costs one human press, at any depth. */
  lemma {:induction false} CostOfStaying(layers: nat, layer: nat, p: Pos)
    requires CostArgs(layers, layer, p, p)
    ensures Cost(layers, layer, p, p) == 1
    decreases layer
  {
    if layer > 0 {
      CostOfStaying(layers, layer - 1, DirectionalA);
      StayingStep(layers, layer, p);
    }
  }

  /** The one candidate of staying put survives any gap the arm is not on. */
  lemma SurvivorsOfStaying(p: Pos, g: Pos)
    requires p != g
    ensures Survivors(Candidates(To(p, p)), p, g) == [Candidate([Zero], [Zero])]
  {
    var c := Candidate([Zero], [Zero]);
    assert To(p, p) == Zero;
    assert Candidates(Zero) == [c];
    VisitsOne(p, Zero);
    SurvivorsOfOne(c, p, g);
  }

  /** Staying put walks the arm below from `A` back onto `A`. */
  lemma StayingAvoidsGap()
    ensures Avoids(Pos(0, 0), DirectionalA, [Zero])
  {
    VisitsOne(DirectionalA, Zero);
    assert Plus(DirectionalA, Zero) == DirectionalA;
  }

  /** Staying put costs one press of `A` one layer down. */
  lemma StayingStep(layers: nat, layer: nat, p: Pos)
    requires CostArgs(layers, layer, p, p) && layer >= 1
    requires Cost(layers, layer - 1, DirectionalA, DirectionalA) == 1
    ensures Cost(layers, layer, p, p) == 1
  {
    SurvivorsOfStaying(p, Gap(layers, layer));
    StayingAvoidsGap();
    BestOfOne(layers, layer, Candidate([Zero], [Zero]));
    WalkCostOfOne(layers, layer - 1, DirectionalA, Zero);
    assert Plus(DirectionalA, Zero) == DirectionalA;
    assert ExtraClicks(To(p, p)) == 0;
  }

  lemma SurvivorsOfOne(c: Candidate, start: Pos, g: Pos)
    requires g !in Visits(start, c.current)
    ensures Survivors([c], start, g) == [c]
  {
    assert [c][..0] == [];
  }

  lemma BestOfOne(layers: nat, layer: nat, c: Candidate)
    requires 1 <= layer <= layers + 1 && Avoids(Pos(0, 0), DirectionalA, c.down)
    ensures DownsAvoidGap([c])
    ensures Best(layers, layer, [c]) == Some(WalkCost(layers, layer - 1, DirectionalA, c.down))
  {
    assert [c][..0] == [];
  }

  /** The candidates of every move walk the keypad below clear of its gap. */
  lemma CandidatesDownsAvoidGap(v: Vector)
    ensures DownsAvoidGap(Candidates(v))
  {
    DownWalksOnKeys(v);
    var cs := Candidates(v);
    forall k | 0 <= k < |cs| ensures Avoids(Pos(0, 0), DirectionalA, cs[k].down) {
      assert cs[k] in cs;
    }
  }

  /** Filtering one more candidate appends it exactly when it avoids `g`. */
  lemma SurvivorsStep(cs: seq<Candidate>, i: nat, start: Pos, g: Pos)
    requires i < |cs| && DownsAvoidGap(cs) && DownsAvoidGap(Survivors(cs[..i], start, g))
    ensures g !in Visits(start, cs[i].current) ==> Survivors(cs[..i + 1], start, g) == Survivors(cs[..i], start, g) + [cs[i]]
    ensures g in Visits(start, cs[i].current) ==> Survivors(cs[..i + 1], start, g) == Survivors(cs[..i], start, g)
    ensures Avoids(Pos(0, 0), DirectionalA, cs[i].down)
  {
    assert cs[..i + 1][..i] == cs[..i];
    assert Survivors(cs[..i], start, g) + [] == Survivors(cs[..i], start, g);
  }

  /** The best walk after one more survivor `c`: the cheaper of the best so far and `c`'s. */
  lemma BestStep(layers: nat, layer: nat, alive: seq<Candidate>, c: Candidate)
    requires 1 <= layer <= layers + 1 && DownsAvoidGap(alive) && Avoids(Pos(0, 0), DirectionalA, c.down)
    ensures DownsAvoidGap(alive + [c])
    ensures Best(layers, layer, alive).None? ==> Best(layers, layer, alive + [c]) == Some(WalkCost(layers, layer - 1, DirectionalA, c.down))
    ensures Best(layers, layer, alive).Some? ==>
      Best(layers, layer, alive + [c]) == Some(Min(Best(layers, layer, alive).value, WalkCost(layers, layer - 1, DirectionalA, c.down)))
  {
    assert (alive + [c])[..|alive|] == alive;
  }

  /** The cost of a robot's move from the best walk of its survivors. */
  lemma CostFromBest(layers: nat, layer: nat, start: Pos, finish: Pos)
    requires CostArgs(layers, layer, start, finish) && layer >= 1
    requires DownsAvoidGap(Survivors(Candidates(To(start, finish)), start, Gap(layers, layer)))
    requires Best(layers, layer, Survivors(Candidates(To(start, finish)), start, Gap(layers, layer))).Some?
    ensures Cost(layers, layer, start, finish) ==
      Best(layers, layer, Survivors(Candidates(To(start, finish)), start, Gap(layers, layer))).value + ExtraClicks(To(start, finish))
  {
  }

  /** Folds one candidate into the best so far: `w` is its walk's cost when `alive` says it avoids the gap. */
  function Pick(best: Option<nat>, alive: bool, w: nat): (r: Option<nat>)
    ensures r.None? <==> best.None? && !alive
  {
    if !alive then best else if best.None? then Some(w) else Some(Min(best.value, w))
  }

  /** After `ci` candidates of `cs`, `best` is the best walk of those that avoid `g`. */
  predicate Folded(layers: nat, layer: nat, cs: seq<Candidate>, ci: nat, start: Pos, g: Pos, best: Option<nat>)
  {
    1 <= layer <= layers + 1 && DownsAvoidGap(cs) && ci <= |cs| &&
    DownsAvoidGap(Survivors(cs[..ci], start, g)) && best == Best(layers, layer, Survivors(cs[..ci], start, g))
  }

  /** Picking candidate `ci` keeps `Folded`. */
  lemma FoldStep(layers: nat, layer: nat, cs: seq<Candidate>, ci: nat, start: Pos, g: Pos, best: Option<nat>, alive: bool, w: nat)
    requires Folded(layers, layer, cs, ci, start, g, best) && ci < |cs|
    requires alive <==> g !in Visits(start, cs[ci].current)
    requires alive ==> w == WalkCost(layers, layer - 1, DirectionalA, cs[ci].down)
    ensures Folded(layers, layer, cs, ci + 1, start, g, Pick(best, alive, w))
  {
    SurvivorsStep(cs, ci, start, g);
    if alive {
      BestStep(layers, layer, Survivors(cs[..ci], start, g), cs[ci]);
    }
  }

  lemma WalkCostOfOne(layers: nat, layer: nat, pos: Pos, a: Vector)
    requires layer <= layers && (layer >= 1 ==> Avoids(Gap(layers, layer), pos, [a]))
    ensures WalkCost(layers, layer, pos, [a]) == Cost(layers, layer, pos, Plus(pos, a))
  {
    assert [a][1..] == [];
    VisitsOne(pos, a);
  }

  /**
   * One more robot in the chain never makes a move cheaper: the move of
   * `layer` with `layers` robots costs at most the same move one layer further
   * from the human with `layers + 1` robots.
   */
  lemma {:induction false} CostGrows(layers: nat, layer: nat, start: Pos, finish: Pos)
    requires CostArgs(layers + 1, layer + 1, start, finish)
    ensures CostArgs(layers, layer, start, finish)
    ensures Cost(layers + 1, layer + 1, start, finish) >= Cost(layers, layer, start, finish)
    decreases layer, 3
  {
    assert Gap(layers + 1, layer + 1) == Gap(layers, layer);
    if layer == 0 {
      HumanMoveGrows(layers, start, finish);
    } else {
      RobotMoveGrows(layers, layer, start, finish);
    }
  }

  lemma HumanMoveGrows(layers: nat, start: Pos, finish: Pos)
    requires CostArgs(layers + 1, 1, start, finish)
    ensures Cost(layers + 1, 1, start, finish) >= Cost(layers, 0, start, finish)
  {
    CostAtLeastOne(layers + 1, 1, start, finish);
  }

  lemma {:induction false} RobotMoveGrows(layers: nat, layer: nat, start: Pos, finish: Pos)
    requires CostArgs(layers + 1, layer + 1, start, finish) && CostArgs(layers, layer, start, finish) && layer >= 1
    requires Gap(layers + 1, layer + 1) == Gap(layers, layer)
    ensures Cost(layers + 1, layer + 1, start, finish) >= Cost(layers, layer, start, finish)
    decreases layer, 2
  {
    var alive := Survivors(Candidates(To(start, finish)), start, Gap(layers, layer));
    AliveCandidates(layers, layer, start, finish);
    BestGrows(layers, layer, alive);
    MoveGrows(layers, layer, start, finish);
  }

  /** A move costs at least as much one layer further out as its cheapest candidate does. */
  lemma MoveGrows(layers: nat, layer: nat, start: Pos, finish: Pos)
    requires CostArgs(layers + 1, layer + 1, start, finish) && CostArgs(layers, layer, start, finish) && layer >= 1
    requires Gap(layers + 1, layer + 1) == Gap(layers, layer)
    requires DownsAvoidGap(Survivors(Candidates(To(start, finish)), start, Gap(layers, layer)))
    requires Survivors(Candidates(To(start, finish)), start, Gap(layers, layer)) != []
    requires Best(layers + 1, layer + 1, Survivors(Candidates(To(start, finish)), start, Gap(layers, layer))).value >=
             Best(layers, layer, Survivors(Candidates(To(start, finish)), start, Gap(layers, layer))).value
    ensures Cost(layers + 1, layer + 1, start, finish) >= Cost(layers, layer, start, finish)
  {
    CostFromBest(layers, layer, start, finish);
    CostFromBest(layers + 1, layer + 1, start, finish);
  }

  lemma {:induction false} BestGrows(layers: nat, layer: nat, cs: seq<Candidate>)
    requires 1 <= layer <= layers + 1 && cs != [] && DownsAvoidGap(cs)
    ensures Best(layers + 1, layer + 1, cs).value >= Best(layers, layer, cs).value
    decreases layer, 1, |cs|
  {
    var c := cs[|cs| - 1];
    assert Avoids(Pos(0, 0), DirectionalA, c.down);
    WalkGrows(layers, layer - 1, DirectionalA, c.down);
    if |cs| > 1 {
      BestGrows(layers, layer, cs[..|cs| - 1]);
    }
  }

  lemma {:induction false} WalkGrows(layers: nat, layer: nat, pos: Pos, path: seq<Vector>)
    requires layer <= layers && Avoids(Gap(layers + 1, layer + 1), pos, path)
    ensures layer >= 1 ==> Avoids(Gap(layers, layer), pos, path)
    ensures WalkCost(layers + 1, layer + 1, pos, path) >= WalkCost(layers, layer, pos, path)
    decreases layer, 4, |path|
  {
    assert Gap(layers + 1, layer + 1) == Gap(layers, layer);
    if path != [] {
      var next := Plus(pos, path[0]);
      assert Visits(pos, path)[0] == next;
      CostGrows(layers, layer, pos, next);
      WalkGrows(layers, layer, next, path[1..]);
    }
  }

  // ---------------------------------------------------------------------------
  // The oracle as the code writes it (`move_and_click` with `is_pos_allowed`)

  /** `is_pos_allowed` as written: the numeric keypad's gap, but the `A` key of directional keypads. */
  function ForbiddenAsWritten(layers: nat, layer: nat): (r: Pos)
    ensures layer == layers + 1 ==> r == Gap(layers, layer)
    ensures layer != layers + 1 ==> r == DirectionalA != Gap(layers, layer)
  {
    if layer == layers + 1 then Pos(3, 0) else Pos(0, 2)
  }

  /** `move_and_click` as written; `None` where it panics on `min().unwrap()` of no candidate. */
  function CostAsWritten(layers: nat, layer: nat, start: Pos, finish: Pos): (r: Option<nat>)
    requires layer <= layers + 1
    ensures layer == 0 ==> r == Some(1)
    decreases layer, 2, 0
  {
    if layer == 0 then Some(1) else CheapestMoveAsWritten(layers, layer, start, finish)
  }

  function CheapestMoveAsWritten(layers: nat, layer: nat, start: Pos, finish: Pos): (r: Option<nat>)
    requires 1 <= layer <= layers + 1
    decreases layer, 1, 0
  {
    var v := To(start, finish);
    var alive := Survivors(ToPaths2(v), start, ForbiddenAsWritten(layers, layer));
    if alive == [] then None else AddClicks(BestAsWritten(layers, layer, alive), ExtraClicks(v))
  }

  /** A result of the search below, plus further presses of the last key. */
  function AddClicks(best: Option<nat>, n: nat): Option<nat>
  {
    if best.None? then None else Some(best.value + n)
  }

  function BestAsWritten(layers: nat, layer: nat, cs: seq<Candidate>): Option<nat>
    requires 1 <= layer <= layers + 1 && cs != []
    decreases layer, 0, |cs|
  {
    var w := WalkAsWritten(layers, layer - 1, cs[|cs| - 1].down);
    if |cs| == 1 || w.None? then w
    else match BestAsWritten(layers, layer, cs[..|cs| - 1])
      case None => None
      case Some(b) => Some(Min(b, w.value))
  }

  /** The `min()` as written, when it has a value, is at most the walk of every candidate, and all of those walks have one. */
  lemma {:induction false} BestAsWrittenIsMin(layers: nat, layer: nat, cs: seq<Candidate>, k: nat)
    requires 1 <= layer <= layers + 1 && k < |cs|
    ensures BestAsWritten(layers, layer, cs).Some? ==>
      WalkAsWritten(layers, layer - 1, cs[k].down).Some? &&
      BestAsWritten(layers, layer, cs).value <= WalkAsWritten(layers, layer - 1, cs[k].down).value
    decreases |cs|
  {
    if k < |cs| - 1 {
      var init := cs[..|cs| - 1];
      assert init[k] == cs[k];
      BestAsWrittenIsMin(layers, layer, init, k);
    }
  }

  /** The loop over `path_down` as written: `pos_down` stays on `A`, so every step starts there. */
  function WalkAsWritten(layers: nat, layer: nat, path: seq<Vector>): (r: Option<nat>)
    requires layer <= layers
    decreases layer, 3, |path|
  {
    if path == [] then Some(0)
    else match CostAsWritten(layers, layer, DirectionalA, Plus(DirectionalA, path[0]))
      case None => None
      case Some(c) =>
        match WalkAsWritten(layers, layer, path[1..])
          case None => None
          case Some(rest) => Some(c + rest)
  }

  /** The one candidate of a move along at most one axis: a single segment. */
  lemma ToPaths2Straight(v: Vector)
    requires v.dx == 0 || v.dy == 0
    ensures |ToPaths2(v)| == 1 && ToPaths2(v)[0].current == [v] && |ToPaths2(v)[0].down| == 2
  {
  }

  /**
   * The calls `move_and_click` receives while the code runs: from `solve1`,
   * moves between keys of the numeric keypad; from the loop over `path_down`,
   * which never advances `pos_down`, moves of a directional arm that start on
   * `A` and go somewhere else; and the human's presses.
   */
  predicate SolverCall(layers: nat, layer: nat, start: Pos, finish: Pos)
  {
    layer == 0 ||
    (layer == layers + 1 && start != Pos(3, 0) && finish != Pos(3, 0)) ||
    (1 <= layer <= layers && start == DirectionalA && (finish.x != DirectionalA.x || finish.y != DirectionalA.y))
  }

  /** Every displacement of `path` moves somewhere. */
  predicate NonZeroSteps(path: seq<Vector>)
  {
    forall k :: 0 <= k < |path| ==> path[k].dx != 0 || path[k].dy != 0
  }

  /**
   * As written, `move_and_click` never panics on the calls the code makes:
   * some candidate always survives `is_pos_allowed`, and every walk one layer
   * down makes calls of the same kind.
   */
  lemma {:induction false} AsWrittenDefined(layers: nat, layer: nat, start: Pos, finish: Pos)
    requires layer <= layers + 1 && SolverCall(layers, layer, start, finish)
    ensures CostAsWritten(layers, layer, start, finish).Some?
    decreases layer, 2
  {
    if layer >= 1 {
      var v := To(start, finish);
      var g := ForbiddenAsWritten(layers, layer);
      ToIsDisplacement(start, finish);
      if v.dx != 0 && v.dy != 0 {
        assert Pos(start.x, start.y + v.dy) != g || Pos(start.x + v.dx, start.y) != g;
      }
      AsWrittenSurvivorsNonEmpty(v, start, g);
      var alive := Survivors(ToPaths2(v), start, g);
      ToPaths2DownsNonZero(v);
      BestAsWrittenDefined(layers, layer, alive);
      assert CheapestMoveAsWritten(layers, layer, start, finish) == AddClicks(BestAsWritten(layers, layer, alive), ExtraClicks(v));
    }
  }

  lemma {:induction false} BestAsWrittenDefined(layers: nat, layer: nat, cs: seq<Candidate>)
    requires 1 <= layer <= layers + 1 && cs != []
    requires forall c :: c in cs ==> NonZeroSteps(c.down)
    ensures BestAsWritten(layers, layer, cs).Some?
    decreases layer, 1, |cs|
  {
    assert cs[|cs| - 1] in cs;
    WalkAsWrittenDefined(layers, layer - 1, cs[|cs| - 1].down);
    if |cs| > 1 {
      forall c | c in cs[..|cs| - 1] ensures NonZeroSteps(c.down) {
        assert c in cs;
      }
      BestAsWrittenDefined(layers, layer, cs[..|cs| - 1]);
    }
  }

  lemma {:induction false} WalkAsWrittenDefined(layers: nat, layer: nat, path: seq<Vector>)
    requires layer <= layers && NonZeroSteps(path)
    ensures WalkAsWritten(layers, layer, path).Some?
    decreases layer, 3, |path|
  {
    if path != [] {
      var next := Plus(DirectionalA, path[0]);
      assert next.x != DirectionalA.x || next.y != DirectionalA.y;
      AsWrittenDefined(layers, layer, DirectionalA, next);
      WalkAsWrittenDefined(layers, layer, path[1..]);
    }
  }

  /** Some candidate survives a forbidden cell that is not the target and not both corners. */
  lemma AsWrittenSurvivorsNonEmpty(v: Vector, start: Pos, g: Pos)
    requires Plus(start, v) != g
    requires v.dx != 0 && v.dy != 0 ==> Pos(start.x, start.y + v.dy) != g || Pos(start.x + v.dx, start.y) != g
    ensures Survivors(ToPaths2(v), start, g) != []
  {
    var cs := ToPaths2(v);
    if v.dx != 0 && v.dy != 0 {
      CornerVisits(v, start);
      assert cs[0] in cs && cs[1] in cs;
      if Pos(start.x, start.y + v.dy) != g {
        assert g !in Visits(start, cs[0].current);
      } else {
        assert g !in Visits(start, cs[1].current);
      }
    } else {
      ToPaths2Straight(v);
      VisitsOne(start, v);
      assert cs[0] in cs;
    }
  }

  /** Every walk one layer down presses a different key at each step. */
  lemma ToPaths2DownsNonZero(v: Vector)
    ensures forall c :: c in ToPaths2(v) ==> NonZeroSteps(c.down)
  {
    var h := ButtonPos(HorizontalOf(v));
    var w := ButtonPos(VerticalOf(v));
    assert h.dx != 0 || h.dy != 0;
    assert w.dx != 0 || w.dy != 0;
    assert h.dx != w.dx || h.dy != w.dy;
    CircularNonZero(h, w);
    if v.dx != 0 && v.dy != 0 {
      ToPaths2Corner(v);
      OfTwoNonZero(ToPaths2(v), h, w);
    } else {
      var d := if v.dx == 0 then h else w;
      OfOneNonZero(ToPaths2(v), d);
    }
  }

  lemma CircularNonZero(h: Vector, w: Vector)
    requires h.dx != 0 || h.dy != 0
    requires w.dx != 0 || w.dy != 0
    requires h.dx != w.dx || h.dy != w.dy
    ensures NonZeroSteps(CircularFrom(Zero, [h]))
    ensures NonZeroSteps(CircularFrom(Zero, [w]))
    ensures NonZeroSteps(CircularFrom(Zero, [h, w]))
    ensures NonZeroSteps(CircularFrom(Zero, [w, h]))
  {
    forall points: seq<Vector>, k | points in {[h], [w], [h, w], [w, h]} && 0 <= k <= |points|
      ensures CircularFrom(Zero, points)[k] == Leg(Zero, points, k)
    {
      CircularFromAt(Zero, points, k);
    }
  }

  lemma OfOneNonZero(cs: seq<Candidate>, d: Vector)
    requires |cs| == 1 && cs[0].down == CircularFrom(Zero, [d]) && NonZeroSteps(CircularFrom(Zero, [d]))
    ensures forall c :: c in cs ==> NonZeroSteps(c.down)
  {
  }

  lemma OfTwoNonZero(cs: seq<Candidate>, h: Vector, w: Vector)
    requires |cs| == 2 && cs[0].down == CircularFrom(Zero, [h, w]) && cs[1].down == CircularFrom(Zero, [w, h])
    requires NonZeroSteps(CircularFrom(Zero, [h, w])) && NonZeroSteps(CircularFrom(Zero, [w, h]))
    ensures forall c :: c in cs ==> NonZeroSteps(c.down)
  {
  }

  /** The two candidates of a move along both axes, by their walks on this keypad. */
  lemma ToPaths2Corner(v: Vector)
    requires v.dx != 0 && v.dy != 0
    ensures |ToPaths2(v)| == 2
    ensures ToPaths2(v)[0].current == [Vector(0, v.dy), Vector(v.dx, 0)]
    ensures ToPaths2(v)[1].current == [Vector(v.dx, 0), Vector(0, v.dy)]
    ensures ToPaths2(v)[0].down == CircularFrom(Zero, [ButtonPos(HorizontalOf(v)), ButtonPos(VerticalOf(v))])
    ensures ToPaths2(v)[1].down == CircularFrom(Zero, [ButtonPos(VerticalOf(v)), ButtonPos(HorizontalOf(v))])
  {
  }

  /** Where the two candidates of a move along both axes walk: through one corner or the other. */
  lemma CornerVisits(v: Vector, start: Pos)
    requires v.dx != 0 && v.dy != 0
    ensures Visits(start, ToPaths2(v)[0].current) == [Pos(start.x, start.y + v.dy), Plus(start, v)]
    ensures Visits(start, ToPaths2(v)[1].current) == [Pos(start.x + v.dx, start.y), Plus(start, v)]
  {
    ToPaths2Corner(v);
    VisitsTwo(start, Vector(0, v.dy), Vector(v.dx, 0));
    VisitsTwo(start, Vector(v.dx, 0), Vector(0, v.dy));
  }

  /**
   * As written, the directional gap is never tested: moving a directional
   * arm from `A` to `<` keeps the route that passes over the gap.
   */
  lemma AsWrittenCrossesGap(layers: nat, layer: nat, start: Pos, finish: Pos)
    requires 1 <= layer <= layers
    requires start == DirectionalA && finish == Pos(1, 0)
    ensures exists c :: c in Survivors(ToPaths2(To(start, finish)), start, ForbiddenAsWritten(layers, layer))
                     && Pos(0, 0) in Visits(start, c.current)
  {
    KeepsCornerRoute(To(start, finish), start, ForbiddenAsWritten(layers, layer));
  }

  /** The horizontal-first route of a corner move survives a test that only forbids a cell it does not visit. */
  lemma KeepsCornerRoute(v: Vector, start: Pos, g: Pos)
    requires v.dx != 0 && v.dy != 0
    requires g != Pos(start.x, start.y + v.dy) && g != Plus(start, v)
    ensures ToPaths2(v)[0] in Survivors(ToPaths2(v), start, g)
    ensures Pos(start.x, start.y + v.dy) in Visits(start, ToPaths2(v)[0].current)
  {
    ToPaths2Corner(v);
    CornerVisits(v, start);
    assert ToPaths2(v)[0] in ToPaths2(v);
  }

  /**
   * As written, the walk one layer down is priced from `A` every time: moving
   * from `A` to `<` prices a move from `A` to a cell outside the keypad.
   */
  lemma AsWrittenWalkLeavesKeypad()
    ensures exists c, w :: c in ToPaths2(To(DirectionalA, Pos(1, 0))) && w in c.down
                        && !InGrid(DirectionalPanel(), Plus(DirectionalA, w))
  {
    var v := To(DirectionalA, Pos(1, 0));
    LastDownStep(v);
    var c := ToPaths2(v)[1];
    assert Plus(DirectionalA, c.down[2]) == Pos(-1, 4);
  }

  /** The vertical-first route of a corner move ends one layer down with the step from its horizontal key back to `A`. */
  lemma LastDownStep(v: Vector)
    requires v.dx != 0 && v.dy != 0
    ensures ToPaths2(v)[1] in ToPaths2(v)
    ensures |ToPaths2(v)[1].down| == 3 && ToPaths2(v)[1].down[2] in ToPaths2(v)[1].down
    ensures ToPaths2(v)[1].down[2] == Between(ButtonPos(HorizontalOf(v)), Zero)
  {
    ToPaths2Corner(v);
    CircularTwoLast(ButtonPos(VerticalOf(v)), ButtonPos(HorizontalOf(v)));
  }

  lemma CircularTwoLast(a: Vector, b: Vector)
    ensures |CircularFrom(Zero, [a, b])| == 3 && CircularFrom(Zero, [a, b])[2] == Between(b, Zero)
  {
    CircularFromAt(Zero, [a, b], 2);
  }

  /** With no robot below, the as-written walk one layer down costs one press per step. */
  lemma {:induction false} WalkAsWrittenOfHuman(path: seq<Vector>)
    ensures WalkAsWritten(0, 0, path) == Some(|path|)
  {
    if path != [] {
      WalkAsWrittenOfHuman(path[1..]);
    }
  }

  /**
   * As written, pressing the numeric key the arm already points at costs two
   * presses with no robot in between, where one press is enough.
   */
  lemma AsWrittenStayingCostsTwo(layers: nat, layer: nat, p: Pos)
    requires layers == 0 && layer == 1 && p != Pos(3, 0)
    ensures CostAsWritten(layers, layer, p, p) == Some(2)
    ensures Cost(layers, layer, p, p) == 1
  {
    AsWrittenStaying(p);
    CostOfStaying(layers, layer, p);
  }

  lemma AsWrittenStaying(p: Pos)
    requires p != Pos(3, 0)
    ensures CostAsWritten(0, 1, p, p) == Some(2)
  {
    var v := To(p, p);
    SurvivorsAsWrittenStaying(0, 1, p);
    BestAsWrittenStaying(v);
    CostAsWrittenFromBest(0, 1, p, p, 2);
    NoExtraClicksWhenStaying(v);
  }

  /** As written, the one candidate of a straight move costs two presses with no robot in between. */
  lemma BestAsWrittenStaying(v: Vector)
    requires v.dx == 0 || v.dy == 0
    ensures BestAsWritten(0, 1, ToPaths2(v)) == Some(2)
  {
    var cs := ToPaths2(v);
    ToPaths2Straight(v);
    assert cs == [cs[0]];
    WalkAsWrittenOfHuman(cs[0].down);
    BestAsWrittenOfOne(0, 1, cs[0]);
  }

  /** As written, the one candidate of staying put survives: the arm never leaves the key. */
  lemma SurvivorsAsWrittenStaying(layers: nat, layer: nat, p: Pos)
    requires layers == 0 && layer == 1 && p != Pos(3, 0)
    ensures Survivors(ToPaths2(To(p, p)), p, ForbiddenAsWritten(layers, layer)) == ToPaths2(To(p, p))
  {
    var v := To(p, p);
    var cs := ToPaths2(v);
    ToPaths2Straight(v);
    VisitsOne(p, v);
    assert cs == [cs[0]];
    SurvivorsOfOne(cs[0], p, ForbiddenAsWritten(layers, layer));
  }

  lemma NoExtraClicksWhenStaying(v: Vector)
    requires v.dx == 0 && v.dy == 0
    ensures ExtraClicks(v) == 0
  {
  }

  lemma CostAsWrittenFromBest(layers: nat, layer: nat, start: Pos, finish: Pos, b: nat)
    requires 1 <= layer <= layers + 1
    requires Survivors(ToPaths2(To(start, finish)), start, ForbiddenAsWritten(layers, layer)) != []
    requires BestAsWritten(layers, layer, Survivors(ToPaths2(To(start, finish)), start, ForbiddenAsWritten(layers, layer))) == Some(b)
    ensures CostAsWritten(layers, layer, start, finish) == Some(b + ExtraClicks(To(start, finish)))
  {
    var v := To(start, finish);
    var alive := Survivors(ToPaths2(v), start, ForbiddenAsWritten(layers, layer));
    assert CheapestMoveAsWritten(layers, layer, start, finish) == AddClicks(BestAsWritten(layers, layer, alive), ExtraClicks(v));
  }

  lemma BestAsWrittenOfOne(layers: nat, layer: nat, c: Candidate)
    requires 1 <= layer <= layers + 1
    ensures BestAsWritten(layers, layer, [c]) == WalkAsWritten(layers, layer - 1, c.down)
  {
  }

  // ---------------------------------------------------------------------------
  // Codes

  /** `solve1`'s `button_pos`: where a character sits on the numeric keypad (`.` marks the gap). */
  function KeyPos(c: char): (p: Pos)
    requires IsCodeChar(c) || c == '.'
    ensures c != '.' ==> ActionAt(NumericPanel(), p) == Some(Type(c))
    ensures c == '.' <==> p == Pos(3, 0)
  {
    match c
      case '7' => Pos(0, 0) case '8' => Pos(0, 1) case '9' => Pos(0, 2)
      case '4' => Pos(1, 0) case '5' => Pos(1, 1) case '6' => Pos(1, 2)
      case '1' => Pos(2, 0) case '2' => Pos(2, 1) case '3' => Pos(2, 2)
      case '.' => Pos(3, 0) case '0' => Pos(3, 1) case _ => Pos(3, 2)
  }

  predicate IsCode(code: seq<char>) { forall i :: 0 <= i < |code| ==> IsCodeChar(code[i]) }

  /** Human presses to type `code` with the numeric arm starting at `pos`. */
  function CodeCostFrom(layers: nat, pos: Pos, code: seq<char>): nat
    requires IsCode(code) && pos != Pos(3, 0)
    decreases |code|
  {
    if code == [] then 0
    else
      var next := KeyPos(code[0]);
      Cost(layers, layers + 1, pos, next) + CodeCostFrom(layers, next, code[1..])
  }

  function CodeCost(layers: nat, code: seq<char>): nat
    requires IsCode(code)
  {
    CodeCostFrom(layers, NumericA, code)
  }

  lemma {:induction false} CodeCostFromAtLeastLength(layers: nat, pos: Pos, code: seq<char>)
    requires IsCode(code) && pos != Pos(3, 0)
    ensures CodeCostFrom(layers, pos, code) >= |code|
    decreases |code|
  {
    if code != [] {
      CostAtLeastOne(layers, layers + 1, pos, KeyPos(code[0]));
      CodeCostFromAtLeastLength(layers, KeyPos(code[0]), code[1..]);
    }
  }

  /** With no robot in between, a code costs the Manhattan length of its route plus one press per key. */
  lemma {:induction false} CodeCostWithoutRobots(pos: Pos, code: seq<char>)
    requires IsCode(code) && pos != Pos(3, 0)
    ensures CodeCostFrom(0, pos, code) == RouteLength(pos, code) + |code|
    decreases |code|
  {
    if code != [] {
      CostOfFirstRobot(0, pos, KeyPos(code[0]));
      CodeCostWithoutRobots(KeyPos(code[0]), code[1..]);
    }
  }

  /** One more robot in the chain never makes a code cheaper to type. */
  lemma {:induction false} CodeCostGrows(layers: nat, pos: Pos, code: seq<char>)
    requires IsCode(code) && pos != Pos(3, 0)
    ensures CodeCostFrom(layers + 1, pos, code) >= CodeCostFrom(layers, pos, code)
    decreases |code|
  {
    if code != [] {
      var next := KeyPos(code[0]);
      assert next != Pos(3, 0);
      CodeCostGrows(layers, next, code[1..]);
      FirstKeyGrows(layers, pos, code);
    }
  }

  /** The first leg of a code costs at least as much with one more robot in the chain. */
  lemma FirstKeyGrows(layers: nat, pos: Pos, code: seq<char>)
    requires IsCode(code) && code != [] && pos != Pos(3, 0)
    requires CodeCostFrom(layers + 1, KeyPos(code[0]), code[1..]) >= CodeCostFrom(layers, KeyPos(code[0]), code[1..])
    ensures CodeCostFrom(layers + 1, pos, code) >= CodeCostFrom(layers, pos, code)
  {
    var next := KeyPos(code[0]);
    assert Gap(layers + 1, layers + 2) == Pos(3, 0) && Gap(layers, layers + 1) == Pos(3, 0);
    CostGrows(layers, layers + 1, pos, next);
  }

  function RouteLength(pos: Pos, code: seq<char>): nat
    requires IsCode(code)
    decreases |code|
  {
    if code == [] then 0 else Len(To(pos, KeyPos(code[0]))) + RouteLength(KeyPos(code[0]), code[1..])
  }

  // ---------------------------------------------------------------------------
  // With no robot in between, the oracle and the state machine agree

  /** Where the numeric arm rests after typing `code` from `pos`. */
  function LastKey(pos: Pos, code: seq<char>): Pos
    requires IsCode(code)
  {
    if code == [] then pos else KeyPos(code[|code| - 1])
  }

  lemma CodeSnoc(code: seq<char>, c: char)
    requires IsCode(code) && IsCodeChar(c)
    ensures IsCode(code + [c])
  {
    forall i | 0 <= i < |code + [c]|
      ensures IsCodeChar((code + [c])[i])
    {
      if i < |code| {
        assert (code + [c])[i] == code[i];
      }
    }
  }

  /** The route of a code one key longer: one more leg from where the arm rested. */
  lemma {:induction false} RouteLengthSnoc(pos: Pos, code: seq<char>, c: char)
    requires IsCode(code) && IsCodeChar(c)
    ensures IsCode(code + [c])
    ensures RouteLength(pos, code + [c]) == RouteLength(pos, code) + Len(To(LastKey(pos, code), KeyPos(c)))
    decreases |code|
  {
    CodeSnoc(code, c);
    if code == [] {
      assert code + [c] == [c] && [c][1..] == [];
    } else {
      var k := KeyPos(code[0]);
      assert (code + [c])[0] == code[0] && (code + [c])[1..] == code[1..] + [c];
      CodeSnoc(code[1..], c);
      RouteLengthSnoc(k, code[1..], c);
      assert LastKey(k, code[1..]) == LastKey(pos, code);
      assert RouteLength(pos, code + [c]) == Len(To(pos, k)) + RouteLength(k, code[1..] + [c]);
      assert RouteLength(pos, code) == Len(To(pos, k)) + RouteLength(k, code[1..]);
    }
  }

  /** The keys of the numeric keypad: its grid without the gap. */
  predicate NumericKey(p: Pos)
  {
    0 <= p.x <= 3 && 0 <= p.y <= 2 && !(p.x == 3 && p.y == 0)
  }

  lemma NumericKeys(p: Pos)
    ensures ActionAt(NumericPanel(), p).Some? <==> NumericKey(p)
    ensures ActionAt(NumericPanel(), p).Some? ==> ActionAt(NumericPanel(), p).value.Type?
    ensures ActionAt(NumericPanel(), p).Some? ==> IsCodeChar(ActionAt(NumericPanel(), p).value.key)
    ensures ActionAt(NumericPanel(), p).Some? ==> KeyPos(ActionAt(NumericPanel(), p).value.key) == p
  {
  }

  /** Pressing `A` over the numeric keypad types the key under the arm. */
  lemma TypeOnNumeric(s: State)
    requires |s.robots| == 1 && TypesOnLast(Machine(0))
    ensures ActionAt(NumericPanel(), s.robots[0]).Some? ==>
      Go(Machine(0), s, Activate) == Some(State(s.robots, s.output + [ActionAt(NumericPanel(), s.robots[0]).value.key]))
    ensures ActionAt(NumericPanel(), s.robots[0]).None? ==> Go(Machine(0), s, Activate).None?
  {
    NumericKeys(s.robots[0]);
  }

  /** A move of the numeric arm, with no robot in between, lands on a key or fails. */
  lemma MoveOnNumeric(s: State, d: Direction)
    requires |s.robots| == 1 && TypesOnLast(Machine(0))
    ensures Go(Machine(0), s, Move(d)).Some? <==> NumericKey(Shifted(s.robots[0], d))
    ensures Go(Machine(0), s, Move(d)).Some? ==> Go(Machine(0), s, Move(d)).value == State([Shifted(s.robots[0], d)], s.output)
  {
    var q := Shifted(s.robots[0], d);
    var panels := Machine(0);
    assert panels[0] == NumericPanel();
    NumericKeys(q);
    var r := Go1(panels, s, Move(d), 0);
    assert Go(panels, s, Move(d)) == r;
    assert r.Some? <==> ActionAt(NumericPanel(), q).Some?;
    assert s.robots[0 := q] == [q];
  }

  /** One step of the arm brings it at most one step closer to any point. */
  lemma StepCloser(l: Pos, p: Pos, d: Direction)
    ensures Len(To(l, Shifted(p, d))) + 1 >= Len(To(l, p))
  {
  }

  /** One more press, pressing `A`: the typed key is where the arm stood, so the route grows by the way there. */
  lemma ActivateStep(u: State, t: State, n: nat)
    requires |u.robots| == 1 && NumericKey(u.robots[0]) && IsCode(u.output) && TypesOnLast(Machine(0))
    requires n >= RouteLength(NumericA, u.output) + |u.output| + Len(To(LastKey(NumericA, u.output), u.robots[0]))
    requires Go(Machine(0), u, Activate) == Some(t)
    ensures |t.robots| == 1 && NumericKey(t.robots[0]) && IsCode(t.output)
    ensures n + 1 >= RouteLength(NumericA, t.output) + |t.output| + Len(To(LastKey(NumericA, t.output), t.robots[0]))
  {
    var p := u.robots[0];
    TypeOnNumeric(u);
    NumericKeys(p);
    var c := ActionAt(NumericPanel(), p).value.key;
    assert t == State(u.robots, u.output + [c]);
    RouteLengthSnoc(NumericA, u.output, c);
    assert LastKey(NumericA, t.output) == KeyPos(c) == p;
    assert Len(To(p, p)) == 0;
  }

  /** One more press, a move: the arm comes at most one step closer to the last key typed. */
  lemma MoveStep(u: State, t: State, d: Direction, n: nat)
    requires |u.robots| == 1 && NumericKey(u.robots[0]) && IsCode(u.output) && TypesOnLast(Machine(0))
    requires n >= RouteLength(NumericA, u.output) + |u.output| + Len(To(LastKey(NumericA, u.output), u.robots[0]))
    requires Go(Machine(0), u, Move(d)) == Some(t)
    ensures |t.robots| == 1 && NumericKey(t.robots[0]) && IsCode(t.output)
    ensures n + 1 >= RouteLength(NumericA, t.output) + |t.output| + Len(To(LastKey(NumericA, t.output), t.robots[0]))
  {
    MoveOnNumeric(u, d);
    StepCloser(LastKey(NumericA, u.output), u.robots[0], d);
  }

  /**
   * Typing with no robot in between: the human's keys pay for every step of
   * the route so far, one press per character, and the way from the last
   * key typed to where the arm now stands.
   */
  lemma {:induction false} TypingCostsRoute(keys: seq<Action>, t: State)
    requires TypesOnLast(Machine(0)) && HumanPresses(keys) && Run(Machine(0), Start(0), keys) == Some(t)
    ensures |t.robots| == 1 && NumericKey(t.robots[0]) && IsCode(t.output)
    ensures |keys| >= RouteLength(NumericA, t.output) + |t.output| + Len(To(LastKey(NumericA, t.output), t.robots[0]))
    decreases |keys|
  {
    var panels := Machine(0);
    if keys == [] {
      assert t == Start(0);
    } else {
      var front := keys[..|keys| - 1];
      var key := keys[|keys| - 1];
      var u := Run(panels, Start(0), front).value;
      assert Go(panels, u, key) == Some(t);
      assert HumanPresses(front) && key in HumanKeys;
      TypingCostsRoute(front, u);
      if key == Activate {
        ActivateStep(u, t, |front|);
      } else {
        MoveStep(u, t, key.dir, |front|);
      }
    }
  }

  /** The last step of a shortest walk from `p` to `q` on the numeric keypad: from a key next to `q`, one step closer to `p`. */
  function StepBefore(p: Pos, q: Pos): (Pos, Direction)
  {
    if q.x != p.x && (q.y != 0 || (if q.x > p.x then q.x - 1 else q.x + 1) != 3) then
      if q.x > p.x then (Pos(q.x - 1, q.y), Down) else (Pos(q.x + 1, q.y), Up)
    else if q.y > p.y then (Pos(q.x, q.y - 1), Right)
    else (Pos(q.x, q.y + 1), Left)
  }

  lemma StepBeforeCloser(p: Pos, q: Pos)
    requires NumericKey(p) && NumericKey(q) && (p.x != q.x || p.y != q.y)
    ensures NumericKey(StepBefore(p, q).0) && Shifted(StepBefore(p, q).0, StepBefore(p, q).1) == q
    ensures Len(To(p, StepBefore(p, q).0)) + 1 == Len(To(p, q))
  {
    StepBeforeLands(p, q);
    StepBeforeShortens(p, q);
  }

  lemma StepBeforeLands(p: Pos, q: Pos)
    requires NumericKey(p) && NumericKey(q) && (p.x != q.x || p.y != q.y)
    ensures NumericKey(StepBefore(p, q).0) && Shifted(StepBefore(p, q).0, StepBefore(p, q).1) == q
  {
    var (r, d) := StepBefore(p, q);
    if q.x != p.x && (q.y != 0 || (if q.x > p.x then q.x - 1 else q.x + 1) != 3) {
      if q.x > p.x {
        assert r == Pos(q.x - 1, q.y) && d == Down && Offset(Down) == Vector(1, 0);
      } else {
        assert r == Pos(q.x + 1, q.y) && d == Up && Offset(Up) == Vector(-1, 0);
      }
    } else if q.y > p.y {
      assert r == Pos(q.x, q.y - 1) && d == Right && Offset(Right) == Vector(0, 1);
    } else {
      assert r == Pos(q.x, q.y + 1) && d == Left && Offset(Left) == Vector(0, -1);
    }
  }

  lemma StepBeforeShortens(p: Pos, q: Pos)
    requires NumericKey(p) && NumericKey(q) && (p.x != q.x || p.y != q.y)
    ensures Len(To(p, StepBefore(p, q).0)) + 1 == Len(To(p, q))
  {
    var r := StepBefore(p, q).0;
    assert Len(To(p, r)) == Abs(r.x - p.x) + Abs(r.y - p.y);
    assert Len(To(p, q)) == Abs(q.x - p.x) + Abs(q.y - p.y);
    if q.x != p.x && (q.y != 0 || (if q.x > p.x then q.x - 1 else q.x + 1) != 3) {
      assert r.y == q.y && Abs(r.x - p.x) + 1 == Abs(q.x - p.x);
    } else if q.y > p.y {
      assert r.x == q.x && Abs(r.y - p.y) + 1 == Abs(q.y - p.y);
    } else {
      assert q.y < p.y;
      assert r.x == q.x && Abs(r.y - p.y) + 1 == Abs(q.y - p.y);
    }
  }

  /** With no robot in between, the human walks the numeric arm between two keys in as many presses as their distance. */
  lemma {:induction false} WalkNumeric(s: State, q: Pos) returns (keys: seq<Action>)
    requires TypesOnLast(Machine(0)) && |s.robots| == 1 && NumericKey(s.robots[0]) && NumericKey(q)
    ensures HumanPresses(keys) && |keys| == Len(To(s.robots[0], q))
    ensures Run(Machine(0), s, keys) == Some(State([q], s.output))
    decreases Len(To(s.robots[0], q))
  {
    var p := s.robots[0];
    if p.x == q.x && p.y == q.y {
      keys := [];
      assert s == State([q], s.output);
    } else {
      StepBeforeCloser(p, q);
      var r := StepBefore(p, q);
      var front := WalkNumeric(s, r.0);
      keys := front + [Move(r.1)];
      RunThenMove(s, front, r.0, r.1);
      HumanPressesAppend(front, [Move(r.1)]);
    }
  }

  lemma RunThenMove(s: State, front: seq<Action>, r: Pos, d: Direction)
    requires TypesOnLast(Machine(0)) && |s.robots| == 1
    requires Run(Machine(0), s, front) == Some(State([r], s.output)) && NumericKey(Shifted(r, d))
    ensures Run(Machine(0), s, front + [Move(d)]) == Some(State([Shifted(r, d)], s.output))
  {
    assert (front + [Move(d)])[..|front|] == front;
    MoveOnNumeric(State([r], s.output), d);
  }

  lemma RunThenType(s: State, front: seq<Action>, c: char, out: seq<char>)
    requires TypesOnLast(Machine(0)) && |s.robots| == 1 && IsCodeChar(c)
    requires Run(Machine(0), s, front) == Some(State([KeyPos(c)], out))
    ensures Run(Machine(0), s, front + [Activate]) == Some(State([KeyPos(c)], out + [c]))
  {
    assert (front + [Activate])[..|front|] == front;
    TypeOnNumeric(State([KeyPos(c)], out));
  }

  lemma HumanPressesAppend(a: seq<Action>, b: seq<Action>)
    requires HumanPresses(a) && (HumanPresses(b) || b == [Activate] || (|b| == 1 && b[0].Move?))
    ensures HumanPresses(a + b)
  {
    forall i | 0 <= i < |a + b| ensures (a + b)[i] in HumanKeys {
      if i >= |a| {
        assert (a + b)[i] == b[i - |a|];
        if !HumanPresses(b) {
          assert b[0] in HumanKeys by {
            if b[0].Move? {
              match b[0].dir
                case Left =>
                case Right =>
                case Up =>
                case Down =>
            }
          }
        }
      }
    }
  }

  /** Running `a + b` is running `a`, then `b` from where `a` left off. */
  lemma {:induction false} RunAppend(panels: seq<Panel>, s: State, a: seq<Action>, b: seq<Action>)
    requires TypesOnLast(panels) && |s.robots| == |panels|
    ensures Run(panels, s, a + b) == if Run(panels, s, a).None? then None else Run(panels, Run(panels, s, a).value, b)
    decreases |b|
  {
    if b == [] {
      assert a + b == a;
    } else {
      assert (a + b)[..|a + b| - 1] == a + b[..|b| - 1];
      RunAppend(panels, s, a, b[..|b| - 1]);
    }
  }

  /** With no robot in between, the human types `code` in its route length plus one press per character. */
  lemma {:induction false} TypeNumeric(code: seq<char>) returns (keys: seq<Action>)
    requires IsCode(code) && TypesOnLast(Machine(0))
    ensures HumanPresses(keys) && |keys| == RouteLength(NumericA, code) + |code|
    ensures Run(Machine(0), Start(0), keys) == Some(State([LastKey(NumericA, code)], code))
    decreases |code|
  {
    var panels := Machine(0);
    if code == [] {
      keys := [];
      assert Start(0) == State([NumericA], []);
    } else {
      var front := code[..|code| - 1];
      var c := code[|code| - 1];
      assert front + [c] == code;
      assert IsCode(front);
      var typed := TypeNumeric(front);
      var mid := State([LastKey(NumericA, front)], front);
      NumericKeys(KeyPos(c));
      NumericKeys(LastKey(NumericA, front));
      var walk := WalkNumeric(mid, KeyPos(c));
      RunAppend(panels, Start(0), typed, walk);
      keys := typed + walk + [Activate];
      RunThenType(Start(0), typed + walk, c, front);
      RouteLengthSnoc(NumericA, front, c);
      HumanPressesAppend(typed, walk);
      HumanPressesAppend(typed + walk, [Activate]);
    }
  }

  /**
   * With no robot in between, the oracle's price of a code is exactly the
   * length of a shortest typing of it on the state machine.
   */
  lemma CodeCostIsShortestTyping(code: seq<char>)
    requires IsCode(code)
    ensures Typable(0, code, CodeCost(0, code)) && Minimal(0, code, CodeCost(0, code))
  {
    MachineTypesOnLast(0);
    CodeCostWithoutRobots(NumericA, code);
    var keys := TypeNumeric(code);
    assert Produces(0, keys, code);
    forall keys' | Produces(0, keys', code) ensures |keys'| >= CodeCost(0, code) {
      TypingCostsRoute(keys', Run(Machine(0), Start(0), keys').value);
    }
  }

  /** A shortest typing has one length: two counts that are both typable and minimal agree. */
  lemma ShortestIsUnique(layers: nat, code: seq<char>, m: nat, n: nat)
    requires Typable(layers, code, m) && Minimal(layers, code, m)
    requires Typable(layers, code, n) && Minimal(layers, code, n)
    ensures m == n
  {
  }

  /** With no robot in between, the search and the oracle give every code the same count. */
  lemma SearchAgreesWithOracle(codes: seq<seq<char>>, answers: seq<(seq<char>, nat)>)
    requires forall k :: 0 <= k < |codes| ==> IsCode(codes[k])
    requires forall k :: 0 <= k < |answers| ==> answers[k].0 in codes
    requires forall k :: 0 <= k < |answers| ==> Typable(0, answers[k].0, answers[k].1) && Minimal(0, answers[k].0, answers[k].1)
    ensures forall k :: 0 <= k < |answers| ==> answers[k].1 == CodeCost(0, answers[k].0)
  {
    forall k | 0 <= k < |answers| ensures answers[k].1 == CodeCost(0, answers[k].0) {
      var c := answers[k].0;
      var i :| 0 <= i < |codes| && codes[i] == c;
      CodeCostIsShortestTyping(c);
      ShortestIsUnique(0, c, answers[k].1, CodeCost(0, c));
    }
  }

  /** The codes without repeats, in order of first appearance (what collecting into a map keeps). */
  function Distinct(codes: seq<seq<char>>): (r: seq<seq<char>>)
    ensures forall c :: c in r <==> c in codes
    ensures forall k, l :: 0 <= k < l < |r| ==> r[k] != r[l]
  {
    if codes == [] then []
    else
      var rest := Distinct(codes[..|codes| - 1]);
      assert forall c :: c in codes <==> c in codes[..|codes| - 1] || c == codes[|codes| - 1];
      if codes[|codes| - 1] in rest then rest else rest + [codes[|codes| - 1]]
  }

  /** Each code paired with the presses it needs. */
  function Priced(layers: nat, codes: seq<seq<char>>): (r: seq<(seq<char>, nat)>)
    requires forall k :: 0 <= k < |codes| ==> IsCode(codes[k])
    ensures |r| == |codes|
    ensures forall k :: 0 <= k < |r| ==> r[k] == (codes[k], CodeCost(layers, codes[k]))
  {
    if codes == [] then [] else Priced(layers, codes[..|codes| - 1]) + [(codes[|codes| - 1], CodeCost(layers, codes[|codes| - 1]))]
  }

  /** After `i` codes, `seen` holds the distinct ones and `answers` their prices. */
  predicate Collected(layers: nat, codes: seq<seq<char>>, i: nat, seen: seq<seq<char>>, answers: seq<(seq<char>, nat)>)
    requires forall k :: 0 <= k < |codes| ==> IsCode(codes[k])
  {
    i <= |codes| && seen == Distinct(codes[..i]) && (forall k :: 0 <= k < |seen| ==> seen[k] in codes) &&
    answers == Priced(layers, seen)
  }

  lemma CollectStep(layers: nat, codes: seq<seq<char>>, i: nat, seen: seq<seq<char>>, answers: seq<(seq<char>, nat)>)
    requires forall k :: 0 <= k < |codes| ==> IsCode(codes[k])
    requires Collected(layers, codes, i, seen, answers) && i < |codes|
    ensures codes[i] in seen ==> Collected(layers, codes, i + 1, seen, answers)
    ensures codes[i] !in seen ==>
      Collected(layers, codes, i + 1, seen + [codes[i]], answers + [(codes[i], CodeCost(layers, codes[i]))])
  {
    assert codes[..i + 1][..i] == codes[..i];
    assert (seen + [codes[i]])[..|seen|] == seen;
  }

  /** `PartTwoMut::solve`: sum over the distinct codes of numeric part times presses. */
  function TotalComplexity(layers: nat, codes: seq<seq<char>>): int
    requires forall k :: 0 <= k < |codes| ==> IsCode(codes[k]) && HasNumericPart(codes[k])
  {
    var ds := Distinct(codes);
    assert forall k :: 0 <= k < |ds| ==> ds[k] in codes;
    Complexity(Priced(layers, ds))
  }

  // ---------------------------------------------------------------------------
  // The memoising oracle (`PartTwoMut`)

  /** Every entry of `before` is still in `after`, unchanged. */
  ghost predicate Extends<K, V>(before: map<K, V>, after: map<K, V>)
  {
    forall k :: k in before ==> k in after && after[k] == before[k]
  }

  /** The loop over `path_down` after `i` steps: `sum` paid so far, the arm at `pos`, the rest still clear of the gap. */
  ghost predicate WalkedUpTo(layers: nat, layer: nat, path: seq<Vector>, i: nat, pos: Pos, sum: nat)
    requires layer <= layers && (layer >= 1 ==> Avoids(Gap(layers, layer), DirectionalA, path))
  {
    i <= |path| &&
    (layer >= 1 ==> Avoids(Gap(layers, layer), pos, path[i..])) &&
    sum + WalkCost(layers, layer, pos, path[i..]) == WalkCost(layers, layer, DirectionalA, path)
  }

  /** The next leg of the walk is a move `move_and_click` accepts, and paying for it keeps `WalkedUpTo`. */
  lemma WalkedStep(layers: nat, layer: nat, path: seq<Vector>, i: nat, pos: Pos, sum: nat)
    requires layer <= layers && (layer >= 1 ==> Avoids(Gap(layers, layer), DirectionalA, path))
    requires WalkedUpTo(layers, layer, path, i, pos, sum) && i < |path|
    ensures CostArgs(layers, layer, pos, Plus(pos, path[i]))
    ensures WalkedUpTo(layers, layer, path, i + 1, Plus(pos, path[i]), sum + Cost(layers, layer, pos, Plus(pos, path[i])))
  {
    assert path[i..][1..] == path[i + 1..];
    assert path[i..][0] == path[i];
    if layer >= 1 {
      assert Visits(pos, path[i..])[0] == Plus(pos, path[i]);
    }
  }

  class Oracle {
    const layers: nat
    var cache: map<(nat, Pos, Pos), nat>

    /** Every cached entry is the cost of its key. */
    ghost predicate Valid()
      reads this
    {
      forall k :: k in cache ==> CostArgs(layers, k.0, k.1, k.2) && cache[k] == Cost(layers, k.0, k.1, k.2)
    }

    constructor (layers: nat)
      ensures Valid() && this.layers == layers && cache == map[]
    {
      this.layers := layers;
      cache := map[];
    }

    /** `move_and_click`, with the intended gap and walk. */
    method MoveAndClick(layer: nat, start: Pos, finish: Pos) returns (n: nat)
      requires Valid() && CostArgs(layers, layer, start, finish)
      modifies this
      ensures Valid() && n == Cost(layers, layer, start, finish)
      ensures layer >= 1 ==> (layer, start, finish) in cache && cache[(layer, start, finish)] == n
      ensures Extends(old(cache), cache)
      decreases layer, 2
    {
      if layer == 0 {
        return 1;
      }
      if (layer, start, finish) in cache {
        return cache[(layer, start, finish)];
      }
      var v := To(start, finish);
      CandidatesDownsAvoidGap(v);
      var best := CheapestSurvivor(layer, start, Gap(layers, layer), Candidates(v));
      AliveCandidates(layers, layer, start, finish);
      CostFromBest(layers, layer, start, finish);
      n := best.value + ExtraClicks(v);
      cache := cache[(layer, start, finish) := n];
    }

    /** The `filter_map` and `min` of `move_and_click`: the cheapest walk below among the candidates that avoid `g`. */
    method CheapestSurvivor(layer: nat, start: Pos, g: Pos, cs: seq<Candidate>) returns (best: Option<nat>)
      requires Valid() && 1 <= layer <= layers + 1 && DownsAvoidGap(cs)
      modifies this
      ensures Valid() && DownsAvoidGap(Survivors(cs, start, g))
      ensures best == Best(layers, layer, Survivors(cs, start, g))
      ensures Extends(old(cache), cache)
      decreases layer, 1
    {
      best := None;
      assert cs[..0] == [];
      for ci := 0 to |cs|
        invariant Valid() && Extends(old(cache), cache)
        invariant Folded(layers, layer, cs, ci, start, g, best)
      {
        best := Consider(layer, start, g, cs, ci, best);
      }
      assert cs[..|cs|] == cs;
    }

    /** One candidate of `move_and_click`: its walk below counts when its own path avoids `g`. */
    method Consider(layer: nat, start: Pos, g: Pos, cs: seq<Candidate>, ci: nat, best: Option<nat>) returns (best': Option<nat>)
      requires Valid() && Folded(layers, layer, cs, ci, start, g, best) && ci < |cs|
      modifies this
      ensures Valid() && Folded(layers, layer, cs, ci + 1, start, g, best')
      ensures Extends(old(cache), cache)
      decreases layer, 0
    {
      var c := cs[ci];
      var alive := Allowed(g, start, c.current);
      var w := 0;
      if alive {
        w := Walk(layer - 1, c.down);
      }
      FoldStep(layers, layer, cs, ci, start, g, best, alive, w);
      best' := Pick(best, alive, w);
    }

    /** The loop over `path_current`: does the arm's walk avoid `g`? */
    static method Allowed(g: Pos, start: Pos, path: seq<Vector>) returns (ok: bool)
      ensures ok <==> g !in Visits(start, path)
    {
      var pos := start;
      var i := 0;
      while i < |path|
        invariant 0 <= i <= |path|
        invariant g !in Visits(start, path) <==> g !in Visits(pos, path[i..])
      {
        assert path[i..][1..] == path[i + 1..];
        var next := Plus(pos, path[i]);
        if next == g {
          return false;
        }
        pos := next;
        i := i + 1;
      }
      return true;
    }

    /** The loop over `path_down`, with the arm of `layer` advancing from `A` key to key. */
    method Walk(layer: nat, path: seq<Vector>) returns (sum: nat)
      requires Valid() && layer <= layers
      requires layer >= 1 ==> Avoids(Gap(layers, layer), DirectionalA, path)
      modifies this
      ensures Valid() && sum == WalkCost(layers, layer, DirectionalA, path)
      ensures Extends(old(cache), cache)
      decreases layer, 3
    {
      var pos := DirectionalA;
      sum := 0;
      var i := 0;
      assert path[0..] == path;
      while i < |path|
        invariant Valid() && Extends(old(cache), cache)
        invariant WalkedUpTo(layers, layer, path, i, pos, sum)
        decreases |path| - i
      {
        WalkedStep(layers, layer, path, i, pos, sum);
        var next := Plus(pos, path[i]);
        var c := MoveAndClick(layer, pos, next);
        sum := sum + c;
        pos := next;
        i := i + 1;
      }
      assert path[i..] == [];
    }

    /**
     * `solve`: price every code, keep one answer per distinct code (the
     * `HashMap`), and add up numeric part times presses.
     */
    method Solve(codes: seq<seq<char>>) returns (total: int)
      requires Valid() && forall k :: 0 <= k < |codes| ==> IsCode(codes[k]) && HasNumericPart(codes[k])
      modifies this
      ensures Valid() && total == TotalComplexity(layers, codes)
    {
      var seen: seq<seq<char>> := [];
      var answers: seq<(seq<char>, nat)> := [];
      for i := 0 to |codes|
        invariant Valid() && Collected(layers, codes, i, seen, answers)
      {
        var n := TypeCode(codes[i]);
        CollectStep(layers, codes, i, seen, answers);
        if codes[i] !in seen {
          seen := seen + [codes[i]];
          answers := answers + [(codes[i], n)];
        }
      }
      assert codes[..|codes|] == codes;
      total := SumComplexities(answers);
    }

    /** The final sum of `solve`: numeric part times presses, over the collected answers. */
    static method SumComplexities(answers: seq<(seq<char>, nat)>) returns (total: int)
      ensures total == Complexity(answers)
    {
      total := 0;
      for j := 0 to |answers|
        invariant total == Complexity(answers[..j])
      {
        assert answers[..j + 1][..j] == answers[..j];
        total := total + Term(answers[j]);
      }
      assert answers[..|answers|] == answers;
    }

    /** `solve1`: presses to type one code, the numeric arm starting on `A`. */
    method TypeCode(code: seq<char>) returns (total: nat)
      requires Valid() && IsCode(code)
      modifies this
      ensures Valid() && total == CodeCost(layers, code)
    {
      var pos := NumericA;
      total := 0;
      for i := 0 to |code|
        invariant Valid() && pos != Pos(3, 0)
        invariant total + CodeCostFrom(layers, pos, code[i..]) == CodeCost(layers, code)
      {
        assert code[i..][1..] == code[i + 1..];
        var next := KeyPos(code[i]);
        var c := MoveAndClick(layers + 1, pos, next);
        total := total + c;
        pos := next;
      }
    }
  }
}
