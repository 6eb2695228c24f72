/**
 * 2025 day 10: each machine has indicator lights, buttons that each act on a
 * list of lights, and joltage requirements. Part one finds the fewest button
 * presses whose toggles light exactly the wanted pattern; part two finds the
 * fewest presses that raise every counter to its joltage, by a backtracking
 * search that mutates the remaining joltages and the set of used buttons.
 */
module Machines {
  import opened Text

  datatype Machine = Machine(lights: seq<bool>, buttons: seq<seq<nat>>, joltage: seq<int>)

  // ---------------------------------------------------------------------------
  // Parsing

  /** `s.replace(c, "")`. */
  function Remove(s: string, c: char): (r: string)
    ensures c !in r && |r| <= |s|
    ensures forall k :: 0 <= k < |r| ==> r[k] in s
  {
    if s == [] then []
    else
      var rest := Remove(s[1..], c);
      if s[0] == c then rest else [s[0]] + rest
  }

  /** `[.##.]`: `#` is a light that must be on. */
  function ParseLights(token: string): (r: seq<bool>)
    ensures |r| == |Remove(Remove(token, '['), ']')|
    ensures forall k :: 0 <= k < |r| ==> (r[k] <==> Remove(Remove(token, '['), ']')[k] == '#')
  {
    var body := Remove(Remove(token, '['), ']');
    seq(|body|, k requires 0 <= k < |body| => body[k] == '#')
  }

  /** What the tokens of a line have set so far. */
  datatype Fields = Fields(lights: Option<seq<bool>>, buttons: seq<seq<nat>>, joltage: Option<seq<int>>)

  /** A token kind is told by its first character. */
  predicate KnownToken(token: string)
  {
    token != [] && (token[0] == '[' || token[0] == '(' || token[0] == '{')
  }

  /** A token the loop accepts: a known first character, and numbers that parse inside `(..)` and `{..}`. */
  predicate TokenOk(token: string)
  {
    KnownToken(token)
    && (token[0] == '(' ==> ParseEach(Split(Remove(Remove(token, '('), ')'), ","), ParseNat).Some?)
    && (token[0] == '{' ==> ParseEach(Split(Remove(Remove(token, '{'), '}'), ","), ParseInt).Some?)
  }

  predicate HasToken(tokens: seq<string>, c: char)
  {
    exists k :: 0 <= k < |tokens| && tokens[k] != [] && tokens[k][0] == c
  }

  /** One token of the loop over `split_whitespace()`: `[..]` and `{..}` replace what an earlier one set, `(..)` appends a button. */
  function Step(f: Fields, token: string): Option<Fields>
  {
    if token == [] then None
    else if token[0] == '[' then Some(f.(lights := Some(ParseLights(token))))
    else if token[0] == '(' then
      match ParseEach(Split(Remove(Remove(token, '('), ')'), ","), ParseNat)
      case None => None
      case Some(button) => Some(f.(buttons := f.buttons + [button]))
    else if token[0] == '{' then
      match ParseEach(Split(Remove(Remove(token, '{'), '}'), ","), ParseInt)
      case None => None
      case Some(joltage) => Some(f.(joltage := Some(joltage)))
    else None
  }

  /** A step fails exactly on a token the loop rejects, and sets the lights or joltages only on their own token. */
  lemma StepFacts(f: Fields, token: string)
    ensures Step(f, token).Some? <==> TokenOk(token)
    ensures Step(f, token).Some? ==>
      (Step(f, token).value.lights.Some? <==> f.lights.Some? || token[0] == '[')
      && (Step(f, token).value.joltage.Some? <==> f.joltage.Some? || token[0] == '{')
  {
  }

  /** The whole token loop. */
  function ParseTokens(tokens: seq<string>): (r: Option<Fields>)
  {
    if tokens == [] then Some(Fields(None, [], None))
    else
      match ParseTokens(tokens[..|tokens| - 1])
      case None => None
      case Some(f) => Step(f, tokens[|tokens| - 1])
  }

  /** The token loop fails exactly when some token is unknown or holds a number that does not parse. */
  lemma {:induction false} ParseTokensOk(tokens: seq<string>)
    ensures ParseTokens(tokens).Some? <==> forall k :: 0 <= k < |tokens| ==> TokenOk(tokens[k])
  {
    if tokens != [] {
      var init := tokens[..|tokens| - 1];
      ParseTokensOk(init);
      if ParseTokens(init).Some? {
        StepFacts(ParseTokens(init).value, tokens[|tokens| - 1]);
      }
      assert forall k :: 0 <= k < |init| ==> init[k] == tokens[k];
    }
  }

  /** A token starting with `c` is in the last token or before it. */
  lemma HasTokenLast(tokens: seq<string>, c: char)
    requires tokens != []
    ensures HasToken(tokens, c) <==>
      HasToken(tokens[..|tokens| - 1], c) || (tokens[|tokens| - 1] != [] && tokens[|tokens| - 1][0] == c)
  {
    var init := tokens[..|tokens| - 1];
    if HasToken(init, c) {
      var k :| 0 <= k < |init| && init[k] != [] && init[k][0] == c;
      assert tokens[k] == init[k];
    }
    if HasToken(tokens, c) {
      var k :| 0 <= k < |tokens| && tokens[k] != [] && tokens[k][0] == c;
      if k < |init| {
        assert init[k] == tokens[k];
      }
    }
  }

  /** The lights are set exactly when a `[..]` token occurs. */
  lemma {:induction false} ParseTokensLights(tokens: seq<string>)
    requires ParseTokens(tokens).Some?
    ensures ParseTokens(tokens).value.lights.Some? <==> HasToken(tokens, '[')
  {
    if tokens != [] {
      var init := tokens[..|tokens| - 1];
      var last := tokens[|tokens| - 1];
      ParseTokensLights(init);
      StepFacts(ParseTokens(init).value, last);
      HasTokenLast(tokens, '[');
    }
  }

  /** The joltages are set exactly when a `{..}` token occurs. */
  lemma {:induction false} ParseTokensJoltage(tokens: seq<string>)
    requires ParseTokens(tokens).Some?
    ensures ParseTokens(tokens).value.joltage.Some? <==> HasToken(tokens, '{')
  {
    if tokens != [] {
      var init := tokens[..|tokens| - 1];
      var last := tokens[|tokens| - 1];
      ParseTokensJoltage(init);
      StepFacts(ParseTokens(init).value, last);
      HasTokenLast(tokens, '{');
    }
  }

  /** A machine line: fails on an unknown token, and when the lights or the joltages are missing. */
  function ParseMachine(line: string): (r: Option<Machine>)
  {
    match ParseTokens(Words(line))
    case None => None
    case Some(f) =>
      if f.lights.None? || f.joltage.None? then None
      else Some(Machine(f.lights.value, f.buttons, f.joltage.value))
  }

  /** A line parses exactly when every token is accepted and both a `[..]` and a `{..}` token occur. */
  lemma ParseMachineOk(line: string)
    ensures ParseMachine(line).Some? <==>
      (forall k :: 0 <= k < |Words(line)| ==> TokenOk(Words(line)[k]))
      && HasToken(Words(line), '[') && HasToken(Words(line), '{')
  {
    ParseTokensOk(Words(line));
    if ParseTokens(Words(line)).Some? {
      ParseTokensLights(Words(line));
      ParseTokensJoltage(Words(line));
    }
  }

  function ParseInput(s: string): Option<seq<Machine>>
  {
    ParseEach(Lines(s), ParseMachine)
  }

  // ---------------------------------------------------------------------------
  // Part one: lights toggled by a mask of buttons

  /** How often light `j` is listed in a button. */
  function Occurrences(button: seq<nat>, j: nat): (n: nat)
    ensures n <= |button| && (n > 0 <==> j in button)
  {
    if button == [] then 0
    else Occurrences(button[..|button| - 1], j) + (if button[|button| - 1] == j then 1 else 0)
  }

  /** Every light a button names is one of `n` lights. */
  predicate InRange(buttons: seq<seq<nat>>, n: nat)
  {
    forall i, k :: 0 <= i < |buttons| && 0 <= k < |buttons[i]| ==> buttons[i][k] < n
  }

  /** Pressing one button: `enabled[*b] ^= true` for each light it lists, in order. */
  function Flip(enabled: seq<bool>, button: seq<nat>): (r: seq<bool>)
    requires forall k :: 0 <= k < |button| ==> button[k] < |enabled|
    ensures |r| == |enabled|
  {
    if button == [] then enabled
    else
      var init := Flip(enabled, button[..|button| - 1]);
      var b := button[|button| - 1];
      init[b := !init[b]]
  }

  /** Pressing a button toggles each light once per occurrence: a light changes exactly when it is listed an odd number of times. */
  lemma {:induction false} FlipParity(enabled: seq<bool>, button: seq<nat>, j: nat)
    requires forall k :: 0 <= k < |button| ==> button[k] < |enabled|
    requires j < |enabled|
    ensures Flip(enabled, button)[j] <==> (enabled[j] <==> Occurrences(button, j) % 2 == 0)
  {
    if button != [] {
      var init := button[..|button| - 1];
      FlipParity(enabled, init, j);
      assert Occurrences(button, j) == Occurrences(init, j) + (if button[|button| - 1] == j then 1 else 0);
    }
  }

  /** `mask & (1 << i) != 0`. */
  function Bit(mask: nat, i: nat): bool
  {
    if i == 0 then mask % 2 == 1 else Bit(mask / 2, i - 1)
  }

  /** `count_ones`. */
  function Popcount(mask: nat): nat
  {
    if mask == 0 then 0 else mask % 2 + Popcount(mask / 2)
  }

  /** How often light `j` is toggled by the first `k` buttons that `mask` presses. */
  function Toggles(buttons: seq<seq<nat>>, mask: nat, k: nat, j: nat): nat
    requires k <= |buttons|
  {
    if k == 0 then 0
    else Toggles(buttons, mask, k - 1, j) + (if Bit(mask, k - 1) then Occurrences(buttons[k - 1], j) else 0)
  }

  /** The lights after the first `k` buttons of `mask` are pressed, all starting off. */
  function Toggled(n: nat, buttons: seq<seq<nat>>, mask: nat, k: nat): (r: seq<bool>)
    requires k <= |buttons| && InRange(buttons, n)
    ensures |r| == n
  {
    if k == 0 then seq(n, _ => false)
    else
      var before := Toggled(n, buttons, mask, k - 1);
      if Bit(mask, k - 1) then Flip(before, buttons[k - 1]) else before
  }

  /** A light ends up on exactly when the pressed buttons list it an odd number of times. */
  lemma {:induction false} ToggledParity(n: nat, buttons: seq<seq<nat>>, mask: nat, k: nat, j: nat)
    requires k <= |buttons| && InRange(buttons, n) && j < n
    ensures Toggled(n, buttons, mask, k)[j] <==> Toggles(buttons, mask, k, j) % 2 == 1
  {
    if k > 0 {
      ToggledParity(n, buttons, mask, k - 1, j);
      if Bit(mask, k - 1) {
        FlipParity(Toggled(n, buttons, mask, k - 1), buttons[k - 1], j);
      }
    }
  }

  /** The filter's closure: the vector `enabled`, toggled in place by the pressed buttons. */
  method Enable(n: nat, buttons: seq<seq<nat>>, mask: nat) returns (enabled: seq<bool>)
    requires InRange(buttons, n)
    ensures enabled == Toggled(n, buttons, mask, |buttons|)
  {
    var a := new bool[n](_ => false);
    for i := 0 to |buttons|
      invariant a[..] == Toggled(n, buttons, mask, i)
    {
      if Bit(mask, i) {
        ghost var before := a[..];
        for t := 0 to |buttons[i]|
          invariant a[..] == Flip(before, buttons[i][..t])
        {
          assert buttons[i][..t + 1][..t] == buttons[i][..t];
          a[buttons[i][t]] := !a[buttons[i][t]];
        }
        assert buttons[i][..|buttons[i]|] == buttons[i];
      }
    }
    enabled := a[..];
  }

  /** Mask `mask` lights exactly the wanted pattern. */
  predicate Matches(m: Machine, mask: nat)
    requires InRange(m.buttons, |m.lights|)
  {
    Toggled(|m.lights|, m.buttons, mask, |m.buttons|) == m.lights
  }

  /** The fewest set bits among the matching masks below `limit`. */
  function BestBelow(m: Machine, limit: nat): (r: Option<nat>)
    requires InRange(m.buttons, |m.lights|)
  {
    if limit == 0 then None
    else
      var r := BestBelow(m, limit - 1);
      var mask := limit - 1;
      if !Matches(m, mask) then r
      else if r.None? || Popcount(mask) < r.value then Some(Popcount(mask))
      else r
  }

  /** `BestBelow` is the minimum popcount over the matching masks, and is absent only when none matches. */
  lemma {:induction false} BestBelowIsMin(m: Machine, limit: nat)
    requires InRange(m.buttons, |m.lights|)
    ensures BestBelow(m, limit).None? <==> forall mask :: 0 <= mask < limit ==> !Matches(m, mask)
    ensures BestBelow(m, limit).Some? ==>
      exists mask :: 0 <= mask < limit && Matches(m, mask) && Popcount(mask) == BestBelow(m, limit).value
    ensures BestBelow(m, limit).Some? ==>
      forall mask :: 0 <= mask < limit && Matches(m, mask) ==> BestBelow(m, limit).value <= Popcount(mask)
  {
    if limit > 0 {
      BestBelowIsMin(m, limit - 1);
    }
  }

  /**
   * `min_presses`: the fewest presses over the masks `0 .. 2^buttons` whose toggles
   * light exactly the pattern. A light index out of range, or no matching mask, is
   * a failure where the source panics.
   */
  function MinPresses(m: Machine): Option<nat>
  {
    if !InRange(m.buttons, |m.lights|) then None else BestBelow(m, Pow2(|m.buttons|))
  }

  /** `MinPresses` is the least popcount of a matching mask below `2^buttons`; it fails only on a bad light index or when no mask matches. */
  lemma MinPressesIsMin(m: Machine)
    ensures MinPresses(m).Some? ==> InRange(m.buttons, |m.lights|)
    ensures MinPresses(m).Some? ==>
      exists mask :: 0 <= mask < Pow2(|m.buttons|) && Matches(m, mask) && Popcount(mask) == MinPresses(m).value
    ensures MinPresses(m).Some? ==>
      forall mask :: 0 <= mask < Pow2(|m.buttons|) && Matches(m, mask) ==> MinPresses(m).value <= Popcount(mask)
    ensures MinPresses(m).None? && InRange(m.buttons, |m.lights|) ==>
      forall mask :: 0 <= mask < Pow2(|m.buttons|) ==> !Matches(m, mask)
  {
    if InRange(m.buttons, |m.lights|) {
      BestBelowIsMin(m, Pow2(|m.buttons|));
    }
  }

  /** Part one: the sum of every machine's fewest presses. */
  function PartOne(machines: seq<Machine>): (r: Option<int>)
    ensures r.Some? <==> forall k :: 0 <= k < |machines| ==> MinPresses(machines[k]).Some?
  {
    if machines == [] then Some(0)
    else
      var init := PartOne(machines[..|machines| - 1]);
      var last := MinPresses(machines[|machines| - 1]);
      assert forall k :: 0 <= k < |machines| - 1 ==> machines[..|machines| - 1][k] == machines[k];
      if init.None? || last.None? then None else Some(init.value + last.value)
  }

  // ---------------------------------------------------------------------------
  // Part two: the joltage counters, specified by presses per button

  /** What presses `x[i]` of each button `i` add to counter `j`. */
  function Effect(buttons: seq<seq<nat>>, x: seq<nat>, j: nat): nat
    requires |x| == |buttons|
  {
    if x == [] then 0
    else Effect(buttons[..|buttons| - 1], x[..|x| - 1], j) + x[|x| - 1] * Occurrences(buttons[|buttons| - 1], j)
  }

  /** `x` presses no used button and brings every counter exactly to `remaining`. */
  ghost predicate Feasible(buttons: seq<seq<nat>>, remaining: seq<int>, used: seq<bool>, x: seq<nat>)
  {
    |x| == |buttons| && |used| == |buttons|
    && (forall i :: 0 <= i < |x| && used[i] ==> x[i] == 0)
    && forall j :: 0 <= j < |remaining| ==> Effect(buttons, x, j) == remaining[j]
  }

  /** `r` is the fewest total presses of a feasible `x`, or `None` when there is none. */
  ghost predicate Optimal(buttons: seq<seq<nat>>, remaining: seq<int>, used: seq<bool>, r: Option<nat>)
  {
    (r.None? ==> forall x: seq<nat> :: !Feasible(buttons, remaining, used, x))
    && (r.Some? ==> (exists x: seq<nat> :: Feasible(buttons, remaining, used, x) && Sum(x) == r.value)
                    && forall x: seq<nat> :: Feasible(buttons, remaining, used, x) ==> r.value <= Sum(x))
  }

  /** `Optimal`, among the feasible `x` that press button `b` a number of times listed in `tried`. */
  ghost predicate OptimalAmong(buttons: seq<seq<nat>>, remaining: seq<int>, used: seq<bool>, b: nat, tried: seq<int>, r: Option<nat>)
    requires b < |buttons|
  {
    (r.None? ==> forall x: seq<nat> :: Feasible(buttons, remaining, used, x) ==> x[b] !in tried)
    && (r.Some? ==> (exists x: seq<nat> :: Feasible(buttons, remaining, used, x) && x[b] in tried && Sum(x) == r.value)
                    && forall x: seq<nat> :: Feasible(buttons, remaining, used, x) && x[b] in tried ==> r.value <= Sum(x))
  }

  /** The counters after pressing `button` `delta` more times (`delta < 0`: undoing presses). */
  function Shifted(remaining: seq<int>, button: seq<nat>, delta: int): (r: seq<int>)
    ensures |r| == |remaining|
  {
    seq(|remaining|, j requires 0 <= j < |remaining| => remaining[j] + delta * Occurrences(button, j))
  }

  /** How often light `j` is listed by the buttons not used yet (the `rarity` map's value). */
  function Rarity(buttons: seq<seq<nat>>, used: seq<bool>, j: nat): nat
    requires |used| == |buttons|
  {
    if buttons == [] then 0
    else
      var last := if used[|used| - 1] then 0 else Occurrences(buttons[|buttons| - 1], j);
      Rarity(buttons[..|buttons| - 1], used[..|used| - 1], j) + last
  }

  /** The candidate press counts: exactly the remaining joltage when the light is on one unused button once, else `0 ..= remaining`. */
  function Clicks(count: nat, remaining: nat): (r: seq<int>)
    ensures forall k :: 0 <= k < |r| ==> 0 <= r[k] <= remaining
  {
    if count == 1 then [remaining] else seq(remaining + 1, i => i)
  }

  /** Folding one branch's result into the best so far, as the loop of `go` does. */
  function Better(best: Option<nat>, res: Option<nat>): (r: Option<nat>)
    ensures r.None? <==> best.None? && res.None?
    ensures r.Some? ==> (best.Some? ==> r.value <= best.value) && (res.Some? ==> r.value <= res.value)
    ensures r.Some? ==> r == best || r == res
  {
    if best.Some? then (if res.Some? && res.value < best.value then res else best) else res
  }

  function Plus(r: Option<nat>, k: nat): Option<nat>
  {
    if r.Some? then Some(r.value + k) else None
  }

  function CountFalse(s: seq<bool>): nat
  {
    if s == [] then 0 else CountFalse(s[..|s| - 1]) + (if s[|s| - 1] then 0 else 1)
  }

  /** Marking an unused button used shrinks the search. */
  lemma {:induction false} CountFalseMark(s: seq<bool>, b: nat)
    requires b < |s| && !s[b]
    ensures CountFalse(s[b := true]) < CountFalse(s)
  {
    var n := |s|;
    if b < n - 1 {
      assert s[b := true][..n - 1] == s[..n - 1][b := true];
      CountFalseMark(s[..n - 1], b);
    } else {
      assert s[b := true][..n - 1] == s[..n - 1];
    }
  }

  lemma {:induction false} SumZeros(n: nat)
    ensures Sum(seq(n, _ => 0)) == 0
  {
    if n > 0 {
      assert seq(n, _ => 0)[1..] == seq(n - 1, _ => 0);
      SumZeros(n - 1);
    }
  }

  /** Changing the presses of button `b` changes each counter by the difference times its occurrences. */
  lemma {:induction false} EffectUpdate(buttons: seq<seq<nat>>, x: seq<nat>, b: nat, k: nat, j: nat)
    requires |x| == |buttons| && b < |x|
    ensures Effect(buttons, x[b := k], j) + x[b] * Occurrences(buttons[b], j)
         == Effect(buttons, x, j) + k * Occurrences(buttons[b], j)
  {
    var n := |x|;
    if b == n - 1 {
      assert x[b := k][..n - 1] == x[..n - 1];
    } else {
      assert x[b := k][..n - 1] == x[..n - 1][b := k];
      assert buttons[..n - 1][b] == buttons[b];
      EffectUpdate(buttons[..n - 1], x[..n - 1], b, k, j);
    }
  }

  /** A counter no pressed button touches stays at zero. */
  lemma {:induction false} EffectZero(buttons: seq<seq<nat>>, x: seq<nat>, j: nat)
    requires |x| == |buttons|
    requires forall i :: 0 <= i < |x| ==> x[i] == 0 || Occurrences(buttons[i], j) == 0
    ensures Effect(buttons, x, j) == 0
  {
    if x != [] {
      var n := |x|;
      assert forall i :: 0 <= i < n - 1 ==> x[..n - 1][i] == x[i] && buttons[..n - 1][i] == buttons[i];
      EffectZero(buttons[..n - 1], x[..n - 1], j);
    }
  }

  /** One button alone contributes no more than the whole counter. */
  lemma {:induction false} EffectAtLeast(buttons: seq<seq<nat>>, x: seq<nat>, b: nat, j: nat)
    requires |x| == |buttons| && b < |x|
    ensures x[b] * Occurrences(buttons[b], j) <= Effect(buttons, x, j)
  {
    var n := |x|;
    if b < n - 1 {
      assert x[..n - 1][b] == x[b] && buttons[..n - 1][b] == buttons[b];
      EffectAtLeast(buttons[..n - 1], x[..n - 1], b, j);
    }
  }

  /** An unused button's occurrences are part of the rarity count. */
  lemma {:induction false} RarityAtLeast(buttons: seq<seq<nat>>, used: seq<bool>, b: nat, j: nat)
    requires |used| == |buttons| && b < |buttons| && !used[b]
    ensures Occurrences(buttons[b], j) <= Rarity(buttons, used, j)
  {
    var n := |buttons|;
    if b < n - 1 {
      assert buttons[..n - 1][b] == buttons[b] && used[..n - 1][b] == used[b];
      RarityAtLeast(buttons[..n - 1], used[..n - 1], b, j);
    }
  }

  /** Two distinct unused buttons both count towards the rarity. */
  lemma {:induction false} RarityAtLeastTwo(buttons: seq<seq<nat>>, used: seq<bool>, a: nat, b: nat, j: nat)
    requires |used| == |buttons| && a < b < |buttons| && !used[a] && !used[b]
    ensures Occurrences(buttons[a], j) + Occurrences(buttons[b], j) <= Rarity(buttons, used, j)
  {
    var n := |buttons|;
    assert buttons[..n - 1][a] == buttons[a] && used[..n - 1][a] == used[a];
    if b == n - 1 {
      RarityAtLeast(buttons[..n - 1], used[..n - 1], a, j);
    } else {
      assert buttons[..n - 1][b] == buttons[b] && used[..n - 1][b] == used[b];
      RarityAtLeastTwo(buttons[..n - 1], used[..n - 1], a, b, j);
    }
  }

  /** When a light is counted once and button `b` lists it, no other unused button does. */
  lemma OtherSilent(buttons: seq<seq<nat>>, used: seq<bool>, i: nat, b: nat, j: nat)
    requires |used| == |buttons| && i < |buttons| && b < |buttons| && i != b && !used[i] && !used[b]
    requires j in buttons[b] && Rarity(buttons, used, j) == 1
    ensures Occurrences(buttons[i], j) == 0
  {
    if i < b {
      RarityAtLeastTwo(buttons, used, i, b, j);
    } else {
      RarityAtLeastTwo(buttons, used, b, i, j);
    }
  }

  /** A light counted once is on one unused button, once; a feasible `x` presses that button exactly the light's remaining joltage. */
  lemma RarityOne(buttons: seq<seq<nat>>, used: seq<bool>, x: seq<nat>, b: nat, j: nat)
    requires |x| == |buttons| && |used| == |buttons| && forall i :: 0 <= i < |x| && used[i] ==> x[i] == 0
    requires b < |buttons| && !used[b] && j in buttons[b]
    requires Rarity(buttons, used, j) == 1
    ensures Effect(buttons, x, j) == x[b]
  {
    RarityAtLeast(buttons, used, b, j);
    OthersSilent(buttons, used, x, b, j);
    EffectZero(buttons, x[b := 0], j);
    EffectUpdate(buttons, x, b, 0, j);
    MulOne(x[b], Occurrences(buttons[b], j));
  }

  /** Apart from button `b`, every button is unpressed or does not list the light. */
  lemma OthersSilent(buttons: seq<seq<nat>>, used: seq<bool>, x: seq<nat>, b: nat, j: nat)
    requires |x| == |buttons| && |used| == |buttons| && forall i :: 0 <= i < |x| && used[i] ==> x[i] == 0
    requires b < |buttons| && !used[b] && j in buttons[b]
    requires Rarity(buttons, used, j) == 1
    ensures forall i :: 0 <= i < |x| ==> x[b := 0][i] == 0 || Occurrences(buttons[i], j) == 0
  {
    forall i | 0 <= i < |x| && i != b && !used[i]
      ensures Occurrences(buttons[i], j) == 0
    {
      OtherSilent(buttons, used, i, b, j);
    }
  }

  lemma MulOne(a: nat, o: nat)
    requires o == 1
    ensures a * o == a && 0 * o == 0
  {
  }

  /** Every feasible way of finishing presses the chosen button a number of times among the candidates. */
  lemma ClicksCover(buttons: seq<seq<nat>>, remaining: seq<int>, used: seq<bool>, b: nat, j: nat, count: nat)
    requires |used| == |buttons| && b < |buttons| && !used[b] && j in buttons[b] && j < |remaining|
    requires count == Rarity(buttons, used, j) && remaining[j] >= 0
    ensures forall x: seq<nat> :: Feasible(buttons, remaining, used, x) ==> x[b] in Clicks(count, remaining[j])
  {
    forall x: seq<nat> | Feasible(buttons, remaining, used, x)
      ensures x[b] in Clicks(count, remaining[j])
    {
      if count == 1 {
        RarityOne(buttons, used, x, b, j);
      } else {
        EffectAtLeast(buttons, x, b, j);
        AtMostProduct(x[b], Occurrences(buttons[b], j));
        assert Clicks(count, remaining[j])[x[b]] == x[b];
      }
    }
  }

  lemma AtMostProduct(a: nat, m: nat)
    requires m >= 1
    ensures a <= a * m
  {
  }

  /** With every counter at zero, pressing nothing is optimal. */
  lemma ZeroOptimal(buttons: seq<seq<nat>>, remaining: seq<int>, used: seq<bool>)
    requires |used| == |buttons|
    requires forall j :: 0 <= j < |remaining| ==> remaining[j] == 0
    ensures Optimal(buttons, remaining, used, Some(0))
  {
    var zero: seq<nat> := seq(|buttons|, _ => 0);
    forall j | 0 <= j < |remaining|
      ensures Effect(buttons, zero, j) == remaining[j]
    {
      EffectZero(buttons, zero, j);
    }
    SumZeros(|buttons|);
    assert Feasible(buttons, remaining, used, zero);
    forall x: seq<nat> | Feasible(buttons, remaining, used, x)
      ensures 0 <= Sum(x)
    {
      SumNonNegative(x);
    }
  }

  /** With every button used, nothing changes the counters, so a non-zero counter cannot be reached. */
  lemma AllUsedNone(buttons: seq<seq<nat>>, remaining: seq<int>, used: seq<bool>, j: nat)
    requires |used| == |buttons| && forall i :: 0 <= i < |used| ==> used[i]
    requires j < |remaining| && remaining[j] != 0
    ensures Optimal(buttons, remaining, used, None)
  {
    forall x: seq<nat> | Feasible(buttons, remaining, used, x)
      ensures false
    {
      EffectZero(buttons, x, j);
    }
  }

  /** A feasible finish of the branch that pressed `b` `k` times, with `b` then pressed `k` times, is feasible before the branch. */
  lemma Lift(buttons: seq<seq<nat>>, remaining: seq<int>, used: seq<bool>, b: nat, k: nat, x: seq<nat>)
    requires |used| == |buttons| && b < |buttons| && !used[b]
    requires Feasible(buttons, Shifted(remaining, buttons[b], -(k as int)), used[b := true], x)
    ensures Feasible(buttons, remaining, used, x[b := k]) && Sum(x[b := k]) == Sum(x) + k
  {
    var y := x[b := k];
    forall j | 0 <= j < |remaining|
      ensures Effect(buttons, y, j) == remaining[j]
    {
      EffectUpdate(buttons, x, b, k, j);
    }
    assert forall i :: 0 <= i < |y| && used[i] ==> y[i] == 0;
    SumUpdate(x, b, k);
  }

  /** A feasible `x` pressing `b` `k` times, with `b` then not pressed, finishes the branch that pressed `b` `k` times. */
  lemma Drop(buttons: seq<seq<nat>>, remaining: seq<int>, used: seq<bool>, b: nat, k: nat, x: seq<nat>)
    requires |used| == |buttons| && b < |buttons|
    requires Feasible(buttons, remaining, used, x) && x[b] == k
    ensures Feasible(buttons, Shifted(remaining, buttons[b], -(k as int)), used[b := true], x[b := 0])
    ensures Sum(x[b := 0]) + k == Sum(x)
  {
    var y, after := x[b := 0], Shifted(remaining, buttons[b], -(k as int));
    forall j | 0 <= j < |remaining|
      ensures Effect(buttons, y, j) == after[j]
    {
      EffectUpdate(buttons, x, b, 0, j);
    }
    SumUpdate(x, b, 0);
  }

  /** The branch pressing `b` `k` times, optimal on its own counters, is optimal among the `x` with `x[b] == k`. */
  lemma Branch(buttons: seq<seq<nat>>, remaining: seq<int>, used: seq<bool>, b: nat, k: nat, r: Option<nat>)
    requires |used| == |buttons| && b < |buttons| && !used[b]
    requires Optimal(buttons, Shifted(remaining, buttons[b], -(k as int)), used[b := true], r)
    ensures OptimalAmong(buttons, remaining, used, b, [k], Plus(r, k))
  {
    var after := Shifted(remaining, buttons[b], -(k as int));
    forall x: seq<nat> | Feasible(buttons, remaining, used, x) && x[b] in [k]
      ensures r.Some? && r.value + k <= Sum(x)
    {
      Drop(buttons, remaining, used, b, k, x);
    }
    if r.Some? {
      var y: seq<nat> :| Feasible(buttons, after, used[b := true], y) && Sum(y) == r.value;
      Lift(buttons, remaining, used, b, k, y);
      assert y[b := k][b] in [k];
    }
  }

  /** Folding in one more branch extends the optimum to one more candidate. */
  lemma Combine(buttons: seq<seq<nat>>, remaining: seq<int>, used: seq<bool>, b: nat, tried: seq<int>, k: int, best: Option<nat>, res: Option<nat>)
    requires b < |buttons|
    requires OptimalAmong(buttons, remaining, used, b, tried, best)
    requires OptimalAmong(buttons, remaining, used, b, [k], res)
    ensures OptimalAmong(buttons, remaining, used, b, tried + [k], Better(best, res))
  {
    var r := Better(best, res);
    forall x: seq<nat> | Feasible(buttons, remaining, used, x) && x[b] in tried + [k]
      ensures r.Some? && r.value <= Sum(x)
    {
      if x[b] !in tried {
        assert x[b] in [k];
      }
    }
    if r.Some? {
      if r == best {
        var x: seq<nat> :| Feasible(buttons, remaining, used, x) && x[b] in tried && Sum(x) == r.value;
        assert x[b] in tried + [k];
      } else {
        var x: seq<nat> :| Feasible(buttons, remaining, used, x) && x[b] in [k] && Sum(x) == r.value;
        assert x[b] in tried + [k];
      }
    }
  }

  /** Once every candidate has been tried, the best found is optimal. */
  lemma Complete(buttons: seq<seq<nat>>, remaining: seq<int>, used: seq<bool>, b: nat, tried: seq<int>, r: Option<nat>)
    requires b < |buttons|
    requires forall x: seq<nat> :: Feasible(buttons, remaining, used, x) ==> x[b] in tried
    requires OptimalAmong(buttons, remaining, used, b, tried, r)
    ensures Optimal(buttons, remaining, used, r)
  {
  }

  /** The optimum is unique, so `go`'s answer does not depend on the map's iteration order. */
  lemma OptimalUnique(buttons: seq<seq<nat>>, remaining: seq<int>, used: seq<bool>, r1: Option<nat>, r2: Option<nat>)
    requires Optimal(buttons, remaining, used, r1) && Optimal(buttons, remaining, used, r2)
    ensures r1 == r2
  {
    if r1.Some? {
      var x: seq<nat> :| Feasible(buttons, remaining, used, x) && Sum(x) == r1.value;
    }
    if r2.Some? {
      var x: seq<nat> :| Feasible(buttons, remaining, used, x) && Sum(x) == r2.value;
    }
  }

  // ---------------------------------------------------------------------------
  // The search state of `go`

  /** `rarity` maps each light to its count over the unused buttons plus its occurrences in `partial`. */
  ghost predicate Counts(rarity: map<nat, nat>, buttons: seq<seq<nat>>, used: seq<bool>, partial: seq<nat>)
    requires |used| == |buttons|
  {
    forall j :: (j in rarity <==> Rarity(buttons, used, j) + Occurrences(partial, j) > 0)
      && (j in rarity ==> rarity[j] == Rarity(buttons, used, j) + Occurrences(partial, j))
  }

  /** `min_by_key` over the map in its (unspecified) iteration order: some light of least count. */
  method Rarest(rarity: map<nat, nat>) returns (light: nat, count: nat)
    requires |rarity| > 0
    ensures light in rarity && count == rarity[light]
    ensures forall j :: j in rarity ==> count <= rarity[j]
  {
    var rest := rarity.Keys;
    light :| light in rest;
    count := rarity[light];
    rest := rest - {light};
    while rest != {}
      invariant rest <= rarity.Keys && light in rarity && count == rarity[light]
      invariant forall j :: j in rarity && j !in rest ==> count <= rarity[j]
      decreases |rest|
    {
      var j :| j in rest;
      if rarity[j] < count {
        light, count := j, rarity[j];
      }
      rest := rest - {j};
    }
  }

  /** The first of the first `n` unused buttons listing `light`, among those of least length. */
  function ShortestWith(buttons: seq<seq<nat>>, used: seq<bool>, light: nat, n: nat): (r: Option<nat>)
    requires |used| == |buttons| && n <= |buttons|
    ensures r.Some? ==> r.value < n && !used[r.value] && light in buttons[r.value]
  {
    if n == 0 then None
    else
      var r := ShortestWith(buttons, used, light, n - 1);
      var i := n - 1;
      if !used[i] && light in buttons[i] && (r.None? || |buttons[i]| < |buttons[r.value]|) then Some(i) else r
  }

  /** `ShortestWith` finds a button exactly when one exists, of least length, and the first such. */
  lemma {:induction false} ShortestWithIsFirstShortest(buttons: seq<seq<nat>>, used: seq<bool>, light: nat, n: nat)
    requires |used| == |buttons| && n <= |buttons|
    ensures ShortestWith(buttons, used, light, n).None? <==>
      forall i :: 0 <= i < n ==> used[i] || light !in buttons[i]
    ensures ShortestWith(buttons, used, light, n).Some? ==>
      var b := ShortestWith(buttons, used, light, n).value;
      (forall i :: 0 <= i < n && !used[i] && light in buttons[i] ==> |buttons[b]| <= |buttons[i]|)
      && (forall i :: 0 <= i < b && !used[i] && light in buttons[i] ==> |buttons[b]| < |buttons[i]|)
  {
    if n > 0 {
      ShortestWithIsFirstShortest(buttons, used, light, n - 1);
    }
  }

  /** A light with a positive count is listed by some unused button. */
  lemma {:induction false} RarityWitness(buttons: seq<seq<nat>>, used: seq<bool>, j: nat)
    requires |used| == |buttons| && Rarity(buttons, used, j) > 0
    ensures exists i :: 0 <= i < |buttons| && !used[i] && j in buttons[i]
  {
    var n := |buttons|;
    if used[n - 1] || Occurrences(buttons[n - 1], j) == 0 {
      RarityWitness(buttons[..n - 1], used[..n - 1], j);
      var i :| 0 <= i < n - 1 && !used[..n - 1][i] && j in buttons[..n - 1][i];
      assert !used[i] && j in buttons[i];
    } else {
      assert !used[n - 1] && j in buttons[n - 1];
    }
  }

  /** Every button lists lights in range and none is empty (parsing guarantees the latter). */
  predicate Wellformed(buttons: seq<seq<nat>>, lights: nat)
  {
    InRange(buttons, lights) && forall i :: 0 <= i < |buttons| ==> buttons[i] != []
  }

  /** Pressing once more for one more listed light raises just that counter by `delta`. */
  lemma ShiftedStep(remaining: seq<int>, listed: seq<nat>, light: nat, delta: int)
    requires light < |remaining|
    ensures Shifted(remaining, listed + [light], delta)
         == Shifted(remaining, listed, delta)[light := Shifted(remaining, listed, delta)[light] + delta]
  {
    var longer := listed + [light];
    assert longer[..|longer| - 1] == listed;
    forall j | 0 <= j < |remaining|
      ensures Shifted(remaining, longer, delta)[j]
           == Shifted(remaining, listed, delta)[light := Shifted(remaining, listed, delta)[light] + delta][j]
    {
      var o := Occurrences(listed, j);
      if j == light {
        assert delta * (o + 1) == delta * o + delta;
      }
    }
  }

  /** Undoing the presses restores the counters. */
  lemma ShiftedBack(remaining: seq<int>, button: seq<nat>, k: int)
    ensures Shifted(Shifted(remaining, button, -k), button, k) == remaining
  {
  }

  class MachineState {
    const buttons: seq<seq<nat>>
    const remaining: array<int>
    const used: array<bool>

    predicate Valid()
    {
      used.Length == |buttons| && Wellformed(buttons, remaining.Length)
    }

    /** The state `min_presses_2` starts from: the full joltages, no button used. */
    constructor(m: Machine)
      requires Wellformed(m.buttons, |m.joltage|)
      ensures Valid() && buttons == m.buttons
      ensures remaining[..] == m.joltage && used[..] == seq(|m.buttons|, _ => false)
      ensures fresh(remaining) && fresh(used)
    {
      buttons := m.buttons;
      remaining := new int[|m.joltage|](i requires 0 <= i < |m.joltage| => m.joltage[i]);
      used := new bool[|m.buttons|](_ => false);
    }

    /** Adds `delta` to each counter button `b` lists, once per occurrence. */
    method Adjust(b: nat, delta: int)
      requires Valid() && b < |buttons|
      modifies remaining
      ensures remaining[..] == Shifted(old(remaining[..]), buttons[b], delta)
    {
      ghost var before := remaining[..];
      var button := buttons[b];
      for t := 0 to |button|
        invariant remaining[..] == Shifted(before, button[..t], delta)
      {
        assert button[..t + 1] == button[..t] + [button[t]];
        ShiftedStep(before, button[..t], button[t], delta);
        remaining[button[t]] := remaining[button[t]] + delta;
      }
      assert button[..|button|] == button;
    }

    /** The `rarity` map: for each light, its occurrences over the unused buttons. */
    method ComputeRarity() returns (rarity: map<nat, nat>)
      requires Valid()
      ensures Counts(rarity, buttons, used[..], [])
    {
      rarity := map[];
      for i := 0 to |buttons|
        invariant Counts(rarity, buttons[..i], used[..i], [])
      {
        if !used[i] {
          var button := buttons[i];
          for t := 0 to |button|
            invariant Counts(rarity, buttons[..i], used[..i], button[..t])
          {
            assert button[..t + 1][..t] == button[..t];
            var light := button[t];
            rarity := rarity[light := (if light in rarity then rarity[light] else 0) + 1];
          }
          assert button[..|button|] == button;
        }
        assert buttons[..i + 1][..i] == buttons[..i] && used[..i + 1][..i] == used[..i];
      }
      assert buttons[..|buttons|] == buttons && used[..|buttons|] == used[..];
    }

    /**
     * The light and button `go` branches on: the light counted least often over the
     * unused buttons (`count` times), and the first shortest unused button listing it.
     */
    method Choose() returns (light: nat, count: nat, b: nat)
      requires Valid() && exists i :: 0 <= i < used.Length && !used[i]
      ensures b < |buttons| && !used[b] && light in buttons[b] && light < remaining.Length
      ensures count == Rarity(buttons, used[..], light) > 0
      ensures forall j :: Rarity(buttons, used[..], j) > 0 ==> count <= Rarity(buttons, used[..], j)
      ensures forall i :: 0 <= i < |buttons| && !used[i] && light in buttons[i] ==> |buttons[b]| <= |buttons[i]|
      ensures forall i :: 0 <= i < b && !used[i] && light in buttons[i] ==> |buttons[b]| < |buttons[i]|
    {
      var rarity := ComputeRarity();
      var some :| 0 <= some < used.Length && !used[some];
      RarityAtLeast(buttons, used[..], some, buttons[some][0]);
      assert buttons[some][0] in rarity;
      light, count := Rarest(rarity);
      RarityWitness(buttons, used[..], light);
      ShortestWithIsFirstShortest(buttons, used[..], light, |buttons|);
      b := ShortestWith(buttons, used[..], light, |buttons|).value;
    }

    /**
     * `go`: the fewest presses that bring every remaining counter to zero using only
     * unused buttons, or `None` when impossible. The state is restored on return.
     */
    method Go() returns (r: Option<nat>)
      requires Valid()
      modifies remaining, used
      decreases CountFalse(used[..]), 0
      ensures remaining[..] == old(remaining[..]) && used[..] == old(used[..])
      ensures Optimal(buttons, old(remaining[..]), old(used[..]), r)
    {
      if forall j :: 0 <= j < remaining.Length ==> remaining[j] == 0 {
        ZeroOptimal(buttons, remaining[..], used[..]);
        return Some(0);
      }
      if exists j :: 0 <= j < remaining.Length && remaining[j] < 0 {
        return None;
      }
      if forall i :: 0 <= i < used.Length ==> used[i] {
        var j :| 0 <= j < remaining.Length && remaining[j] != 0;
        AllUsedNone(buttons, remaining[..], used[..], j);
        return None;
      }
      var light, count, b := Choose();
      var clicks := Clicks(count, remaining[light]);
      ghost var start, free := remaining[..], used[..];
      ClicksCover(buttons, start, free, b, light, count);
      used[b] := true;
      CountFalseMark(free, b);
      r := TryClicks(b, clicks, start, free);
      used[b] := false;
      assert used[..] == free;
      Complete(buttons, start, free, b, clicks, r);
    }

    /** One iteration of that loop: press `b` `k` times, search on, add the `k` presses, undo the presses. */
    method TryOne(b: nat, k: nat, ghost start: seq<int>, ghost free: seq<bool>) returns (res: Option<nat>)
      requires Valid() && b < |buttons| && |free| == |buttons| && !free[b]
      requires remaining[..] == start && used[..] == free[b := true]
      modifies remaining, used
      decreases CountFalse(used[..]), 1
      ensures remaining[..] == start && used[..] == free[b := true]
      ensures OptimalAmong(buttons, start, free, b, [k], res)
    {
      Adjust(b, -(k as int));
      var r := Go();
      Branch(buttons, start, free, b, k, r);
      res := Plus(r, k);
      Adjust(b, k);
      ShiftedBack(start, buttons[b], k);
    }

    /** The loop of `go` over the candidate press counts of button `b`, keeping the best branch. */
    method TryClicks(b: nat, clicks: seq<int>, ghost start: seq<int>, ghost free: seq<bool>) returns (r: Option<nat>)
      requires Valid() && b < |buttons| && |free| == |buttons| && !free[b]
      requires remaining[..] == start && used[..] == free[b := true]
      requires forall i :: 0 <= i < |clicks| ==> clicks[i] >= 0
      modifies remaining, used
      decreases CountFalse(used[..]), 2
      ensures remaining[..] == start && used[..] == free[b := true]
      ensures OptimalAmong(buttons, start, free, b, clicks, r)
    {
      r := None;
      for i := 0 to |clicks|
        invariant remaining[..] == start && used[..] == free[b := true]
        invariant OptimalAmong(buttons, start, free, b, clicks[..i], r)
      {
        var k := clicks[i];
        var res := TryOne(b, k, start, free);
        Combine(buttons, start, free, b, clicks[..i], k, r, res);
        assert clicks[..i + 1] == clicks[..i] + [k];
        r := Better(r, res);
      }
      assert clicks[..|clicks|] == clicks;
    }
  }

  /** `min_presses_2`; `None` where the source panics: a malformed machine or no way to reach the joltages. */
  method MinPressesTwo(m: Machine) returns (r: Option<nat>)
    ensures !Wellformed(m.buttons, |m.joltage|) ==> r.None?
    ensures Wellformed(m.buttons, |m.joltage|) ==> Optimal(m.buttons, m.joltage, seq(|m.buttons|, _ => false), r)
  {
    if !Wellformed(m.buttons, |m.joltage|) {
      return None;
    }
    var state := new MachineState(m);
    r := state.Go();
  }

  /** A machine's fewest presses for part two. */
  ghost predicate Minimal(m: Machine, k: nat)
  {
    Wellformed(m.buttons, |m.joltage|) && Optimal(m.buttons, m.joltage, seq(|m.buttons|, _ => false), Some(k))
  }

  /** Part two: the sum of every machine's fewest presses, `None` where the source panics. */
  method SolvePartTwo(machines: seq<Machine>) returns (r: Option<int>)
    ensures r.Some? ==> exists ks: seq<nat> ::
      (|ks| == |machines| && Sum(ks) == r.value && forall i :: 0 <= i < |machines| ==> Minimal(machines[i], ks[i]))
    ensures r.None? ==> exists i :: 0 <= i < |machines| && forall k :: !Minimal(machines[i], k)
  {
    ghost var ks: seq<nat> := [];
    var total := 0;
    for i := 0 to |machines|
      invariant |ks| == i && Sum(ks) == total
      invariant forall t :: 0 <= t < i ==> Minimal(machines[t], ks[t])
    {
      var res := MinPressesTwo(machines[i]);
      if res.None? {
        forall k ensures !Minimal(machines[i], k)
        {
          if Minimal(machines[i], k) {
            OptimalUnique(machines[i].buttons, machines[i].joltage, seq(|machines[i].buttons|, _ => false), None, Some(k));
          }
        }
        return None;
      }
      SumAppend(ks, [res.value]);
      ks := ks + [res.value];
      total := total + res.value;
    }
    r := Some(total);
  }
}
