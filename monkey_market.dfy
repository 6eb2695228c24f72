/**
 * 2024 day 22: every buyer's secret number evolves by a pseudo-random
 * generator; part one adds up each buyer's secret after a number of steps.
 * A buyer's price is the last digit of the secret, and part two picks the
 * window of four consecutive price changes after whose first occurrence
 * selling earns the most bananas, summed over all buyers.
 */
module MonkeyMarket {
  import opened Text
  import Computer

  /** `PRNG::MOD`: every mixing step is pruned to 24 bits. */
  const Modulus: nat := 0x100_0000

  /** The `u64` range: products wrap around past it. */
  const Word: nat := 0x1_0000_0000_0000_0000

  // ---------------------------------------------------------------------------
  // Parsing

  /** `parse::<u64>()`: a decimal spelling of a value below 2^64. */
  function ParseSecret(w: string): (r: Option<nat>)
    ensures r.Some? <==> ParseNat(w).Some? && ParseNat(w).value < Word
    ensures r.Some? ==> r.value == ParseNat(w).value
  {
    match ParseNat(w)
      case Some(n) => if n < Word then Some(n) else None
      case None => None
  }

  /** One secret per non-empty line; any line that is not a `u64` fails the whole input. */
  function Parse(s: string): (r: Option<seq<nat>>)
    ensures r.Some? <==> forall k :: 0 <= k < |NonEmptyLines(s)| ==> ParseSecret(NonEmptyLines(s)[k]).Some?
    ensures r.Some? ==> |r.value| == |NonEmptyLines(s)|
  {
    ParseEach(NonEmptyLines(s), ParseSecret)
  }

  // ---------------------------------------------------------------------------
  // The generator

  /** The first mixing step: multiply by 64 (wrapping at 64 bits), mix (xor) and prune (mod 2^24). */
  function Scramble(x: nat): (r: nat)
    ensures r < Modulus
  {
    Computer.Xor((x * 64) % Word, x) % Modulus
  }

  /**
   * `next` on a state `x`: the first step, then divide by 32, mix and
   * prune, then multiply by 2048, mix and prune.
   */
  function Mix(x: nat): (r: nat)
    ensures r < Modulus
  {
    var a := Scramble(x);
    var b := Computer.Xor(a / 32, a) % Modulus;
    Computer.Xor((b * 2048) % Word, b) % Modulus
  }

  /** The generator's own test: from 123 the first number is 15887950. */
  lemma MixExample(seed: nat)
    requires seed == 123
    ensures Mix(seed) == 15887950
  {
    XorStep(123, 1, 122);
    XorStep(246, 3, 245);
    XorStep(492, 7, 491);
    XorStep(984, 15, 983);
    XorStep(1968, 30, 1966);
    XorStep(3936, 61, 3933);
    XorStep(7872, 123, 7867);
    XorStep(1, 61, 60);
    XorStep(3, 122, 121);
    XorStep(7, 245, 242);
    XorStep(15, 491, 484);
    XorStep(30, 983, 969);
    XorStep(61, 1966, 1939);
    XorStep(122, 3933, 3879);
    XorStep(245, 7867, 7758);
    XorStep(3879, 1, 3878);
    XorStep(7758, 3, 7757);
    XorStep(15516, 7, 15515);
    XorStep(31032, 15, 31031);
    XorStep(62064, 30, 62062);
    XorStep(124128, 60, 124124);
    XorStep(248256, 121, 248249);
    XorStep(496512, 242, 496498);
    XorStep(993024, 484, 992996);
    XorStep(1986048, 969, 1985993);
    XorStep(3972096, 1939, 3971987);
    XorStep(7944192, 3879, 7943975);
    XorStep(15888384, 7758, 15887950);
    MixOf(seed, 7872, 7867, 7758, 15888384, 15887950);
  }

  /** `Mix` from the values of its three steps. */
  lemma MixOf(x: nat, x64: nat, a: nat, b: nat, b2048: nat, c: nat)
    requires x64 == (x * 64) % Word && Computer.Xor(x64, x) % Modulus == a
    requires Computer.Xor(a / 32, a) % Modulus == b
    requires b2048 == (b * 2048) % Word && Computer.Xor(b2048, b) % Modulus == c
    ensures Mix(x) == c
  {
  }

  /** One bit of a concrete xor: from the xor of the halves to the xor of the numbers. */
  lemma XorStep(v: nat, w: nat, r: nat)
    requires v > 0 && w > 0 && Computer.Xor(v / 2, w / 2) == (r / 2) && r % 2 == (if v % 2 == w % 2 then 0 else 1)
    ensures Computer.Xor(v, w) == r
  {
  }

  /** `PRNG`: the seed it started from and its current state. */
  class Prng {
    var seed: nat
    var state: nat

    /** `PRNG::new`: the state starts at the seed. */
    constructor (seed: nat)
      ensures this.seed == seed && state == seed
    {
      this.seed := seed;
      state := seed;
    }

    /** `next`: advances the state by one mixing round and returns it. */
    method Next() returns (r: nat)
      modifies this
      ensures state == Mix(old(state)) && r == state && seed == old(seed)
      ensures r < Modulus
    {
      var x := state;
      x := Computer.Xor((x * 64) % Word, x) % Modulus;
      x := Computer.Xor(x / 32, x) % Modulus;
      x := Computer.Xor((x * 2048) % Word, x) % Modulus;
      state := x;
      r := x;
    }
  }

  /** The state after `k` calls of `next` from `seed`. */
  function Secret(seed: nat, k: nat): (r: nat)
    ensures k > 0 ==> r < Modulus
  {
    if k == 0 then seed else Mix(Secret(seed, k - 1))
  }

  /** Advancing `j` then `k` steps is advancing `j + k` steps. */
  lemma {:induction false} SecretAdd(seed: nat, j: nat, k: nat)
    ensures Secret(Secret(seed, j), k) == Secret(seed, j + k)
  {
    if k > 0 {
      SecretAdd(seed, j, k - 1);
    }
  }

  // ---------------------------------------------------------------------------
  // Part one

  /** What part one takes from one buyer: the last number returned, or 0 when there are no steps. */
  function Final(seed: nat, steps: nat): (r: nat)
    ensures r < Modulus
  {
    if steps == 0 then 0 else Secret(seed, steps)
  }

  /** The closure of part one: `steps` calls of `next`, keeping the last result. */
  method Generate(seed: nat, steps: nat) returns (x: nat)
    ensures x == Final(seed, steps)
  {
    var prng := new Prng(seed);
    x := 0;
    for i := 0 to steps
      invariant prng.state == Secret(seed, i) && x == Final(seed, i)
    {
      x := prng.Next();
    }
  }

  /** The sum part one computes over the first buyers. */
  function Total(secrets: seq<nat>, steps: nat): nat
  {
    if secrets == [] then 0 else Total(secrets[..|secrets| - 1], steps) + Final(secrets[|secrets| - 1], steps)
  }

  /** Each buyer adds a 24-bit number, and nothing at all when there are no steps. */
  lemma {:induction false} TotalBounds(secrets: seq<nat>, steps: nat)
    ensures Total(secrets, steps) < |secrets| * Modulus || secrets == []
    ensures steps == 0 ==> Total(secrets, steps) == 0
  {
    if secrets != [] {
      TotalBounds(secrets[..|secrets| - 1], steps);
    }
  }

  /** Part one: the sum over the buyers of the number `next` returns last. */
  method SolvePartOne(secrets: seq<nat>, steps: nat) returns (r: nat)
    ensures r == Total(secrets, steps)
  {
    r := 0;
    for b := 0 to |secrets|
      invariant r == Total(secrets[..b], steps)
    {
      var x := Generate(secrets[b], steps);
      assert secrets[..b + 1][..b] == secrets[..b];
      r := r + x;
    }
    assert secrets[..|secrets|] == secrets;
  }

  // ---------------------------------------------------------------------------
  // Prices and changes

  /** `bananas`: a price is the last decimal digit of the secret. */
  function Bananas(num: nat): (r: int)
    ensures 0 <= r < 10
  {
    num % 10
  }

  /** The buyer's `k`-th price, the seed's own price being the 0-th. */
  function Price(seed: nat, k: nat): int
  {
    Bananas(Secret(seed, k))
  }

  /** The `steps` pairs of a price change and the price after it. */
  function Changes(seed: nat, steps: nat): seq<(int, int)>
  {
    seq(steps, k requires 0 <= k < steps => (Price(seed, k + 1) - Price(seed, k), Price(seed, k + 1)))
  }

  /** The pairs `zip` makes of a list of prices: each change, with the price it leads to. */
  function Zip(prices: seq<int>): (r: seq<(int, int)>)
    ensures |r| == if prices == [] then 0 else |prices| - 1
  {
    if |prices| < 2 then []
    else
      var n := |prices|;
      Zip(prices[..n - 1]) + [(prices[n - 1] - prices[n - 2], prices[n - 1])]
  }

  /** One more step adds one change at the end. */
  lemma ChangesSnoc(seed: nat, steps: nat)
    requires steps > 0
    ensures Changes(seed, steps) == Changes(seed, steps - 1) + [(Price(seed, steps) - Price(seed, steps - 1), Price(seed, steps))]
  {
  }

  /** The first `n` prices of a buyer. */
  function Prices(seed: nat, n: nat): (r: seq<int>)
    ensures |r| == n
  {
    if n == 0 then [] else Prices(seed, n - 1) + [Price(seed, n - 1)]
  }

  lemma {:induction false} PricesAt(seed: nat, n: nat, k: nat)
    requires k < n
    ensures Prices(seed, n)[k] == Price(seed, k)
  {
    if k < n - 1 {
      PricesAt(seed, n - 1, k);
    }
  }

  /** Zipping the prices gives the changes. */
  lemma {:induction false} ZipPrices(seed: nat, steps: nat)
    ensures Zip(Prices(seed, steps + 1)) == Changes(seed, steps)
  {
    if steps > 0 {
      var p := Prices(seed, steps + 1);
      assert p[..steps] == Prices(seed, steps);
      PricesAt(seed, steps + 1, steps - 1);
      ZipPrices(seed, steps - 1);
      ChangesSnoc(seed, steps);
    }
  }

  /** `changes_and_prices`: the `steps + 1` prices from the seed on, then each change with the price it leads to. */
  method ChangesAndPrices(secret: nat, steps: nat) returns (r: seq<(int, int)>)
    ensures r == Changes(secret, steps)
  {
    var prices := [];
    var prng := new Prng(secret);
    var x := secret;
    for i := 0 to steps + 1
      invariant prices == Prices(secret, i) && x == Secret(secret, i) && prng.state == x
    {
      prices := prices + [Bananas(x)];
      x := prng.Next();
    }
    r := Zip(prices);
    ZipPrices(secret, steps);
  }

  /** Every change lies between -9 and 9 and every price between 0 and 9. */
  lemma ChangeRange(seed: nat, steps: nat, j: nat)
    requires j < steps
    ensures -9 <= Changes(seed, steps)[j].0 <= 9 && 0 <= Changes(seed, steps)[j].1 < 10
  {
    var p, q := Price(seed, j), Price(seed, j + 1);
    assert Changes(seed, steps)[j] == (q - p, q);
  }

  /** The changes alone, without the prices. */
  function Moves(c: seq<(int, int)>): (r: seq<int>)
    ensures |r| == |c|
  {
    if c == [] then [] else Moves(c[..|c| - 1]) + [c[|c| - 1].0]
  }

  /** The changes add up to the move in price from the seed's price to the last one. */
  lemma {:induction false} ChangesTelescope(seed: nat, steps: nat)
    ensures Sum(Moves(Changes(seed, steps))) == Price(seed, steps) - Price(seed, 0)
  {
    if steps > 0 {
      var c := Changes(seed, steps);
      ChangesTelescope(seed, steps - 1);
      ChangesSnoc(seed, steps);
      assert c[..steps - 1] == Changes(seed, steps - 1);
      SumAppend(Moves(c[..steps - 1]), [c[steps - 1].0]);
    }
  }

  // ---------------------------------------------------------------------------
  // Windows of four changes

  type Quad = (int, int, int, int)

  /** The windows `zip` of the four shifted iterators yields: four consecutive changes and the price after the last. */
  function Windows(x: seq<(int, int)>): (r: seq<(Quad, int)>)
    ensures |r| == if |x| < 4 then 0 else |x| - 3
  {
    if |x| < 4 then []
    else seq(|x| - 3, i requires 0 <= i < |x| - 3 => ((x[i].0, x[i + 1].0, x[i + 2].0, x[i + 3].0), x[i + 3].1))
  }

  /** The windows met in `ws`. */
  function Quads(ws: seq<(Quad, int)>): set<Quad>
  {
    set i | 0 <= i < |ws| :: ws[i].0
  }

  /** What a buyer pays for window `q`: the price at its first occurrence, nothing when it never occurs. */
  function Got(ws: seq<(Quad, int)>, q: Quad): int
  {
    if ws == [] then 0
    else
      var init := ws[..|ws| - 1];
      if q in Quads(init) then Got(init, q) else if ws[|ws| - 1].0 == q then ws[|ws| - 1].1 else 0
  }

  /** The price of a window is taken at its first occurrence, whatever follows. */
  lemma {:induction false} GotFirst(ws: seq<(Quad, int)>, q: Quad, i: nat)
    requires i < |ws| && ws[i].0 == q && forall j :: 0 <= j < i ==> ws[j].0 != q
    ensures Got(ws, q) == ws[i].1
  {
    var init := ws[..|ws| - 1];
    if i < |ws| - 1 {
      assert init[i] == ws[i];
      GotFirst(init, q, i);
    } else {
      assert q !in Quads(init);
    }
  }

  /** A window that never occurs earns nothing. */
  lemma {:induction false} GotAbsent(ws: seq<(Quad, int)>, q: Quad)
    requires q !in Quads(ws)
    ensures Got(ws, q) == 0
  {
    if ws != [] {
      var init := ws[..|ws| - 1];
      assert Quads(init) <= Quads(ws) by {
        forall p | p in Quads(init)
          ensures p in Quads(ws)
        {
          var i :| 0 <= i < |init| && init[i].0 == p;
          assert ws[i].0 == p;
        }
      }
      GotAbsent(init, q);
      assert ws[|ws| - 1].0 in Quads(ws);
    }
  }

  /** One more window: it is paid only if it was not met before. */
  lemma GotSnoc(ws: seq<(Quad, int)>, w: (Quad, int), q: Quad)
    ensures (ws + [w])[..|ws|] == ws
    ensures Got(ws + [w], q) == if q in Quads(ws) then Got(ws, q) else if w.0 == q then w.1 else 0
    ensures Quads(ws + [w]) == Quads(ws) + {w.0}
  {
    var vs := ws + [w];
    assert vs[..|ws|] == ws;
    forall p | p in Quads(vs)
      ensures p in Quads(ws) + {w.0}
    {
      var i :| 0 <= i < |vs| && vs[i].0 == p;
      if i < |ws| {
        assert ws[i].0 == p;
      }
    }
    forall p | p in Quads(ws) + {w.0}
      ensures p in Quads(vs)
    {
      if p in Quads(ws) {
        var i :| 0 <= i < |ws| && ws[i].0 == p;
        assert vs[i].0 == p;
      } else {
        assert vs[|ws|].0 == p;
      }
    }
  }

  // ---------------------------------------------------------------------------
  // All buyers

  /** Buyer `seed`'s windows. */
  function Offers(seed: nat, steps: nat): seq<(Quad, int)>
  {
    Windows(Changes(seed, steps))
  }

  /** The windows offered by any buyer: the keys of `total`. */
  function Offered(secrets: seq<nat>, steps: nat): set<Quad>
  {
    if secrets == [] then {}
    else Offered(secrets[..|secrets| - 1], steps) + Quads(Offers(secrets[|secrets| - 1], steps))
  }

  /** The bananas window `q` earns over all buyers, each selling at the first occurrence of `q`. */
  function Gain(secrets: seq<nat>, steps: nat, q: Quad): int
  {
    if secrets == [] then 0
    else Gain(secrets[..|secrets| - 1], steps, q) + Got(Offers(secrets[|secrets| - 1], steps), q)
  }

  /** A gain is a sum of prices, so it is never negative. */
  lemma {:induction false} GainNonNegative(secrets: seq<nat>, steps: nat, q: Quad)
    ensures Gain(secrets, steps, q) >= 0
  {
    if secrets != [] {
      GainNonNegative(secrets[..|secrets| - 1], steps, q);
      GotNonNegative(Offers(secrets[|secrets| - 1], steps), q);
    }
  }

  lemma {:induction false} GotNonNegative(ws: seq<(Quad, int)>, q: Quad)
    requires forall i :: 0 <= i < |ws| ==> ws[i].1 >= 0
    ensures Got(ws, q) >= 0
  {
    if ws != [] {
      GotNonNegative(ws[..|ws| - 1], q);
    }
  }

  /** A window no buyer offers earns nothing. */
  lemma {:induction false} GainAbsent(secrets: seq<nat>, steps: nat, q: Quad)
    requires q !in Offered(secrets, steps)
    ensures Gain(secrets, steps, q) == 0
  {
    if secrets != [] {
      GainAbsent(secrets[..|secrets| - 1], steps, q);
      GotAbsent(Offers(secrets[|secrets| - 1], steps), q);
    }
  }

  /** No window is offered exactly when there are no buyers or fewer than four changes each. */
  lemma {:induction false} OfferedEmpty(secrets: seq<nat>, steps: nat)
    ensures Offered(secrets, steps) == {} <==> secrets == [] || steps < 4
  {
    if secrets != [] {
      OfferedEmpty(secrets[..|secrets| - 1], steps);
      var ws := Offers(secrets[|secrets| - 1], steps);
      if steps >= 4 {
        assert ws[0].0 in Quads(ws);
      }
    }
  }

  // ---------------------------------------------------------------------------
  // Part two

  function Val(total: map<Quad, int>, q: Quad): int
  {
    if q in total then total[q] else 0
  }

  /** After the first `i` windows: `seen` holds their quads and `cur` adds their first prices to `total`. */
  ghost predicate Tallied(ws: seq<(Quad, int)>, i: nat, total: map<Quad, int>, seen: set<Quad>, cur: map<Quad, int>)
  {
    i <= |ws| && seen == Quads(ws[..i]) && cur.Keys == total.Keys + seen
    && forall q :: q in cur ==> cur[q] == Val(total, q) + Got(ws[..i], q)
  }

  /**
   * The `for_each` over one buyer's windows: a window not yet `seen` is
   * marked and its price added to its entry of `total`.
   */
  method Visit(x: seq<(int, int)>, total: map<Quad, int>) returns (total': map<Quad, int>)
    ensures total'.Keys == total.Keys + Quads(Windows(x))
    ensures forall q :: q in total' ==> total'[q] == Val(total, q) + Got(Windows(x), q)
  {
    ghost var ws := Windows(x);
    var seen: set<Quad> := {};
    total' := total;
    assert ws[..0] == [];
    var i := 0;
    while i + 3 < |x|
      invariant Tallied(ws, i, total, seen, total') && (|x| >= 4 ==> i + 3 <= |x|)
      decreases |x| - i
    {
      var quad := (x[i].0, x[i + 1].0, x[i + 2].0, x[i + 3].0);
      var price := x[i + 3].1;
      ghost var before, seenBefore := total', seen;
      if quad !in seen {
        seen := seen + {quad};
        total' := total'[quad := Val(total', quad) + price];
      }
      assert ws[i] == (quad, price);
      VisitStep(ws, i, quad, price, total, seenBefore, before, seen, total');
      i := i + 1;
    }
    assert ws[..i] == ws;
  }

  /** Visiting window `i` keeps `total` equal to the prices of the windows visited so far. */
  lemma VisitStep(ws: seq<(Quad, int)>, i: nat, quad: Quad, price: int, total: map<Quad, int>,
                  seen: set<Quad>, cur: map<Quad, int>, seen': set<Quad>, next: map<Quad, int>)
    requires i < |ws| && ws[i] == (quad, price) && Tallied(ws, i, total, seen, cur)
    requires quad in seen ==> seen' == seen && next == cur
    requires quad !in seen ==> seen' == seen + {quad} && next == cur[quad := Val(cur, quad) + price]
    ensures Tallied(ws, i + 1, total, seen', next)
  {
    assert ws[..i + 1] == ws[..i] + [ws[i]];
    GotSnoc(ws[..i], ws[i], quad);
    forall q | q in next
      ensures next[q] == Val(total, q) + Got(ws[..i + 1], q)
    {
      GotSnoc(ws[..i], ws[i], q);
      if q == quad && q !in seen && q in cur {
        GotAbsent(ws[..i], q);
      }
    }
  }

  /** `total.values().max()`: `None`, where `unwrap` panics, exactly when the map is empty. */
  method MaxValue(total: map<Quad, int>) returns (r: Option<int>)
    ensures r.None? <==> total == map[]
    ensures r.Some? ==> (forall q :: q in total ==> total[q] <= r.value) && exists q :: q in total && total[q] == r.value
  {
    r := None;
    var rest := total.Keys;
    while rest != {}
      invariant rest <= total.Keys
      invariant r.None? <==> rest == total.Keys
      invariant r.Some? ==> (forall q :: q in total && q !in rest ==> total[q] <= r.value) && exists q :: q in total && total[q] == r.value
      decreases |rest|
    {
      var q :| q in rest;
      if r.None? || total[q] > r.value {
        r := Some(total[q]);
      }
      rest := rest - {q};
    }
    if r.None? {
      assert total.Keys == {};
    }
  }

  /**
   * Part two: the most bananas any window of four changes earns, each buyer
   * selling at its first occurrence; `None` where `unwrap` panics because
   * no window occurs at all.
   */
  method SolvePartTwo(secrets: seq<nat>, steps: nat) returns (r: Option<nat>)
    ensures r.None? <==> secrets == [] || steps < 4
    ensures r.Some? ==> forall q :: q in Offered(secrets, steps) ==> Gain(secrets, steps, q) <= r.value
    ensures r.Some? ==> exists q :: q in Offered(secrets, steps) && Gain(secrets, steps, q) == r.value
  {
    var total: map<Quad, int> := map[];
    for b := 0 to |secrets|
      invariant total.Keys == Offered(secrets[..b], steps)
      invariant forall q :: q in total ==> total[q] == Gain(secrets[..b], steps, q)
    {
      var x := ChangesAndPrices(secrets[b], steps);
      ghost var before := total;
      total := Visit(x, total);
      assert secrets[..b + 1][..b] == secrets[..b];
      forall q | q in total
        ensures total[q] == Gain(secrets[..b + 1], steps, q)
      {
        if q !in before {
          GainAbsent(secrets[..b], steps, q);
        }
      }
    }
    assert secrets[..|secrets|] == secrets;
    OfferedEmpty(secrets, steps);
    var m := MaxValue(total);
    if m.None? {
      return None;
    }
    var q :| q in total && total[q] == m.value;
    GainNonNegative(secrets, steps, q);
    r := Some(m.value);
  }
}
