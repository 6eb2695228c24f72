/**
 * 2024 day 25: schematics of locks and keys; each column's height is the
 * number of `#` in it minus one, and a lock and a key fit when no column's
 * heights add up to 6 or more. The answer counts the fitting pairs.
 */
module LocksKeys {
  import opened Text

  /**
   * `Input::parse_from`: blocks separated by a blank line, each block the
   * list of its non-empty lines; blocks left without lines are dropped.
   */
  function ParseSchemes(s: string): (r: seq<seq<string>>)
    ensures forall k :: 0 <= k < |r| ==> r[k] != [] && forall j :: 0 <= j < |r[k]| ==> r[k][j] != []
    ensures |r| <= |Split(s, "\n\n")|
  {
    Blocks(Split(s, "\n\n"))
  }

  function Blocks(pieces: seq<string>): (r: seq<seq<string>>)
    ensures forall k :: 0 <= k < |r| ==> r[k] != [] && forall j :: 0 <= j < |r[k]| ==> r[k][j] != []
    ensures |r| <= |pieces|
  {
    if pieces == [] then []
    else
      var lines := NonEmptyLines(pieces[0]);
      (if lines == [] then [] else [lines]) + Blocks(pieces[1..])
  }

  /** Length of the longest line, 0 for none. */
  function MaxLen(block: seq<string>): (n: nat)
    ensures forall k :: 0 <= k < |block| ==> |block[k]| <= n
    ensures block != [] ==> exists k :: 0 <= k < |block| && |block[k]| == n
  {
    if block == [] then 0
    else
      var m := MaxLen(block[..|block| - 1]);
      var last := |block[|block| - 1]|;
      assert forall k :: 0 <= k < |block| - 1 ==> block[k] == block[..|block| - 1][k];
      if last > m then last else m
  }

  /** Number of lines with a `#` in column `col`. */
  function ColumnCount(block: seq<string>, col: nat): (n: nat)
    ensures n <= |block|
  {
    if block == [] then 0
    else
      var last := block[|block| - 1];
      ColumnCount(block[..|block| - 1], col) + if col < |last| && last[col] == '#' then 1 else 0
  }

  /** What `tumblers` computes: per column up to the longest line, the `#` count minus one. */
  function Heights(block: seq<string>): (h: seq<int>)
    ensures |h| == MaxLen(block)
    ensures forall col :: 0 <= col < |h| ==> -1 <= h[col] < |block|
  {
    seq(MaxLen(block), col requires 0 <= col => ColumnCount(block, col) - 1)
  }

  /** `PartOne::tumblers`: start every column at -1 and add one per `#`. */
  method Tumblers(block: seq<string>) returns (res: seq<int>)
    ensures res == Heights(block)
  {
    res := seq(MaxLen(block), _ => -1);
    for i := 0 to |block|
      invariant |res| == MaxLen(block)
      invariant forall col :: 0 <= col < |res| ==> res[col] == ColumnCount(block[..i], col) - 1
    {
      var line := block[i];
      assert block[..i + 1][..i] == block[..i];
      for col := 0 to |line|
        invariant |res| == MaxLen(block)
        invariant forall c :: 0 <= c < |res| ==>
          res[c] == ColumnCount(block[..i], c) - 1 + (if c < col && line[c] == '#' then 1 else 0)
      {
        res := res[col := res[col] + if line[col] == '#' then 1 else 0];
      }
    }
    assert block[..|block|] == block;
  }

  predicate IsLock(block: seq<string>)
    requires block != []
  {
    |block[0]| > 0 && block[0][0] == '#'
  }

  /** `zip(lock, key).all(l + k < 6)`: the columns both have fit. */
  predicate Fits(lock: seq<int>, key: seq<int>)
  {
    forall i :: 0 <= i < |lock| && i < |key| ==> lock[i] + key[i] < 6
  }

  /** Number of keys that fit `lock`. */
  function FitsFor(lock: seq<int>, keys: seq<seq<int>>): (n: nat)
    ensures n <= |keys|
  {
    if keys == [] then 0 else FitsFor(lock, keys[..|keys| - 1]) + if Fits(lock, keys[|keys| - 1]) then 1 else 0
  }

  /** Number of fitting (lock, key) pairs. */
  function CountFits(locks: seq<seq<int>>, keys: seq<seq<int>>): (n: nat)
  {
    if locks == [] then 0 else CountFits(locks[..|locks| - 1], keys) + FitsFor(locks[|locks| - 1], keys)
  }

  /** There are no more fitting pairs than pairs. */
  lemma {:induction false} CountFitsBound(locks: seq<seq<int>>, keys: seq<seq<int>>)
    ensures CountFits(locks, keys) <= |locks| * |keys|
  {
    if locks != [] {
      CountFitsBound(locks[..|locks| - 1], keys);
      assert |locks| * |keys| == (|locks| - 1) * |keys| + |keys|;
    }
  }

  /** The heights of the locks and of the keys among the blocks, in order. */
  function HeightsOf(schemes: seq<seq<string>>, wantLocks: bool): (r: seq<seq<int>>)
    requires forall k :: 0 <= k < |schemes| ==> schemes[k] != []
    ensures |r| <= |schemes|
  {
    if schemes == [] then []
    else
      var last := schemes[|schemes| - 1];
      HeightsOf(schemes[..|schemes| - 1], wantLocks) + if IsLock(last) == wantLocks then [Heights(last)] else []
  }

  /** Every block is either a lock or a key. */
  lemma {:induction false} HeightsOfSplits(schemes: seq<seq<string>>)
    requires forall k :: 0 <= k < |schemes| ==> schemes[k] != []
    ensures |HeightsOf(schemes, true)| + |HeightsOf(schemes, false)| == |schemes|
  {
    if schemes != [] {
      HeightsOfSplits(schemes[..|schemes| - 1]);
    }
  }

  /** `PartOne::solve`: sort the blocks into locks and keys, then count the fitting pairs. */
  method Solve(schemes: seq<seq<string>>) returns (count: nat)
    requires forall k :: 0 <= k < |schemes| ==> schemes[k] != []
    ensures count == CountFits(HeightsOf(schemes, true), HeightsOf(schemes, false))
  {
    var locks: seq<seq<int>> := [];
    var keys: seq<seq<int>> := [];
    for i := 0 to |schemes|
      invariant locks == HeightsOf(schemes[..i], true) && keys == HeightsOf(schemes[..i], false)
    {
      assert schemes[..i + 1][..i] == schemes[..i];
      var t := Tumblers(schemes[i]);
      if IsLock(schemes[i]) {
        locks := locks + [t];
      } else {
        keys := keys + [t];
      }
    }
    assert schemes[..|schemes|] == schemes;
    count := CountFits(locks, keys);
  }
}
