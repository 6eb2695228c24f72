/**
 * 2024 day 9: a disk map is a line of digits alternating between the length
 * of a file and the length of the free space after it.  The blocks are laid
 * out with file `k` holding id `k`; then, block by block, the last file block
 * is moved into the leftmost free block until no free block is left before
 * the files.  The answer is the checksum, the sum of position times file id.
 */
module DiskCompaction {
  import opened Text

  /** A disk block: the id of the file it belongs to, or `None` when free. */
  type Block = Option<nat>

  // ---------------------------------------------------------------------------
  // Parsing

  /** What `read_line` reads: everything before the first line break. */
  function FirstLine(s: string): (r: string)
    ensures |r| <= |s| && r == s[..|r|] && '\n' !in r
    ensures |r| < |s| ==> s[|r|] == '\n'
  {
    if s == [] || s[0] == '\n' then [] else [s[0]] + FirstLine(s[1..])
  }

  /** Every character as a digit, or `None` when one is not a digit. */
  function Digits(t: string): (r: Option<seq<nat>>)
    ensures r.Some? <==> AllDigits(t)
    ensures r.Some? ==> |r.value| == |t| && forall i :: 0 <= i < |t| ==> r.value[i] == DigitValue(t[i])
  {
    if t == [] then Some([])
    else if !IsDigit(t[0]) then None
    else match Digits(t[1..])
      case None => None
      case Some(ds) => Some([DigitValue(t[0])] + ds)
  }

  /** `parse_from`: the first line, trimmed, digit by digit; any other character is the parse error. */
  function Parse(s: string): (r: Option<seq<nat>>)
    ensures r.Some? <==> AllDigits(Trim(FirstLine(s)))
    ensures r.Some? ==> forall i :: 0 <= i < |r.value| ==> r.value[i] < 10
  {
    Digits(Trim(FirstLine(s)))
  }

  // ---------------------------------------------------------------------------
  // Laying out the blocks

  /** Entry `i` of the map describes file `i / 2` when even, free space when odd. */
  function Elem(i: nat): Block
  {
    if i % 2 == 0 then Some(i / 2) else None
  }

  function Repeat(b: Block, n: nat): (r: seq<Block>)
    ensures |r| == n && forall i :: 0 <= i < n ==> r[i] == b
  {
    if n == 0 then [] else Repeat(b, n - 1) + [b]
  }

  /** The blocks the first `|c|` entries of the map describe. */
  function Expanded(c: seq<nat>): seq<Block>
  {
    if c == [] then [] else Expanded(c[..|c| - 1]) + Repeat(Elem(|c| - 1), c[|c| - 1])
  }

  /** The first loop of `solve`: append each entry's blocks. */
  method Expand(c: seq<nat>) returns (blocks: seq<Block>)
    ensures blocks == Expanded(c)
  {
    blocks := [];
    for i := 0 to |c|
      invariant blocks == Expanded(c[..i])
    {
      assert c[..i + 1][..i] == c[..i];
      blocks := blocks + Repeat(Elem(i), c[i]);
    }
    assert c[..|c|] == c;
  }

  /** The multiset of file ids on the blocks. */
  function Ids(v: seq<Block>): multiset<nat>
  {
    if v == [] then multiset{}
    else Ids(v[..|v| - 1]) + (if v[|v| - 1].Some? then multiset{v[|v| - 1].value} else multiset{})
  }

  /** The layout has as many blocks as the entries add up to. */
  lemma {:induction false} ExpandedLength(c: seq<nat>)
    ensures |Expanded(c)| == SumOf(c)
  {
    if c != [] {
      ExpandedLength(c[..|c| - 1]);
    }
  }

  /** The layout holds file `k` exactly `c[2k]` times. */
  lemma {:induction false} ExpandedIds(c: seq<nat>, k: nat)
    ensures Ids(Expanded(c))[k] == if 2 * k < |c| then c[2 * k] else 0
  {
    if c != [] {
      var init := c[..|c| - 1];
      ExpandedIds(init, k);
      IdsAppend(Expanded(init), Repeat(Elem(|c| - 1), c[|c| - 1]));
      IdsRepeat(Elem(|c| - 1), c[|c| - 1], k);
      ElemIs(|c| - 1, k);
    }
  }

  lemma ElemIs(i: nat, k: nat)
    ensures Elem(i) == Some(k) <==> i == 2 * k
  {
  }

  function SumOf(c: seq<nat>): nat
  {
    if c == [] then 0 else SumOf(c[..|c| - 1]) + c[|c| - 1]
  }

  /** The first file's blocks open the layout, so no block before `c[0]` is free. */
  lemma {:induction false} ExpandedStart(c: seq<nat>)
    requires |c| > 0
    ensures |Expanded(c)| >= c[0] && forall i :: 0 <= i < c[0] ==> Expanded(c)[i] == Some(0)
  {
    if |c| > 1 {
      ExpandedStart(c[..|c| - 1]);
    } else {
      assert Expanded(c) == Expanded([]) + Repeat(Some(0), c[0]);
    }
  }

  lemma {:induction false} IdsAppend(a: seq<Block>, b: seq<Block>)
    ensures Ids(a + b) == Ids(a) + Ids(b)
    decreases |b|
  {
    if b == [] {
      assert a + b == a;
    } else {
      assert (a + b)[..|a + b| - 1] == a + b[..|b| - 1];
      IdsAppend(a, b[..|b| - 1]);
    }
  }

  lemma {:induction false} IdsRepeat(b: Block, n: nat, k: nat)
    ensures Ids(Repeat(b, n))[k] == if b == Some(k) then n else 0
  {
    if n > 0 {
      IdsRepeat(b, n - 1, k);
      assert Repeat(b, n)[..n - 1] == Repeat(b, n - 1);
    }
  }

  /** The last block's contribution to `Ids`. */
  function LastIds(v: seq<Block>): multiset<nat>
    requires v != []
  {
    if v[|v| - 1].Some? then multiset{v[|v| - 1].value} else multiset{}
  }

  lemma IdsSnoc(v: seq<Block>)
    requires v != []
    ensures Ids(v) == Ids(v[..|v| - 1]) + LastIds(v)
  {
  }

  // ---------------------------------------------------------------------------
  // Where the blocks end up

  /** The number of free blocks before position `i`. */
  function HolesBefore(s: seq<Block>, i: nat): nat
    requires i <= |s|
  {
    if i == 0 then 0 else HolesBefore(s, i - 1) + (if s[i - 1].None? then 1 else 0)
  }

  /** The ids of the file blocks at or after position `cut`, last first: the order in which they are moved. */
  function Moved(layout: seq<Block>, cut: nat): seq<nat>
    requires cut <= |layout|
    decreases |layout| - cut
  {
    if cut == |layout| then []
    else Moved(layout, cut + 1) + (if layout[cut].Some? then [layout[cut].value] else [])
  }

  /**
   * Block `i` once everything from `cut` on has been taken off the end: a
   * file block stays, and the `h`-th free block holds the `h`-th moved block
   * if there is one.
   */
  function Expected(layout: seq<Block>, cut: nat, i: nat): Block
    requires cut <= |layout| && i < |layout|
  {
    if layout[i].Some? then layout[i]
    else
      var h := HolesBefore(layout, i);
      var ids := Moved(layout, cut);
      if h < |ids| then Some(ids[h]) else None
  }

  /** The loop's invariant: the vector is the layout cut at its length with the moved blocks in the first holes. */
  predicate Compacting(layout: seq<Block>, v: seq<Block>, p: nat)
  {
    |v| <= |layout| && p <= |v|
    && (forall i :: 0 <= i < p ==> v[i].Some?)
    && HolesBefore(layout, p) <= |Moved(layout, |v|)|
    && (forall i :: 0 <= i < |v| ==> v[i] == Expected(layout, |v|, i))
    && Ids(v) == Ids(layout)
  }

  lemma {:induction false} HolesMonotone(s: seq<Block>, i: nat, j: nat)
    requires i <= j <= |s|
    ensures HolesBefore(s, i) <= HolesBefore(s, j)
    ensures i < j && s[i].None? ==> HolesBefore(s, i) < HolesBefore(s, j)
    decreases j
  {
    if i < j {
      HolesMonotone(s, i, j - 1);
    }
  }

  /** The scan of `pos_empty` over a filled block. */
  lemma AdvanceStep(layout: seq<Block>, v: seq<Block>, p: nat)
    requires Compacting(layout, v, p) && p < |v| && v[p].Some?
    ensures Compacting(layout, v, p + 1)
  {
  }

  /** Popping a free block off the end. */
  lemma PopStep(layout: seq<Block>, v: seq<Block>, p: nat)
    requires Compacting(layout, v, p) && |v| > 0 && v[|v| - 1].None?
    ensures Compacting(layout, v[..|v| - 1], p)
  {
    var w := v[..|v| - 1];
    assert Expected(layout, |v|, |v| - 1).None?;
    assert Moved(layout, |w|) == Moved(layout, |v|);
    forall i | 0 <= i < |w|
      ensures w[i] == Expected(layout, |w|, i)
    {
    }
  }

  /** Moving the last block into the free block at `p`. */
  lemma FillStep(layout: seq<Block>, v: seq<Block>, p: nat)
    requires Compacting(layout, v, p) && p < |v| && v[p].None? && v[|v| - 1].Some?
    ensures Compacting(layout, v[..|v| - 1][p := v[|v| - 1]], p)
  {
    var n := |v|;
    var ids := Moved(layout, n);
    var x := v[n - 1].value;
    var w := v[..n - 1][p := v[n - 1]];
    assert layout[p].None? && HolesBefore(layout, p) == |ids|;
    HolesMonotone(layout, p, n - 1);
    assert layout[n - 1] == Some(x);
    assert Moved(layout, n - 1) == ids + [x];
    forall i | 0 <= i < |w|
      ensures w[i] == Expected(layout, |w|, i)
    {
      if i != p && layout[i].None? {
        HolesApart(layout, i, p);
      }
    }
    assert Ids(v) == Ids(v[..n - 1]) + multiset{x};
    IdsFill(v[..n - 1], p, x);
  }

  /** Two different free blocks have different numbers of free blocks before them. */
  lemma HolesApart(s: seq<Block>, i: nat, j: nat)
    requires i < |s| && j < |s| && i != j && s[i].None? && s[j].None?
    ensures HolesBefore(s, i) != HolesBefore(s, j)
  {
    if i < j {
      HolesMonotone(s, i, j);
    } else {
      HolesMonotone(s, j, i);
    }
  }

  lemma {:induction false} IdsFill(s: seq<Block>, p: nat, x: nat)
    requires p < |s| && s[p].None?
    ensures Ids(s[p := Some(x)]) == Ids(s) + multiset{x}
  {
    var t := s[p := Some(x)];
    var s', t' := s[..|s| - 1], t[..|t| - 1];
    IdsSnoc(s);
    IdsSnoc(t);
    if p < |s| - 1 {
      assert t' == s'[p := Some(x)];
      IdsFill(s', p, x);
      assert LastIds(t) == LastIds(s);
    } else {
      assert t' == s';
      assert LastIds(t) == multiset{x} && LastIds(s) == multiset{};
    }
  }

  /** With no free block before `i`, no hole is counted there. */
  lemma {:induction false} HolesNone(s: seq<Block>, i: nat)
    requires i <= |s| && forall j :: 0 <= j < i ==> s[j].Some?
    ensures HolesBefore(s, i) == 0
  {
    if i > 0 {
      HolesNone(s, i - 1);
    }
  }

  lemma {:induction false} IdsBound(v: seq<Block>)
    ensures |Ids(v)| <= |v|
    ensures (forall i :: 0 <= i < |v| ==> v[i].Some?) ==> |Ids(v)| == |v|
  {
    if v != [] {
      IdsBound(v[..|v| - 1]);
    }
  }

  /**
   * The disk after compaction, as a reference: as many blocks as there are
   * file blocks; each file block among them stays, and the free ones take
   * the blocks from the end, last first.
   */
  function Compacted(layout: seq<Block>): (r: seq<nat>)
    ensures |r| == |Ids(layout)|
  {
    var k := |Ids(layout)|;
    IdsBound(layout);
    seq(k, i requires 0 <= i < k => match Expected(layout, k, i) case Some(id) => id case None => 0)
  }

  lemma {:induction false} IdsOfFiles(v: seq<Block>, xs: seq<nat>)
    requires |v| == |xs| && forall i :: 0 <= i < |v| ==> v[i] == Some(xs[i])
    ensures Ids(v) == multiset(xs)
  {
    if v != [] {
      assert xs == xs[..|xs| - 1] + [xs[|xs| - 1]];
      IdsOfFiles(v[..|v| - 1], xs[..|xs| - 1]);
    }
  }

  /**
   * The second loop of `solve`: move the last file block into the leftmost
   * free block, or drop a free block from the end, until the scan for a free
   * block reaches the end.  The result holds no free block, keeps every
   * file id as often as the layout does, and is the reference compaction.
   * Unlike the source (`CompactAsWritten`), it also stops once every block
   * has been dropped, which happens when the layout holds no file block.
   */
  method Compact(layout: seq<Block>, start: nat) returns (v: seq<Block>)
    requires start <= |layout| && forall i :: 0 <= i < start ==> layout[i].Some?
    ensures |v| == |Compacted(layout)| && forall i :: 0 <= i < |v| ==> v[i] == Some(Compacted(layout)[i])
    ensures Ids(v) == Ids(layout) == multiset(Compacted(layout))
  {
    v := layout;
    var p: nat := start;
    HolesNone(layout, start);
    while true
      invariant Compacting(layout, v, p)
      decreases |v|
    {
      if |v| > 0 && v[|v| - 1].Some? {
        while p < |v| && v[p].Some?
          invariant Compacting(layout, v, p)
          decreases |v| - p
        {
          AdvanceStep(layout, v, p);
          p := p + 1;
        }
        if p == |v| {
          break;
        }
        FillStep(layout, v, p);
        var last := v[|v| - 1];
        v := v[..|v| - 1];
        v := v[p := last];
      } else if v == [] {
        break;
      } else {
        PopStep(layout, v, p);
        v := v[..|v| - 1];
      }
    }
    IdsBound(v);
    IdsOfFiles(v, Compacted(layout));
  }

  /** The outcome of the loop as written, run for a bounded number of rounds. */
  datatype Run = Stopped(blocks: seq<Block>) | Panicked | Running

  /** The scan of `pos_empty`: the first free block at or after `p`, or the length. */
  function ScanFree(v: seq<Block>, p: nat): (r: nat)
    ensures r >= p && (p <= |v| ==> r <= |v|)
    ensures r < |v| ==> v[r].None?
    ensures forall i :: p <= i < r && i < |v| ==> v[i].Some?
    decreases |v| - p
  {
    if p < |v| && v[p].Some? then ScanFree(v, p + 1) else p
  }

  /**
   * The second loop of `solve` exactly as written, for at most `fuel` rounds:
   * when the last block is a file block, scan for a free block and either
   * stop or move the last block there; otherwise `pop` the last block, which
   * does nothing on an empty vector.  `Running` means `fuel` rounds passed
   * without a `break`; `Panicked` is an index past the end.
   */
  function CompactAsWritten(v: seq<Block>, p: nat, fuel: nat): (r: Run)
    ensures r.Stopped? ==> 0 < |r.blocks| <= |v| && r.blocks[|r.blocks| - 1].Some?
    decreases fuel
  {
    if fuel == 0 then Running
    else if |v| > 0 && v[|v| - 1].Some? then
      var q := ScanFree(v, p);
      if q == |v| then Stopped(v)
      else if q > |v| then Panicked
      else CompactAsWritten(v[..|v| - 1][q := v[|v| - 1]], q, fuel - 1)
    else CompactAsWritten(if v == [] then v else v[..|v| - 1], p, fuel - 1)
  }

  /**
   * A layout without file blocks never stops as written: the free blocks are
   * popped, then the empty vector is popped forever.  The disk maps `0` and
   * `02` lay out such layouts.
   */
  lemma {:induction false} NoFilesNeverStops(v: seq<Block>, p: nat, fuel: nat)
    requires forall i :: 0 <= i < |v| ==> v[i].None?
    ensures CompactAsWritten(v, p, fuel) == Running
    decreases fuel
  {
    if fuel > 0 {
      NoFilesNeverStops(if v == [] then v else v[..|v| - 1], p, fuel - 1);
    }
  }

  /** The disk map `02` (an empty file 0, then two free blocks) makes the loop as written run forever. */
  lemma EmptyFileNeverStops(fuel: nat)
    ensures Expanded([0, 2]) == [None, None]
    ensures CompactAsWritten(Expanded([0, 2]), 0, fuel) == Running
  {
    assert Expanded([0]) == [];
    assert Expanded([0, 2]) == Expanded([0]) + Repeat(None, 2);
    NoFilesNeverStops([None, None], 0, fuel);
  }

  // ---------------------------------------------------------------------------
  // The checksum

  /** Position times file id, summed, for blocks numbered from `start`. */
  function Checksum(ids: seq<nat>, start: nat): nat
  {
    if ids == [] then 0 else start * ids[0] + Checksum(ids[1..], start + 1)
  }

  /** The checksum of two runs of blocks adds up, the second numbered after the first. */
  lemma {:induction false} ChecksumAppend(a: seq<nat>, b: seq<nat>, start: nat)
    ensures Checksum(a + b, start) == Checksum(a, start) + Checksum(b, start + |a|)
  {
    if a != [] {
      assert (a + b)[0] == a[0] && (a + b)[1..] == a[1..] + b;
      ChecksumAppend(a[1..], b, start + 1);
    } else {
      assert a + b == b;
    }
  }

  /** `PartOne::solve`: lay out, compact, sum. */
  method Solve(c: seq<nat>) returns (answer: nat)
    requires |c| > 0
    ensures answer == Checksum(Compacted(Expanded(c)), 0)
  {
    var blocks := Expand(c);
    ExpandedStart(c);
    var v := Compact(blocks, c[0]);
    var ids := seq(|v|, i requires 0 <= i < |v| => v[i].value);
    assert ids == Compacted(blocks);
    answer := Checksum(ids, 0);
  }
}
