/** DataManipulator.process of src/data_manip/data_manip.py: eight square
    tiles are placed in a 2 x 4 block layout on a zeroed raster, the no-data
    sentinel is replaced by 0, every row becomes its running sum, and the
    last cells of all rows are added up. The tile edge is a parameter
    (`size`, 10800 in the deployed system), so the raster is
    2 * size rows by 4 * size columns. */
module DataManip {

  const Sentinel: int := -9999

  /** (row block, column block) of tile i. */
  const Layout: seq<(nat, nat)> :=
    [(0, 0), (0, 1), (0, 2), (0, 3),
     (1, 0), (1, 1), (1, 2), (1, 3)]

  /** A raw tile as loaded from one file: rows of values. */
  type Tile = seq<seq<int>>

  predicate IsTile(t: Tile, size: nat) {
    |t| == size && forall i :: 0 <= i < size ==> |t[i]| == size
  }

  /** The tiles process is given: at most one per layout entry (a ninth
      tile has no layout entry), each a square of the tile edge. This is
      what the only caller supplies, eight files of 10800 x 10800 cells;
      numpy would also broadcast some other shapes into a block, and those
      are not modelled. */
  predicate WellFormed(tiles: seq<Tile>, size: nat) {
    size > 0 && |tiles| <= |Layout| && forall i :: 0 <= i < |tiles| ==> IsTile(tiles[i], size)
  }

  predicate InRaster(size: nat, r: int, c: int) {
    0 <= r < 2 * size && 0 <= c < 4 * size
  }

  /** Cell (r, c) lies in the block that layout entry i is copied to. */
  predicate InBlock(size: nat, i: nat, r: int, c: int)
    requires i < |Layout|
  {
    Layout[i].0 * size <= r < Layout[i].0 * size + size
    && Layout[i].1 * size <= c < Layout[i].1 * size + size
  }

  function RowBlock(size: nat, r: int): nat {
    if r < size then 0 else 1
  }

  function ColBlock(size: nat, c: int): nat {
    if c < size then 0 else if c < 2 * size then 1 else if c < 3 * size then 2 else 3
  }

  /** The layout entry whose block holds cell (r, c). */
  function BlockOf(size: nat, r: int, c: int): nat {
    4 * RowBlock(size, r) + ColBlock(size, c)
  }

  lemma LayoutBase(size: nat, i: nat)
    requires i < |Layout|
    ensures Layout[i].0 * size == (if i < 4 then 0 else size)
    ensures Layout[i].1 * size == (if i % 4 == 0 then 0 else if i % 4 == 1 then size
                                   else if i % 4 == 2 then 2 * size else 3 * size)
    ensures Layout[i].0 == i / 4 && Layout[i].1 == i % 4
  {
    if i == 0 {} else if i == 1 {} else if i == 2 {} else if i == 3 {}
    else if i == 4 {} else if i == 5 {} else if i == 6 {} else {}
  }

  /** The eight blocks cover the raster exactly once: every cell lies in
      the block of BlockOf and in no other. */
  lemma BlocksPartition(size: nat, r: int, c: int)
    requires size > 0 && InRaster(size, r, c)
    ensures BlockOf(size, r, c) < |Layout| && InBlock(size, BlockOf(size, r, c), r, c)
    ensures forall i :: 0 <= i < |Layout| && InBlock(size, i, r, c) ==> i == BlockOf(size, r, c)
  {
    LayoutBase(size, BlockOf(size, r, c));
    forall i | 0 <= i < |Layout| && InBlock(size, i, r, c) ensures i == BlockOf(size, r, c) {
      LayoutBase(size, i);
    }
  }

  /** The raster after the tiles are copied onto zeros: the value the tile
      of the cell's block has there, or 0 where no tile was loaded. */
  function Assembled(tiles: seq<Tile>, size: nat, r: int, c: int): int
    requires WellFormed(tiles, size) && InRaster(size, r, c)
  {
    var b := BlockOf(size, r, c);
    BlocksPartition(size, r, c);
    LayoutBase(size, b);
    if b < |tiles| then tiles[b][r - Layout[b].0 * size][c - Layout[b].1 * size] else 0
  }

  function Clean(v: int): int {
    if v == Sentinel then 0 else v
  }

  function Cleaned(tiles: seq<Tile>, size: nat, r: int, c: int): int
    requires WellFormed(tiles, size) && InRaster(size, r, c)
  {
    Clean(Assembled(tiles, size, r, c))
  }

  /** Sum of the first n cleaned cells of row r. */
  function RowPrefix(tiles: seq<Tile>, size: nat, r: int, n: nat): int
    requires WellFormed(tiles, size) && 0 <= r < 2 * size && n <= 4 * size
  {
    if n == 0 then 0 else RowPrefix(tiles, size, r, n - 1) + Cleaned(tiles, size, r, n - 1)
  }

  /** The cleaned cells c with lo <= c <= hi of row r, summed left to right. */
  function RangeSum(tiles: seq<Tile>, size: nat, r: int, lo: nat, hi: int): int
    requires WellFormed(tiles, size) && 0 <= r < 2 * size && hi < 4 * size
    decreases hi - lo
  {
    if lo > hi then 0 else Cleaned(tiles, size, r, lo) + RangeSum(tiles, size, r, lo + 1, hi)
  }

  /** The sum of the full rows 0 .. k-1. */
  function TotalRows(tiles: seq<Tile>, size: nat, k: nat): int
    requires WellFormed(tiles, size) && k <= 2 * size
  {
    if k == 0 then 0 else TotalRows(tiles, size, k - 1) + RowPrefix(tiles, size, k - 1, 4 * size)
  }

  /** The sum of all cleaned cells. */
  function Total(tiles: seq<Tile>, size: nat): int
    requires WellFormed(tiles, size)
  {
    TotalRows(tiles, size, 2 * size)
  }

  // ---------------------------------------------------------------------
  // Properties of the specification

  /** The difference of two prefix cells is the sum of the cells between:
      this is what makes a range query O(1). */
  lemma {:induction false} PrefixDifference(tiles: seq<Tile>, size: nat, r: int, lo: nat, hi: int)
    requires WellFormed(tiles, size) && 0 <= r < 2 * size && lo <= hi + 1 && hi < 4 * size
    ensures RowPrefix(tiles, size, r, hi + 1) - RowPrefix(tiles, size, r, lo) == RangeSum(tiles, size, r, lo, hi)
    decreases hi - lo
  {
    if lo <= hi {
      PrefixDifference(tiles, size, r, lo + 1, hi);
    }
  }

  /** Neighbouring prefix cells differ by the cleaned cell. */
  lemma PrefixStep(tiles: seq<Tile>, size: nat, r: int, c: nat)
    requires WellFormed(tiles, size) && 0 <= r < 2 * size && 1 <= c < 4 * size
    ensures RowPrefix(tiles, size, r, c + 1) - RowPrefix(tiles, size, r, c) == Cleaned(tiles, size, r, c)
  {
  }

  predicate NoNegativeData(tiles: seq<Tile>) {
    forall t, i, j :: 0 <= t < |tiles| && 0 <= i < |tiles[t]| && 0 <= j < |tiles[t][i]| ==>
      tiles[t][i][j] >= 0 || tiles[t][i][j] == Sentinel
  }

  /** When every raw value is a count or the sentinel, each processed row
      is non-decreasing. */
  lemma {:induction false} PrefixMonotone(tiles: seq<Tile>, size: nat, r: int, m: nat, n: nat)
    requires WellFormed(tiles, size) && 0 <= r < 2 * size && m <= n <= 4 * size
    requires NoNegativeData(tiles)
    ensures RowPrefix(tiles, size, r, m) <= RowPrefix(tiles, size, r, n)
    decreases n - m
  {
    if m < n {
      PrefixMonotone(tiles, size, r, m, n - 1);
      CleanedNonNegative(tiles, size, r, n - 1);
    }
  }

  /** With no negative data, every cleaned cell is at least 0. */
  lemma CleanedNonNegative(tiles: seq<Tile>, size: nat, r: int, c: int)
    requires WellFormed(tiles, size) && InRaster(size, r, c)
    requires NoNegativeData(tiles)
    ensures Cleaned(tiles, size, r, c) >= 0
  {
    var b := BlockOf(size, r, c);
    BlocksPartition(size, r, c);
    LayoutBase(size, b);
  }

  /** With no negative data, adding rows never lowers the running total. */
  lemma {:induction false} TotalRowsMonotone(tiles: seq<Tile>, size: nat, j: nat, k: nat)
    requires WellFormed(tiles, size) && j <= k <= 2 * size
    requires NoNegativeData(tiles)
    ensures TotalRows(tiles, size, j) <= TotalRows(tiles, size, k)
    decreases k - j
  {
    if j < k {
      TotalRowsMonotone(tiles, size, j, k - 1);
      PrefixMonotone(tiles, size, k - 1, 0, 4 * size);
    }
  }

  /** With no negative data, a positive cell c makes the whole row sum
      exceed the prefix before c. */
  lemma PositiveCellInRow(tiles: seq<Tile>, size: nat, r: int, c: int)
    requires WellFormed(tiles, size) && InRaster(size, r, c)
    requires NoNegativeData(tiles) && Cleaned(tiles, size, r, c) > 0
    ensures 0 <= RowPrefix(tiles, size, r, c) < RowPrefix(tiles, size, r, 4 * size)
  {
    PrefixMonotone(tiles, size, r, 0, c);
    PrefixMonotone(tiles, size, r, c + 1, 4 * size);
  }

  /** With no negative data, the total covers any one row, and any two
      different rows together. */
  lemma RowsInTotal(tiles: seq<Tile>, size: nat, a: int, b: int)
    requires WellFormed(tiles, size) && 0 <= a <= b < 2 * size
    requires NoNegativeData(tiles)
    ensures RowPrefix(tiles, size, b, 4 * size) <= Total(tiles, size)
    ensures a < b ==> RowPrefix(tiles, size, a, 4 * size) + RowPrefix(tiles, size, b, 4 * size) <= Total(tiles, size)
  {
    TotalRowsMonotone(tiles, size, 0, a);
    if a < b {
      TotalRowsMonotone(tiles, size, a + 1, b);
    }
    TotalRowsMonotone(tiles, size, 0, b);
    TotalRowsMonotone(tiles, size, b + 1, 2 * size);
  }

  /** With no negative data, every range of a row sums to at least 0. */
  lemma RangeSumNonNegative(tiles: seq<Tile>, size: nat, r: int, lo: nat, hi: int)
    requires WellFormed(tiles, size) && 0 <= r < 2 * size && lo <= hi + 1 && hi < 4 * size
    requires NoNegativeData(tiles)
    ensures RangeSum(tiles, size, r, lo, hi) >= 0
  {
    PrefixDifference(tiles, size, r, lo, hi);
    PrefixMonotone(tiles, size, r, lo, hi + 1);
  }

  // ---------------------------------------------------------------------
  // The steps of process, in place on the raster

  /** self._data_processed[x:x + size, y:y + size] = data */
  method CopyTile(a: array2<int>, tile: Tile, r0: nat, c0: nat, size: nat)
    requires IsTile(tile, size) && r0 + size <= a.Length0 && c0 + size <= a.Length1
    modifies a
    ensures forall r, c :: 0 <= r < a.Length0 && 0 <= c < a.Length1 ==>
      a[r, c] == if r0 <= r < r0 + size && c0 <= c < c0 + size then tile[r - r0][c - c0] else old(a[r, c])
  {
    var i := 0;
    while i < size
      invariant 0 <= i <= size
      invariant forall r, c :: 0 <= r < a.Length0 && 0 <= c < a.Length1 ==>
        a[r, c] == if r0 <= r < r0 + i && c0 <= c < c0 + size then tile[r - r0][c - c0] else old(a[r, c])
    {
      var j := 0;
      while j < size
        invariant 0 <= j <= size
        invariant forall r, c :: 0 <= r < a.Length0 && 0 <= c < a.Length1 ==>
          a[r, c] == if (r0 <= r < r0 + i && c0 <= c < c0 + size) || (r == r0 + i && c0 <= c < c0 + j)
                     then tile[r - r0][c - c0] else old(a[r, c])
      {
        a[r0 + i, c0 + j] := tile[i][j];
        j := j + 1;
      }
      i := i + 1;
    }
  }

  lemma AssembleStep(tiles: seq<Tile>, size: nat, i: nat, r: int, c: int)
    requires WellFormed(tiles, size) && i < |tiles| && InRaster(size, r, c)
    ensures var r0 := Layout[i].0 * size; var c0 := Layout[i].1 * size;
      Assembled(tiles[..i + 1], size, r, c) ==
        if r0 <= r < r0 + size && c0 <= c < c0 + size then tiles[i][r - r0][c - c0]
        else Assembled(tiles[..i], size, r, c)
  {
    BlocksPartition(size, r, c);
    LayoutBase(size, BlockOf(size, r, c));
    LayoutBase(size, i);
  }

  /** The zeroed raster with every loaded tile copied to its block. */
  method Assemble(tiles: seq<Tile>, size: nat) returns (a: array2<int>)
    requires WellFormed(tiles, size)
    ensures fresh(a) && a.Length0 == 2 * size && a.Length1 == 4 * size
    ensures forall r, c :: 0 <= r < 2 * size && 0 <= c < 4 * size ==> a[r, c] == Assembled(tiles, size, r, c)
  {
    a := new int[2 * size, 4 * size]((r, c) => 0);
    var i := 0;
    while i < |tiles|
      invariant 0 <= i <= |tiles|
      invariant forall r, c :: 0 <= r < 2 * size && 0 <= c < 4 * size ==> a[r, c] == Assembled(tiles[..i], size, r, c)
    {
      var (x, y) := Layout[i];
      LayoutBase(size, i);
      CopyTile(a, tiles[i], x * size, y * size, size);
      forall r, c | 0 <= r < 2 * size && 0 <= c < 4 * size
        ensures a[r, c] == Assembled(tiles[..i + 1], size, r, c)
      {
        AssembleStep(tiles, size, i, r, c);
      }
      i := i + 1;
    }
    assert tiles[..i] == tiles;
  }

  /** np.where(data == -9999, 0, data) */
  method ReplaceSentinel(a: array2<int>)
    modifies a
    ensures forall r, c :: 0 <= r < a.Length0 && 0 <= c < a.Length1 ==> a[r, c] == Clean(old(a[r, c]))
  {
    var i := 0;
    while i < a.Length0
      invariant 0 <= i <= a.Length0
      invariant forall r, c :: 0 <= r < a.Length0 && 0 <= c < a.Length1 ==>
        a[r, c] == if r < i then Clean(old(a[r, c])) else old(a[r, c])
    {
      var j := 0;
      while j < a.Length1
        invariant 0 <= j <= a.Length1
        invariant forall r, c :: 0 <= r < a.Length0 && 0 <= c < a.Length1 ==>
          a[r, c] == if r < i || (r == i && c < j) then Clean(old(a[r, c])) else old(a[r, c])
      {
        if a[i, j] == Sentinel {
          a[i, j] := 0;
        }
        j := j + 1;
      }
      i := i + 1;
    }
  }

  /** np.cumsum(data, axis=1): each row, independently, becomes its running
      sum from the left. */
  method CumSumRows(a: array2<int>, ghost tiles: seq<Tile>, ghost size: nat)
    requires WellFormed(tiles, size) && a.Length0 == 2 * size && a.Length1 == 4 * size
    requires forall r, c :: 0 <= r < 2 * size && 0 <= c < 4 * size ==> a[r, c] == Cleaned(tiles, size, r, c)
    modifies a
    ensures forall r, c :: 0 <= r < 2 * size && 0 <= c < 4 * size ==> a[r, c] == RowPrefix(tiles, size, r, c + 1)
  {
    var i := 0;
    while i < a.Length0
      invariant 0 <= i <= a.Length0
      invariant forall r, c :: 0 <= r < 2 * size && 0 <= c < 4 * size ==>
        a[r, c] == if r < i then RowPrefix(tiles, size, r, c + 1) else Cleaned(tiles, size, r, c)
    {
      var j := 1;
      while j < a.Length1
        invariant 1 <= j <= a.Length1
        invariant forall r, c :: 0 <= r < 2 * size && 0 <= c < 4 * size ==>
          a[r, c] == if r < i || (r == i && c < j) then RowPrefix(tiles, size, r, c + 1) else Cleaned(tiles, size, r, c)
      {
        a[i, j] := a[i, j - 1] + a[i, j];
        j := j + 1;
      }
      i := i + 1;
    }
  }

  /** s = sum of data[i, -1] over all rows. */
  method SumLastColumn(a: array2<int>, ghost tiles: seq<Tile>, ghost size: nat) returns (s: int)
    requires WellFormed(tiles, size) && a.Length0 == 2 * size && a.Length1 == 4 * size
    requires forall r, c :: 0 <= r < 2 * size && 0 <= c < 4 * size ==> a[r, c] == RowPrefix(tiles, size, r, c + 1)
    ensures s == Total(tiles, size)
  {
    s := 0;
    var i := 0;
    while i < a.Length0
      invariant 0 <= i <= a.Length0
      invariant s == TotalRows(tiles, size, i)
    {
      s := s + a[i, a.Length1 - 1];
      i := i + 1;
    }
  }

  class DataManipulator {
    const size: nat
    var raw: seq<Tile>
    var processed: array2?<int>

    constructor (size: nat)
      requires size > 0
      ensures this.size == size && raw == [] && processed == null
    {
      this.size := size;
      raw := [];
      processed := null;
    }

    /** load_raw with the contents of the tile files supplied: each tile is
        appended in file order. */
    method LoadRaw(tiles: seq<Tile>)
      modifies this
      ensures raw == old(raw) + tiles && processed == old(processed)
    {
      raw := raw + tiles;
    }

    /** process: returns the logged total `s`. The source deletes its
        raw-tile attribute afterwards; the model empties `raw`. */
    method Process() returns (s: int)
      requires WellFormed(raw, size)
      modifies this
      ensures processed != null && fresh(processed)
      ensures processed.Length0 == 2 * size && processed.Length1 == 4 * size
      ensures forall r, c :: 0 <= r < 2 * size && 0 <= c < 4 * size ==>
        processed[r, c] == RowPrefix(old(raw), size, r, c + 1)
      ensures s == Total(old(raw), size)
      ensures raw == []
    {
      var tiles := raw;
      var a := Assemble(tiles, size);
      processed := a;
      raw := [];
      ReplaceSentinel(a);
      CumSumRows(a, tiles, size);
      s := SumLastColumn(a, tiles, size);
    }
  }
}
