/** DataAccessor of src/server/algo.py: O(1) row range sums read off the
    processed raster of row prefix sums. The raster is passed in as an
    array of the deployed shape; numpy's indexing rules (a negative index
    counts from the end, anything further out raises IndexError) are
    written out. */
module Accessor {
  import opened Wrappers
  import Projection
  import DataManip

  const Rows: int := Projection.Vertical
  const Cols: int := Projection.Horizontal
  /** The literal an overflowing end column is replaced with. */
  const ClampCol: int := 43109
  /** The last column, which the clamp evidently means. */
  const LastCol: int := Cols - 1
  const IndexError: string := "index out of bounds"

  predicate Shaped(data: array2<int>) {
    data.Length0 == Rows && data.Length1 == Cols
  }

  /** numpy's reading of index i on an axis of length n. */
  function NpIndex(i: int, n: nat): (r: Option<nat>)
    ensures r.Some? <==> -(n as int) <= i < n
    ensures r.Some? ==> r.value < n && (r.value == i || r.value == i + n)
    ensures 0 <= i < n ==> r == Some(i)
  {
    if 0 <= i < n then Some(i) else if -(n as int) <= i < 0 then Some(i + n) else None
  }

  /** The raster that process builds from `tiles` with the deployed tile
      size: each cell is its row's prefix sum. */
  predicate Processed(data: array2<int>, tiles: seq<DataManip.Tile>)
    reads data
  {
    Shaped(data) && DataManip.WellFormed(tiles, Projection.Constant)
    && forall r, c :: 0 <= r < Rows && 0 <= c < Cols ==>
         data[r, c] == DataManip.RowPrefix(tiles, Projection.Constant, r, c + 1)
  }

  /** The cell a range ending at `end` reads, after the clamp `clamp`. */
  function EndRead(end: int, clamp: int): int {
    if end >= Cols then clamp else end
  }

  /** query(row, start, end) with the end clamp as a parameter. */
  function QueryWith(data: array2<int>, row: int, start: int, end: int, clamp: int): (r: Result<int>)
    reads data
    requires Shaped(data) && 0 <= clamp < Cols
    ensures row >= Rows ==> r == Ok(0)
    ensures r.Err? <==> row < Rows && (row < -Rows || EndRead(end, clamp) < -Cols
                                        || (start != 0 && !(-Cols <= start - 1 < Cols)))
    ensures r.Err? ==> r.msg == IndexError
  {
    if row >= Rows then Ok(0)
    else
      var e := EndRead(end, clamp);
      var ri := NpIndex(row, Rows);
      var ei := NpIndex(e, Cols);
      if ri.None? || ei.None? then Err(IndexError)
      else if start == 0 then Ok(data[ri.value, ei.value])
      else
        var si := NpIndex(start - 1, Cols);
        if si.None? then Err(IndexError)
        else Ok(data[ri.value, ei.value] - data[ri.value, si.value])
  }

  /** DataAccessor.query as written: an end column at or past 43200 reads
      column 43109. */
  function Query(data: array2<int>, row: int, start: int, end: int): (r: Result<int>)
    reads data
    requires Shaped(data)
    ensures row >= Rows ==> r == Ok(0)
    ensures 0 <= row < Rows && 0 <= start <= Cols && 0 <= end ==> r.Ok?
  {
    QueryWith(data, row, start, end, ClampCol)
  }

  /** query with the clamp to the last column. */
  function QueryIntended(data: array2<int>, row: int, start: int, end: int): (r: Result<int>)
    reads data
    requires Shaped(data)
    ensures row >= Rows ==> r == Ok(0)
    ensures 0 <= row < Rows && 0 <= start <= Cols && 0 <= end ==> r.Ok?
  {
    QueryWith(data, row, start, end, LastCol)
  }

  /** On a processed raster, a query inside the raster is the sum of the
      cleaned cells start..end of the row; with start past end it is the
      negated sum of the cells in between (0 when start == end + 1). */
  lemma QueryIsRangeSum(data: array2<int>, tiles: seq<DataManip.Tile>, row: int, start: int, end: int,
                        clamp: int)
    requires Processed(data, tiles) && 0 <= clamp < Cols
    requires 0 <= row < Rows && 0 <= start <= Cols && 0 <= end
    ensures var e := EndRead(end, clamp);
      start <= e + 1 ==>
        QueryWith(data, row, start, end, clamp) == Ok(DataManip.RangeSum(tiles, Projection.Constant, row, start, e))
    ensures var e := EndRead(end, clamp);
      start > e + 1 ==>
        QueryWith(data, row, start, end, clamp) == Ok(-DataManip.RangeSum(tiles, Projection.Constant, row, e + 1, start - 1))
  {
    var e := EndRead(end, clamp);
    QueryReadsPrefixes(data, tiles, row, start, end, clamp);
    if start <= e + 1 {
      DataManip.PrefixDifference(tiles, Projection.Constant, row, start, e);
    } else {
      DataManip.PrefixDifference(tiles, Projection.Constant, row, e + 1, start - 1);
    }
  }

  /** A query inside the raster reads two prefix cells of the row. */
  lemma QueryReadsPrefixes(data: array2<int>, tiles: seq<DataManip.Tile>, row: int, start: int, end: int,
                           clamp: int)
    requires Processed(data, tiles) && 0 <= clamp < Cols
    requires 0 <= row < Rows && 0 <= start <= Cols && 0 <= end
    ensures var e := EndRead(end, clamp);
      QueryWith(data, row, start, end, clamp) ==
        Ok(DataManip.RowPrefix(tiles, Projection.Constant, row, e + 1) - DataManip.RowPrefix(tiles, Projection.Constant, row, start))
  {
    var e := EndRead(end, clamp);
    assert NpIndex(row, Rows) == Some(row) && NpIndex(e, Cols) == Some(e);
    assert data[row, e] == DataManip.RowPrefix(tiles, Projection.Constant, row, e + 1);
    if start == 0 {
      assert QueryWith(data, row, start, end, clamp) == Ok(data[row, e]);
    } else {
      assert NpIndex(start - 1, Cols) == Some(start - 1);
      assert data[row, start - 1] == DataManip.RowPrefix(tiles, Projection.Constant, row, start);
      assert QueryWith(data, row, start, end, clamp) == Ok(data[row, e] - data[row, start - 1]);
    }
  }

  /** The deployed query: a range inside the row is summed exactly, and an
      overflowing end stops at column 43109. */
  lemma QueryAsWritten(data: array2<int>, tiles: seq<DataManip.Tile>, row: int, start: int, end: int)
    requires Processed(data, tiles)
    requires 0 <= row < Rows && 0 <= start <= end + 1 && 0 <= end
    ensures end < Cols ==> Query(data, row, start, end) == Ok(DataManip.RangeSum(tiles, Projection.Constant, row, start, end))
    ensures end >= Cols && start <= ClampCol + 1 ==>
      Query(data, row, start, end) == Ok(DataManip.RangeSum(tiles, Projection.Constant, row, start, ClampCol))
  {
    if start <= Cols {
      QueryIsRangeSum(data, tiles, row, start, end, ClampCol);
    }
  }

  /** The corrected query sums to the end of the row. */
  lemma QueryIntendedToRowEnd(data: array2<int>, tiles: seq<DataManip.Tile>, row: int, start: int, end: int)
    requires Processed(data, tiles)
    requires 0 <= row < Rows && 0 <= start <= Cols && end >= Cols
    ensures QueryIntended(data, row, start, end) == Ok(DataManip.RangeSum(tiles, Projection.Constant, row, start, LastCol))
  {
    QueryIsRangeSum(data, tiles, row, start, end, LastCol);
  }

  /** Finding: an overflowing range loses the populated tail of the row,
      columns 43110 ..= 43199. */
  lemma QueryClampLosesTail(data: array2<int>, tiles: seq<DataManip.Tile>, row: int, start: int, end: int)
    requires Processed(data, tiles)
    requires 0 <= row < Rows && 0 <= start <= ClampCol + 1 && end >= Cols
    ensures QueryIntended(data, row, start, end).value - Query(data, row, start, end).value
            == DataManip.RangeSum(tiles, Projection.Constant, row, ClampCol + 1, LastCol)
  {
    QueryIsRangeSum(data, tiles, row, start, end, ClampCol);
    QueryIsRangeSum(data, tiles, row, start, end, LastCol);
    DataManip.PrefixDifference(tiles, Projection.Constant, row, start, ClampCol);
    DataManip.PrefixDifference(tiles, Projection.Constant, row, start, LastCol);
    DataManip.PrefixDifference(tiles, Projection.Constant, row, ClampCol + 1, LastCol);
  }

  /** query_all_sum as written: the single cell [21509, 43109]. */
  function QueryAllSum(data: array2<int>): (r: int)
    reads data
    requires Shaped(data)
    ensures forall tiles :: Processed(data, tiles) ==>
      r == DataManip.RowPrefix(tiles, Projection.Constant, 21509, ClampCol + 1)
  {
    data[21509, ClampCol]
  }

  /** The sum of the last cells of rows 0 .. k-1. */
  function LastColumnSum(data: array2<int>, k: nat): int
    reads data
    requires Shaped(data) && k <= Rows
  {
    if k == 0 then 0 else LastColumnSum(data, k - 1) + data[k - 1, LastCol]
  }

  /** query_all_sum as evidently intended: the sum of the last column, which
      is the total `s` that process logs. */
  function QueryAllSumIntended(data: array2<int>): (r: int)
    reads data
    requires Shaped(data)
    ensures forall tiles :: Processed(data, tiles) ==> r == DataManip.Total(tiles, Projection.Constant)
  {
    LastColumnTotal(data);
    LastColumnSum(data, Rows)
  }

  lemma {:induction false} LastColumnRows(data: array2<int>, tiles: seq<DataManip.Tile>, k: nat)
    requires Processed(data, tiles) && k <= Rows
    ensures LastColumnSum(data, k) == DataManip.TotalRows(tiles, Projection.Constant, k)
  {
    if k > 0 {
      LastColumnRows(data, tiles, k - 1);
    }
  }

  lemma LastColumnTotal(data: array2<int>)
    requires Shaped(data)
    ensures forall tiles :: Processed(data, tiles) ==>
      LastColumnSum(data, Rows) == DataManip.Total(tiles, Projection.Constant)
  {
    forall tiles | Processed(data, tiles)
      ensures LastColumnSum(data, Rows) == DataManip.Total(tiles, Projection.Constant)
    {
      LastColumnRows(data, tiles, Rows);
    }
  }

  /** Finding: query_all_sum misses every row but one, and the end of that
      row. With no negative data, any populated cell it does not cover (a
      cell in another row, or in row 21509 after column 43109) makes the
      cell it reads strictly less than the total. */
  lemma QueryAllSumMissesRows(data: array2<int>, tiles: seq<DataManip.Tile>, r: int, c: int)
    requires Processed(data, tiles) && DataManip.NoNegativeData(tiles)
    requires 0 <= r < Rows && 0 <= c < Cols && DataManip.Cleaned(tiles, Projection.Constant, r, c) > 0
    requires r != 21509 || c > ClampCol
    ensures QueryAllSum(data) < QueryAllSumIntended(data)
  {
    var k := Projection.Constant;
    DataManip.PositiveCellInRow(tiles, k, r, c);
    if r == 21509 {
      DataManip.PrefixMonotone(tiles, k, r, ClampCol + 1, c);
      DataManip.RowsInTotal(tiles, k, r, r);
    } else {
      DataManip.PrefixMonotone(tiles, k, 21509, ClampCol + 1, Cols);
      if r < 21509 {
        DataManip.RowsInTotal(tiles, k, r, 21509);
      } else {
        DataManip.RowsInTotal(tiles, k, 21509, r);
      }
    }
  }
}
