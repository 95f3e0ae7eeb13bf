/** Ragged batching: "compact the flagged entries of a `[B][N]` grid into one
    dense batch in row-major order, process the batch, scatter the results back
    to their grid positions over a zero background".

    This is what `torch.masked_select` followed by `masked_scatter` does in the
    sequence encoder and in the goal-probability head, at the granularity of
    whole entities: the mask there is broadcast along the trailing axes, so
    each flagged `(b, n)` contributes one contiguous block, i.e. one row. */
module Ragged {

  /** `grid` has one entry per flag. */
  predicate Fits<T>(flags: seq<seq<bool>>, grid: seq<seq<T>>)
  {
    |grid| == |flags| && forall b :: 0 <= b < |flags| ==> |grid[b]| == |flags[b]|
  }

  /** Number of flagged entries among the first `n` of a row. */
  function CountTo(flags: seq<bool>, n: nat): (r: nat)
    requires n <= |flags|
    ensures r <= n
  {
    if n == 0 then 0 else CountTo(flags, n - 1) + (if flags[n - 1] then 1 else 0)
  }

  /** Number of flagged entries of a row. */
  function CountRow(flags: seq<bool>): nat
  {
    CountTo(flags, |flags|)
  }

  /** Number of flagged entries in the first `b` rows. */
  function CountRowsTo(flags: seq<seq<bool>>, b: nat): nat
    requires b <= |flags|
  {
    if b == 0 then 0 else CountRowsTo(flags, b - 1) + CountRow(flags[b - 1])
  }

  /** Number of flagged entries of the whole grid. */
  function Count(flags: seq<seq<bool>>): nat
  {
    CountRowsTo(flags, |flags|)
  }

  /** Position of entry `(b, n)` in the compacted batch: the number of flagged
      entries before it in row-major order. */
  function Rank(flags: seq<seq<bool>>, b: nat, n: nat): nat
    requires b < |flags| && n <= |flags[b]|
  {
    CountRowsTo(flags, b) + CountTo(flags[b], n)
  }

  /** The flagged entries among the first `n` of a row, in order. */
  function CompactRowTo<T>(flags: seq<bool>, row: seq<T>, n: nat): (r: seq<T>)
    requires |row| == |flags| && n <= |flags|
    ensures |r| == CountTo(flags, n)
  {
    if n == 0 then []
    else CompactRowTo(flags, row, n - 1) + (if flags[n - 1] then [row[n - 1]] else [])
  }

  /** The flagged entries of the first `b` rows, in row-major order. */
  function CompactTo<T>(flags: seq<seq<bool>>, grid: seq<seq<T>>, b: nat): (r: seq<T>)
    requires Fits(flags, grid) && b <= |flags|
    ensures |r| == CountRowsTo(flags, b)
  {
    if b == 0 then []
    else CompactTo(flags, grid, b - 1) + CompactRowTo(flags[b - 1], grid[b - 1], |flags[b - 1]|)
  }

  /** The flagged entries of the grid, in row-major `(b, n)` order
      (`masked_select`). */
  function Compact<T>(flags: seq<seq<bool>>, grid: seq<seq<T>>): (r: seq<T>)
    requires Fits(flags, grid)
    ensures |r| == Count(flags)
  {
    CompactTo(flags, grid, |flags|)
  }

  lemma {:induction false} CountToMonotone(flags: seq<bool>, i: nat, j: nat)
    requires i <= j <= |flags|
    ensures CountTo(flags, i) <= CountTo(flags, j)
    decreases j
  {
    if i < j {
      CountToMonotone(flags, i, j - 1);
    }
  }

  lemma {:induction false} CountRowsToMonotone(flags: seq<seq<bool>>, i: nat, j: nat)
    requires i <= j <= |flags|
    ensures CountRowsTo(flags, i) <= CountRowsTo(flags, j)
    decreases j
  {
    if i < j {
      CountRowsToMonotone(flags, i, j - 1);
    }
  }

  /** A row has a flagged entry iff its count is positive. */
  lemma {:induction false} CountToPositive(flags: seq<bool>, n: nat)
    requires n <= |flags|
    ensures CountTo(flags, n) > 0 <==> exists i :: 0 <= i < n && flags[i]
  {
    if n > 0 {
      CountToPositive(flags, n - 1);
    }
  }

  /** A flagged entry's rank is below the number of entries in the batch, and
      the entry after it in its row comes one rank later. */
  lemma RankBelowCount(flags: seq<seq<bool>>, b: nat, n: nat)
    requires b < |flags| && n < |flags[b]| && flags[b][n]
    ensures Rank(flags, b, n) < CountRowsTo(flags, b + 1) <= Count(flags)
    ensures Rank(flags, b, n + 1) == Rank(flags, b, n) + 1
  {
    CountToMonotone(flags[b], n + 1, |flags[b]|);
    CountRowsToMonotone(flags, b + 1, |flags|);
  }

  lemma {:induction false} CompactRowToAt<T>(flags: seq<bool>, row: seq<T>, n: nat, m: nat)
    requires |row| == |flags| && n < m <= |flags| && flags[n]
    ensures CountTo(flags, n) < CountTo(flags, m)
    ensures CompactRowTo(flags, row, m)[CountTo(flags, n)] == row[n]
    decreases m
  {
    if n < m - 1 {
      CompactRowToAt(flags, row, n, m - 1);
    }
  }

  lemma {:induction false} CompactToAt<T>(flags: seq<seq<bool>>, grid: seq<seq<T>>, b: nat, n: nat, c: nat)
    requires Fits(flags, grid) && b < c <= |flags| && n < |flags[b]| && flags[b][n]
    ensures Rank(flags, b, n) < CountRowsTo(flags, c)
    ensures CompactTo(flags, grid, c)[Rank(flags, b, n)] == grid[b][n]
    decreases c
  {
    if b < c - 1 {
      CompactToAt(flags, grid, b, n, c - 1);
    } else {
      CompactRowToAt(flags[b], grid[b], n, |flags[b]|);
    }
  }

  /** Index correspondence: the flagged entry `(b, n)` sits in the compacted
      batch at position `Rank(flags, b, n)`. */
  lemma CompactAt<T>(flags: seq<seq<bool>>, grid: seq<seq<T>>, b: nat, n: nat)
    requires Fits(flags, grid)
    requires b < |flags| && n < |flags[b]| && flags[b][n]
    ensures Rank(flags, b, n) < |Compact(flags, grid)|
    ensures Compact(flags, grid)[Rank(flags, b, n)] == grid[b][n]
  {
    CompactToAt(flags, grid, b, n, |flags|);
  }

  /** Row-major order: of two flagged entries, the one that comes first in
      row-major order has the smaller rank. */
  lemma RankOrder(flags: seq<seq<bool>>, b: nat, n: nat, b': nat, n': nat)
    requires b < |flags| && n < |flags[b]| && flags[b][n]
    requires b' < |flags| && n' < |flags[b']| && flags[b'][n']
    requires b < b' || (b == b' && n < n')
    ensures Rank(flags, b, n) < Rank(flags, b', n')
  {
    RankBelowCount(flags, b, n);
    if b == b' {
      CountToMonotone(flags[b], n + 1, n');
    } else {
      CountRowsToMonotone(flags, b + 1, b');
    }
  }

  lemma {:induction false} RowRankOnto(flags: seq<bool>, k: nat, m: nat) returns (n: nat)
    requires m <= |flags| && k < CountTo(flags, m)
    ensures n < m && flags[n] && CountTo(flags, n) == k
    decreases m
  {
    if k < CountTo(flags, m - 1) {
      n := RowRankOnto(flags, k, m - 1);
    } else {
      n := m - 1;
    }
  }

  lemma {:induction false} RankOntoTo(flags: seq<seq<bool>>, k: nat, c: nat) returns (b: nat, n: nat)
    requires c <= |flags| && k < CountRowsTo(flags, c)
    ensures b < c && n < |flags[b]| && flags[b][n]
    ensures Rank(flags, b, n) == k
    decreases c
  {
    if k < CountRowsTo(flags, c - 1) {
      b, n := RankOntoTo(flags, k, c - 1);
    } else {
      b := c - 1;
      n := RowRankOnto(flags[b], k - CountRowsTo(flags, b), |flags[b]|);
    }
  }

  /** Every position of the compacted batch is the rank of some flagged entry:
      the batch holds the flagged entries and nothing else. */
  lemma RankOnto(flags: seq<seq<bool>>, k: nat) returns (b: nat, n: nat)
    requires k < Count(flags)
    ensures b < |flags| && n < |flags[b]| && flags[b][n]
    ensures Rank(flags, b, n) == k
  {
    b, n := RankOntoTo(flags, k, |flags|);
  }

  /** The first `b` rows of `out` hold, at each flagged position, the row of
      `rows` whose index is that position's rank, and `zero` elsewhere. */
  ghost predicate Placed<T>(flags: seq<seq<bool>>, out: seq<seq<T>>, rows: seq<T>, zero: T, b: nat)
    requires b <= |flags| && b <= |out|
  {
    && (forall i :: 0 <= i < b ==> |out[i]| == |flags[i]|)
    && (forall i, n :: 0 <= i < b && 0 <= n < |flags[i]| && !flags[i][n] ==> out[i][n] == zero)
    && (forall i, n :: 0 <= i < b && 0 <= n < |flags[i]| && flags[i][n] ==>
          Rank(flags, i, n) < |rows| && out[i][n] == rows[Rank(flags, i, n)])
  }

  /** A grid placed as `Placed` says compacts back to the rows it was
      placed from, in order. */
  lemma CompactOfPlaced<T>(flags: seq<seq<bool>>, grid: seq<seq<T>>, rows: seq<T>, zero: T)
    requires Fits(flags, grid) && Count(flags) <= |rows|
    requires Placed(flags, grid, rows, zero, |flags|)
    ensures Compact(flags, grid) == rows[..Count(flags)]
  {
    var c := Compact(flags, grid);
    forall k | 0 <= k < |c|
      ensures c[k] == rows[k]
    {
      var b, n := RankOnto(flags, k);
      CompactAt(flags, grid, b, n);
    }
  }

  /** Scatter `CountRow(flags)` rows, starting at `rows[k]`, into one grid
      row over a background of `zero`s, consuming them in order. */
  method ScatterRow<T>(flags: seq<bool>, rows: seq<T>, k: nat, zero: T) returns (row: seq<T>)
    requires k + CountRow(flags) <= |rows|
    ensures |row| == |flags|
    ensures forall n :: 0 <= n < |flags| && !flags[n] ==> row[n] == zero
    ensures forall n :: 0 <= n < |flags| && flags[n] ==>
              k + CountTo(flags, n) < |rows| && row[n] == rows[k + CountTo(flags, n)]
  {
    row := [];
    var next := k;
    var n := 0;
    while n < |flags|
      invariant 0 <= n <= |flags| && |row| == n
      invariant next == k + CountTo(flags, n) && next <= k + CountRow(flags)
      invariant forall i :: 0 <= i < n && !flags[i] ==> row[i] == zero
      invariant forall i :: 0 <= i < n && flags[i] ==> k + CountTo(flags, i) < |rows| && row[i] == rows[k + CountTo(flags, i)]
    {
      CountToMonotone(flags, n + 1, |flags|);
      if flags[n] {
        row := row + [rows[next]];
        next := next + 1;
      } else {
        row := row + [zero];
      }
      n := n + 1;
    }
  }

  lemma PlacedSnoc<T>(flags: seq<seq<bool>>, out: seq<seq<T>>, rows: seq<T>, zero: T, row: seq<T>)
    requires |out| < |flags| && Placed(flags, out, rows, zero, |out|)
    requires |row| == |flags[|out|]|
    requires forall n :: 0 <= n < |row| && !flags[|out|][n] ==> row[n] == zero
    requires forall n :: 0 <= n < |row| && flags[|out|][n] ==>
               CountRowsTo(flags, |out|) + CountTo(flags[|out|], n) < |rows|
               && row[n] == rows[CountRowsTo(flags, |out|) + CountTo(flags[|out|], n)]
    ensures Placed(flags, out + [row], rows, zero, |out| + 1)
  {
    var out' := out + [row];
    forall i | 0 <= i < |out|
      ensures out'[i] == out[i]
    {
    }
  }

  /** Scatter `rows` back to the flagged grid positions over a background of
      `zero`s (`torch.zeros(...).masked_scatter(flags, rows)`): rows are
      consumed in order, one per flagged entry in row-major order, so that
      compacting the result gives back exactly the rows consumed. */
  method Scatter<T>(flags: seq<seq<bool>>, rows: seq<T>, zero: T) returns (out: seq<seq<T>>)
    requires Count(flags) <= |rows|
    ensures Fits(flags, out)
    ensures forall b, n :: 0 <= b < |flags| && 0 <= n < |flags[b]| && !flags[b][n] ==> out[b][n] == zero
    ensures forall b, n :: 0 <= b < |flags| && 0 <= n < |flags[b]| && flags[b][n] ==>
              Rank(flags, b, n) < |rows| && out[b][n] == rows[Rank(flags, b, n)]
    ensures Placed(flags, out, rows, zero, |flags|)
    ensures Compact(flags, out) == rows[..Count(flags)]
  {
    out := [];
    var k := 0;
    while |out| < |flags|
      invariant |out| <= |flags|
      invariant k == CountRowsTo(flags, |out|) && k <= Count(flags)
      invariant Placed(flags, out, rows, zero, |out|)
    {
      var b := |out|;
      CountRowsToMonotone(flags, b + 1, |flags|);
      var row := ScatterRow(flags[b], rows, k, zero);
      PlacedSnoc(flags, out, rows, zero, row);
      out := out + [row];
      k := k + CountRow(flags[b]);
    }
    CompactOfPlaced(flags, out, rows, zero);
  }
}
