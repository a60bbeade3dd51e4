/** The conversion of a sparse matrix from coordinate to compressed-row form, in place on the row pointers. */
module CsrModel {

  datatype Nonzero = Nonzero(col: nat, value: real)

  /** How many of the first n entries are in row r. */
  function Count(rows: seq<nat>, r: nat, n: nat): (c: nat)
    requires n <= |rows|
    ensures c <= n
  {
    if n == 0 then 0 else Count(rows, r, n - 1) + if rows[n - 1] == r then 1 else 0
  }

  /** How many of the first n entries are in a row before r. */
  function Before(rows: seq<nat>, r: nat, n: nat): (c: nat)
    requires n <= |rows|
    ensures c <= n
  {
    if n == 0 then 0 else Before(rows, r, n - 1) + if rows[n - 1] < r then 1 else 0
  }

  /** The entries of row r, in the order they are listed. */
  function RowEntries(rows: seq<nat>, entries: seq<Nonzero>, r: nat, n: nat): (s: seq<Nonzero>)
    requires n <= |rows| == |entries|
    ensures |s| == Count(rows, r, n)
  {
    if n == 0 then []
    else RowEntries(rows, entries, r, n - 1) + if rows[n - 1] == r then [entries[n - 1]] else []
  }

  lemma {:induction false} NextRowBegins(rows: seq<nat>, r: nat, n: nat)
    requires n <= |rows|
    ensures Before(rows, r + 1, n) == Before(rows, r, n) + Count(rows, r, n)
  {
    if n > 0 { NextRowBegins(rows, r, n - 1); }
  }

  lemma {:induction false} NothingBeforeFirstRow(rows: seq<nat>, n: nat)
    requires n <= |rows|
    ensures Before(rows, 0, n) == 0
  {
    if n > 0 { NothingBeforeFirstRow(rows, n - 1); }
  }

  lemma {:induction false} AllBeforeEnd(rows: seq<nat>, numRows: nat, n: nat)
    requires n <= |rows| && forall i :: 0 <= i < n ==> rows[i] < numRows
    ensures Before(rows, numRows, n) == n
  {
    if n > 0 { AllBeforeEnd(rows, numRows, n - 1); }
  }

  lemma {:induction false} RowsBeginInOrder(rows: seq<nat>, r: nat, s: nat, n: nat)
    requires n <= |rows| && r <= s
    ensures Before(rows, r, n) <= Before(rows, s, n)
  {
    if r < s {
      RowsBeginInOrder(rows, r, s - 1, n);
      NextRowBegins(rows, s - 1, n);
    }
  }

  lemma {:induction false} CountGrows(rows: seq<nat>, r: nat, i: nat, n: nat)
    requires i <= n <= |rows|
    ensures Count(rows, r, i) <= Count(rows, r, n)
    ensures i < n && rows[i] == r ==> Count(rows, r, i) < Count(rows, r, n)
  {
    if i + 1 < n { CountGrows(rows, r, i, n - 1); }
  }

  /** Where entry i is put down. */
  function Place(rows: seq<nat>, i: nat): nat
    requires i < |rows|
  {
    Before(rows, rows[i], |rows|) + Count(rows, rows[i], i)
  }

  lemma PlaceInSegment(rows: seq<nat>, i: nat, numRows: nat)
    requires i < |rows| && forall k :: 0 <= k < |rows| ==> rows[k] < numRows
    ensures Place(rows, i) < Before(rows, rows[i] + 1, |rows|) <= |rows|
  {
    CountGrows(rows, rows[i], i, |rows|);
    NextRowBegins(rows, rows[i], |rows|);
  }

  /** The place of entry i is clear of every other row's segment. */
  lemma PlaceIsFree(rows: seq<nat>, i: nat, numRows: nat, r: nat)
    requires i < |rows| && r != rows[i] && forall k :: 0 <= k < |rows| ==> rows[k] < numRows
    ensures Before(rows, r, |rows|) + Count(rows, r, |rows|) <= Place(rows, i)
            || Place(rows, i) < Before(rows, r, |rows|)
  {
    PlaceInSegment(rows, i, numRows);
    NextRowBegins(rows, r, |rows|);
    if r < rows[i] {
      RowsBeginInOrder(rows, r + 1, rows[i], |rows|);
    } else {
      RowsBeginInOrder(rows, rows[i] + 1, r, |rows|);
    }
  }

  /** Row pointers and entries are those of the same matrix in compressed-row form. */
  ghost predicate IsCsr(numRows: nat, rows: seq<nat>, entries: seq<Nonzero>, ptrs: seq<nat>, binned: seq<Nonzero>)
    requires |rows| == |entries|
  {
    && |ptrs| == numRows + 1 && |binned| == |entries|
    && ptrs[0] == 0 && ptrs[numRows] == |entries|
    && forall r :: 0 <= r < numRows ==> IsSegment(rows, entries, ptrs, binned, r)
  }

  ghost predicate IsSegment(rows: seq<nat>, entries: seq<Nonzero>, ptrs: seq<nat>, binned: seq<Nonzero>, r: nat)
    requires |rows| == |entries| && r + 1 < |ptrs|
  {
    && ptrs[r] <= ptrs[r + 1] <= |binned|
    && binned[ptrs[r]..ptrs[r + 1]] == RowEntries(rows, entries, r, |rows|)
  }

  method Histogram(rowIdxs: array<nat>, numRows: nat, rowPtrs: array<nat>)
    requires rowPtrs.Length == numRows + 1 && rowPtrs != rowIdxs
    requires forall k :: 0 <= k < rowIdxs.Length ==> rowIdxs[k] < numRows
    requires forall r :: 0 <= r < rowPtrs.Length ==> rowPtrs[r] == 0
    modifies rowPtrs
    ensures forall r :: 0 <= r <= numRows ==> rowPtrs[r] == Count(rowIdxs[..], r, rowIdxs.Length)
  {
    for i := 0 to rowIdxs.Length
      invariant rowIdxs[..] == old(rowIdxs[..])
      invariant forall r :: 0 <= r <= numRows ==> rowPtrs[r] == Count(rowIdxs[..], r, i)
    {
      var rowIdx := rowIdxs[i];
      rowPtrs[rowIdx] := rowPtrs[rowIdx] + 1;
    }
  }

  method PrefixSum(ghost rows: seq<nat>, numRows: nat, rowPtrs: array<nat>)
    requires rowPtrs.Length == numRows + 1 && forall k :: 0 <= k < |rows| ==> rows[k] < numRows
    requires forall r :: 0 <= r <= numRows ==> rowPtrs[r] == Count(rows, r, |rows|)
    modifies rowPtrs
    ensures forall r :: 0 <= r <= numRows ==> rowPtrs[r] == Before(rows, r, |rows|)
  {
    var sumBeforeNextRow := 0;
    NothingBeforeFirstRow(rows, |rows|);
    for rowIdx := 0 to numRows
      invariant sumBeforeNextRow == Before(rows, rowIdx, |rows|)
      invariant forall r :: 0 <= r < rowIdx ==> rowPtrs[r] == Before(rows, r, |rows|)
      invariant forall r :: rowIdx <= r <= numRows ==> rowPtrs[r] == Count(rows, r, |rows|)
    {
      NextRowBegins(rows, rowIdx, |rows|);
      var sumBeforeRow := sumBeforeNextRow;
      sumBeforeNextRow := sumBeforeNextRow + rowPtrs[rowIdx];
      rowPtrs[rowIdx] := sumBeforeRow;
    }
    rowPtrs[numRows] := sumBeforeNextRow;
  }

  /** The part of row r's segment that the first i entries have filled. */
  ghost predicate Filled(rows: seq<nat>, entries: seq<Nonzero>, binned: seq<Nonzero>, r: nat, i: nat)
    requires i <= |rows| == |entries|
  {
    var start := Before(rows, r, |rows|);
    start + Count(rows, r, i) <= |binned| && binned[start..start + Count(rows, r, i)] == RowEntries(rows, entries, r, i)
  }

  /** Each row pointer is the row's cursor: it moves on as the row's entries are put down. */
  method Bin(rowIdxs: array<nat>, nonzeros: array<Nonzero>, numRows: nat, rowPtrs: array<nat>, binned: array<Nonzero>)
    requires rowPtrs.Length == numRows + 1 && rowPtrs != rowIdxs && binned != nonzeros
    requires rowIdxs.Length == nonzeros.Length == binned.Length
    requires forall k :: 0 <= k < rowIdxs.Length ==> rowIdxs[k] < numRows
    requires forall r :: 0 <= r <= numRows ==> rowPtrs[r] == Before(rowIdxs[..], r, rowIdxs.Length)
    modifies rowPtrs, binned
    ensures rowPtrs[numRows] == rowIdxs.Length
    ensures forall r :: 0 <= r < numRows ==> rowPtrs[r] == Before(rowIdxs[..], r + 1, rowIdxs.Length)
    ensures forall r :: 0 <= r < numRows ==> Filled(rowIdxs[..], nonzeros[..], binned[..], r, rowIdxs.Length)
  {
    ghost var rows, entries, n := rowIdxs[..], nonzeros[..], rowIdxs.Length;
    AllBeforeEnd(rows, numRows, n);
    forall r | 0 <= r < numRows ensures Filled(rows, entries, binned[..], r, 0) {}
    for i := 0 to rowIdxs.Length
      invariant rowIdxs[..] == rows && nonzeros[..] == entries && rowPtrs[numRows] == n
      invariant forall r :: 0 <= r < numRows ==> rowPtrs[r] == Before(rows, r, n) + Count(rows, r, i)
      invariant forall r :: 0 <= r < numRows ==> Filled(rows, entries, binned[..], r, i)
    {
      var rowIdx := rowIdxs[i];
      PlaceInSegment(rows, i, numRows);
      var nnzIdx := rowPtrs[rowIdx];
      ghost var before := binned[..];
      rowPtrs[rowIdx] := nnzIdx + 1;
      binned[nnzIdx] := nonzeros[i];
      FilledOneMore(rows, entries, before, binned[..], numRows, i, i + 1);
    }
    forall r | 0 <= r < numRows ensures rowPtrs[r] == Before(rows, r + 1, n) {
      NextRowBegins(rows, r, n);
    }
  }

  lemma FilledOneMore(rows: seq<nat>, entries: seq<Nonzero>, before: seq<Nonzero>, after: seq<Nonzero>,
                      numRows: nat, i: nat, next: nat)
    requires i < |rows| == |entries| == |before| && forall k :: 0 <= k < |rows| ==> rows[k] < numRows
    requires forall r :: 0 <= r < numRows ==> Filled(rows, entries, before, r, i)
    requires Place(rows, i) < |before| && after == before[Place(rows, i) := entries[i]] && next == i + 1
    ensures forall r :: 0 <= r < numRows ==> Filled(rows, entries, after, r, next)
  {
    forall r | 0 <= r < numRows ensures Filled(rows, entries, after, r, next) {
      var start, c := Before(rows, r, |rows|), Count(rows, r, i);
      assert Filled(rows, entries, before, r, i);
      CountGrows(rows, r, i, |rows|);
      if r == rows[i] {
        assert after[start..start + c] == before[start..start + c];
        assert after[start..start + c + 1] == after[start..start + c] + [entries[i]];
      } else {
        PlaceIsFree(rows, i, numRows, r);
        assert after[start..start + c] == before[start..start + c];
      }
    }
  }

  /** The cursors ended one row ahead; they are moved back, from the last row down. */
  method Restore(ghost rows: seq<nat>, numRows: nat, rowPtrs: array<nat>)
    requires numRows >= 1 && rowPtrs.Length == numRows + 1
    requires forall r :: 0 <= r < numRows ==> rowPtrs[r] == Before(rows, r + 1, |rows|)
    modifies rowPtrs
    ensures rowPtrs[numRows] == old(rowPtrs[numRows])
    ensures forall r :: 0 <= r < numRows ==> rowPtrs[r] == Before(rows, r, |rows|)
  {
    NothingBeforeFirstRow(rows, |rows|);
    var rowIdx := numRows - 1;
    while rowIdx > 0
      invariant 0 <= rowIdx < numRows && rowPtrs[numRows] == old(rowPtrs[numRows])
      invariant forall r :: 0 <= r <= rowIdx ==> rowPtrs[r] == Before(rows, r + 1, |rows|)
      invariant forall r :: rowIdx < r < numRows ==> rowPtrs[r] == Before(rows, r, |rows|)
    {
      rowPtrs[rowIdx] := rowPtrs[rowIdx - 1];
      rowIdx := rowIdx - 1;
    }
    rowPtrs[0] := 0;
  }

  /**
   * Stable grouping by row. The last loop counts down from numRows - 1 in unsigned arithmetic, so a matrix
   * needs a row.
   */
  method CooToCsr(numRows: nat, rowIdxs: array<nat>, nonzeros: array<Nonzero>)
    returns (rowPtrs: array<nat>, binned: array<Nonzero>)
    requires numRows >= 1 && rowIdxs.Length == nonzeros.Length
    requires forall k :: 0 <= k < rowIdxs.Length ==> rowIdxs[k] < numRows
    ensures fresh(rowPtrs) && fresh(binned)
    ensures IsCsr(numRows, rowIdxs[..], nonzeros[..], rowPtrs[..], binned[..])
  {
    rowPtrs := new nat[numRows + 1](_ => 0);
    binned := new Nonzero[nonzeros.Length](_ => Nonzero(0, 0.0));
    Histogram(rowIdxs, numRows, rowPtrs);
    PrefixSum(rowIdxs[..], numRows, rowPtrs);
    Bin(rowIdxs, nonzeros, numRows, rowPtrs, binned);
    Restore(rowIdxs[..], numRows, rowPtrs);
    ghost var rows, entries, n := rowIdxs[..], nonzeros[..], rowIdxs.Length;
    NothingBeforeFirstRow(rows, n);
    AllBeforeEnd(rows, numRows, n);
    forall r | 0 <= r < numRows ensures IsSegment(rows, entries, rowPtrs[..], binned[..], r) {
      NextRowBegins(rows, r, n);
      assert Filled(rows, entries, binned[..], r, n);
    }
  }

  // ----- what the conversion is for -----

  function Dot(entries: seq<Nonzero>, x: nat -> real): real {
    if entries == [] then 0.0
    else Dot(entries[..|entries| - 1], x) + entries[|entries| - 1].value * x(entries[|entries| - 1].col)
  }

  /** Row r of the product of the matrix in coordinate form with x. */
  function CooProduct(rows: seq<nat>, entries: seq<Nonzero>, x: nat -> real, r: nat, n: nat): real
    requires n <= |rows| == |entries|
  {
    if n == 0 then 0.0
    else CooProduct(rows, entries, x, r, n - 1) +
         if rows[n - 1] == r then entries[n - 1].value * x(entries[n - 1].col) else 0.0
  }

  lemma {:induction false} RowEntriesGiveProduct(rows: seq<nat>, entries: seq<Nonzero>, x: nat -> real, r: nat, n: nat)
    requires n <= |rows| == |entries|
    ensures Dot(RowEntries(rows, entries, r, n), x) == CooProduct(rows, entries, x, r, n)
  {
    if n > 0 {
      RowEntriesGiveProduct(rows, entries, x, r, n - 1);
      var s := RowEntries(rows, entries, r, n - 1);
      if rows[n - 1] == r { assert (s + [entries[n - 1]])[..|s|] == s; } else { assert s + [] == s; }
    }
  }

  /** The sparse matrix-vector product is the same in both forms, row by row and term by term. */
  lemma ProductIsUnchanged(numRows: nat, rows: seq<nat>, entries: seq<Nonzero>, ptrs: seq<nat>, binned: seq<Nonzero>,
                           x: nat -> real, r: nat)
    requires |rows| == |entries| && IsCsr(numRows, rows, entries, ptrs, binned) && r < numRows
    ensures ptrs[r] <= ptrs[r + 1] <= |binned|
    ensures Dot(binned[ptrs[r]..ptrs[r + 1]], x) == CooProduct(rows, entries, x, r, |rows|)
  {
    assert IsSegment(rows, entries, ptrs, binned, r);
    RowEntriesGiveProduct(rows, entries, x, r, |rows|);
  }

  // ----- a matrix without rows -----

  const UINT32 := 0x1_0000_0000

  /** The index at which shifting the row pointers back begins, in 32-bit unsigned arithmetic. */
  function LastRow(numRows: nat): nat {
    (numRows + UINT32 - 1) % UINT32
  }

  /** It is one of the numRows + 1 row pointers if and only if there is a row. */
  lemma RestoreStaysInside(numRows: nat)
    requires numRows < UINT32
    ensures LastRow(numRows) < numRows + 1 <==> numRows >= 1
    ensures numRows >= 1 ==> LastRow(numRows) == numRows - 1
  {
    if numRows == 0 {
      assert LastRow(numRows) == UINT32 - 1;
    } else {
      assert numRows + UINT32 - 1 == UINT32 * 1 + (numRows - 1);
    }
  }
}
