/**
 * melt_wide: unpivot a wide table. Column 0 is the date axis whatever its
 * header; every (row, other column) cell becomes one long row. As in
 * DataFrame.melt, the rows come column by column, each column in row order.
 */
module Melt {
  import opened Wrappers
  import opened Frames

  /** The long rows of value column j (labelled by name), one per row. */
  function MeltColumn(rows: seq<WideRow>, name: string, j: nat): (r: seq<MeltedRow>)
    requires forall i :: 0 <= i < |rows| ==> j < |rows[i].cells|
    ensures |r| == |rows|
    ensures forall i :: 0 <= i < |rows| ==> r[i] == MeltedRow(rows[i].date, name, rows[i].cells[j])
  {
    seq(|rows|, i requires 0 <= i < |rows| => MeltedRow(rows[i].date, name, rows[i].cells[j]))
  }

  /** The long rows of value columns j, j + 1, ..., in that order. */
  function MeltColumns(t: Frame, j: nat): (r: seq<MeltedRow>)
    requires j < |t.labels|
    ensures |r| == Blocks(|t.labels| - 1 - j, |t.rows|)
    decreases |t.labels| - j
  {
    if j == |t.labels| - 1 then []
    else MeltColumn(t.rows, t.labels[j + 1], j) + MeltColumns(t, j + 1)
  }

  /** melt_wide; a table without any column has no date axis to melt on. */
  function MeltWide(t: Frame): (r: Result<seq<MeltedRow>, FileError>)
    ensures r.Failure? <==> |t.labels| == 0
    ensures r.Failure? ==> r.error == NoDateColumn
    ensures r.Success? ==> |r.value| == |t.rows| * (|t.labels| - 1)
  {
    if |t.labels| == 0 then Failure(NoDateColumn)
    else
      BlocksIsProduct(|t.labels| - 1, |t.rows|);
      Success(MeltColumns(t, 0))
  }

  /** d blocks of n rows, counted without multiplication. */
  function Blocks(d: nat, n: nat): nat
  {
    if d == 0 then 0 else n + Blocks(d - 1, n)
  }

  lemma {:induction false} BlocksIsProduct(d: nat, n: nat)
    ensures Blocks(d, n) == d * n
  {
    if d > 0 {
      BlocksIsProduct(d - 1, n);
      MulSucc(d - 1, d, n);
    }
  }

  lemma {:induction false} MeltColumnsAt(t: Frame, j: nat, i: nat, c: nat)
    requires j <= c < |t.labels| - 1 && i < |t.rows|
    ensures Blocks(c - j, |t.rows|) + i < |MeltColumns(t, j)|
    ensures MeltColumns(t, j)[Blocks(c - j, |t.rows|) + i]
         == MeltedRow(t.rows[i].date, t.labels[c + 1], t.rows[i].cells[c])
    decreases c - j
  {
    var n := |t.rows|;
    var here := MeltColumn(t.rows, t.labels[j + 1], j);
    var later := MeltColumns(t, j + 1);
    assert MeltColumns(t, j) == here + later;
    if c == j {
      assert (here + later)[i] == here[i];
    } else {
      var k := Blocks(c - (j + 1), n) + i;
      MeltColumnsAt(t, j + 1, i, c);
      assert Blocks(c - j, n) + i == n + k;
      assert (here + later)[n + k] == later[k];
    }
  }

  lemma MulSucc(d: nat, e: nat, n: nat)
    requires e == d + 1
    ensures e * n == n + d * n
  {
  }

  lemma MulMonotone(a: nat, b: nat, n: nat)
    requires a <= b
    ensures a * n <= n * b
  {
  }

  /** The cell in row i and value column c lands at index c * rows + i of the melted table. */
  lemma MeltWideAt(t: Frame, i: nat, c: nat)
    requires i < |t.rows| && c < |t.labels| - 1
    ensures MeltWide(t).Success?
    ensures c * |t.rows| + i < |MeltWide(t).value|
    ensures MeltWide(t).value[c * |t.rows| + i]
         == MeltedRow(t.rows[i].date, t.labels[c + 1], t.rows[i].cells[c])
  {
    MeltColumnsAt(t, 0, i, c);
    BlocksIsProduct(c, |t.rows|);
  }

  /** Splitting an index into a block and an offset within the block. */
  lemma BlockOf(k: nat, n: nat, m: nat)
    requires k < n * m
    ensures n > 0 && k / n < m && k % n < n && k == (k / n) * n + k % n
  {
    var c := k / n;
    if c >= m {
      MulMonotone(m, c, n);
    }
  }

  /** Every melted row is one cell of the wide table, under its column's label. */
  lemma MeltWideOrigin(t: Frame, k: nat) returns (i: nat, c: nat)
    requires MeltWide(t).Success? && k < |MeltWide(t).value|
    ensures i < |t.rows| && c < |t.labels| - 1
    ensures MeltWide(t).value[k] == MeltedRow(t.rows[i].date, t.labels[c + 1], t.rows[i].cells[c])
  {
    var n := |t.rows|;
    BlockOf(k, n, |t.labels| - 1);
    i, c := k % n, k / n;
    MeltWideAt(t, i, c);
  }
}
