/**
 * What one file contributes to the aggregate, read straight off the wide
 * table: for every key, the sum of the cells that coerce to a number, sit in
 * a row whose date parses to the key's day, and stand under a label whose
 * (label, canonical label) pair is the key's. Each cell counts once, however
 * many cells repeat it.
 */
module CellTotals {
  import opened Wrappers
  import opened Frames
  import opened Aggregate
  import Ticker
  import Melt
  import Clean

  /** What the cell in value column j of row adds to key k's total, under the label name. */
  function CellContribution(row: WideRow, name: string, j: nat, k: Key): real
    requires j < |row.cells|
  {
    if row.cells[j].Some? && row.date.Parsed? && Key(row.date.day, name, Ticker.Normalise(name)) == k
    then row.cells[j].value
    else 0.0
  }

  /** The total of key k over value column j, labelled name, of the rows. */
  function ColumnTotal(rows: seq<WideRow>, name: string, j: nat, k: Key): real
    requires forall i :: 0 <= i < |rows| ==> j < |rows[i].cells|
  {
    if rows == [] then 0.0 else CellContribution(rows[0], name, j, k) + ColumnTotal(rows[1..], name, j, k)
  }

  /** The total of key k over the value columns j, j + 1, ... of a wide table. */
  function ColumnsTotal(t: Frame, j: nat, k: Key): real
    requires j < |t.labels|
    decreases |t.labels| - j
  {
    if j == |t.labels| - 1 then 0.0 else ColumnTotal(t.rows, t.labels[j + 1], j, k) + ColumnsTotal(t, j + 1, k)
  }

  /** The total of key k over all the cells of a wide table. */
  function FileTotal(t: Frame, k: Key): real
  {
    if |t.labels| == 0 then 0.0 else ColumnsTotal(t, 0, k)
  }

  /** Lines 104-107 on melted rows: label, coerce and drop, parse the dates. */
  function CleanRows(ms: seq<MeltedRow>): Option<seq<Record>>
  {
    Clean.ParseDates(Clean.DropNa(Clean.AttachNorm(ms)))
  }

  /** Cleaning works row by row. */
  lemma CleanRowsAppend(a: seq<MeltedRow>, b: seq<MeltedRow>)
    ensures CleanRows(a + b).Some? <==> CleanRows(a).Some? && CleanRows(b).Some?
    ensures CleanRows(a + b).Some? ==> CleanRows(a + b).value == CleanRows(a).value + CleanRows(b).value
  {
    Clean.AttachNormAppend(a, b);
    Clean.DropNaAppend(Clean.AttachNorm(a), Clean.AttachNorm(b));
    Clean.ParseDatesAppend(Clean.DropNa(Clean.AttachNorm(a)), Clean.DropNa(Clean.AttachNorm(b)));
  }

  /** Cleaning one melted row fails only on a number with a garbled date, and otherwise adds its cell to its key. */
  lemma CleanRowsOne(row: WideRow, name: string, j: nat, k: Key)
    requires j < |row.cells|
    ensures CleanRows([Frames.MeltedRow(row.date, name, row.cells[j])]).Some?
        <==> !(row.cells[j].Some? && row.date.Garbled?)
    ensures CleanRows([Frames.MeltedRow(row.date, name, row.cells[j])]).Some? ==>
      SumFor(CleanRows([Frames.MeltedRow(row.date, name, row.cells[j])]).value, k) == CellContribution(row, name, j, k)
  {
    var m := Frames.MeltedRow(row.date, name, row.cells[j]);
    var l := Frames.LabelledRow(row.date, name, Ticker.Normalise(name), row.cells[j]);
    assert Clean.AttachNorm([m]) == [l];
    Clean.DropNaOne(l);
    if row.cells[j].Some? {
      var c := Frames.CoercedRow(row.date, name, Ticker.Normalise(name), row.cells[j].value);
      Clean.ParseDatesOne(c);
      if row.date.Parsed? {
        assert SumFor([Clean.Dated(c)], k) == Contribution(Clean.Dated(c), k) + SumFor([], k);
      }
    }
  }

  /** One melted column cleans to the column's total for every key. */
  lemma {:induction false} CleanColumn(rows: seq<WideRow>, name: string, j: nat, k: Key)
    requires forall i :: 0 <= i < |rows| ==> j < |rows[i].cells|
    ensures CleanRows(Melt.MeltColumn(rows, name, j)).Some? ==>
      SumFor(CleanRows(Melt.MeltColumn(rows, name, j)).value, k) == ColumnTotal(rows, name, j, k)
  {
    if rows != [] {
      var head := [Frames.MeltedRow(rows[0].date, name, rows[0].cells[j])];
      var tail := Melt.MeltColumn(rows[1..], name, j);
      assert Melt.MeltColumn(rows, name, j) == head + tail;
      CleanRowsAppend(head, tail);
      if CleanRows(head + tail).Some? {
        CleanRowsOne(rows[0], name, j, k);
        CleanColumn(rows[1..], name, j, k);
        SumForConcat(CleanRows(head).value, CleanRows(tail).value, k);
      }
    }
  }

  /** The melted value columns from j onwards clean to those columns' total for every key. */
  lemma {:induction false} CleanColumns(t: Frame, j: nat, k: Key)
    requires j < |t.labels|
    ensures CleanRows(Melt.MeltColumns(t, j)).Some? ==>
      SumFor(CleanRows(Melt.MeltColumns(t, j)).value, k) == ColumnsTotal(t, j, k)
    decreases |t.labels| - j
  {
    if j < |t.labels| - 1 {
      var here := Melt.MeltColumn(t.rows, t.labels[j + 1], j);
      var later := Melt.MeltColumns(t, j + 1);
      assert Melt.MeltColumns(t, j) == here + later;
      CleanRowsAppend(here, later);
      if CleanRows(here + later).Some? {
        CleanColumn(t.rows, t.labels[j + 1], j, k);
        CleanColumns(t, j + 1, k);
        SumForConcat(CleanRows(here).value, CleanRows(later).value, k);
      }
    }
  }

  /**
   * A file that cleans holds, for every key, exactly the total of that key
   * over its wide table's cells: no numeric cell is lost and none is counted twice.
   */
  lemma CleanFileTotals(t: Frame, k: Key)
    requires Clean.CleanFile(t).Success?
    ensures SumFor(Clean.CleanFile(t).value, k) == FileTotal(t, k)
  {
    CleanColumns(t, 0, k);
  }
}
