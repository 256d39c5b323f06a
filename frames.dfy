/**
 * The tables the pipeline passes between its steps. A wide table has its
 * date axis in column 0 and one turnover column per raw instrument label;
 * the long tables carry one (date, ticker, turnover) observation per row.
 */
module Frames {
  import opened Wrappers

  /** A calendar day, counted from a fixed epoch: days are grouped by equality and ordered by count. */
  datatype Date = Date(day: int)

  /** A turnover cell after pd.to_numeric(errors="coerce"): None where that yields NaN. */
  type Cell = Option<real>

  /**
   * A date cell as pd.to_datetime sees it: a day, an empty cell (which
   * becomes NaT), or text that cannot be read as a date (which raises).
   */
  datatype RawDate = Parsed(day: Date) | Blank | Garbled

  /** One row of a wide table: the value in column 0 and the cells of the other columns. */
  datatype WideRow = WideRow(date: RawDate, cells: seq<Cell>)

  /** A wide table: its column labels (label 0 heads the date axis) and its rows. */
  datatype WideTable = WideTable(labels: seq<string>, rows: seq<WideRow>)

  /** Every row has a cell under every label: the shape every DataFrame has. */
  predicate Rectangular(t: WideTable)
  {
    forall i :: 0 <= i < |t.rows| ==> |t.rows[i].cells| + 1 == |t.labels|
  }

  /** A wide table as read from one source file. */
  type Frame = t: WideTable | Rectangular(t) witness WideTable([], [])

  /** Why one file could not be turned into cleaned rows. */
  datatype FileError =
    | NoDateColumn     // the table has no column 0 to use as the date axis
    | UnparseableDate  // pd.to_datetime failed on a surviving row's date

  /** A row of the melted table (melt_wide): date, raw label, raw cell. */
  datatype MeltedRow = MeltedRow(date: RawDate, ticker: string, turnover: Cell)

  /** A melted row with its canonical label attached (line 104). */
  datatype LabelledRow = LabelledRow(date: RawDate, ticker: string, tickerNorm: string, turnover: Cell)

  /** A row that survived dropna: its turnover is a number (lines 105-106). */
  datatype CoercedRow = CoercedRow(date: RawDate, ticker: string, tickerNorm: string, turnover: real)

  /** The group-by key of the aggregation (line 116). */
  datatype Key = Key(date: Date, ticker: string, tickerNorm: string)

  /** A cleaned row, and equally a row of an aggregated table. */
  datatype Record = Record(date: Date, ticker: string, tickerNorm: string, turnover: real)
  {
    function KeyOf(): Key { Key(date, ticker, tickerNorm) }
  }
}
