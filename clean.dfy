/**
 * The per-file cleaning of build_group: attach the canonical label, coerce the
 * turnover and drop the rows where that fails, then parse the date of every
 * surviving row. A date that cannot be parsed aborts the whole file.
 */
module Clean {
  import opened Wrappers
  import opened Frames
  import Ticker
  import Melt

  /** df["ticker_norm"] = df["ticker"].map(normalise_ticker) */
  function AttachNorm(rows: seq<MeltedRow>): (r: seq<LabelledRow>)
    ensures |r| == |rows|
    ensures forall i :: 0 <= i < |rows| ==>
      r[i] == LabelledRow(rows[i].date, rows[i].ticker, Ticker.Normalise(rows[i].ticker), rows[i].turnover)
  {
    seq(|rows|, i requires 0 <= i < |rows| =>
      LabelledRow(rows[i].date, rows[i].ticker, Ticker.Normalise(rows[i].ticker), rows[i].turnover))
  }

  /** The labelled row a surviving row came from. */
  function Uncoerced(c: CoercedRow): LabelledRow
  {
    LabelledRow(c.date, c.ticker, c.tickerNorm, Some(c.turnover))
  }

  /** dropna(subset=["turnover"]): keep exactly the rows whose turnover is a number, in order. */
  function DropNa(rows: seq<LabelledRow>): (r: seq<CoercedRow>)
    ensures |r| <= |rows|
    ensures forall k :: 0 <= k < |r| ==> Uncoerced(r[k]) in rows
    ensures forall i :: 0 <= i < |rows| && rows[i].turnover.Some? ==>
      CoercedRow(rows[i].date, rows[i].ticker, rows[i].tickerNorm, rows[i].turnover.value) in r
  {
    if rows == [] then []
    else
      var head := rows[0];
      var rest := DropNa(rows[1..]);
      assert forall i :: 1 <= i < |rows| ==> rows[i] == rows[1..][i - 1];
      if head.turnover.Some? then [CoercedRow(head.date, head.ticker, head.tickerNorm, head.turnover.value)] + rest
      else rest
  }

  /** The cleaned row of a surviving row whose date parsed. */
  function Dated(c: CoercedRow): Record
    requires c.date.Parsed?
  {
    Record(c.date.day, c.ticker, c.tickerNorm, c.turnover)
  }

  /** The surviving row a cleaned row came from. */
  function Undated(r: Record): CoercedRow
  {
    CoercedRow(Parsed(r.date), r.ticker, r.tickerNorm, r.turnover)
  }

  /**
   * pd.to_datetime over the date column, then the group-by's dropping of NaT
   * keys: a garbled date fails the file; a blank date gives NaT and its row
   * never reaches the aggregate; the other rows keep their order.
   */
  function ParseDates(rows: seq<CoercedRow>): (r: Option<seq<Record>>)
    ensures r.Some? <==> forall i :: 0 <= i < |rows| ==> !rows[i].date.Garbled?
    ensures r.Some? ==> |r.value| <= |rows|
    ensures r.Some? ==> forall k :: 0 <= k < |r.value| ==> Undated(r.value[k]) in rows
    ensures r.Some? ==> forall i :: 0 <= i < |rows| && rows[i].date.Parsed? ==> Dated(rows[i]) in r.value
  {
    if rows == [] then Some([])
    else if rows[0].date.Garbled? then None
    else
      assert forall i :: 1 <= i < |rows| ==> rows[i] == rows[1..][i - 1];
      match ParseDates(rows[1..])
      case None => None
      case Some(rest) =>
        Some((if rows[0].date.Parsed? then [Dated(rows[0])] else []) + rest)
  }

  /** Labelling works row by row. */
  lemma AttachNormAppend(a: seq<MeltedRow>, b: seq<MeltedRow>)
    ensures AttachNorm(a + b) == AttachNorm(a) + AttachNorm(b)
  {
  }

  /** dropna on one row: a number is kept, a NaN is dropped. */
  lemma DropNaOne(x: LabelledRow)
    ensures DropNa([x]) == if x.turnover.Some? then [CoercedRow(x.date, x.ticker, x.tickerNorm, x.turnover.value)] else []
  {
    assert [x][1..] == [];
  }

  /** dropna works row by row: it keeps the surviving rows in order and with their repeats. */
  lemma {:induction false} DropNaAppend(a: seq<LabelledRow>, b: seq<LabelledRow>)
    ensures DropNa(a + b) == DropNa(a) + DropNa(b)
  {
    if a == [] {
      assert a + b == b;
    } else {
      assert (a + b)[0] == a[0];
      assert (a + b)[1..] == a[1..] + b;
      DropNaAppend(a[1..], b);
    }
  }

  /** Parsing one row's date: a garbled date fails, a blank one drops the row, a day keeps it. */
  lemma ParseDatesOne(x: CoercedRow)
    ensures ParseDates([x]) == if x.date.Garbled? then None else if x.date.Parsed? then Some([Dated(x)]) else Some([])
  {
    assert [x][1..] == [];
    assert ParseDates([]) == Some([]);
    if x.date.Parsed? {
      assert [Dated(x)] + [] == [Dated(x)];
    }
  }

  /** Parsing works row by row: it fails where either part fails, and otherwise keeps the rows in order and with their repeats. */
  lemma {:induction false} ParseDatesAppend(a: seq<CoercedRow>, b: seq<CoercedRow>)
    ensures ParseDates(a + b).Some? <==> ParseDates(a).Some? && ParseDates(b).Some?
    ensures ParseDates(a + b).Some? ==> ParseDates(a + b).value == ParseDates(a).value + ParseDates(b).value
  {
    if a == [] {
      assert a + b == b;
    } else {
      assert (a + b)[0] == a[0];
      assert (a + b)[1..] == a[1..] + b;
      ParseDatesAppend(a[1..], b);
    }
  }

  /** One source file through lines 102-107: melt, label, coerce, drop, parse dates. */
  function CleanFile(t: Frame): Result<seq<Record>, FileError>
  {
    match Melt.MeltWide(t)
    case Failure(e) => Failure(e)
    case Success(melted) =>
      match ParseDates(DropNa(AttachNorm(melted)))
      case None => Failure(UnparseableDate)
      case Some(rows) => Success(rows)
  }

  /** Row i and value column c hold a turnover that coerces to a number. */
  predicate Valued(t: Frame, i: int, c: int)
  {
    0 <= i < |t.rows| && 0 <= c < |t.labels| - 1 && t.rows[i].cells[c].Some?
  }

  /** The cleaned row that a valued cell with a parsed date becomes. */
  function CellRecord(t: Frame, i: int, c: int): Record
    requires Valued(t, i, c) && t.rows[i].date.Parsed?
  {
    Record(t.rows[i].date.day, t.labels[c + 1], Ticker.Normalise(t.labels[c + 1]), t.rows[i].cells[c].value)
  }

  /** The rows of a file that survive dropna, before their dates are parsed. */
  function Survivors(t: Frame): seq<CoercedRow>
    requires |t.labels| > 0
  {
    DropNa(AttachNorm(Melt.MeltWide(t).value))
  }

  /** A valued cell survives dropna under its column's label. */
  lemma SurvivorOfCell(t: Frame, i: int, c: int)
    requires Valued(t, i, c)
    ensures CoercedRow(t.rows[i].date, t.labels[c + 1], Ticker.Normalise(t.labels[c + 1]), t.rows[i].cells[c].value)
            in Survivors(t)
  {
    Melt.MeltWideAt(t, i, c);
    var melted := Melt.MeltWide(t).value;
    var k := c * |t.rows| + i;
    var labelled := AttachNorm(melted);
    assert labelled[k] == LabelledRow(t.rows[i].date, t.labels[c + 1], Ticker.Normalise(t.labels[c + 1]), t.rows[i].cells[c]);
  }

  /** Every row that survives dropna comes from a valued cell. */
  lemma CellOfSurvivor(t: Frame, q: int) returns (i: int, c: int)
    requires |t.labels| > 0 && 0 <= q < |Survivors(t)|
    ensures Valued(t, i, c)
    ensures Survivors(t)[q]
         == CoercedRow(t.rows[i].date, t.labels[c + 1], Ticker.Normalise(t.labels[c + 1]), t.rows[i].cells[c].value)
  {
    var melted := Melt.MeltWide(t).value;
    var labelled := AttachNorm(melted);
    var row := Survivors(t)[q];
    assert Uncoerced(row) in labelled;
    var p :| 0 <= p < |labelled| && labelled[p] == Uncoerced(row);
    i, c := Melt.MeltWideOrigin(t, p);
    assert labelled[p] == LabelledRow(melted[p].date, melted[p].ticker, Ticker.Normalise(melted[p].ticker), melted[p].turnover);
  }

  /** A valued cell of a file that cleans successfully has no garbled date, and survives unless its date is blank. */
  lemma CleanFileKeeps(t: Frame, i: int, c: int)
    requires CleanFile(t).Success? && Valued(t, i, c)
    ensures !t.rows[i].date.Garbled?
    ensures t.rows[i].date.Parsed? ==> CellRecord(t, i, c) in CleanFile(t).value
  {
    SurvivorOfCell(t, i, c);
    var survivors := Survivors(t);
    var q :| 0 <= q < |survivors|
      && survivors[q] == CoercedRow(t.rows[i].date, t.labels[c + 1], Ticker.Normalise(t.labels[c + 1]), t.rows[i].cells[c].value);
    if t.rows[i].date.Parsed? {
      assert Dated(survivors[q]) == CellRecord(t, i, c);
    }
  }

  /** Every cleaned row of a file is the cleaned row of one of its valued cells with a parsed date. */
  lemma CleanFileOrigin(t: Frame, k: int)
    requires CleanFile(t).Success? && 0 <= k < |CleanFile(t).value|
    ensures exists i, c :: Valued(t, i, c) && t.rows[i].date.Parsed? && CleanFile(t).value[k] == CellRecord(t, i, c)
  {
    var survivors := Survivors(t);
    var x := CleanFile(t).value[k];
    assert Undated(x) in survivors;
    var q :| 0 <= q < |survivors| && survivors[q] == Undated(x);
    var i, c := CellOfSurvivor(t, q);
    assert x == CellRecord(t, i, c);
  }

  /** A file fails exactly when it has no column, or a valued cell sits in a row whose date is garbled. */
  lemma CleanFileFails(t: Frame)
    ensures CleanFile(t).Failure? <==>
      |t.labels| == 0 || exists i, c :: Valued(t, i, c) && t.rows[i].date.Garbled?
    ensures CleanFile(t).Failure? ==> (CleanFile(t).error == NoDateColumn <==> |t.labels| == 0)
  {
    if |t.labels| > 0 {
      var survivors := Survivors(t);
      if ParseDates(survivors).None? {
        var q :| 0 <= q < |survivors| && survivors[q].date.Garbled?;
        var i, c := CellOfSurvivor(t, q);
        assert Valued(t, i, c) && t.rows[i].date.Garbled?;
      } else {
        forall i, c | Valued(t, i, c) ensures !t.rows[i].date.Garbled? {
          CleanFileKeeps(t, i, c);
        }
      }
    }
  }

  /** Cleaning never yields more rows than the melted table has. */
  lemma CleanFileNoLonger(t: Frame)
    requires CleanFile(t).Success?
    ensures |CleanFile(t).value| <= |t.rows| * (|t.labels| - 1)
  {
  }

  /** Every cleaned row carries the canonical form of its raw label. */
  lemma CleanFileNormalised(t: Frame)
    requires CleanFile(t).Success?
    ensures forall r :: r in CleanFile(t).value ==> r.tickerNorm == Ticker.Normalise(r.ticker)
  {
    forall r | r in CleanFile(t).value ensures r.tickerNorm == Ticker.Normalise(r.ticker) {
      var k :| 0 <= k < |CleanFile(t).value| && CleanFile(t).value[k] == r;
      CleanFileOrigin(t, k);
    }
  }
}
