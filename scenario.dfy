/**
 * Worked examples for one category: the column labels "AAPL" and "AAPL-US"
 * share a normalised ticker, yet the group-by keeps them as separate rows,
 * while two readings of the same label on the same day are summed.
 */
module Scenario {
  import opened Frames
  import Ticker
  import opened Aggregate

  const Day1 := Date(1)

  lemma PlainLabel()
    ensures Ticker.Normalise("AAPL") == "AAPL"
  {
    Ticker.NormaliseFixed("AAPL");
  }

  lemma SuffixedLabel()
    ensures Ticker.Normalise("AAPL-US") == "AAPL"
  {
    assert "AAPL-US" == "AAPL" + ['-'] + "US";
    Ticker.NormaliseAlnumPrefix("AAPL", '-', "US");
  }

  /** Two rows under the same (date, label) key collapse into one summed row. */
  lemma SameLabelSummed()
    ensures GroupSum([Record(Day1, "AAPL", "AAPL", 100.0), Record(Day1, "AAPL", "AAPL", 50.0)])
         == [Record(Day1, "AAPL", "AAPL", 150.0)]
  {
    var a := Record(Day1, "AAPL", "AAPL", 100.0);
    var b := Record(Day1, "AAPL", "AAPL", 50.0);
    assert [a, b][..1] == [a];
    GroupSumOfDistinct([a]);
  }

  /** Two labels with the same normalised ticker stay apart. */
  lemma SpellingsKeptApart()
    ensures GroupSum([Record(Day1, "AAPL", "AAPL", 100.0), Record(Day1, "AAPL-US", "AAPL", 50.0)])
         == [Record(Day1, "AAPL", "AAPL", 100.0), Record(Day1, "AAPL-US", "AAPL", 50.0)]
  {
    var a := Record(Day1, "AAPL", "AAPL", 100.0);
    var b := Record(Day1, "AAPL-US", "AAPL", 50.0);
    assert a.KeyOf() != b.KeyOf() by { assert |a.ticker| != |b.ticker|; }
    GroupSumOfDistinct([a, b]);
  }
}
