/**
 * The order in which the group-by lists its groups: keys ascending, compared
 * date first, then raw label, then canonical label, labels compared
 * character by character by code point as Python compares strings.
 */
module KeyOrder {
  import opened Frames

  /** Python's a < b on strings: lexicographic by code point, a proper prefix first. */
  predicate StrLess(a: string, b: string)
  {
    if a == [] then b != []
    else if b == [] then false
    else if a[0] != b[0] then a[0] < b[0]
    else StrLess(a[1..], b[1..])
  }

  /** The group-by's order on keys. */
  predicate KeyLess(k: Key, l: Key)
  {
    || k.date.day < l.date.day
    || (k.date == l.date && StrLess(k.ticker, l.ticker))
    || (k.date == l.date && k.ticker == l.ticker && StrLess(k.tickerNorm, l.tickerNorm))
  }

  lemma {:induction false} StrLessIrreflexive(a: string)
    ensures !StrLess(a, a)
  {
    if a != [] {
      StrLessIrreflexive(a[1..]);
    }
  }

  lemma {:induction false} StrLessTransitive(a: string, b: string, c: string)
    requires StrLess(a, b) && StrLess(b, c)
    ensures StrLess(a, c)
  {
    if a != [] && b != [] && c != [] && a[0] == b[0] && b[0] == c[0] {
      StrLessTransitive(a[1..], b[1..], c[1..]);
    }
  }

  /** Two different strings are ordered one way or the other. */
  lemma {:induction false} StrLessTotal(a: string, b: string)
    requires a != b
    ensures StrLess(a, b) || StrLess(b, a)
  {
    if a != [] && b != [] && a[0] == b[0] {
      assert a == [a[0]] + a[1..] && b == [b[0]] + b[1..];
      StrLessTotal(a[1..], b[1..]);
    }
  }

  lemma KeyLessIrreflexive(k: Key)
    ensures !KeyLess(k, k)
  {
    StrLessIrreflexive(k.ticker);
    StrLessIrreflexive(k.tickerNorm);
  }

  lemma KeyLessTransitive(k: Key, l: Key, m: Key)
    requires KeyLess(k, l) && KeyLess(l, m)
    ensures KeyLess(k, m)
  {
    if k.date == l.date == m.date {
      StrLessIrreflexive(l.ticker);
      if k.ticker == l.ticker == m.ticker {
        StrLessTransitive(k.tickerNorm, l.tickerNorm, m.tickerNorm);
      } else if k.ticker != l.ticker && l.ticker != m.ticker {
        StrLessTransitive(k.ticker, l.ticker, m.ticker);
      }
    }
  }

  /** Two different keys are ordered one way or the other. */
  lemma KeyLessTotal(k: Key, l: Key)
    requires k != l
    ensures KeyLess(k, l) || KeyLess(l, k)
  {
    if k.date == l.date {
      if k.ticker != l.ticker {
        StrLessTotal(k.ticker, l.ticker);
      } else {
        StrLessTotal(k.tickerNorm, l.tickerNorm);
      }
    }
  }
}
