/**
 * The group-by lists its groups in ascending key order (sort=True by
 * default). The aggregate is put in that order by an insertion sort; since
 * its keys are distinct, the order is strict and the sorted table is the only
 * arrangement of its rows in that order.
 */
module Sorting {
  import opened Frames
  import opened Aggregate
  import opened KeyOrder

  /** Each row's key comes strictly before the keys of the rows after it. */
  predicate SortedByKey(s: seq<Record>)
  {
    forall i, j :: 0 <= i < j < |s| ==> KeyLess(s[i].KeyOf(), s[j].KeyOf())
  }

  /** x placed before the first row whose key is greater than its own. */
  function Insert(x: Record, s: seq<Record>): (r: seq<Record>)
    ensures multiset(r) == multiset(s) + multiset{x}
    ensures SortedByKey(s) && x.KeyOf() !in KeySet(s) ==> SortedByKey(r)
  {
    if s == [] then [x]
    else if KeyLess(x.KeyOf(), s[0].KeyOf()) then
      InsertFront(x, s);
      [x] + s
    else
      var rest := Insert(x, s[1..]);
      InsertLater(x, s, rest);
      [s[0]] + rest
  }

  /** A row whose key is below every key of a sorted table can go in front of it. */
  lemma SortedCons(x: Record, s: seq<Record>)
    requires SortedByKey(s)
    requires forall y :: y in s ==> KeyLess(x.KeyOf(), y.KeyOf())
    ensures SortedByKey([x] + s)
  {
    var u := [x] + s;
    forall i, j | 0 <= i < j < |u| ensures KeyLess(u[i].KeyOf(), u[j].KeyOf()) {
      assert u[j] == s[j - 1];
      if i == 0 {
        assert u[j] in s;
      } else {
        assert u[i] == s[i - 1];
      }
    }
  }

  lemma SortedTail(s: seq<Record>)
    requires SortedByKey(s) && s != []
    ensures SortedByKey(s[1..])
  {
    forall i, j | 0 <= i < j < |s[1..]| ensures KeyLess(s[1..][i].KeyOf(), s[1..][j].KeyOf()) {
      assert s[1..][i] == s[i + 1] && s[1..][j] == s[j + 1];
    }
  }

  /** The first row of a sorted table is below every later row. */
  lemma SortedFirstBelow(s: seq<Record>)
    requires SortedByKey(s) && s != []
    ensures forall y :: y in s[1..] ==> KeyLess(s[0].KeyOf(), y.KeyOf())
  {
    forall y | y in s[1..] ensures KeyLess(s[0].KeyOf(), y.KeyOf()) {
      var m :| 0 <= m < |s[1..]| && s[1..][m] == y;
      assert s[m + 1] == y;
    }
  }

  /** The case of Insert where x goes first. */
  lemma InsertFront(x: Record, s: seq<Record>)
    requires s != [] && KeyLess(x.KeyOf(), s[0].KeyOf())
    ensures SortedByKey(s) ==> SortedByKey([x] + s)
  {
    if SortedByKey(s) {
      SortedFirstBelow(s);
      forall y | y in s ensures KeyLess(x.KeyOf(), y.KeyOf()) {
        if y != s[0] {
          assert s == [s[0]] + s[1..];
          KeyLessTransitive(x.KeyOf(), s[0].KeyOf(), y.KeyOf());
        }
      }
      SortedCons(x, s);
    }
  }

  /** The case of Insert where x goes after the first row. */
  lemma InsertLater(x: Record, s: seq<Record>, rest: seq<Record>)
    requires s != [] && !KeyLess(x.KeyOf(), s[0].KeyOf())
    requires multiset(rest) == multiset(s[1..]) + multiset{x}
    requires SortedByKey(s[1..]) && x.KeyOf() !in KeySet(s[1..]) ==> SortedByKey(rest)
    ensures multiset([s[0]] + rest) == multiset(s) + multiset{x}
    ensures SortedByKey(s) && x.KeyOf() !in KeySet(s) ==> SortedByKey([s[0]] + rest)
  {
    assert s == [s[0]] + s[1..];
    if SortedByKey(s) && x.KeyOf() !in KeySet(s) {
      SortedTail(s);
      KeySetCons(s[0], s[1..]);
      assert s[0] in s;
      KeyLessTotal(x.KeyOf(), s[0].KeyOf());
      SortedFirstBelow(s);
      forall y | y in rest ensures KeyLess(s[0].KeyOf(), y.KeyOf()) {
        assert y in multiset(rest);
      }
      SortedCons(s[0], rest);
    }
  }

  /** One step of SortByKey: the rest is sorted, and the first row's key is not among its keys. */
  lemma SortStep(s: seq<Record>, rest: seq<Record>)
    requires s != [] && multiset(rest) == multiset(s[1..])
    requires DistinctKeys(s[1..]) ==> SortedByKey(rest)
    ensures multiset(s) == multiset(rest) + multiset{s[0]}
    ensures DistinctKeys(s) ==> SortedByKey(rest) && s[0].KeyOf() !in KeySet(rest)
  {
    assert s == [s[0]] + s[1..];
    DistinctCons(s[0], s[1..]);
    KeySetPermutation(rest, s[1..]);
  }

  /** The group-by's ordering of its output: ascending by key. */
  function SortByKey(s: seq<Record>): (r: seq<Record>)
    ensures multiset(r) == multiset(s)
    ensures DistinctKeys(s) ==> SortedByKey(r)
  {
    if s == [] then []
    else
      var rest := SortByKey(s[1..]);
      SortStep(s, rest);
      Insert(s[0], rest)
  }

  /** A table in strictly ascending key order lists each key once. */
  lemma SortedDistinct(s: seq<Record>)
    requires SortedByKey(s)
    ensures DistinctKeys(s)
  {
    forall i, j | 0 <= i < j < |s| ensures s[i].KeyOf() != s[j].KeyOf() {
      KeyLessIrreflexive(s[i].KeyOf());
    }
  }

  /** Two tables in ascending key order with the same rows start with the same row. */
  lemma SortedSameFirst(a: seq<Record>, b: seq<Record>)
    requires SortedByKey(a) && SortedByKey(b) && multiset(a) == multiset(b) && a != []
    ensures b != [] && a[0] == b[0]
  {
    assert a[0] in multiset(b);
    assert b[0] in multiset(a);
    if a[0] != b[0] {
      var j :| 0 <= j < |b| && b[j] == a[0];
      var i :| 0 <= i < |a| && a[i] == b[0];
      KeyLessTransitive(a[0].KeyOf(), b[0].KeyOf(), a[0].KeyOf());
      KeyLessIrreflexive(a[0].KeyOf());
    }
  }

  /** Two tables in ascending key order with the same rows are the same table. */
  lemma {:induction false} SortedUnique(a: seq<Record>, b: seq<Record>)
    requires SortedByKey(a) && SortedByKey(b) && multiset(a) == multiset(b)
    ensures a == b
    decreases |a|
  {
    if a == [] {
      assert |b| == |multiset(b)| == 0;
    } else {
      SortedSameFirst(a, b);
      assert a == [a[0]] + a[1..] && b == [b[0]] + b[1..];
      assert multiset(a[1..]) == multiset(a) - multiset{a[0]};
      assert multiset(b[1..]) == multiset(b) - multiset{b[0]};
      SortedTail(a);
      SortedTail(b);
      SortedUnique(a[1..], b[1..]);
    }
  }

  /** Sorting a table already in key order leaves it unchanged. */
  lemma SortByKeyOfSorted(s: seq<Record>)
    requires SortedByKey(s)
    ensures SortByKey(s) == s
  {
    SortedDistinct(s);
    SortedUnique(SortByKey(s), s);
  }

  /** Sorting changes neither the keys nor their totals. */
  lemma SortByKeyTotals(s: seq<Record>)
    ensures SameTotals(SortByKey(s), s)
    ensures AsMap(SortByKey(s)) == AsMap(s)
  {
    KeySetPermutation(SortByKey(s), s);
    forall k ensures SumFor(SortByKey(s), k) == SumFor(s, k) {
      SumForPermutation(SortByKey(s), s, k);
    }
    SameTotalsAsMap(SortByKey(s), s);
  }

  /**
   * The group-by's output in full: ascending keys, one row per key of the
   * input, each holding its key's total, and the input's totals as a map.
   */
  lemma SortedAggregate(rows: seq<Record>)
    ensures
      var out := SortByKey(GroupSum(rows));
      && SortedByKey(out)
      && DistinctKeys(out)
      && KeySet(out) == KeySet(rows)
      && (forall i :: 0 <= i < |out| ==> out[i].turnover == SumFor(rows, out[i].KeyOf()))
      && AsMap(out) == AsMap(rows)
  {
    var grouped := GroupSum(rows);
    var out := SortByKey(grouped);
    GroupSumMeaning(rows);
    SortByKeyTotals(grouped);
    SortedDistinct(out);
    forall i | 0 <= i < |out| ensures out[i].turnover == SumFor(rows, out[i].KeyOf()) {
      assert out[i] in multiset(grouped);
      var j :| 0 <= j < |grouped| && grouped[j] == out[i];
    }
  }
}
