/**
 * The aggregation of build_group: group the cleaned rows by
 * (date, ticker, ticker_norm) and sum the turnover of each group. The
 * aggregated table lists each key once, in the order the key first occurs.
 */
module Aggregate {
  import opened Frames

  /** What row r adds to the total of key k. */
  function Contribution(r: Record, k: Key): real
  {
    if r.KeyOf() == k then r.turnover else 0.0
  }

  /** The total turnover of the rows of s whose key is k. */
  function SumFor(s: seq<Record>, k: Key): real
  {
    if s == [] then 0.0 else Contribution(s[0], k) + SumFor(s[1..], k)
  }

  /** The keys that occur in s. */
  function KeySet(s: seq<Record>): set<Key>
  {
    set r | r in s :: r.KeyOf()
  }

  /** No key occurs twice in s. */
  predicate DistinctKeys(s: seq<Record>)
  {
    forall i, j :: 0 <= i < j < |s| ==> s[i].KeyOf() != s[j].KeyOf()
  }

  /** A table seen as a map from each of its keys to that key's total turnover. */
  function AsMap(s: seq<Record>): map<Key, real>
  {
    map k | k in KeySet(s) :: SumFor(s, k)
  }

  /** Two tables with the same keys and the same total for every key. */
  ghost predicate SameTotals(a: seq<Record>, b: seq<Record>)
  {
    KeySet(a) == KeySet(b) && forall k :: SumFor(a, k) == SumFor(b, k)
  }

  lemma KeySetConcat(a: seq<Record>, b: seq<Record>)
    ensures KeySet(a + b) == KeySet(a) + KeySet(b)
  {
    assert forall r :: r in a + b <==> r in a || r in b;
  }

  /** Totals distribute over concatenation. */
  lemma {:induction false} SumForConcat(a: seq<Record>, b: seq<Record>, k: Key)
    ensures SumFor(a + b, k) == SumFor(a, k) + SumFor(b, k)
  {
    if a == [] {
      assert a + b == b;
    } else {
      assert (a + b)[1..] == a[1..] + b;
      SumForConcat(a[1..], b, k);
    }
  }

  /** A key that does not occur has total zero. */
  lemma {:induction false} SumForAbsent(s: seq<Record>, k: Key)
    requires k !in KeySet(s)
    ensures SumFor(s, k) == 0.0
  {
    if s != [] {
      assert s[0] in s;
      assert KeySet(s[1..]) <= KeySet(s) by {
        forall r | r in s[1..] ensures r in s { }
      }
      SumForAbsent(s[1..], k);
    }
  }

  /** In a table with distinct keys, a row's turnover is its key's total. */
  lemma {:induction false} SumForDistinct(s: seq<Record>, i: nat)
    requires DistinctKeys(s) && i < |s|
    ensures SumFor(s, s[i].KeyOf()) == s[i].turnover
  {
    if i == 0 {
      assert s[0].KeyOf() !in KeySet(s[1..]) by {
        forall r | r in s[1..] ensures r.KeyOf() != s[0].KeyOf() {
          var j :| 0 <= j < |s[1..]| && s[1..][j] == r;
          assert s[j + 1] == r;
        }
      }
      SumForAbsent(s[1..], s[0].KeyOf());
    } else {
      assert s[1..][i - 1] == s[i];
      SumForDistinct(s[1..], i - 1);
    }
  }

  /** u is t with row r folded in: r's key joins the keys and r's turnover joins that key's total. */
  ghost predicate FoldedIn(t: seq<Record>, r: Record, u: seq<Record>)
  {
    && KeySet(u) == KeySet(t) + {r.KeyOf()}
    && (forall k :: SumFor(u, k) == SumFor(t, k) + Contribution(r, k))
    && (DistinctKeys(t) ==> DistinctKeys(u))
    && (r.KeyOf() !in KeySet(t) ==> u == t + [r])
  }

  /** Fold one row into an aggregated table: add to its key's row, or append a new row. */
  function AddRow(t: seq<Record>, r: Record): (u: seq<Record>)
    ensures |u| <= |t| + 1
    ensures KeySet(u) == KeySet(t) + {r.KeyOf()}
    ensures forall k :: SumFor(u, k) == SumFor(t, k) + Contribution(r, k)
    ensures DistinctKeys(t) ==> DistinctKeys(u)
    ensures r.KeyOf() !in KeySet(t) ==> u == t + [r]
  {
    if t == [] then
      assert KeySet([r]) == {r.KeyOf()};
      [r]
    else if t[0].KeyOf() == r.KeyOf() then
      MergeIntoHead(t, r);
      [t[0].(turnover := t[0].turnover + r.turnover)] + t[1..]
    else
      var rest := AddRow(t[1..], r);
      PassHead(t, r, rest);
      [t[0]] + rest
  }

  lemma KeySetCons(x: Record, s: seq<Record>)
    ensures KeySet([x] + s) == {x.KeyOf()} + KeySet(s)
  {
    assert forall r :: r in [x] + s <==> r == x || r in s;
  }

  lemma DistinctCons(x: Record, s: seq<Record>)
    ensures DistinctKeys([x] + s) <==> x.KeyOf() !in KeySet(s) && DistinctKeys(s)
  {
    var u := [x] + s;
    assert forall i :: 0 <= i < |s| ==> u[i + 1] == s[i];
    if DistinctKeys(u) {
      forall q | q in s ensures q.KeyOf() != x.KeyOf() {
        var j :| 0 <= j < |s| && s[j] == q;
        assert u[0] == x && u[j + 1] == q;
      }
      forall i, j | 0 <= i < j < |s| ensures s[i].KeyOf() != s[j].KeyOf() {
        assert u[i + 1] == s[i] && u[j + 1] == s[j];
      }
    }
    if x.KeyOf() !in KeySet(s) && DistinctKeys(s) {
      forall i, j | 0 <= i < j < |u| ensures u[i].KeyOf() != u[j].KeyOf() {
        assert u[j] == s[j - 1];
        if i > 0 {
          assert u[i] == s[i - 1];
        } else {
          assert u[j] in s;
        }
      }
    }
  }

  /** The case of AddRow where the first row carries r's key. */
  lemma MergeIntoHead(t: seq<Record>, r: Record)
    requires t != [] && t[0].KeyOf() == r.KeyOf()
    ensures FoldedIn(t, r, [t[0].(turnover := t[0].turnover + r.turnover)] + t[1..])
  {
    var head := t[0].(turnover := t[0].turnover + r.turnover);
    var u := [head] + t[1..];
    assert u[1..] == t[1..];
    assert t == [t[0]] + t[1..];
    KeySetCons(t[0], t[1..]);
    KeySetCons(head, t[1..]);
    assert r.KeyOf() in KeySet(t);
    forall k ensures SumFor(u, k) == SumFor(t, k) + Contribution(r, k) {
      assert SumFor(u, k) == Contribution(head, k) + SumFor(t[1..], k);
      assert SumFor(t, k) == Contribution(t[0], k) + SumFor(t[1..], k);
    }
    DistinctCons(t[0], t[1..]);
    DistinctCons(head, t[1..]);
  }

  /** The case of AddRow where the first row carries another key and r is folded into the rest. */
  lemma PassHead(t: seq<Record>, r: Record, rest: seq<Record>)
    requires t != [] && t[0].KeyOf() != r.KeyOf()
    requires FoldedIn(t[1..], r, rest)
    ensures FoldedIn(t, r, [t[0]] + rest)
  {
    var u := [t[0]] + rest;
    assert u[1..] == rest;
    assert t == [t[0]] + t[1..];
    KeySetCons(t[0], t[1..]);
    KeySetCons(t[0], rest);
    forall k ensures SumFor(u, k) == SumFor(t, k) + Contribution(r, k) {
      assert SumFor(u, k) == Contribution(t[0], k) + SumFor(rest, k);
    }
    if DistinctKeys(t) {
      DistinctCons(t[0], t[1..]);
      DistinctCons(t[0], rest);
    }
    if r.KeyOf() !in KeySet(t) {
      assert u == t + [r];
    }
  }

  /** groupby([date, ticker, ticker_norm]).agg(turnover=sum), as a left-to-right fold of AddRow. */
  function GroupSum(s: seq<Record>): (g: seq<Record>)
    ensures |g| <= |s|
    ensures DistinctKeys(g)
    ensures KeySet(g) == KeySet(s)
    ensures forall k :: SumFor(g, k) == SumFor(s, k)
  {
    if s == [] then []
    else
      var init := s[..|s| - 1];
      var last := s[|s| - 1];
      assert s == init + [last];
      KeySetConcat(init, [last]);
      assert forall k :: SumFor(s, k) == SumFor(init, k) + Contribution(last, k) by {
        forall k ensures SumFor(s, k) == SumFor(init, k) + Contribution(last, k) {
          SumForConcat(init, [last], k);
        }
      }
      AddRow(GroupSum(init), last)
  }

  /**
   * What the group-by promises: one row per key, no key that is not in the
   * input, and each row's turnover the total of the input rows sharing its key.
   */
  lemma GroupSumMeaning(s: seq<Record>)
    ensures DistinctKeys(GroupSum(s))
    ensures forall r :: r in GroupSum(s) ==> r.KeyOf() in KeySet(s)
    ensures forall k :: k in KeySet(s) ==> exists r :: r in GroupSum(s) && r.KeyOf() == k
    ensures forall i :: 0 <= i < |GroupSum(s)| ==> GroupSum(s)[i].turnover == SumFor(s, GroupSum(s)[i].KeyOf())
    ensures AsMap(GroupSum(s)) == AsMap(s)
  {
    var g := GroupSum(s);
    forall i | 0 <= i < |g| ensures g[i].turnover == SumFor(s, g[i].KeyOf()) {
      SumForDistinct(g, i);
    }
    forall k | k in KeySet(s) ensures exists r :: r in g && r.KeyOf() == k {
      assert k in KeySet(g);
    }
    assert SameTotals(g, s);
    SameTotalsAsMap(g, s);
  }

  /** A table whose keys are already distinct is its own aggregate. */
  lemma {:induction false} GroupSumOfDistinct(t: seq<Record>)
    requires DistinctKeys(t)
    ensures GroupSum(t) == t
  {
    if t != [] {
      var init := t[..|t| - 1];
      var last := t[|t| - 1];
      assert t == init + [last];
      assert DistinctKeys(init) by {
        forall i, j | 0 <= i < j < |init| ensures init[i].KeyOf() != init[j].KeyOf() {
          assert init[i] == t[i] && init[j] == t[j];
        }
      }
      assert last.KeyOf() !in KeySet(init) by {
        forall r | r in init ensures r.KeyOf() != last.KeyOf() {
          var j :| 0 <= j < |init| && init[j] == r;
          assert t[j] == r;
        }
      }
      GroupSumOfDistinct(init);
      assert GroupSum(t) == AddRow(init, last);
    }
  }

  /** Re-aggregating an aggregated table by the same key leaves it unchanged. */
  lemma GroupSumIdempotent(s: seq<Record>)
    ensures GroupSum(GroupSum(s)) == GroupSum(s)
  {
    GroupSumOfDistinct(GroupSum(s));
  }

  /** Aggregating one more row is folding it into the aggregate. */
  lemma GroupSumSnoc(s: seq<Record>, x: Record)
    ensures GroupSum(s + [x]) == AddRow(GroupSum(s), x)
  {
    assert (s + [x])[..|s|] == s;
  }

  /** Aggregating, then folding in more rows, is aggregating everything at once. */
  lemma {:induction false} GroupSumThenMore(a: seq<Record>, b: seq<Record>)
    ensures GroupSum(GroupSum(a) + b) == GroupSum(a + b)
  {
    if b == [] {
      assert GroupSum(a) + b == GroupSum(a) && a + b == a;
      GroupSumIdempotent(a);
    } else {
      var init := b[..|b| - 1];
      var last := b[|b| - 1];
      assert b == init + [last];
      var g := GroupSum(a);
      assert g + b == (g + init) + [last];
      assert a + b == (a + init) + [last];
      GroupSumThenMore(a, init);
      GroupSumSnoc(g + init, last);
      GroupSumSnoc(a + init, last);
    }
  }

  /** Taking the same row out of two arrangements of the same rows leaves two arrangements of the same rows. */
  lemma RemoveMatching<T>(s: seq<T>, t: seq<T>, j: nat)
    requires multiset(s) == multiset(t) && s != [] && j < |t| && t[j] == s[0]
    ensures multiset(s[1..]) == multiset(t[..j] + t[j + 1..])
  {
    var x := s[0];
    assert s == [x] + s[1..];
    assert t == t[..j] + [x] + t[j + 1..];
    assert multiset(t) == multiset(t[..j]) + multiset{x} + multiset(t[j + 1..]);
    assert multiset(s[1..]) == multiset(s) - multiset{x};
  }

  /** Tables with the same rows in any order have the same totals. */
  lemma {:induction false} SumForPermutation(s: seq<Record>, t: seq<Record>, k: Key)
    requires multiset(s) == multiset(t)
    ensures SumFor(s, k) == SumFor(t, k)
    decreases |s|
  {
    if s == [] {
      assert |t| == |multiset(t)| == 0;
    } else {
      assert s[0] in multiset(t);
      var j :| 0 <= j < |t| && t[j] == s[0];
      RemoveMatching(s, t, j);
      var left, right := t[..j], t[j + 1..];
      assert t == left + [s[0]] + right;
      SumForPermutation(s[1..], left + right, k);
      SumForConcat(left + [s[0]], right, k);
      SumForConcat(left, [s[0]], k);
      SumForConcat(left, right, k);
    }
  }

  /** Tables with the same rows in any order have the same keys. */
  lemma KeySetPermutation(s: seq<Record>, t: seq<Record>)
    requires multiset(s) == multiset(t)
    ensures KeySet(s) == KeySet(t)
  {
    assert forall r :: r in s <==> r in multiset(s);
    assert forall r :: r in t <==> r in multiset(t);
  }

  /** The aggregate, as a key-to-total map, does not depend on the order of the rows. */
  lemma GroupSumOrderIrrelevant(s: seq<Record>, t: seq<Record>)
    requires multiset(s) == multiset(t)
    ensures AsMap(GroupSum(s)) == AsMap(GroupSum(t))
    ensures multiset(GroupSum(s)) == multiset(GroupSum(t))
  {
    KeySetPermutation(s, t);
    forall k ensures SumFor(GroupSum(s), k) == SumFor(GroupSum(t), k) {
      SumForPermutation(s, t, k);
    }
    assert SameTotals(GroupSum(s), GroupSum(t));
    SameTotalsAsMap(GroupSum(s), GroupSum(t));
    SameTotalsSameRows(GroupSum(s), GroupSum(t));
  }

  /** Tables with the same totals look the same as maps. */
  lemma SameTotalsAsMap(a: seq<Record>, b: seq<Record>)
    requires SameTotals(a, b)
    ensures AsMap(a) == AsMap(b)
  {
  }

  /** Concatenation respects equal totals. */
  lemma SameTotalsConcat(a: seq<Record>, a': seq<Record>, b: seq<Record>, b': seq<Record>)
    requires SameTotals(a, a') && SameTotals(b, b')
    ensures SameTotals(a + b, a' + b')
  {
    KeySetConcat(a, b);
    KeySetConcat(a', b');
    forall k ensures SumFor(a + b, k) == SumFor(a' + b', k) {
      SumForConcat(a, b, k);
      SumForConcat(a', b', k);
    }
  }

  lemma KeySetEmpty(s: seq<Record>)
    ensures KeySet(s) == {} <==> s == []
  {
    if s != [] {
      assert s[0] in s;
      assert s[0].KeyOf() in KeySet(s);
    }
  }

  /** Taking one row out of a table takes its contribution out of every total. */
  lemma RemoveAtTotals(b: seq<Record>, j: nat)
    requires j < |b|
    ensures multiset(b) == multiset(b[..j] + b[j + 1..]) + multiset{b[j]}
    ensures forall k :: SumFor(b[..j] + b[j + 1..], k) == SumFor(b, k) - Contribution(b[j], k)
  {
    var left, y, right := b[..j], b[j], b[j + 1..];
    assert b == left + [y] + right;
    forall k ensures SumFor(left + right, k) == SumFor(b, k) - Contribution(y, k) {
      SumForConcat(left + [y], right, k);
      SumForConcat(left, [y], k);
      SumForConcat(left, right, k);
      assert [y][1..] == [];
    }
  }

  /** Taking one row out of a table with distinct keys takes its key out and keeps the keys distinct. */
  lemma RemoveAtKeys(b: seq<Record>, j: nat)
    requires DistinctKeys(b) && j < |b|
    ensures DistinctKeys(b[..j] + b[j + 1..])
    ensures KeySet(b[..j] + b[j + 1..]) == KeySet(b) - {b[j].KeyOf()}
  {
    var left, y, right := b[..j], b[j], b[j + 1..];
    var rest := left + right;
    assert b == left + [y] + right;
    assert forall m :: 0 <= m < j ==> rest[m] == b[m];
    assert forall m :: j <= m < |rest| ==> rest[m] == b[m + 1];
    KeySetConcat(left + [y], right);
    KeySetConcat(left, [y]);
    assert KeySet([y]) == {y.KeyOf()};
    assert y.KeyOf() !in KeySet(rest) by {
      forall q | q in rest ensures q.KeyOf() != y.KeyOf() {
        var m :| 0 <= m < |rest| && rest[m] == q;
      }
    }
    KeySetConcat(left, right);
    forall m, n | 0 <= m < n < |rest| ensures rest[m].KeyOf() != rest[n].KeyOf() {
      var m' := if m < j then m else m + 1;
      var n' := if n < j then n else n + 1;
      assert rest[m] == b[m'] && rest[n] == b[n'];
    }
  }

  /** The first row of a is also a row of b, when both have distinct keys and the same totals. */
  lemma MatchingRow(a: seq<Record>, b: seq<Record>) returns (j: nat)
    requires DistinctKeys(a) && DistinctKeys(b) && SameTotals(a, b) && a != []
    ensures j < |b| && b[j] == a[0]
  {
    var x := a[0];
    assert x in a;
    assert x.KeyOf() in KeySet(b);
    var y :| y in b && y.KeyOf() == x.KeyOf();
    j :| 0 <= j < |b| && b[j] == y;
    SumForDistinct(a, 0);
    SumForDistinct(b, j);
  }

  /** Taking the same row's contribution out of two tables with the same totals leaves the same totals. */
  lemma SameTotalsRemove(a: seq<Record>, b: seq<Record>, restA: seq<Record>, restB: seq<Record>, x: Record)
    requires SameTotals(a, b)
    requires KeySet(restA) == KeySet(a) - {x.KeyOf()} && KeySet(restB) == KeySet(b) - {x.KeyOf()}
    requires forall k :: SumFor(restA, k) == SumFor(a, k) - Contribution(x, k)
    requires forall k :: SumFor(restB, k) == SumFor(b, k) - Contribution(x, k)
    ensures SameTotals(restA, restB)
  {
  }

  /** Take the first row of a, and the same row of b, out of both. */
  lemma RemoveFirstFromBoth(a: seq<Record>, b: seq<Record>) returns (restB: seq<Record>)
    requires DistinctKeys(a) && DistinctKeys(b) && SameTotals(a, b) && a != []
    ensures DistinctKeys(a[1..]) && DistinctKeys(restB) && SameTotals(a[1..], restB)
    ensures multiset(b) == multiset(restB) + multiset{a[0]}
  {
    var j := MatchingRow(a, b);
    restB := b[..j] + b[j + 1..];
    assert a[..0] + a[1..] == a[1..];
    RemoveAtTotals(a, 0);
    RemoveAtKeys(a, 0);
    RemoveAtTotals(b, j);
    RemoveAtKeys(b, j);
    SameTotalsRemove(a, b, a[1..], restB, a[0]);
  }

  /** Two tables with distinct keys and the same totals hold the same rows. */
  lemma {:induction false} SameTotalsSameRows(a: seq<Record>, b: seq<Record>)
    requires DistinctKeys(a) && DistinctKeys(b) && SameTotals(a, b)
    ensures multiset(a) == multiset(b)
    decreases |a|
  {
    KeySetEmpty(a);
    KeySetEmpty(b);
    if a != [] {
      var restB := RemoveFirstFromBoth(a, b);
      SameTotalsSameRows(a[1..], restB);
      assert a == [a[0]] + a[1..];
    }
  }

  /** Merging two aggregates by re-aggregating their union gives the aggregate of all rows. */
  lemma MergeAggregates(a: seq<Record>, b: seq<Record>)
    ensures DistinctKeys(GroupSum(GroupSum(a) + GroupSum(b)))
    ensures SameTotals(GroupSum(GroupSum(a) + GroupSum(b)), a + b)
    ensures AsMap(GroupSum(GroupSum(a) + GroupSum(b))) == AsMap(GroupSum(a + b))
    ensures multiset(GroupSum(GroupSum(a) + GroupSum(b))) == multiset(GroupSum(a + b))
  {
    var merged, whole := GroupSum(GroupSum(a) + GroupSum(b)), GroupSum(a + b);
    SameTotalsConcat(GroupSum(a), a, GroupSum(b), b);
    assert SameTotals(merged, whole);
    SameTotalsAsMap(merged, whole);
    SameTotalsSameRows(merged, whole);
  }
}
