/**
 * build_group: every file of a category is melted and cleaned in turn, the
 * cleaned frames are concatenated, and the whole is aggregated once. The
 * fetched files are the input; fetching and storing are not modelled.
 */
module Build {
  import opened Wrappers
  import opened Frames
  import opened Aggregate
  import opened Sorting
  import Ticker
  import Melt
  import Clean
  import CellTotals

  /** Why a category could not be built. */
  datatype BuildError =
    | FileFailed(index: nat, reason: FileError)  // the file at this position of the list failed
    | NoFrames                                   // pd.concat was given no frames: the list was empty

  /** pd.concat(frames): the frames' rows, frame after frame. */
  function Concat(frames: seq<seq<Record>>): seq<Record>
  {
    if frames == [] then [] else Concat(frames[..|frames| - 1]) + frames[|frames| - 1]
  }

  /** What cleaning each file yields, in list order. */
  function Outcomes(tables: seq<Frame>): (r: seq<Result<seq<Record>, FileError>>)
    ensures |r| == |tables|
  {
    seq(|tables|, i requires 0 <= i < |tables| => Clean.CleanFile(tables[i]))
  }

  /**
   * The frames of lines 96-110: the files' cleaned rows in list order, unless
   * a file fails; the first file that fails aborts with its position and reason.
   */
  function FirstFailure(outcomes: seq<Result<seq<Record>, FileError>>): (r: Result<seq<seq<Record>>, BuildError>)
    ensures r.Success? <==> forall i :: 0 <= i < |outcomes| ==> outcomes[i].Success?
    ensures r.Success? ==> |r.value| == |outcomes|
    ensures r.Success? ==> forall i :: 0 <= i < |outcomes| ==> r.value[i] == outcomes[i].value
    ensures r.Failure? ==> r.error.FileFailed? && r.error.index < |outcomes|
    ensures r.Failure? ==> outcomes[r.error.index] == Failure(r.error.reason)
    ensures r.Failure? ==> forall i :: 0 <= i < r.error.index ==> outcomes[i].Success?
  {
    if outcomes == [] then Success([])
    else
      var init := outcomes[..|outcomes| - 1];
      assert forall i :: 0 <= i < |init| ==> init[i] == outcomes[i];
      match FirstFailure(init)
      case Failure(e) => Failure(e)
      case Success(frames) =>
        match outcomes[|outcomes| - 1]
        case Failure(e) => Failure(FileFailed(|outcomes| - 1, e))
        case Success(rows) => Success(frames + [rows])
  }

  /** The file at position k is the first to fail, so it is the one reported. */
  lemma FirstFailureAt(outcomes: seq<Result<seq<Record>, FileError>>, k: nat)
    requires k < |outcomes| && outcomes[k].Failure?
    requires forall i :: 0 <= i < k ==> outcomes[i].Success?
    ensures FirstFailure(outcomes) == Failure(FileFailed(k, outcomes[k].error))
  {
    var r := FirstFailure(outcomes);
    assert r.Failure?;
    assert r.error.index == k;
  }

  /** One more successful outcome extends the frames by its rows. */
  lemma FirstFailureContinue(outcomes: seq<Result<seq<Record>, FileError>>, k: nat, frames: seq<seq<Record>>)
    requires k < |outcomes| && outcomes[k].Success?
    requires FirstFailure(outcomes[..k]) == Success(frames)
    ensures FirstFailure(outcomes[..k + 1]) == Success(frames + [outcomes[k].value])
  {
    assert outcomes[..k + 1][..k] == outcomes[..k];
  }

  /** The first failing outcome decides the result for the whole list. */
  lemma FirstFailureStop(outcomes: seq<Result<seq<Record>, FileError>>, k: nat, frames: seq<seq<Record>>)
    requires k < |outcomes| && outcomes[k].Failure?
    requires FirstFailure(outcomes[..k]) == Success(frames)
    ensures FirstFailure(outcomes) == Failure(FileFailed(k, outcomes[k].error))
  {
    PrefixAt(outcomes, k);
    FirstFailureAt(outcomes, k);
  }

  lemma PrefixSnoc<T>(s: seq<T>, k: nat)
    requires k <= |s|
    ensures k < |s| ==> s[..k + 1] == s[..k] + [s[k]]
    ensures k == |s| ==> s[..k] == s
  {
  }

  lemma PrefixAt<T>(s: seq<T>, k: nat)
    requires k <= |s|
    ensures forall i :: 0 <= i < k ==> s[..k][i] == s[i]
  {
  }

  /** The frames of a category, or the error of its first failing file. */
  function CleanAll(tables: seq<Frame>): Result<seq<seq<Record>>, BuildError>
  {
    FirstFailure(Outcomes(tables))
  }

  /** The table build_group returns, or the error it raises. */
  function BuildGroupSpec(tables: seq<Frame>): Result<seq<Record>, BuildError>
  {
    match CleanAll(tables)
    case Failure(e) => Failure(e)
    case Success(frames) =>
      if frames == [] then Failure(NoFrames) else Success(SortByKey(GroupSum(Concat(frames))))
  }

  /**
   * Lines 102-107 for one fetched file, step by step: melt, attach the
   * canonical label, coerce and drop, parse the dates.
   */
  method CleanFileSteps(t: Frame) returns (r: Result<seq<Record>, FileError>)
    ensures r == Clean.CleanFile(t)
    ensures r.Success? ==> forall x :: x in r.value ==> x.tickerNorm == Ticker.Normalise(x.ticker)
    ensures r.Success? ==> |r.value| <= |t.rows| * (|t.labels| - 1)
  {
    var melted := Melt.MeltWide(t);
    if melted.Failure? {
      return Failure(melted.error);
    }
    var labelled := Clean.AttachNorm(melted.value);
    var coerced := Clean.DropNa(labelled);
    var dated := Clean.ParseDates(coerced);
    if dated.None? {
      return Failure(UnparseableDate);
    }
    r := Success(dated.value);
    Clean.CleanFileNormalised(t);
  }

  /** build_group over the fetched files: the loop of lines 98-110, then lines 112-118. */
  method BuildGroup(tables: seq<Frame>) returns (result: Result<seq<Record>, BuildError>)
    ensures result == BuildGroupSpec(tables)
  {
    var frames: seq<seq<Record>> := [];
    ghost var outcomes := Outcomes(tables);
    for k := 0 to |tables|
      invariant FirstFailure(outcomes[..k]) == Success(frames)
    {
      var cleaned := CleanFileSteps(tables[k]);
      assert outcomes[k] == cleaned;
      if cleaned.Failure? {
        FirstFailureStop(outcomes, k, frames);
        return Failure(FileFailed(k, cleaned.error));
      }
      FirstFailureContinue(outcomes, k, frames);
      frames := frames + [cleaned.value];
    }
    PrefixSnoc(outcomes, |tables|);
    if frames == [] {
      return Failure(NoFrames);
    }
    var big := Concat(frames);
    result := Success(SortByKey(GroupSum(big)));
  }

  lemma {:induction false} ConcatAppend(a: seq<seq<Record>>, b: seq<seq<Record>>)
    ensures Concat(a + b) == Concat(a) + Concat(b)
    decreases |b|
  {
    if b == [] {
      assert a + b == a;
    } else {
      var init := b[..|b| - 1];
      assert (a + b)[..|a + b| - 1] == a + init;
      ConcatAppend(a, init);
    }
  }

  /** Every concatenated row comes from one of the frames. */
  lemma {:induction false} ConcatMember(frames: seq<seq<Record>>, r: Record) returns (i: nat)
    requires r in Concat(frames)
    ensures i < |frames| && r in frames[i]
  {
    var init := frames[..|frames| - 1];
    if r in Concat(init) {
      i := ConcatMember(init, r);
    } else {
      i := |frames| - 1;
    }
  }

  /** build_group raises exactly when the list is empty or one of its files fails. */
  lemma BuildGroupFails(tables: seq<Frame>)
    ensures BuildGroupSpec(tables).Failure? <==>
      |tables| == 0 || exists i :: 0 <= i < |tables| && Clean.CleanFile(tables[i]).Failure?
  {
    var outcomes := Outcomes(tables);
    assert forall i :: 0 <= i < |tables| ==> outcomes[i] == Clean.CleanFile(tables[i]);
    if FirstFailure(outcomes).Failure? {
      var k := FirstFailure(outcomes).error.index;
      assert outcomes[k].Failure?;
    }
  }

  /**
   * What build_group returns: one row per key of the cleaned rows of all
   * files, holding the total turnover of that key over all of them, in
   * ascending key order.
   */
  lemma BuildGroupTotals(tables: seq<Frame>)
    requires BuildGroupSpec(tables).Success?
    ensures CleanAll(tables).Success?
    ensures
      var rows := Concat(CleanAll(tables).value);
      var out := BuildGroupSpec(tables).value;
      && SortedByKey(out)
      && DistinctKeys(out)
      && KeySet(out) == KeySet(rows)
      && (forall i :: 0 <= i < |out| ==> out[i].turnover == SumFor(rows, out[i].KeyOf()))
      && AsMap(out) == AsMap(rows)
  {
    SortedAggregate(Concat(CleanAll(tables).value));
  }

  /** The total of key k over the cells of every file of the list. */
  function FilesTotal(tables: seq<Frame>, k: Key): real
  {
    if tables == [] then 0.0
    else FilesTotal(tables[..|tables| - 1], k) + CellTotals.FileTotal(tables[|tables| - 1], k)
  }

  /** The concatenated frames hold, for every key, its total over all files' cells. */
  lemma {:induction false} ConcatTotals(tables: seq<Frame>, k: Key)
    requires forall i :: 0 <= i < |tables| ==> Clean.CleanFile(tables[i]).Success?
    ensures SumFor(Concat(MapSeq(FileRows, tables)), k) == FilesTotal(tables, k)
  {
    if tables != [] {
      var n := |tables|;
      var init := tables[..n - 1];
      assert MapSeq(FileRows, tables)[..n - 1] == MapSeq(FileRows, init);
      ConcatTotals(init, k);
      SumForConcat(Concat(MapSeq(FileRows, init)), FileRows(tables[n - 1]), k);
      CellTotals.CleanFileTotals(tables[n - 1], k);
    }
  }

  /**
   * The table build_group returns, read against the wide tables themselves:
   * each row holds its key's total over all files' numeric cells with parsed
   * dates, repeats included, and every key missing from it totals zero.
   */
  lemma BuildGroupCellTotals(tables: seq<Frame>)
    requires BuildGroupSpec(tables).Success?
    ensures forall i :: 0 <= i < |BuildGroupSpec(tables).value| ==>
      BuildGroupSpec(tables).value[i].turnover == FilesTotal(tables, BuildGroupSpec(tables).value[i].KeyOf())
    ensures forall k :: k !in KeySet(BuildGroupSpec(tables).value) ==> FilesTotal(tables, k) == 0.0
  {
    BuildGroupTotals(tables);
    BuildGroupFails(tables);
    CleanAllFrames(tables);
    var rows := Concat(CleanAll(tables).value);
    forall k ensures SumFor(rows, k) == FilesTotal(tables, k) {
      ConcatTotals(tables, k);
    }
    forall k | k !in KeySet(BuildGroupSpec(tables).value) ensures FilesTotal(tables, k) == 0.0 {
      SumForAbsent(rows, k);
    }
  }

  /** When every file cleans, frame i is file i's cleaned rows. */
  lemma CleanAllAt(tables: seq<Frame>, i: nat)
    requires CleanAll(tables).Success? && i < |CleanAll(tables).value|
    ensures i < |tables| && Clean.CleanFile(tables[i]).Success?
    ensures CleanAll(tables).value[i] == Clean.CleanFile(tables[i]).value
  {
    assert Outcomes(tables)[i] == Clean.CleanFile(tables[i]);
  }

  /** Every aggregated row carries the canonical form of its raw label. */
  lemma BuildGroupNormalised(tables: seq<Frame>)
    requires BuildGroupSpec(tables).Success?
    ensures forall r :: r in BuildGroupSpec(tables).value ==> r.tickerNorm == Ticker.Normalise(r.ticker)
  {
    var frames := CleanAll(tables).value;
    var rows := Concat(frames);
    var out := BuildGroupSpec(tables).value;
    forall x | x in rows ensures x.tickerNorm == Ticker.Normalise(x.ticker) {
      var i := ConcatMember(frames, x);
      CleanAllAt(tables, i);
      Clean.CleanFileNormalised(tables[i]);
    }
    SortedAggregate(rows);
    forall r | r in out ensures r.tickerNorm == Ticker.Normalise(r.ticker) {
      assert r.KeyOf() in KeySet(out);
      var x :| x in rows && x.KeyOf() == r.KeyOf();
    }
  }

  /**
   * Since ticker_norm is a function of ticker, grouping by
   * (date, ticker, ticker_norm) separates rows exactly as (date, ticker) does:
   * two raw labels that normalise alike still give two rows.
   */
  lemma BuildGroupKeyedByRawLabel(tables: seq<Frame>)
    requires BuildGroupSpec(tables).Success?
    ensures forall i, j :: 0 <= i < j < |BuildGroupSpec(tables).value| ==>
      var out := BuildGroupSpec(tables).value;
      out[i].date != out[j].date || out[i].ticker != out[j].ticker
  {
    BuildGroupTotals(tables);
    BuildGroupNormalised(tables);
    var out := BuildGroupSpec(tables).value;
    forall i, j | 0 <= i < j < |out| ensures out[i].date != out[j].date || out[i].ticker != out[j].ticker {
      assert out[i] in out && out[j] in out;
      assert out[i].KeyOf() != out[j].KeyOf();
    }
  }

  /**
   * Extension, not what the source does: fold each file's aggregate into a
   * running accumulator by re-aggregating their union, so that only one file
   * and the accumulator are held at a time. It returns exactly what
   * build_group returns.
   */
  method BuildGroupStreaming(tables: seq<Frame>) returns (result: Result<seq<Record>, BuildError>)
    ensures result == BuildGroupSpec(tables)
  {
    var acc: seq<Record> := [];
    ghost var outcomes := Outcomes(tables);
    ghost var frames: seq<seq<Record>> := [];
    for k := 0 to |tables|
      invariant FirstFailure(outcomes[..k]) == Success(frames)
      invariant DistinctKeys(acc)
      invariant SameTotals(acc, Concat(frames))
    {
      var cleaned := CleanFileSteps(tables[k]);
      assert outcomes[k] == cleaned;
      if cleaned.Failure? {
        FirstFailureStop(outcomes, k, frames);
        return Failure(FileFailed(k, cleaned.error));
      }
      FirstFailureContinue(outcomes, k, frames);
      var fileAggregate := GroupSum(cleaned.value);
      assert Concat(frames + [cleaned.value]) == Concat(frames) + cleaned.value;
      if k == 0 {
        assert Concat(frames) == [];
        assert Concat(frames) + cleaned.value == cleaned.value;
        acc := fileAggregate;
      } else {
        SameTotalsConcat(acc, Concat(frames), fileAggregate, cleaned.value);
        acc := GroupSum(acc + fileAggregate);
      }
      frames := frames + [cleaned.value];
    }
    PrefixSnoc(outcomes, |tables|);
    if |tables| == 0 {
      return Failure(NoFrames);
    }
    var whole := GroupSum(Concat(frames));
    assert SameTotals(acc, whole);
    SameTotalsSameRows(acc, whole);
    SortedUnique(SortByKey(acc), SortByKey(whole));
    result := Success(SortByKey(acc));
  }

  /** A list mapped element by element. */
  function MapSeq<A, B>(f: A -> B, s: seq<A>): (r: seq<B>)
    ensures |r| == |s|
    ensures forall i :: 0 <= i < |s| ==> r[i] == f(s[i])
  {
    seq(|s|, i requires 0 <= i < |s| => f(s[i]))
  }

  lemma MapSeqConcat<A, B>(f: A -> B, a: seq<A>, b: seq<A>)
    ensures MapSeq(f, a + b) == MapSeq(f, a) + MapSeq(f, b)
  {
  }

  /** Taking one element out of the middle of a list takes its image out of the mapped list. */
  lemma MapSeqSplit<A, B>(f: A -> B, left: seq<A>, x: A, right: seq<A>)
    ensures multiset(MapSeq(f, left + [x] + right)) == multiset{f(x)} + multiset(MapSeq(f, left + right))
  {
    MapSeqConcat(f, left + [x], right);
    MapSeqConcat(f, left, [x]);
    MapSeqConcat(f, left, right);
    assert MapSeq(f, [x]) == [f(x)];
  }

  /** Mapping two arrangements of the same elements gives two arrangements of the same images. */
  lemma {:induction false} MapSeqPermutation<A, B>(f: A -> B, s: seq<A>, t: seq<A>)
    requires multiset(s) == multiset(t)
    ensures multiset(MapSeq(f, s)) == multiset(MapSeq(f, t))
    decreases |s|
  {
    if s == [] {
      assert |t| == |multiset(t)| == 0;
    } else {
      assert s[0] in multiset(t);
      var j :| 0 <= j < |t| && t[j] == s[0];
      var x, left, right := s[0], t[..j], t[j + 1..];
      assert s == [] + [x] + s[1..];
      assert t == left + [x] + right;
      assert [] + s[1..] == s[1..];
      RemoveMatching(s, t, j);
      MapSeqSplit(f, [], x, s[1..]);
      MapSeqSplit(f, left, x, right);
      MapSeqPermutation(f, s[1..], left + right);
    }
  }

  /** Taking one frame out of the middle of a list takes its rows out of the concatenation. */
  lemma ConcatSplit(left: seq<seq<Record>>, x: seq<Record>, right: seq<seq<Record>>)
    ensures multiset(Concat(left + [x] + right)) == multiset(x) + multiset(Concat(left + right))
  {
    ConcatAppend(left + [x], right);
    ConcatAppend(left, [x]);
    ConcatAppend(left, right);
    assert Concat([x]) == x by {
      assert [x][..0] == [];
    }
  }

  /** Concatenating the same frames in any order gives the same rows in some order. */
  lemma {:induction false} ConcatPermutation(s: seq<seq<Record>>, t: seq<seq<Record>>)
    requires multiset(s) == multiset(t)
    ensures multiset(Concat(s)) == multiset(Concat(t))
    decreases |s|
  {
    if s == [] {
      assert |t| == |multiset(t)| == 0;
    } else {
      assert s[0] in multiset(t);
      var j :| 0 <= j < |t| && t[j] == s[0];
      var x, left, right := s[0], t[..j], t[j + 1..];
      assert s == [] + [x] + s[1..];
      assert t == left + [x] + right;
      assert [] + s[1..] == s[1..];
      RemoveMatching(s, t, j);
      ConcatSplit([], x, s[1..]);
      ConcatSplit(left, x, right);
      ConcatPermutation(s[1..], left + right);
    }
  }

  /** The rows a file contributes, or none if it fails. */
  function FileRows(t: Frame): seq<Record>
  {
    match Clean.CleanFile(t)
    case Success(rows) => rows
    case Failure(_) => []
  }

  /** When every file cleans, the frames are the files' rows. */
  lemma CleanAllFrames(tables: seq<Frame>)
    requires CleanAll(tables).Success?
    ensures CleanAll(tables).value == MapSeq(FileRows, tables)
  {
    var outcomes := Outcomes(tables);
    assert forall i :: 0 <= i < |tables| ==> outcomes[i] == Clean.CleanFile(tables[i]);
  }

  /** The table of a category does not depend on the order of its file list. */
  lemma BuildGroupFileOrder(tables: seq<Frame>, reordered: seq<Frame>)
    requires multiset(tables) == multiset(reordered)
    requires BuildGroupSpec(tables).Success?
    ensures BuildGroupSpec(reordered) == BuildGroupSpec(tables)
  {
    BuildGroupFails(tables);
    BuildGroupFails(reordered);
    assert |reordered| != 0 by {
      assert |reordered| == |multiset(reordered)| == |multiset(tables)| == |tables|;
    }
    forall i | 0 <= i < |reordered| ensures Clean.CleanFile(reordered[i]).Success? {
      assert reordered[i] in multiset(tables);
    }
    CleanAllFrames(tables);
    CleanAllFrames(reordered);
    MapSeqPermutation(FileRows, tables, reordered);
    var rows, rows' := Concat(CleanAll(tables).value), Concat(CleanAll(reordered).value);
    ConcatPermutation(CleanAll(tables).value, CleanAll(reordered).value);
    GroupSumOrderIrrelevant(rows, rows');
    SortedUnique(SortByKey(GroupSum(rows)), SortByKey(GroupSum(rows')));
  }
}
