/** The verification job's ledger steps, from app/forecast_verification/job.py.
    A transaction works on a staged copy of the tables and commits at its end. */
module LedgerJob {
  import opened Basics
  import opened Vintages
  import opened ForecastVerify
  import opened AppendOnly

  const BATCH_SIZE := 400

  datatype PairId = PairId(metric: string, bucket: Bucket, validFrom: int, vintageAt: int)

  datatype ResultId = ResultId(metric: string, bucket: Bucket, lo: int, hi: int)

  type PairRow = Row<PairId, Content>
  type ResultRow = Row<ResultId, Checksum>

  function PairEntries(bundle: Bundle): (es: seq<Entry<PairId, Content>>) {
    seq(|bundle.pairs|, (i: nat) requires i < |bundle.pairs| =>
      var p := bundle.pairs[i];
      Entry(PairId(bundle.target.metric, p.bucket, p.forecast.validFrom, p.vintageAt), p.content))
  }

  function ResultEntries(bundle: Bundle): (es: seq<Entry<ResultId, Checksum>>) {
    seq(|bundle.summaries|, (i: nat) requires i < |bundle.summaries| =>
      var s := bundle.summaries[i];
      Entry(ResultId(bundle.target.metric, s.bucket, s.lo, s.hi), s.checksum))
  }

  /** Distinct storage identities, and summaries of one window: what `verify_forecasts` hands over. */
  ghost predicate Proper(bundle: Bundle) {
    && DistinctEntries(PairEntries(bundle)) && DistinctEntries(ResultEntries(bundle))
    && bundle.summaries != []
    && (forall s :: s in bundle.summaries ==> s.lo == bundle.summaries[0].lo && s.hi == bundle.summaries[0].hi)
  }

  lemma PairsProper(target: Target, picks: seq<Pick>, selected: map<int, Outturn>, bundle: Bundle)
    requires DistinctKeys(picks, target.basis)
    requires bundle.pairs == PairsUpTo(target, picks, selected, 4)
    ensures DistinctEntries(PairEntries(bundle))
  {
    BundleKeysDistinct(target, picks, selected);
    var es := PairEntries(bundle);
    forall i, j | 0 <= i < j < |es| ensures es[i].key != es[j].key {
      assert PairKey(bundle.pairs[i]) != PairKey(bundle.pairs[j]);
    }
  }

  lemma SummaryWindow(target: Target, picks: seq<Pick>, selected: map<int, Outturn>, b: Bucket, lo: int, hi: int)
    ensures
      var s := SummaryOf(target, picks, selected, b, lo, hi);
      s.bucket == b && s.lo == lo && s.hi == hi
  {}

  lemma BucketsDistinct(i: nat, j: nat)
    requires i < j < 4
    ensures BUCKETS[i] != BUCKETS[j]
  {}

  /** What `verify_forecasts` returns is always proper. */
  lemma VerifiedIsProper(bundle: Bundle, target: Target, forecasts: seq<Forecast>, outturns: seq<Outturn>, lo: int,
                         hi: int)
    requires Verified(bundle, target, forecasts, outturns, lo, hi)
    ensures Proper(bundle)
  {
    var picks, selected :| Selection(picks, forecasts, lo, hi, target.basis) && OutturnsOf(selected, outturns, lo, hi)
      && BundleOf(bundle, target, picks, selected, lo, hi);
    PairsProper(target, picks, selected, bundle);
    forall k | 0 <= k < 4
      ensures bundle.summaries[k].bucket == BUCKETS[k] && bundle.summaries[k].lo == lo && bundle.summaries[k].hi == hi
    {
      SummaryWindow(target, picks, selected, BUCKETS[k], lo, hi);
    }
    WindowsProper(bundle, lo, hi);
  }

  lemma WindowsProper(bundle: Bundle, lo: int, hi: int)
    requires |bundle.summaries| == 4
    requires forall k :: 0 <= k < 4 ==>
      bundle.summaries[k].bucket == BUCKETS[k] && bundle.summaries[k].lo == lo && bundle.summaries[k].hi == hi
    ensures DistinctEntries(ResultEntries(bundle))
    ensures forall s :: s in bundle.summaries ==> s.lo == lo && s.hi == hi
  {
    var es := ResultEntries(bundle);
    forall i, j | 0 <= i < j < |es| ensures es[i].key != es[j].key {
      BucketsDistinct(i, j);
    }
  }

  // ------------------------------------------------------------------
  // Appending pairs
  // ------------------------------------------------------------------

  /** SELECT by metric and a closed range of valid times. */
  method ReadRange(rows: seq<PairRow>, metric: string, lo: int, hi: int) returns (read: seq<PairRow>)
    ensures forall r :: r in read <==> r in rows && r.key.metric == metric && lo <= r.key.validFrom <= hi
  {
    read := [];
    for i := 0 to |rows|
      invariant forall r :: r in read <==> r in rows[..i] && r.key.metric == metric && lo <= r.key.validFrom <= hi
    {
      assert rows[..i + 1] == rows[..i] + [rows[i]];
      if rows[i].key.metric == metric && lo <= rows[i].key.validFrom <= hi {
        read := read + [rows[i]];
      }
    }
    assert rows[..|rows|] == rows;
  }

  method Bounds(pairs: seq<Pair>) returns (lo: int, hi: int)
    requires pairs != []
    ensures forall p :: p in pairs ==> lo <= p.forecast.validFrom <= hi
  {
    lo, hi := pairs[0].forecast.validFrom, pairs[0].forecast.validFrom;
    for i := 1 to |pairs|
      invariant forall p :: p in pairs[..i] ==> lo <= p.forecast.validFrom <= hi
    {
      assert pairs[..i + 1] == pairs[..i] + [pairs[i]];
      var t := pairs[i].forecast.validFrom;
      lo, hi := if t < lo then t else lo, if hi < t then t else hi;
    }
    assert pairs[..|pairs|] == pairs;
  }

  /** The range from the least to the greatest valid time of the bundle covers every row that matters. */
  method LatestPairs(rows: seq<PairRow>, bundle: Bundle) returns (latest: map<PairId, PairRow>)
    requires Chained(rows)
    ensures Answers(latest, rows, PairEntries(bundle))
  {
    latest := map[];
    if bundle.pairs != [] {
      var lo, hi := Bounds(bundle.pairs);
      var read := ReadRange(rows, bundle.target.metric, lo, hi);
      latest := LatestRows(read);
      forall e | e in PairEntries(bundle) ensures AnswersFor(latest, rows, e.key) {
        var i :| 0 <= i < |bundle.pairs| && PairEntries(bundle)[i] == e;
        assert bundle.pairs[i] in bundle.pairs;
        LatestIsLast(rows, read, latest, e.key);
      }
    }
  }

  method InsertBatch(rows: seq<PairRow>, values: seq<PairRow>) returns (rows': seq<PairRow>, inserted: nat)
    requires 1 <= |values| <= BATCH_SIZE && Chained(rows + values)
    ensures rows' == rows + values && inserted == |values|
  {
    ChainedInserts(rows, values);
    rows', inserted := InsertIgnoringConflicts(rows, values);
  }

  /** The loop's variables: the table as staged so far, the batch being filled, the counts. */
  datatype Staged = Staged(rows: seq<PairRow>, values: seq<PairRow>, inserted: nat, kept: nat)

  /** `added` is staged on top of `rows` after `i` pairs. */
  ghost predicate StagedAs(st: Staged, rows: seq<PairRow>, added: seq<PairRow>, i: nat) {
    && st.rows + st.values == rows + added
    && st.inserted + |st.values| == |added|
    && |added| + st.kept == i
  }

  ghost predicate StagedUpTo(st: Staged, rows: seq<PairRow>, entries: seq<Entry<PairId, Content>>, i: nat) {
    i <= |entries| && StagedAs(st, rows, NewRows(rows, entries[..i]), i)
  }

  lemma StagedAll(st: Staged, rows: seq<PairRow>, entries: seq<Entry<PairId, Content>>)
    requires StagedUpTo(st, rows, entries, |entries|) && st.values == []
    ensures st.rows == Persist(rows, entries)
    ensures st.inserted == |NewRows(rows, entries)| && st.inserted + st.kept == |entries|
  {
    assert entries[..|entries|] == entries;
    assert st.rows + [] == st.rows;
  }

  method Flush(st: Staged, ghost rows: seq<PairRow>, ghost entries: seq<Entry<PairId, Content>>, ghost i: nat)
    returns (next: Staged)
    requires Chained(rows) && DistinctEntries(entries) && StagedUpTo(st, rows, entries, i)
    requires 1 <= |st.values| <= BATCH_SIZE
    ensures StagedUpTo(next, rows, entries, i) && next.values == []
  {
    PersistPrefixChains(rows, entries, i);
    var rows', n := InsertBatch(st.rows, st.values);
    next := Staged(rows', [], st.inserted + n, st.kept);
  }

  lemma StageStep(st: Staged, more: seq<PairRow>, rows: seq<PairRow>, added: seq<PairRow>, i: nat)
    requires StagedAs(st, rows, added, i) && |more| <= 1
    ensures StagedAs(st.(values := st.values + more, kept := st.kept + 1 - |more|), rows, added + more, i + 1)
  {
    assert st.rows + (st.values + more) == (st.rows + st.values) + more;
    assert (rows + added) + more == rows + (added + more);
  }

  method StageOne(st: Staged, latest: map<PairId, PairRow>, e: Entry<PairId, Content>,
                  ghost rows: seq<PairRow>, ghost entries: seq<Entry<PairId, Content>>, ghost i: nat)
    returns (next: Staged)
    requires StagedUpTo(st, rows, entries, i) && i < |entries| && e == entries[i] && AnswersFor(latest, rows, e.key)
    ensures StagedUpTo(next, rows, entries, i + 1) && |next.values| <= |st.values| + 1
  {
    NextRowIsNew(latest, rows, entries, i);
    var revised := NextRow(latest, e);
    StageStep(st, revised, rows, NewRows(rows, entries[..i]), i);
    if revised == [] {
      next := st.(kept := st.kept + 1);
      assert st.values + revised == st.values;
    } else {
      next := st.(values := st.values + revised);
    }
  }

  lemma StagedNone(rows: seq<PairRow>, entries: seq<Entry<PairId, Content>>)
    ensures StagedUpTo(Staged(rows, [], 0, 0), rows, entries, 0)
  {
    assert NewRows(rows, entries[..0]) == [];
    assert rows + [] == rows;
  }

  method FlushFull(st: Staged, ghost rows: seq<PairRow>, ghost entries: seq<Entry<PairId, Content>>, ghost i: nat)
    returns (next: Staged)
    requires Chained(rows) && DistinctEntries(entries) && StagedUpTo(st, rows, entries, i)
    requires |st.values| <= BATCH_SIZE
    ensures StagedUpTo(next, rows, entries, i) && |next.values| < BATCH_SIZE
  {
    next := st;
    if |st.values| == BATCH_SIZE {
      next := Flush(st, rows, entries, i);
    }
  }

  method StageAll(rows: seq<PairRow>, entries: seq<Entry<PairId, Content>>, latest: map<PairId, PairRow>)
    returns (st: Staged)
    requires Chained(rows) && DistinctEntries(entries) && Answers(latest, rows, entries)
    ensures st.rows == Persist(rows, entries)
    ensures st.inserted == |NewRows(rows, entries)| && st.inserted + st.kept == |entries|
  {
    st := Staged(rows, [], 0, 0);
    StagedNone(rows, entries);
    for i := 0 to |entries|
      invariant |st.values| < BATCH_SIZE
      invariant StagedUpTo(st, rows, entries, i)
    {
      assert entries[i] in entries;
      st := StageOne(st, latest, entries[i], rows, entries, i);
      st := FlushFull(st, rows, entries, i + 1);
    }
    if st.values != [] {
      st := Flush(st, rows, entries, |entries|);
    }
    StagedAll(st, rows, entries);
  }

  /** Batched append of a bundle's pairs: the conflict error never arises, and the outcome is the
      specified persist, counted exactly. */
  method AppendPairs(rows: seq<PairRow>, bundle: Bundle) returns (rows': seq<PairRow>, inserted: nat, kept: nat)
    requires Chained(rows) && DistinctEntries(PairEntries(bundle))
    ensures rows' == Persist(rows, PairEntries(bundle))
    ensures inserted == |NewRows(rows, PairEntries(bundle))| && inserted + kept == |bundle.pairs|
  {
    var latest := LatestPairs(rows, bundle);
    var st := StageAll(rows, PairEntries(bundle), latest);
    rows', inserted, kept := st.rows, st.inserted, st.kept;
  }

  // ------------------------------------------------------------------
  // Appending results
  // ------------------------------------------------------------------

  method ReadWindow(rows: seq<ResultRow>, metric: string, lo: int, hi: int) returns (read: seq<ResultRow>)
    ensures forall r :: r in read <==> r in rows && r.key.metric == metric && r.key.lo == lo && r.key.hi == hi
  {
    read := [];
    for i := 0 to |rows|
      invariant forall r :: r in read <==> r in rows[..i] && r.key.metric == metric && r.key.lo == lo && r.key.hi == hi
    {
      assert rows[..i + 1] == rows[..i] + [rows[i]];
      if rows[i].key.metric == metric && rows[i].key.lo == lo && rows[i].key.hi == hi {
        read := read + [rows[i]];
      }
    }
    assert rows[..|rows|] == rows;
  }

  method LatestResults(rows: seq<ResultRow>, bundle: Bundle) returns (latest: map<ResultId, ResultRow>)
    requires Chained(rows) && Proper(bundle)
    ensures Answers(latest, rows, ResultEntries(bundle))
  {
    var first := bundle.summaries[0];
    var read := ReadWindow(rows, bundle.target.metric, first.lo, first.hi);
    latest := LatestRows(read);
    forall e | e in ResultEntries(bundle) ensures AnswersFor(latest, rows, e.key) {
      var i :| 0 <= i < |bundle.summaries| && ResultEntries(bundle)[i] == e;
      assert bundle.summaries[i] in bundle.summaries;
      LatestIsLast(rows, read, latest, e.key);
    }
  }

  method StageResults(rows: seq<ResultRow>, entries: seq<Entry<ResultId, Checksum>>, latest: map<ResultId, ResultRow>)
    returns (values: seq<ResultRow>, kept: nat)
    requires Answers(latest, rows, entries)
    ensures values == NewRows(rows, entries) && |values| + kept == |entries|
  {
    values, kept := [], 0;
    for i := 0 to |entries|
      invariant values == NewRows(rows, entries[..i]) && |values| + kept == i
    {
      var e := entries[i];
      assert e in entries;
      NextRowIsNew(latest, rows, entries, i);
      var revised := NextRow(latest, e);
      if revised == [] {
        kept := kept + 1;
        assert values + revised == values;
      } else {
        values := values + revised;
      }
    }
    assert entries[..|entries|] == entries;
  }

  method AppendResults(rows: seq<ResultRow>, bundle: Bundle) returns (rows': seq<ResultRow>, inserted: nat, kept: nat)
    requires Chained(rows) && Proper(bundle)
    ensures rows' == Persist(rows, ResultEntries(bundle))
    ensures inserted == |NewRows(rows, ResultEntries(bundle))| && inserted + kept == |bundle.summaries|
  {
    var latest := LatestResults(rows, bundle);
    var values;
    values, kept := StageResults(rows, ResultEntries(bundle), latest);
    PersistChains(rows, ResultEntries(bundle));
    ChainedInserts(rows, values);
    rows', inserted := InsertIgnoringConflicts(rows, values);
  }

  /** After a bundle is persisted, the newest row of every pair's and every summary's identity holds its content. */
  lemma StoredTells(pairRows: seq<PairRow>, resultRows: seq<ResultRow>, bundle: Bundle)
    requires Chained(pairRows) && Chained(resultRows) && Proper(bundle)
    ensures forall p :: p in bundle.pairs ==>
      Holds(Persist(pairRows, PairEntries(bundle)),
            PairId(bundle.target.metric, p.bucket, p.forecast.validFrom, p.vintageAt), p.content)
    ensures forall s :: s in bundle.summaries ==>
      Holds(Persist(resultRows, ResultEntries(bundle)),
            ResultId(bundle.target.metric, s.bucket, s.lo, s.hi), s.checksum)
  {
    forall p | p in bundle.pairs
      ensures Holds(Persist(pairRows, PairEntries(bundle)),
                    PairId(bundle.target.metric, p.bucket, p.forecast.validFrom, p.vintageAt), p.content)
    {
      var i :| 0 <= i < |bundle.pairs| && bundle.pairs[i] == p;
      PersistTells(pairRows, PairEntries(bundle), i);
    }
    forall s | s in bundle.summaries
      ensures Holds(Persist(resultRows, ResultEntries(bundle)),
                    ResultId(bundle.target.metric, s.bucket, s.lo, s.hi), s.checksum)
    {
      var i :| 0 <= i < |bundle.summaries| && bundle.summaries[i] == s;
      PersistTells(resultRows, ResultEntries(bundle), i);
    }
  }

  // ------------------------------------------------------------------
  // The store and one run
  // ------------------------------------------------------------------

  datatype RunStatus = Running | Succeeded | Failed

  datatype Run = Run(status: RunStatus, attempts: nat, pairsWritten: nat, resultsWritten: nat)

  datatype Outcome = SkippedCompleted | SkippedLocked | RunFailed
    | RunSucceeded(pairsInserted: nat, pairsKept: nat, resultsInserted: nat, resultsKept: nat)

  class Store {
    var pairRows: seq<PairRow>
    var resultRows: seq<ResultRow>
    var runs: map<string, Run>

    ghost predicate Valid()
      reads this
    {
      Chained(pairRows) && Chained(resultRows)
    }

    constructor ()
      ensures Valid() && pairRows == [] && resultRows == [] && runs == map[]
    {
      pairRows, resultRows, runs := [], [], map[];
    }

    method RecordStarted(jobKey: string)
      modifies this`runs
      ensures
        var attempts := if jobKey in old(runs) then old(runs)[jobKey].attempts + 1 else 1;
        runs == old(runs)[jobKey := Run(Running, attempts, 0, 0)]
    {
      var attempts := if jobKey in runs then runs[jobKey].attempts + 1 else 1;
      runs := runs[jobKey := Run(Running, attempts, 0, 0)];
    }

    method RecordFailure(jobKey: string)
      modifies this`runs
      ensures runs ==
        if jobKey in old(runs) then old(runs)[jobKey := Run(Failed, old(runs)[jobKey].attempts, 0, 0)] else old(runs)
    {
      if jobKey in runs {
        runs := runs[jobKey := Run(Failed, runs[jobKey].attempts, 0, 0)];
      }
    }

    /** One transaction: both appends and the run row, or nothing. */
    method PersistSuccess(jobKey: string, bundle: Bundle) returns (o: Outcome)
      requires Valid() && Proper(bundle)
      modifies this
      ensures Valid()
      ensures pairRows == Persist(old(pairRows), PairEntries(bundle))
      ensures resultRows == Persist(old(resultRows), ResultEntries(bundle))
      ensures o.RunSucceeded?
      ensures o.pairsInserted == |pairRows| - |old(pairRows)| && o.pairsInserted + o.pairsKept == |bundle.pairs|
      ensures o.resultsInserted == |resultRows| - |old(resultRows)|
        && o.resultsInserted + o.resultsKept == |bundle.summaries|
      ensures runs == if jobKey in old(runs)
        then old(runs)[jobKey := Run(Succeeded, old(runs)[jobKey].attempts, o.pairsInserted, o.resultsInserted)]
        else old(runs)
    {
      var newPairs, pairsInserted, pairsKept := AppendPairs(pairRows, bundle);
      var newResults, resultsInserted, resultsKept := AppendResults(resultRows, bundle);
      PersistChains(pairRows, PairEntries(bundle));
      PersistChains(resultRows, ResultEntries(bundle));
      pairRows, resultRows := newPairs, newResults;
      if jobKey in runs {
        runs := runs[jobKey := Run(Succeeded, runs[jobKey].attempts, pairsInserted, resultsInserted)];
      }
      o := RunSucceeded(pairsInserted, pairsKept, resultsInserted, resultsKept);
    }

    /** One target of one run.  `locked` says whether the ingestion locks were obtained, `loaded` what the
        loader returned, None if it raised.  A completed job is skipped unless forced; a failure leaves the
        evidence tables as they were; success appends exactly what the evidence adds. */
    method RunTarget(jobKey: string, target: Target, force: bool, locked: bool,
                     loaded: Option<(seq<Forecast>, seq<Outturn>)>, lo: int, hi: int) returns (o: Outcome)
      requires Valid()
      modifies this
      ensures Valid() && old(pairRows) <= pairRows && old(resultRows) <= resultRows
      ensures o.SkippedCompleted? <==> !force && jobKey in old(runs) && old(runs)[jobKey].status == Succeeded
      ensures o.SkippedLocked? <==> !o.SkippedCompleted? && !locked
      ensures o.SkippedCompleted? || o.SkippedLocked? ==> runs == old(runs)
      ensures !o.RunSucceeded? ==> pairRows == old(pairRows) && resultRows == old(resultRows)
      ensures o.RunFailed? ==> jobKey in runs && runs[jobKey].status == Failed
      ensures o.RunFailed? <==> !o.SkippedCompleted? && locked && (loaded.None? || hi <= lo)
      ensures o.RunSucceeded? ==>
        && jobKey in runs && runs[jobKey].status == Succeeded
        && runs[jobKey].pairsWritten == o.pairsInserted == |pairRows| - |old(pairRows)|
        && o.resultsInserted + o.resultsKept == 4
        && loaded.Some? && exists bundle ::
          && Verified(bundle, target, loaded.value.0, loaded.value.1, lo, hi)
          && pairRows == Persist(old(pairRows), PairEntries(bundle))
          && resultRows == Persist(old(resultRows), ResultEntries(bundle))
          && o.pairsInserted + o.pairsKept == |bundle.pairs|
      ensures o.RunFailed? || o.RunSucceeded? ==>
        runs[jobKey].attempts == if jobKey in old(runs) then old(runs)[jobKey].attempts + 1 else 1
    {
      if !force && jobKey in runs && runs[jobKey].status == Succeeded {
        return SkippedCompleted;
      }
      if !locked {
        return SkippedLocked;
      }
      RecordStarted(jobKey);
      if loaded.None? {
        RecordFailure(jobKey);
        return RunFailed;
      }
      var bundle := VerifyForecasts(target, loaded.value.0, loaded.value.1, lo, hi);
      if bundle.None? {
        RecordFailure(jobKey);
        return RunFailed;
      }
      VerifiedIsProper(bundle.value, target, loaded.value.0, loaded.value.1, lo, hi);
      o := PersistSuccess(jobKey, bundle.value);
    }
  }
}
