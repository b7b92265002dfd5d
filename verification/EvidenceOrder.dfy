/** Verification depends on the stored evidence alone: its order and repetition
    change nothing, so verifying and persisting the same evidence again adds no
    row to the ledger. */
module EvidenceOrder {
  import opened Sorting
  import opened Vintages
  import opened ForecastVerify
  import opened AppendOnly
  import opened LedgerJob
  import Text

  /** Observation ids are primary keys. */
  ghost predicate ForecastIds(fs: seq<Forecast>) {
    forall f, g :: f in fs && g in fs && f.observationId == g.observationId ==> f == g
  }

  ghost predicate OutturnIds(os: seq<Outturn>) {
    forall o, p :: o in os && p in os && o.observationId == p.observationId ==> o == p
  }

  ghost predicate SameEvidence<T(!new)>(a: seq<T>, b: seq<T>) {
    forall x :: x in a <==> x in b
  }

  lemma NeitherOutranks(f: Forecast, g: Forecast)
    requires !Outranks(f, g) && !Outranks(g, f)
    ensures f.observationId == g.observationId
  {
    Text.LeTotal(f.observationId, g.observationId);
  }

  lemma NeitherOutturnOutranks(o: Outturn, p: Outturn)
    requires !OutturnOutranks(o, p) && !OutturnOutranks(p, o)
    ensures o.observationId == p.observationId
  {
    Text.LeTotal(o.observationId, p.observationId);
  }

  /** Of each identity there is one correction to choose, in one bucket. */
  lemma ChosenUnique(p: Pick, q: Pick, fs: seq<Forecast>, gs: seq<Forecast>, lo: int, hi: int, basis: Basis)
    requires ForecastIds(fs) && SameEvidence(fs, gs)
    requires Chosen(p, fs, lo, hi, basis) && Chosen(q, gs, lo, hi, basis)
    requires Key(p.forecast, basis) == Key(q.forecast, basis)
    ensures p == q
  {
    NeitherOutranks(p.forecast, q.forecast);
    BucketsPartition(Lead(p.forecast, basis), p.bucket, q.bucket);
  }

  lemma PicksWithin(a: seq<Pick>, b: seq<Pick>, fs: seq<Forecast>, gs: seq<Forecast>, lo: int, hi: int, basis: Basis,
                    p: Pick)
    requires ForecastIds(fs) && SameEvidence(fs, gs)
    requires Selection(a, fs, lo, hi, basis) && Selection(b, gs, lo, hi, basis) && p in a
    ensures p in b
  {
    assert Key(p.forecast, basis) in Identities(gs, lo, hi, basis) by {
      assert p.forecast in gs && InScope(p.forecast, lo, hi, basis);
    }
    assert Key(p.forecast, basis) in (set x | x in b :: Key(x.forecast, basis));
    var q :| q in b && Key(q.forecast, basis) == Key(p.forecast, basis);
    ChosenUnique(p, q, fs, gs, lo, hi, basis);
  }

  lemma SamePick(picks: seq<Pick>, basis: Basis, p: Pick, q: Pick)
    requires DistinctKeys(picks, basis) && p in picks && q in picks
    requires PickLe(p, q, basis) && PickLe(q, p, basis)
    ensures p == q
  {
    var i :| 0 <= i < |picks| && picks[i] == p;
    var j :| 0 <= j < |picks| && picks[j] == q;
    assert Key(p.forecast, basis) == Key(q.forecast, basis);
  }

  lemma DistinctPicks(picks: seq<Pick>, basis: Basis)
    requires DistinctKeys(picks, basis)
    ensures NoDuplicates(picks)
  {
    forall i, j | 0 <= i < j < |picks| ensures picks[i] != picks[j] {
      assert Key(picks[i].forecast, basis) != Key(picks[j].forecast, basis);
    }
  }

  lemma SelectionUnique(a: seq<Pick>, b: seq<Pick>, fs: seq<Forecast>, gs: seq<Forecast>, lo: int, hi: int,
                        basis: Basis)
    requires ForecastIds(fs) && SameEvidence(fs, gs)
    requires Selection(a, fs, lo, hi, basis) && Selection(b, gs, lo, hi, basis)
    ensures a == b
  {
    forall p ensures p in a <==> p in b {
      if p in a { PicksWithin(a, b, fs, gs, lo, hi, basis, p); }
      if p in b { PicksWithin(b, a, gs, fs, lo, hi, basis, p); }
    }
    DistinctPicks(a, basis);
    DistinctPicks(b, basis);
    SameElements(a, b);
    forall p, q | p in a && q in a && PickOrder(basis)(p, q) && PickOrder(basis)(q, p) ensures p == q {
      SamePick(a, basis, p, q);
    }
    forall p ensures PickOrder(basis)(p, p) {
      Text.LeReflexive(p.forecast.observationId);
    }
    SortedUnique(a, b, PickOrder(basis));
  }

  lemma OutturnsUnique(a: map<int, Outturn>, b: map<int, Outturn>, os: seq<Outturn>, ps: seq<Outturn>, lo: int, hi: int)
    requires OutturnIds(os) && SameEvidence(os, ps)
    requires OutturnsOf(a, os, lo, hi) && OutturnsOf(b, ps, lo, hi)
    ensures a == b
  {
    forall t | t in a ensures t in b && a[t] == b[t] {
      assert a[t] in ps && a[t].observedAt == t;
      NeitherOutturnOutranks(a[t], b[t]);
    }
    forall t | t in b ensures t in a {
      assert b[t] in os && b[t].observedAt == t;
    }
  }

  /** The same evidence, in whatever order and however often repeated, gives the same bundle. */
  lemma VerificationIgnoresOrder(b: Bundle, c: Bundle, target: Target, fs: seq<Forecast>, gs: seq<Forecast>,
                                 os: seq<Outturn>, ps: seq<Outturn>, lo: int, hi: int)
    requires ForecastIds(fs) && SameEvidence(fs, gs) && OutturnIds(os) && SameEvidence(os, ps)
    requires Verified(b, target, fs, os, lo, hi) && Verified(c, target, gs, ps, lo, hi)
    ensures b == c
  {
    var x, m :| Selection(x, fs, lo, hi, target.basis) && OutturnsOf(m, os, lo, hi)
      && BundleOf(b, target, x, m, lo, hi);
    var y, n :| Selection(y, gs, lo, hi, target.basis) && OutturnsOf(n, ps, lo, hi)
      && BundleOf(c, target, y, n, lo, hi);
    SelectionUnique(x, y, fs, gs, lo, hi, target.basis);
    OutturnsUnique(m, n, os, ps, lo, hi);
    assert b.summaries == c.summaries;
  }

  /** Whatever the tables held, a second run over the same evidence inserts neither a pair nor a result. */
  lemma RerunInsertsNothing(pairs: seq<PairRow>, results: seq<ResultRow>, b: Bundle, c: Bundle, target: Target,
                            fs: seq<Forecast>, gs: seq<Forecast>, os: seq<Outturn>, ps: seq<Outturn>, lo: int, hi: int)
    requires ForecastIds(fs) && SameEvidence(fs, gs) && OutturnIds(os) && SameEvidence(os, ps)
    requires Verified(b, target, fs, os, lo, hi) && Verified(c, target, gs, ps, lo, hi)
    ensures NewRows(Persist(pairs, PairEntries(b)), PairEntries(c)) == []
    ensures NewRows(Persist(results, ResultEntries(b)), ResultEntries(c)) == []
  {
    VerificationIgnoresOrder(b, c, target, fs, gs, os, ps, lo, hi);
    VerifiedIsProper(b, target, fs, os, lo, hi);
    ReplayInsertsNothing(pairs, PairEntries(b));
    ReplayInsertsNothing(results, ResultEntries(b));
  }
}
