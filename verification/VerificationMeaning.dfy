/** What a verification bundle tells its reader, in terms of the stored records' own fields. */
module VerificationMeaning {
  import opened Basics
  import opened Sorting
  import opened Vintages
  import opened ForecastVerify
  import Text

  // ------------------------------------------------------------------
  // Which records count, and which supersede which
  // ------------------------------------------------------------------

  /** When the forecast counts as made: when its source published it or, for want of that, when it was captured. */
  function MadeAt(f: Forecast, basis: Basis): int {
    if basis == CaptureTime then f.capturedAt else f.issuedAt
  }

  /** Valid inside the window and made no later than the time it is for. */
  predicate Counts(f: Forecast, lo: int, hi: int, basis: Basis) {
    lo <= f.validFrom < hi && MadeAt(f, basis) <= f.validFrom
  }

  /** And made at most two days ahead. */
  predicate InReach(f: Forecast, lo: int, hi: int, basis: Basis) {
    Counts(f, lo, hi, basis) && f.validFrom - MadeAt(f, basis) <= 172_800_000_000
  }

  /** The same forecast, perhaps corrected. */
  predicate SameForecast(f: Forecast, g: Forecast, basis: Basis) {
    f.validFrom == g.validFrom && MadeAt(f, basis) == MadeAt(g, basis)
  }

  /** The higher revision, then the later capture, then the greater id. */
  predicate Supersedes(f: Forecast, g: Forecast) {
    && f.revision >= g.revision
    && (f.revision == g.revision ==>
         && f.capturedAt >= g.capturedAt
         && (f.capturedAt == g.capturedAt ==> Text.Le(g.observationId, f.observationId)))
  }

  predicate OutturnSupersedes(o: Outturn, q: Outturn) {
    && o.revision >= q.revision
    && (o.revision == q.revision ==>
         && o.retrievedAt >= q.retrievedAt
         && (o.retrievedAt == q.retrievedAt ==> Text.Le(q.observationId, o.observationId)))
  }

  lemma OutranksMeans(f: Forecast, g: Forecast)
    ensures !Outranks(g, f) <==> Supersedes(f, g)
  {
    Text.LeTotal(f.observationId, g.observationId);
    Text.LeReflexive(f.observationId);
    if Text.Le(f.observationId, g.observationId) && Text.Le(g.observationId, f.observationId) {
      Text.LeAntisymmetric(f.observationId, g.observationId);
    }
  }

  lemma OutturnOutranksMeans(o: Outturn, q: Outturn)
    ensures !OutturnOutranks(q, o) <==> OutturnSupersedes(o, q)
  {
    Text.LeTotal(o.observationId, q.observationId);
    Text.LeReflexive(o.observationId);
    if Text.Le(o.observationId, q.observationId) && Text.Le(q.observationId, o.observationId) {
      Text.LeAntisymmetric(o.observationId, q.observationId);
    }
  }

  /** The horizons: 3, 12, 24 and 48 hours ahead, in microseconds; the last takes its end. */
  predicate InHorizon(b: Bucket, lead: int) {
    match b
    case Zero_3h => 0 <= lead < 10_800_000_000
    case Three_12h => 10_800_000_000 <= lead < 43_200_000_000
    case Twelve_24h => 43_200_000_000 <= lead < 86_400_000_000
    case TwentyFour_48h => 86_400_000_000 <= lead <= 172_800_000_000
  }

  /** The record is the last correction of its forecast among those that count. */
  ghost predicate LastCorrection(f: Forecast, forecasts: seq<Forecast>, lo: int, hi: int, basis: Basis) {
    && f in forecasts && Counts(f, lo, hi, basis)
    && forall g :: g in forecasts && SameForecast(f, g, basis) ==> Supersedes(f, g)
  }

  ghost predicate LastOutturn(o: Outturn, outturns: seq<Outturn>, lo: int, hi: int) {
    && o in outturns && lo <= o.observedAt < hi
    && forall q :: q in outturns && q.observedAt == o.observedAt ==> OutturnSupersedes(o, q)
  }

  // ------------------------------------------------------------------
  // Selections
  // ------------------------------------------------------------------

  ghost predicate PickedFrom(p: Pick, forecasts: seq<Forecast>, lo: int, hi: int, basis: Basis) {
    && LastCorrection(p.forecast, forecasts, lo, hi, basis)
    && InHorizon(p.bucket, p.forecast.validFrom - MadeAt(p.forecast, basis))
  }

  lemma ChosenMeans(p: Pick, forecasts: seq<Forecast>, lo: int, hi: int, basis: Basis)
    ensures Chosen(p, forecasts, lo, hi, basis) <==> PickedFrom(p, forecasts, lo, hi, basis)
  {
    forall f ensures !Outranks(f, p.forecast) <==> Supersedes(p.forecast, f) {
      OutranksMeans(p.forecast, f);
    }
    assert Contains(p.bucket, Lead(p.forecast, basis)) <==> InHorizon(p.bucket, Lead(p.forecast, basis));
  }

  /** Horizon, then valid time, then when it was made. */
  predicate PickedInOrder(p: Pick, q: Pick, basis: Basis) {
    var x, y := p.forecast, q.forecast;
    || (InEarlierHorizon(p.bucket, q.bucket))
    || (p.bucket == q.bucket && x.validFrom < y.validFrom)
    || (p.bucket == q.bucket && x.validFrom == y.validFrom && MadeAt(x, basis) < MadeAt(y, basis))
  }

  predicate InEarlierHorizon(a: Bucket, b: Bucket) {
    || (a == Zero_3h && b != Zero_3h) || (a == Three_12h && (b == Twelve_24h || b == TwentyFour_48h))
    || (a == Twelve_24h && b == TwentyFour_48h)
  }

  lemma ReachIsPicked(picks: seq<Pick>, forecasts: seq<Forecast>, lo: int, hi: int, basis: Basis, f: Forecast)
    requires Selection(picks, forecasts, lo, hi, basis) && f in forecasts && InReach(f, lo, hi, basis)
    ensures exists p :: p in picks && SameForecast(p.forecast, f, basis)
  {
    assert InScope(f, lo, hi, basis);
    assert Key(f, basis) in Identities(forecasts, lo, hi, basis);
    assert Key(f, basis) in KeysOf(picks, basis);
    var p :| p in picks && Key(p.forecast, basis) == Key(f, basis);
  }

  ghost predicate InOrder(picks: seq<Pick>, basis: Basis) {
    forall i, j :: 0 <= i < j < |picks| ==> PickedInOrder(picks[i], picks[j], basis)
  }

  /** By valid time, then by when they were made. */
  ghost predicate ForecastsInOrder(b: Bucket, fs: seq<Forecast>, basis: Basis) {
    forall i, j :: 0 <= i < j < |fs| ==> PickedInOrder(Pick(b, fs[i]), Pick(b, fs[j]), basis)
  }

  lemma ForecastAppended(b: Bucket, fs: seq<Forecast>, last: Forecast, basis: Basis)
    requires ForecastsInOrder(b, fs, basis) && forall f :: f in fs ==> PickedInOrder(Pick(b, f), Pick(b, last), basis)
    ensures ForecastsInOrder(b, fs + [last], basis)
  {
    var all := fs + [last];
    forall i, j | 0 <= i < j < |all| ensures PickedInOrder(Pick(b, all[i]), Pick(b, all[j]), basis) {
      assert all[i] in fs;
    }
  }

  lemma {:induction false} BucketInOrder(picks: seq<Pick>, b: Bucket, basis: Basis)
    requires InOrder(picks, basis)
    ensures ForecastsInOrder(b, OfBucket(picks, b), basis)
  {
    if picks != [] {
      var init, last := picks[..|picks| - 1], picks[|picks| - 1];
      BucketInOrder(init, b, basis);
      OfBucketHas(init, b);
      forall f | f in OfBucket(init, b) ensures PickedInOrder(Pick(b, f), last, basis) {
        var k :| 0 <= k < |init| && init[k] == Pick(b, f);
        assert picks[k] == init[k];
      }
      if last.bucket == b {
        assert last == Pick(b, last.forecast);
        ForecastAppended(b, OfBucket(init, b), last.forecast, basis);
      } else {
        assert OfBucket(init, b) + [] == OfBucket(init, b);
      }
    }
  }

  function PickOf(p: Pair): Pick {
    Pick(p.bucket, p.forecast)
  }

  /** By horizon, then valid time, then when the forecast was made. */
  ghost predicate PairsInOrder(ps: seq<Pair>, basis: Basis) {
    forall i, j :: 0 <= i < j < |ps| ==> PickedInOrder(PickOf(ps[i]), PickOf(ps[j]), basis)
  }

  lemma AppendInOrder(x: seq<Pair>, y: seq<Pair>, basis: Basis)
    requires PairsInOrder(x, basis) && PairsInOrder(y, basis)
    requires forall p, q :: p in x && q in y ==> PickedInOrder(PickOf(p), PickOf(q), basis)
    ensures PairsInOrder(x + y, basis)
  {
    var all := x + y;
    forall i, j | 0 <= i < j < |all| ensures PickedInOrder(PickOf(all[i]), PickOf(all[j]), basis) {
      if i < |x| <= j {
        assert all[i] in x && all[j] in y;
      }
    }
  }

  lemma {:induction false} HorizonInOrder(target: Target, b: Bucket, fs: seq<Forecast>, selected: map<int, Outturn>)
    requires ForecastsInOrder(b, fs, target.basis)
    ensures PairsInOrder(PairsOf(target, b, fs, selected), target.basis)
  {
    if fs != [] {
      var init, last := fs[..|fs| - 1], fs[|fs| - 1];
      HorizonInOrder(target, b, init, selected);
      PairsHave(target, b, init, selected);
      if last.validFrom in selected {
        forall p | p in PairsOf(target, b, init, selected)
          ensures PickedInOrder(PickOf(p), Pick(b, last), target.basis)
        {
          var k :| 0 <= k < |init| && init[k] == p.forecast;
          assert fs[k] == init[k];
        }
        AppendInOrder(PairsOf(target, b, init, selected), [MakePair(target, b, last, selected[last.validFrom])],
                      target.basis);
      }
    }
  }

  lemma {:induction false} AllInOrder(target: Target, picks: seq<Pick>, selected: map<int, Outturn>, k: nat)
    requires k <= 4 && InOrder(picks, target.basis) && DistinctKeys(picks, target.basis)
    ensures PairsInOrder(PairsUpTo(target, picks, selected, k), target.basis)
  {
    if k > 0 {
      var b := BUCKETS[k - 1];
      var fs := OfBucket(picks, b);
      AllInOrder(target, picks, selected, k - 1);
      PairsBucketed(target, picks, selected, k - 1);
      BucketInOrder(picks, b, target.basis);
      HorizonInOrder(target, b, fs, selected);
      PairsHave(target, b, fs, selected);
      forall p, q | p in PairsUpTo(target, picks, selected, k - 1) && q in PairsOf(target, b, fs, selected)
        ensures PickedInOrder(PickOf(p), PickOf(q), target.basis)
      {
        assert Index(p.bucket) < k - 1 == Index(q.bucket);
      }
      AppendInOrder(PairsUpTo(target, picks, selected, k - 1), PairsOf(target, b, fs, selected), target.basis);
    }
  }

  /** The selection holds, once each and in order, the last correction of every forecast made up to two days ahead. */
  lemma PicksTell(picks: seq<Pick>, forecasts: seq<Forecast>, lo: int, hi: int, basis: Basis)
    requires Selection(picks, forecasts, lo, hi, basis)
    ensures forall p :: p in picks ==> PickedFrom(p, forecasts, lo, hi, basis)
    ensures forall f :: f in forecasts && InReach(f, lo, hi, basis) ==>
      exists p :: p in picks && SameForecast(p.forecast, f, basis)
    ensures forall i, j :: 0 <= i < j < |picks| ==>
      PickedInOrder(picks[i], picks[j], basis) && !SameForecast(picks[i].forecast, picks[j].forecast, basis)
  {
    forall p | p in picks ensures PickedFrom(p, forecasts, lo, hi, basis) {
      ChosenMeans(p, forecasts, lo, hi, basis);
    }
    forall f | f in forecasts && InReach(f, lo, hi, basis)
      ensures exists p :: p in picks && SameForecast(p.forecast, f, basis)
    {
      ReachIsPicked(picks, forecasts, lo, hi, basis, f);
    }
    forall i, j | 0 <= i < j < |picks|
      ensures PickedInOrder(picks[i], picks[j], basis) && !SameForecast(picks[i].forecast, picks[j].forecast, basis)
    {
      assert PickOrder(basis)(picks[i], picks[j]);
      assert Key(picks[i].forecast, basis) != Key(picks[j].forecast, basis);
    }
  }

  /** And the last correction of every outturn in the window. */
  lemma OutturnsTell(selected: map<int, Outturn>, outturns: seq<Outturn>, lo: int, hi: int)
    requires OutturnsOf(selected, outturns, lo, hi)
    ensures forall t :: t in selected ==> selected[t].observedAt == t && LastOutturn(selected[t], outturns, lo, hi)
    ensures forall o :: o in outturns && lo <= o.observedAt < hi ==> o.observedAt in selected
  {
    forall t | t in selected ensures LastOutturn(selected[t], outturns, lo, hi) {
      forall q | q in outturns && q.observedAt == t ensures OutturnSupersedes(selected[t], q) {
        OutturnOutranksMeans(selected[t], q);
      }
    }
  }

  // ------------------------------------------------------------------
  // Pairs
  // ------------------------------------------------------------------

  function Magnitude(x: real): real {
    if x >= 0.0 then x else -x
  }

  /** A pair joins a forecast with the outturn of its valid time; the error is positive when too much was forecast. */
  predicate PairTells(p: Pair, basis: Basis) {
    && p.outturn.observedAt == p.forecast.validFrom
    && p.vintageAt == MadeAt(p.forecast, basis)
    && p.signedError == p.forecast.value - p.outturn.value
    && p.absoluteError == Magnitude(p.forecast.value - p.outturn.value)
  }

  /** Two pairs have the same content exactly when they agree on everything that was verified. */
  predicate SameEvidence(p: Pair, q: Pair, basis: Basis) {
    && p.bucket == q.bucket && p.forecast.validFrom == q.forecast.validFrom
    && p.forecast.observationId == q.forecast.observationId && p.forecast.revision == q.forecast.revision
    && p.forecast.capturedAt == q.forecast.capturedAt && p.forecast.value == q.forecast.value
    && (basis == SourcePublished ==> p.forecast.issuedAt == q.forecast.issuedAt)
    && p.outturn.observationId == q.outturn.observationId && p.outturn.revision == q.outturn.revision
    && p.outturn.value == q.outturn.value
  }

  lemma ContentMeans(target: Target, a: Bucket, f: Forecast, o: Outturn, b: Bucket, g: Forecast, q: Outturn)
    ensures MakePair(target, a, f, o).content == MakePair(target, b, g, q).content <==>
      SameEvidence(MakePair(target, a, f, o), MakePair(target, b, g, q), target.basis)
  {}

  lemma ContentNamesMetric(target: Target, other: Target, a: Bucket, f: Forecast, o: Outturn, b: Bucket, g: Forecast,
                           q: Outturn)
    ensures MakePair(target, a, f, o).content == MakePair(other, b, g, q).content ==> target.metric == other.metric
  {}

  ghost predicate PairedWell(p: Pair, target: Target, forecasts: seq<Forecast>, outturns: seq<Outturn>, lo: int,
                             hi: int) {
    && PickedFrom(Pick(p.bucket, p.forecast), forecasts, lo, hi, target.basis)
    && LastOutturn(p.outturn, outturns, lo, hi)
    && PairTells(p, target.basis)
  }

  ghost predicate Paired(ps: seq<Pair>, f: Forecast, basis: Basis) {
    exists p :: p in ps && SameForecast(p.forecast, f, basis)
  }

  /** The pairs of one horizon, in order. */
  function OfHorizon(ps: seq<Pair>, b: Bucket): seq<Pair> {
    if ps == [] then [] else
      OfHorizon(ps[..|ps| - 1], b) + if ps[|ps| - 1].bucket == b then [ps[|ps| - 1]] else []
  }

  lemma {:induction false} HorizonAppend(x: seq<Pair>, y: seq<Pair>, b: Bucket)
    ensures OfHorizon(x + y, b) == OfHorizon(x, b) + OfHorizon(y, b)
  {
    if y == [] {
      assert x + y == x;
    } else {
      HorizonAppend(x, y[..|y| - 1], b);
      assert (x + y)[..|x + y| - 1] == x + y[..|y| - 1];
    }
  }

  lemma {:induction false} HorizonAll(ps: seq<Pair>, b: Bucket)
    requires forall p :: p in ps ==> p.bucket == b
    ensures OfHorizon(ps, b) == ps
  {
    if ps != [] {
      var init, last := ps[..|ps| - 1], ps[|ps| - 1];
      assert ps == init + [last] && last in ps;
      HorizonAll(init, b);
    }
  }

  lemma {:induction false} HorizonNone(ps: seq<Pair>, b: Bucket)
    requires forall p :: p in ps ==> p.bucket != b
    ensures OfHorizon(ps, b) == []
  {
    if ps != [] {
      var init, last := ps[..|ps| - 1], ps[|ps| - 1];
      assert ps == init + [last] && last in ps;
      HorizonNone(init, b);
    }
  }

  lemma HorizonStep(before: seq<Pair>, ps: seq<Pair>, a: Bucket, b: Bucket)
    requires forall p :: p in ps ==> p.bucket == a
    ensures OfHorizon(before + ps, b) == OfHorizon(before, b) + if a == b then ps else []
  {
    HorizonAppend(before, ps, b);
    if a == b {
      HorizonAll(ps, b);
    } else {
      HorizonNone(ps, b);
    }
  }

  lemma HorizonUpTo(target: Target, picks: seq<Pick>, selected: map<int, Outturn>, k: nat, b: Bucket)
    requires k < 4
    ensures Upto(target, picks, selected, k + 1, b)
         == Upto(target, picks, selected, k, b)
            + Only(k == Index(b), PairsOf(target, b, OfBucket(picks, b), selected))
  {
    var a := BUCKETS[k];
    var ps := PairsOf(target, a, OfBucket(picks, a), selected);
    PairsStep(target, picks, selected, k);
    PairsHave(target, a, OfBucket(picks, a), selected);
    HorizonStep(PairsUpTo(target, picks, selected, k), ps, a, b);
    assert a == b <==> k == Index(b);
  }

  function Only(mine: bool, ps: seq<Pair>): seq<Pair> {
    if mine then ps else []
  }

  lemma OneOfFour(i: nat, p1: seq<Pair>, p2: seq<Pair>, p3: seq<Pair>, p4: seq<Pair>, own: seq<Pair>)
    requires i < 4 && p1 == [] + Only(0 == i, own) && p2 == p1 + Only(1 == i, own)
    requires p3 == p2 + Only(2 == i, own) && p4 == p3 + Only(3 == i, own)
    ensures p4 == own
  {}

  /** A horizon's own pairs are those of the bundle in it. */
  lemma PairsOfHorizon(target: Target, picks: seq<Pick>, selected: map<int, Outturn>, b: Bucket)
    ensures OfHorizon(PairsUpTo(target, picks, selected, 4), b)
         == PairsOf(target, b, OfBucket(picks, b), selected)
  {
    HorizonUpTo(target, picks, selected, 0, b);
    HorizonUpTo(target, picks, selected, 1, b);
    HorizonUpTo(target, picks, selected, 2, b);
    HorizonUpTo(target, picks, selected, 3, b);
    OneOfFour(Index(b), Upto(target, picks, selected, 1, b), Upto(target, picks, selected, 2, b),
              Upto(target, picks, selected, 3, b), Upto(target, picks, selected, 4, b),
              PairsOf(target, b, OfBucket(picks, b), selected));
  }

  /** The pairs of horizon `b` among those of the first `k` horizons. */
  function Upto(target: Target, picks: seq<Pick>, selected: map<int, Outturn>, k: nat, b: Bucket): seq<Pair>
    requires k <= 4
  {
    OfHorizon(PairsUpTo(target, picks, selected, k), b)
  }

  lemma PairJoins(p: Pair, target: Target, picks: seq<Pick>, selected: map<int, Outturn>,
                  forecasts: seq<Forecast>, outturns: seq<Outturn>, lo: int, hi: int)
    requires Selection(picks, forecasts, lo, hi, target.basis) && OutturnsOf(selected, outturns, lo, hi)
    requires Pick(p.bucket, p.forecast) in picks && p.forecast.validFrom in selected
    requires p == MakePair(target, p.bucket, p.forecast, selected[p.forecast.validFrom])
    ensures PairedWell(p, target, forecasts, outturns, lo, hi)
  {
    ChosenMeans(Pick(p.bucket, p.forecast), forecasts, lo, hi, target.basis);
    OutturnsTell(selected, outturns, lo, hi);
  }

  lemma PairMade(target: Target, picks: seq<Pick>, selected: map<int, Outturn>, p: Pick)
    requires p in picks && p.forecast.validFrom in selected
    ensures MakePair(target, p.bucket, p.forecast, selected[p.forecast.validFrom]) in PairsUpTo(target, picks, selected,
                                                                                                4)
  {
    var pair := MakePair(target, p.bucket, p.forecast, selected[p.forecast.validFrom]);
    OfBucketHas(picks, p.bucket);
    PairsHave(target, p.bucket, OfBucket(picks, p.bucket), selected);
    assert PairedFrom(pair, target, p.bucket, OfBucket(picks, p.bucket), selected);
    PairsOfHorizon(target, picks, selected, p.bucket);
    HorizonHas(PairsUpTo(target, picks, selected, 4), p.bucket, pair);
  }

  lemma {:induction false} HorizonHas(ps: seq<Pair>, b: Bucket, p: Pair)
    ensures p in OfHorizon(ps, b) <==> p in ps && p.bucket == b
  {
    if ps != [] {
      HorizonHas(ps[..|ps| - 1], b, p);
      assert ps == ps[..|ps| - 1] + [ps[|ps| - 1]];
    }
  }

  /** Every pair of a bundle joins the last correction of a forecast that counts with the last correction of the outturn
      it was for; and every such forecast with an outturn is paired. */
  lemma PairsTell(b: Bundle, target: Target, forecasts: seq<Forecast>, outturns: seq<Outturn>, lo: int, hi: int)
    requires Verified(b, target, forecasts, outturns, lo, hi)
    ensures forall p :: p in b.pairs ==> PairedWell(p, target, forecasts, outturns, lo, hi)
    ensures forall f, o ::
      f in forecasts && InReach(f, lo, hi, target.basis) && o in outturns && o.observedAt == f.validFrom ==>
        Paired(b.pairs, f, target.basis)
    ensures forall i, j :: 0 <= i < j < |b.pairs| ==>
      !SameForecast(b.pairs[i].forecast, b.pairs[j].forecast, target.basis)
    ensures PairsInOrder(b.pairs, target.basis)
  {
    var picks: seq<Pick>, selected :|
      && Selection(picks, forecasts, lo, hi, target.basis) && OutturnsOf(selected, outturns, lo, hi)
      && BundleOf(b, target, picks, selected, lo, hi);
    OutturnsTell(selected, outturns, lo, hi);
    BundleKeysDistinct(target, picks, selected);
    forall p | p in b.pairs ensures PairedWell(p, target, forecasts, outturns, lo, hi) {
      PairJoins(p, target, picks, selected, forecasts, outturns, lo, hi);
    }
    forall f, o | f in forecasts && InReach(f, lo, hi, target.basis) && o in outturns && o.observedAt == f.validFrom
      ensures Paired(b.pairs, f, target.basis)
    {
      assert f.validFrom in selected;
      ReachIsPaired(target, picks, selected, forecasts, lo, hi, f);
    }
    PairsOnce(target, picks, selected, b.pairs);
    PicksTell(picks, forecasts, lo, hi, target.basis);
    AllInOrder(target, picks, selected, 4);
  }

  lemma ReachIsPaired(target: Target, picks: seq<Pick>, selected: map<int, Outturn>, forecasts: seq<Forecast>,
                      lo: int, hi: int, f: Forecast)
    requires Selection(picks, forecasts, lo, hi, target.basis) && f in forecasts && InReach(f, lo, hi, target.basis)
    requires f.validFrom in selected
    ensures Paired(PairsUpTo(target, picks, selected, 4), f, target.basis)
  {
    ReachIsPicked(picks, forecasts, lo, hi, target.basis, f);
    var p :| p in picks && SameForecast(p.forecast, f, target.basis);
    PairMade(target, picks, selected, p);
  }

  lemma PairsOnce(target: Target, picks: seq<Pick>, selected: map<int, Outturn>, ps: seq<Pair>)
    requires DistinctKeys(picks, target.basis) && ps == PairsUpTo(target, picks, selected, 4)
    ensures forall i, j :: 0 <= i < j < |ps| ==> !SameForecast(ps[i].forecast, ps[j].forecast, target.basis)
  {
    BundleKeysDistinct(target, picks, selected);
    forall i, j | 0 <= i < j < |ps| ensures !SameForecast(ps[i].forecast, ps[j].forecast, target.basis) {
      var p, q := ps[i], ps[j];
      assert p in ps && q in ps && PairKey(p) != PairKey(q);
      if SameForecast(p.forecast, q.forecast, target.basis) {
        OnePick(picks, target.basis, Pick(p.bucket, p.forecast), Pick(q.bucket, q.forecast));
      }
    }
  }

  lemma OnePick(picks: seq<Pick>, basis: Basis, p: Pick, q: Pick)
    requires DistinctKeys(picks, basis) && p in picks && q in picks && SameForecast(p.forecast, q.forecast, basis)
    ensures p == q
  {
    var i :| 0 <= i < |picks| && picks[i] == p;
    var j :| 0 <= j < |picks| && picks[j] == q;
    assert Key(picks[i].forecast, basis) == Key(picks[j].forecast, basis);
  }

  // ------------------------------------------------------------------
  // Summaries
  // ------------------------------------------------------------------

  function Total(ps: seq<Pair>, measure: Pair -> real): real {
    if ps == [] then 0.0 else Total(ps[..|ps| - 1], measure) + measure(ps[|ps| - 1])
  }

  function Error(): Pair -> real { (p: Pair) => p.forecast.value - p.outturn.value }

  function Miss(): Pair -> real { (p: Pair) => Magnitude(p.forecast.value - p.outturn.value) }

  function Size(): Pair -> real { (p: Pair) => Magnitude(p.outturn.value) }

  lemma {:induction false} SumsAre(ps: seq<Pair>, basis: Basis)
    requires forall p :: p in ps ==> PairTells(p, basis)
    ensures SumSigned(ps) == Total(ps, Error()) && SumAbsolute(ps) == Total(ps, Miss())
    ensures SumOutturn(ps) == Total(ps, Size())
  {
    if ps != [] {
      SumsAre(ps[..|ps| - 1], basis);
      assert ps[|ps| - 1] in ps;
    }
  }

  /** Mean absolute error, bias and weighted error of the horizon's pairs; none of them without pairs, and no weighted
      error over outturns of next to nothing. */
  ghost predicate FiguresTell(s: Summary, ps: seq<Pair>) {
    && s.verified == |ps|
    && (ps == [] ==> s.mae.None? && s.bias.None? && s.wapePercent.None?)
    && (ps != [] ==>
         && s.mae == Some(Total(ps, Miss()) / |ps| as real)
         && s.bias == Some(Total(ps, Error()) / |ps| as real)
         && s.wapePercent == if Total(ps, Size()) > 0.000000001
                             then Some(Total(ps, Miss()) / Total(ps, Size()) * 100.0) else None)
  }

  /** From 100 pairs and nine tenths of the forecasts on the horizon is available; otherwise the reason says what is
      wanting. */
  predicate VerdictTells(s: Summary) {
    && (s.status == Available <==> s.verified >= 100 && 10 * s.verified >= 9 * s.expected)
    && (s.reason == Eligible <==> s.status == Available)
    && (s.reason == NoForecasts <==> s.expected == 0)
    && (s.reason == NoCompatibleOutturns <==> s.expected > 0 && s.verified == 0)
    && (s.verified > 0 ==>
         && (s.reason == SampleAndCoverage <==> s.verified < 100 && 10 * s.verified < 9 * s.expected)
         && (s.reason == FewSamples <==> s.verified < 100 && 10 * s.verified >= 9 * s.expected)
         && (s.reason == LowCoverage <==> s.verified >= 100 && 10 * s.verified < 9 * s.expected))
    && s.coverage == (if s.expected == 0 then 0.0 else s.verified as real / s.expected as real)
  }

  /** What the evidence of a summary lists: its forecasts, each with when it was made, its record and its value, and the
      contents of its pairs. */
  ghost predicate EvidenceLists(c: Checksum, target: Target, b: Bucket, lo: int, hi: int, fs: seq<Forecast>,
                                ps: seq<Pair>) {
    && c.metric == target.metric && c.bucket == b && c.lo == lo && c.hi == hi
    && |c.expected| == |fs| && |c.pairs| == |ps|
    && (forall i :: 0 <= i < |fs| ==> Entered(c.expected[i], fs[i], target.basis))
    && (forall i :: 0 <= i < |ps| ==> c.pairs[i] == ps[i].content)
  }

  predicate Entered(v: VintageContent, f: Forecast, basis: Basis) {
    && v.validFrom == f.validFrom && v.vintageAt == MadeAt(f, basis)
    && v.sourceIssuedAt == (if basis == SourcePublished then Some(f.issuedAt) else None)
    && v.observationId == f.observationId && v.revision == f.revision && v.value == f.value
  }

  lemma EvidenceMeans(target: Target, b: Bucket, fs: seq<Forecast>, ps: seq<Pair>, lo: int, hi: int)
    ensures EvidenceLists(Aggregate(target, b, fs, ps, lo, hi).checksum, target, b, lo, hi, fs, ps)
  {}

  lemma SummaryTells(target: Target, b: Bucket, fs: seq<Forecast>, ps: seq<Pair>, lo: int, hi: int)
    requires |ps| <= |fs| && forall p :: p in ps ==> PairTells(p, target.basis)
    ensures
      var s := Aggregate(target, b, fs, ps, lo, hi);
      && s.bucket == b && s.lo == lo && s.hi == hi && s.expected == |fs|
      && FiguresTell(s, ps) && VerdictTells(s)
  {
    SumsAre(ps, target.basis);
    CoverageBounds(|ps|, |fs|);
  }

  /** The forecasts of a horizon, by valid time and when they were made. */
  ghost function Made(forecasts: seq<Forecast>, b: Bucket, lo: int, hi: int, basis: Basis): set<(int, int)> {
    set f | f in forecasts && Counts(f, lo, hi, basis) && InHorizon(b, f.validFrom - MadeAt(f, basis)) ::
      (f.validFrom, MadeAt(f, basis))
  }

  ghost function MadeOf(fs: seq<Forecast>, basis: Basis): set<(int, int)> {
    set f | f in fs :: (f.validFrom, MadeAt(f, basis))
  }

  lemma MadeStep(fs: seq<Forecast>, basis: Basis)
    requires fs != [] && DistinctForecasts(fs, basis)
    ensures
      var init, last := fs[..|fs| - 1], fs[|fs| - 1];
      var key := (last.validFrom, MadeAt(last, basis));
      key !in MadeOf(init, basis) && MadeOf(fs, basis) == MadeOf(init, basis) + {key}
  {
    var init, last := fs[..|fs| - 1], fs[|fs| - 1];
    assert fs == init + [last];
    forall f | f in init ensures Key(f, basis) != Key(last, basis) {
      var i :| 0 <= i < |init| && init[i] == f;
      assert fs[i] == f;
    }
  }

  lemma {:induction false} ForecastsCount(fs: seq<Forecast>, basis: Basis)
    requires DistinctForecasts(fs, basis)
    ensures |MadeOf(fs, basis)| == |fs|
  {
    if fs != [] {
      MadeStep(fs, basis);
      ForecastsCount(fs[..|fs| - 1], basis);
    }
  }

  /** The last corrections of the horizon's forecasts, once each. */
  ghost predicate ForecastsOf(fs: seq<Forecast>, forecasts: seq<Forecast>, b: Bucket, lo: int, hi: int, basis: Basis) {
    && (forall f :: f in fs ==> PickedFrom(Pick(b, f), forecasts, lo, hi, basis))
    && (forall i, j :: 0 <= i < j < |fs| ==> !SameForecast(fs[i], fs[j], basis))
    && |fs| == |Made(forecasts, b, lo, hi, basis)|
    && ForecastsInOrder(b, fs, basis)
  }

  lemma HorizonForecasts(picks: seq<Pick>, forecasts: seq<Forecast>, b: Bucket, lo: int, hi: int, basis: Basis)
    requires Selection(picks, forecasts, lo, hi, basis)
    ensures ForecastsOf(OfBucket(picks, b), forecasts, b, lo, hi, basis)
  {
    var fs := OfBucket(picks, b);
    OfBucketHas(picks, b);
    OfBucketDistinct(picks, b, basis);
    MadeCount(picks, forecasts, b, lo, hi, basis);
    forall f | f in fs ensures PickedFrom(Pick(b, f), forecasts, lo, hi, basis) {
      ChosenMeans(Pick(b, f), forecasts, lo, hi, basis);
    }
    forall i, j | 0 <= i < j < |fs| ensures !SameForecast(fs[i], fs[j], basis) {
      assert Key(fs[i], basis) != Key(fs[j], basis);
    }
    PicksTell(picks, forecasts, lo, hi, basis);
    BucketInOrder(picks, b, basis);
  }

  lemma OneHorizon(a: Bucket, b: Bucket, lead: int)
    requires InHorizon(a, lead) && InHorizon(b, lead)
    ensures a == b
  {}

  /** A forecast of the horizon is among the horizon's picks, perhaps corrected. */
  lemma PickedInHorizon(picks: seq<Pick>, forecasts: seq<Forecast>, b: Bucket, lo: int, hi: int, basis: Basis,
                        f: Forecast)
    requires Selection(picks, forecasts, lo, hi, basis) && f in forecasts && Counts(f, lo, hi, basis)
    requires InHorizon(b, f.validFrom - MadeAt(f, basis))
    ensures exists g :: g in OfBucket(picks, b) && SameForecast(g, f, basis)
  {
    ReachIsPicked(picks, forecasts, lo, hi, basis, f);
    var p :| p in picks && SameForecast(p.forecast, f, basis);
    ChosenMeans(p, forecasts, lo, hi, basis);
    OneHorizon(p.bucket, b, f.validFrom - MadeAt(f, basis));
    OfBucketHas(picks, b);
  }

  lemma HorizonPicks(picks: seq<Pick>, forecasts: seq<Forecast>, b: Bucket, lo: int, hi: int, basis: Basis, g: Forecast)
    requires Selection(picks, forecasts, lo, hi, basis) && g in OfBucket(picks, b)
    ensures g in forecasts && Counts(g, lo, hi, basis) && InHorizon(b, g.validFrom - MadeAt(g, basis))
  {
    OfBucketHas(picks, b);
    ChosenMeans(Pick(b, g), forecasts, lo, hi, basis);
  }

  lemma MadeCount(picks: seq<Pick>, forecasts: seq<Forecast>, b: Bucket, lo: int, hi: int, basis: Basis)
    requires Selection(picks, forecasts, lo, hi, basis)
    ensures |OfBucket(picks, b)| == |Made(forecasts, b, lo, hi, basis)|
  {
    var fs := OfBucket(picks, b);
    OfBucketDistinct(picks, b, basis);
    ForecastsCount(fs, basis);
    MadeWithin(picks, forecasts, b, lo, hi, basis);
    MadeCovers(picks, forecasts, b, lo, hi, basis);
    assert MadeOf(fs, basis) == Made(forecasts, b, lo, hi, basis);
  }

  lemma MadeWithin(picks: seq<Pick>, forecasts: seq<Forecast>, b: Bucket, lo: int, hi: int, basis: Basis)
    requires Selection(picks, forecasts, lo, hi, basis)
    ensures MadeOf(OfBucket(picks, b), basis) <= Made(forecasts, b, lo, hi, basis)
  {
    forall g | g in OfBucket(picks, b) ensures (g.validFrom, MadeAt(g, basis)) in Made(forecasts, b, lo, hi, basis) {
      HorizonPicks(picks, forecasts, b, lo, hi, basis, g);
    }
  }

  lemma MadeCovers(picks: seq<Pick>, forecasts: seq<Forecast>, b: Bucket, lo: int, hi: int, basis: Basis)
    requires Selection(picks, forecasts, lo, hi, basis)
    ensures Made(forecasts, b, lo, hi, basis) <= MadeOf(OfBucket(picks, b), basis)
  {
    forall f | f in forecasts && Counts(f, lo, hi, basis) && InHorizon(b, f.validFrom - MadeAt(f, basis))
      ensures (f.validFrom, MadeAt(f, basis)) in MadeOf(OfBucket(picks, b), basis)
    {
      PickedInHorizon(picks, forecasts, b, lo, hi, basis, f);
    }
  }

  /** The four summaries of a bundle, horizon by horizon. */
  lemma SummariesTell(b: Bundle, target: Target, forecasts: seq<Forecast>, outturns: seq<Outturn>, lo: int, hi: int,
                      k: nat)
    requires Verified(b, target, forecasts, outturns, lo, hi) && k < 4
    ensures |b.summaries| == 4
    ensures
      var s := b.summaries[k];
      && s.bucket == [Zero_3h, Three_12h, Twelve_24h, TwentyFour_48h][k] && s.lo == lo && s.hi == hi
      && s.expected == |Made(forecasts, s.bucket, lo, hi, target.basis)|
      && FiguresTell(s, OfHorizon(b.pairs, s.bucket)) && VerdictTells(s)
    ensures exists fs ::
      && ForecastsOf(fs, forecasts, b.summaries[k].bucket, lo, hi, target.basis)
      && EvidenceLists(b.summaries[k].checksum, target, b.summaries[k].bucket, lo, hi, fs,
                       OfHorizon(b.pairs, b.summaries[k].bucket))
  {
    var picks: seq<Pick>, selected :|
      && Selection(picks, forecasts, lo, hi, target.basis) && OutturnsOf(selected, outturns, lo, hi)
      && BundleOf(b, target, picks, selected, lo, hi);
    PairsTell(b, target, forecasts, outturns, lo, hi);
    HorizonTells(target, picks, selected, forecasts, b.pairs, BUCKETS[k], lo, hi);
  }

  lemma HorizonTells(target: Target, picks: seq<Pick>, selected: map<int, Outturn>, forecasts: seq<Forecast>,
                     pairs: seq<Pair>, h: Bucket, lo: int, hi: int)
    requires Selection(picks, forecasts, lo, hi, target.basis) && pairs == PairsUpTo(target, picks, selected, 4)
    requires forall p :: p in pairs ==> PairTells(p, target.basis)
    ensures
      var s := SummaryOf(target, picks, selected, h, lo, hi);
      && s.bucket == h && s.lo == lo && s.hi == hi
      && s.expected == |Made(forecasts, h, lo, hi, target.basis)|
      && FiguresTell(s, OfHorizon(pairs, h)) && VerdictTells(s)
      && EvidenceLists(s.checksum, target, h, lo, hi, OfBucket(picks, h), OfHorizon(pairs, h))
    ensures ForecastsOf(OfBucket(picks, h), forecasts, h, lo, hi, target.basis)
  {
    var fs := OfBucket(picks, h);
    var ps := PairsOf(target, h, fs, selected);
    PairsOfHorizon(target, picks, selected, h);
    forall p | p in ps ensures PairTells(p, target.basis) {
      HorizonHas(pairs, h, p);
    }
    SummaryTells(target, h, fs, ps, lo, hi);
    EvidenceMeans(target, h, fs, ps, lo, hi);
    HorizonForecasts(picks, forecasts, h, lo, hi, target.basis);
    MadeCount(picks, forecasts, h, lo, hi, target.basis);
  }
}
