/** Pairing vintages with exact outturns and summarising each horizon, from
    app/forecast_verification/core.py. */
module ForecastVerify {
  import opened Basics
  import opened Vintages
  import Text

  const MINIMUM_SAMPLES := 100
  const MINIMUM_COVERAGE := 0.9
  const SAFE_DENOMINATOR := 0.000000001

  /** A source that publishes no issue time is verified by capture time. */
  datatype Target = Target(metric: string, basis: Basis)

  // ------------------------------------------------------------------
  // Outturns
  // ------------------------------------------------------------------

  predicate OutturnOutranks(a: Outturn, b: Outturn) {
    if a.revision != b.revision then a.revision > b.revision
    else if a.retrievedAt != b.retrievedAt then a.retrievedAt > b.retrievedAt
    else Text.Less(b.observationId, a.observationId)
  }

  lemma OutturnChains(a: Outturn, b: Outturn, c: Outturn)
    requires !OutturnOutranks(a, b) && OutturnOutranks(c, b)
    ensures !OutturnOutranks(a, c)
  {
    Text.LeTotal(a.observationId, b.observationId);
    if OutturnOutranks(a, c) && a.revision == c.revision && a.retrievedAt == c.retrievedAt {
      Text.LeTransitive(b.observationId, c.observationId, a.observationId);
      if a.observationId == b.observationId {
        Text.LeAntisymmetric(a.observationId, c.observationId);
      }
    }
  }

  /** The latest correction of every in-window outturn timestamp, and nothing else. */
  ghost predicate OutturnsOf(selected: map<int, Outturn>, outturns: seq<Outturn>, lo: int, hi: int) {
    && (forall t :: t in selected ==> lo <= t < hi && selected[t] in outturns && selected[t].observedAt == t)
    && (forall o :: o in outturns && lo <= o.observedAt < hi ==>
         o.observedAt in selected && !OutturnOutranks(o, selected[o.observedAt]))
  }

  lemma OutturnStep(read: seq<Outturn>, selected: map<int, Outturn>, lo: int, hi: int, o: Outturn)
    requires OutturnsOf(selected, read, lo, hi) && lo <= o.observedAt < hi
    requires o.observedAt in selected ==> OutturnOutranks(o, selected[o.observedAt])
    ensures OutturnsOf(selected[o.observedAt := o], read + [o], lo, hi)
  {
    var next := selected[o.observedAt := o];
    forall x | x in read + [o] && lo <= x.observedAt < hi
      ensures x.observedAt in next && !OutturnOutranks(x, next[x.observedAt])
    {
      if x in read && x.observedAt == o.observedAt {
        OutturnChains(x, selected[o.observedAt], o);
      }
    }
  }

  method SelectOutturns(outturns: seq<Outturn>, lo: int, hi: int) returns (selected: map<int, Outturn>)
    ensures OutturnsOf(selected, outturns, lo, hi)
  {
    selected := map[];
    for i := 0 to |outturns|
      invariant OutturnsOf(selected, outturns[..i], lo, hi)
    {
      var o := outturns[i];
      assert outturns[..i + 1] == outturns[..i] + [o];
      if lo <= o.observedAt < hi {
        if o.observedAt !in selected || OutturnOutranks(o, selected[o.observedAt]) {
          OutturnStep(outturns[..i], selected, lo, hi, o);
          selected := selected[o.observedAt := o];
        }
      }
    }
    assert outturns[..|outturns|] == outturns;
  }

  // ------------------------------------------------------------------
  // Pairs
  // ------------------------------------------------------------------

  /** What the content hash of a pair covers; the hash is taken to be injective, so this stands for it. */
  datatype Content = Content(
    metric: string, bucket: Bucket, validFrom: int, forecastId: string, forecastRevision: nat,
    vintageAt: int, sourceIssuedAt: Option<int>, capturedAt: int, forecastValue: real,
    outturnId: string, outturnRevision: nat, outturnValue: real)

  datatype Pair = Pair(bucket: Bucket, forecast: Forecast, outturn: Outturn, vintageAt: int, signedError: real,
                       absoluteError: real, content: Content)

  function MakePair(target: Target, bucket: Bucket, f: Forecast, o: Outturn): Pair {
    var vintage := Vintage(f, target.basis);
    var error := f.value - o.value;
    Pair(bucket, f, o, vintage, error, Abs(error),
         Content(target.metric, bucket, f.validFrom, f.observationId, f.revision, vintage,
                 if target.basis == CaptureTime then None else Some(f.issuedAt), f.capturedAt, f.value,
                 o.observationId, o.revision, o.value))
  }

  /** The identity under which a pair is stored. */
  function PairKey(p: Pair): (Bucket, int, int) {
    (p.bucket, p.forecast.validFrom, p.vintageAt)
  }

  ghost predicate DistinctPairs(ps: seq<Pair>) {
    forall i, j :: 0 <= i < j < |ps| ==> PairKey(ps[i]) != PairKey(ps[j])
  }

  function OfBucket(picks: seq<Pick>, b: Bucket): seq<Forecast> {
    if picks == [] then [] else
      var last := picks[|picks| - 1];
      OfBucket(picks[..|picks| - 1], b) + if last.bucket == b then [last.forecast] else []
  }

  function PairsOf(target: Target, b: Bucket, fs: seq<Forecast>, outturns: map<int, Outturn>): (ps: seq<Pair>)
    ensures |ps| <= |fs|
  {
    if fs == [] then [] else
      var last := fs[|fs| - 1];
      PairsOf(target, b, fs[..|fs| - 1], outturns)
      + if last.validFrom in outturns then [MakePair(target, b, last, outturns[last.validFrom])] else []
  }

  // ------------------------------------------------------------------
  // Aggregates
  // ------------------------------------------------------------------

  datatype Status = Available | InsufficientData

  datatype Reason = Eligible | NoForecasts | NoCompatibleOutturns | SampleAndCoverage | FewSamples | LowCoverage

  datatype VintageContent = VintageContent(
    validFrom: int, vintageAt: int, sourceIssuedAt: Option<int>, observationId: string, revision: nat, value: real)

  /** What the evidence checksum of a result covers. */
  datatype Checksum = Checksum(metric: string, bucket: Bucket, lo: int, hi: int, expected: seq<VintageContent>,
                               pairs: seq<Content>)

  datatype Summary = Summary(
    bucket: Bucket, lo: int, hi: int, status: Status, reason: Reason,
    mae: Option<real>, bias: Option<real>, wapePercent: Option<real>,
    verified: nat, expected: nat, coverage: real, checksum: Checksum)

  function SumAbsolute(ps: seq<Pair>): real {
    if ps == [] then 0.0 else SumAbsolute(ps[..|ps| - 1]) + ps[|ps| - 1].absoluteError
  }

  function SumSigned(ps: seq<Pair>): real {
    if ps == [] then 0.0 else SumSigned(ps[..|ps| - 1]) + ps[|ps| - 1].signedError
  }

  function SumOutturn(ps: seq<Pair>): real {
    if ps == [] then 0.0 else SumOutturn(ps[..|ps| - 1]) + Abs(ps[|ps| - 1].outturn.value)
  }

  function CoverageOf(verified: nat, expected: nat): real {
    if expected == 0 then 0.0 else verified as real / expected as real
  }

  function StatusAndReason(expected: nat, verified: nat, coverage: real): (Status, Reason) {
    if verified >= MINIMUM_SAMPLES && coverage >= MINIMUM_COVERAGE then (Available, Eligible)
    else if expected == 0 then (InsufficientData, NoForecasts)
    else if verified == 0 then (InsufficientData, NoCompatibleOutturns)
    else if verified < MINIMUM_SAMPLES && coverage < MINIMUM_COVERAGE then (InsufficientData, SampleAndCoverage)
    else if verified < MINIMUM_SAMPLES then (InsufficientData, FewSamples)
    else (InsufficientData, LowCoverage)
  }

  function VintageContents(target: Target, fs: seq<Forecast>): seq<VintageContent> {
    seq(|fs|, (i: nat) requires i < |fs| =>
      VintageContent(fs[i].validFrom, Vintage(fs[i], target.basis),
                     if target.basis == CaptureTime then None else Some(fs[i].issuedAt),
                     fs[i].observationId, fs[i].revision, fs[i].value))
  }

  function Contents(ps: seq<Pair>): seq<Content> {
    seq(|ps|, (i: nat) requires i < |ps| => ps[i].content)
  }

  function Aggregate(target: Target, b: Bucket, fs: seq<Forecast>, ps: seq<Pair>, lo: int, hi: int): Summary {
    var coverage := CoverageOf(|ps|, |fs|);
    var (status, reason) := StatusAndReason(|fs|, |ps|, coverage);
    var checksum := Checksum(target.metric, b, lo, hi, VintageContents(target, fs), Contents(ps));
    if ps == [] then
      Summary(b, lo, hi, status, reason, None, None, None, 0, |fs|, coverage, checksum)
    else
      var n := |ps| as real;
      var denominator := SumOutturn(ps);
      Summary(b, lo, hi, status, reason, Some(SumAbsolute(ps) / n), Some(SumSigned(ps) / n),
              if denominator > SAFE_DENOMINATOR then Some(SumAbsolute(ps) / denominator * 100.0) else None,
              |ps|, |fs|, coverage, checksum)
  }

  /** The checks of the results table. */
  predicate SchemaAccepts(s: Summary) {
    && s.lo < s.hi
    && s.verified <= s.expected
    && 0.0 <= s.coverage <= 1.0
    && (s.mae.Some? ==> s.mae.value >= 0.0)
    && (s.wapePercent.Some? ==> s.wapePercent.value >= 0.0)
    && ((s.verified == 0 && s.mae.None? && s.bias.None? && s.wapePercent.None?)
        || (s.verified > 0 && s.mae.Some? && s.bias.Some?))
    && (s.status == Available ==> s.verified >= 100 && s.coverage >= 0.9)
  }

  lemma {:induction false} SumsCompare(ps: seq<Pair>)
    requires forall p :: p in ps ==> p.absoluteError == Abs(p.signedError)
    ensures Abs(SumSigned(ps)) <= SumAbsolute(ps)
    ensures SumAbsolute(ps) >= 0.0
  {
    if ps != [] {
      SumsCompare(ps[..|ps| - 1]);
      assert ps[|ps| - 1] in ps;
    }
  }

  lemma Quotient(x: real, y: real, n: real)
    requires n > 0.0 && Abs(x) <= y
    ensures Abs(x / n) <= y / n
    ensures 0.0 <= y / n
  {
    DivideMonotone(x, y, n);
    DivideMonotone(-x, y, n);
    DivideMonotone(0.0, y, n);
    NegatedQuotient(x, n);
  }

  lemma DivideMonotone(x: real, y: real, n: real)
    requires n > 0.0 && x <= y
    ensures x / n <= y / n
  {
    QuotientAtLeast(y, n, x / n);
    assert x / n * n == x;
  }

  lemma NegatedQuotient(x: real, n: real)
    requires n > 0.0
    ensures (-x) / n == -(x / n)
  {
    var a, b := (-x) / n, x / n;
    assert a * n == -x && b * n == x;
    assert (-b) * n == -(b * n);
    Scaled(a, -b, n);
    Scaled(-b, a, n);
  }

  lemma CoverageBounds(verified: nat, expected: nat)
    requires verified <= expected
    ensures 0.0 <= CoverageOf(verified, expected) <= 1.0
    ensures expected > 0 ==> (CoverageOf(verified, expected) >= MINIMUM_COVERAGE <==> 10 * verified >= 9 * expected)
  {
    if expected > 0 {
      var x, n := verified as real, expected as real;
      QuotientAtLeast(x, n, 0.0);
      QuotientAtLeast(x, n, MINIMUM_COVERAGE);
      QuotientAtLeast(-x, n, -1.0);
      NegatedQuotient(x, n);
    }
  }

  lemma QuotientAtLeast(x: real, n: real, c: real)
    requires n > 0.0
    ensures x / n >= c <==> x >= c * n
  {
    assert x == (x / n) * n;
    Scaled(x / n, c, n);
    Scaled(c, x / n, n);
  }

  lemma Scaled(a: real, b: real, n: real)
    requires n > 0.0
    ensures a < b ==> a * n < b * n
    ensures a == b ==> a * n == b * n
  {}

  /** Whatever was selected and paired, the summary passes every check of the schema, its bias is within its
      MAE, and it is displayed exactly from 100 samples and nine tenths coverage on. */
  lemma SummarySound(target: Target, b: Bucket, fs: seq<Forecast>, ps: seq<Pair>, lo: int, hi: int)
    requires lo < hi && |ps| <= |fs| && forall p :: p in ps ==> p.absoluteError == Abs(p.signedError)
    ensures
      var s := Aggregate(target, b, fs, ps, lo, hi);
      && SchemaAccepts(s)
      && (s.bias.Some? ==> Abs(s.bias.value) <= s.mae.value)
      && (s.status == Available <==> |ps| >= 100 && 10 * |ps| >= 9 * |fs|)
  {
    CoverageBounds(|ps|, |fs|);
    SumsCompare(ps);
    if ps != [] {
      Quotient(SumSigned(ps), SumAbsolute(ps), |ps| as real);
      var denominator := SumOutturn(ps);
      if denominator > SAFE_DENOMINATOR {
        Quotient(0.0, SumAbsolute(ps), denominator);
      }
    }
  }

  // ------------------------------------------------------------------
  // The bundle
  // ------------------------------------------------------------------

  datatype Bundle = Bundle(target: Target, pairs: seq<Pair>, summaries: seq<Summary>)

  lemma {:induction false} OfBucketHas(picks: seq<Pick>, b: Bucket)
    ensures forall f :: f in OfBucket(picks, b) <==> Pick(b, f) in picks
  {
    if picks != [] {
      var init, last := picks[..|picks| - 1], picks[|picks| - 1];
      OfBucketHas(init, b);
      assert picks == init + [last];
      assert forall f :: Pick(b, f) == last <==> last.bucket == b && last.forecast == f;
    }
  }

  ghost predicate DistinctForecasts(fs: seq<Forecast>, basis: Basis) {
    forall i, j :: 0 <= i < j < |fs| ==> Key(fs[i], basis) != Key(fs[j], basis)
  }

  lemma {:induction false} OfBucketDistinct(picks: seq<Pick>, b: Bucket, basis: Basis)
    requires DistinctKeys(picks, basis)
    ensures DistinctForecasts(OfBucket(picks, b), basis)
  {
    if picks != [] {
      var init, last := picks[..|picks| - 1], picks[|picks| - 1];
      OfBucketDistinct(init, b, basis);
      OfBucketHas(init, b);
      forall f | f in OfBucket(init, b) ensures Key(f, basis) != Key(last.forecast, basis) {
        var i :| 0 <= i < |init| && init[i] == Pick(b, f);
        assert picks[i] == init[i];
      }
    }
  }

  ghost predicate PairedFrom(p: Pair, target: Target, b: Bucket, fs: seq<Forecast>, outturns: map<int, Outturn>) {
    && p.forecast in fs && p.forecast.validFrom in outturns
    && p == MakePair(target, b, p.forecast, outturns[p.forecast.validFrom])
  }

  lemma DistinctAppend(a: seq<Pair>, b: seq<Pair>)
    requires DistinctPairs(a) && DistinctPairs(b)
    requires forall x, y :: x in a && y in b ==> PairKey(x) != PairKey(y)
    ensures DistinctPairs(a + b)
  {
    var all := a + b;
    forall i, j | 0 <= i < j < |all| ensures PairKey(all[i]) != PairKey(all[j]) {
      if i < |a| <= j {
        assert all[i] in a && all[j] in b;
      }
    }
  }

  lemma {:induction false} PairsHave(target: Target, b: Bucket, fs: seq<Forecast>, outturns: map<int, Outturn>)
    ensures forall p :: p in PairsOf(target, b, fs, outturns) <==> PairedFrom(p, target, b, fs, outturns)
  {
    if fs != [] {
      var init, last := fs[..|fs| - 1], fs[|fs| - 1];
      PairsHave(target, b, init, outturns);
      assert fs == init + [last];
      assert forall f :: f in fs <==> f in init || f == last;
    }
  }

  lemma {:induction false} PairsDistinct(target: Target, b: Bucket, fs: seq<Forecast>, outturns: map<int, Outturn>)
    requires DistinctForecasts(fs, target.basis)
    ensures DistinctPairs(PairsOf(target, b, fs, outturns))
  {
    if fs != [] {
      var init, last := fs[..|fs| - 1], fs[|fs| - 1];
      PairsDistinct(target, b, init, outturns);
      PairsHave(target, b, init, outturns);
      if last.validFrom in outturns {
        forall f | f in init ensures Key(f, target.basis) != Key(last, target.basis) {
          var i :| 0 <= i < |init| && init[i] == f;
          assert fs[i] == f && fs[|fs| - 1] == last;
        }
        DistinctAppend(PairsOf(target, b, init, outturns), [MakePair(target, b, last, outturns[last.validFrom])]);
      }
    }
  }

  method PairUp(target: Target, b: Bucket, fs: seq<Forecast>, outturns: map<int, Outturn>) returns (ps: seq<Pair>)
    ensures ps == PairsOf(target, b, fs, outturns)
  {
    ps := [];
    for i := 0 to |fs|
      invariant ps == PairsOf(target, b, fs[..i], outturns)
    {
      assert fs[..i + 1][..i] == fs[..i];
      if fs[i].validFrom in outturns {
        ps := ps + [MakePair(target, b, fs[i], outturns[fs[i].validFrom])];
      } else {
        assert ps + [] == ps;
      }
    }
    assert fs[..|fs|] == fs;
  }

  method InBucket(picks: seq<Pick>, b: Bucket) returns (fs: seq<Forecast>)
    ensures fs == OfBucket(picks, b)
  {
    fs := [];
    for i := 0 to |picks|
      invariant fs == OfBucket(picks[..i], b)
    {
      assert picks[..i + 1][..i] == picks[..i];
      if picks[i].bucket == b {
        fs := fs + [picks[i].forecast];
      } else {
        assert fs + [] == fs;
      }
    }
    assert picks[..|picks|] == picks;
  }

  function PairsUpTo(target: Target, picks: seq<Pick>, outturns: map<int, Outturn>, k: nat): seq<Pair>
    requires k <= 4
  {
    if k == 0 then [] else
      PairsUpTo(target, picks, outturns, k - 1)
      + PairsOf(target, BUCKETS[k - 1], OfBucket(picks, BUCKETS[k - 1]), outturns)
  }

  function SummaryOf(target: Target, picks: seq<Pick>, outturns: map<int, Outturn>, b: Bucket, lo: int,
                     hi: int): Summary {
    var fs := OfBucket(picks, b);
    Aggregate(target, b, fs, PairsOf(target, b, fs, outturns), lo, hi)
  }

  lemma PairsStep(target: Target, picks: seq<Pick>, outturns: map<int, Outturn>, k: nat)
    requires k < 4
    ensures PairsUpTo(target, picks, outturns, k + 1)
         == PairsUpTo(target, picks, outturns, k) + PairsOf(target, BUCKETS[k], OfBucket(picks, BUCKETS[k]), outturns)
  {}

  /** One horizon of the loop. */
  method Summarise(target: Target, b: Bucket, picks: seq<Pick>, outturns: map<int, Outturn>, lo: int, hi: int)
    returns (ps: seq<Pair>, summary: Summary)
    ensures ps == PairsOf(target, b, OfBucket(picks, b), outturns)
    ensures summary == SummaryOf(target, picks, outturns, b, lo, hi)
  {
    var fs := InBucket(picks, b);
    ps := PairUp(target, b, fs, outturns);
    summary := Aggregate(target, b, fs, ps, lo, hi);
  }

  function SummariesUpTo(target: Target, picks: seq<Pick>, outturns: map<int, Outturn>, lo: int, hi: int,
                         k: nat): seq<Summary>
    requires k <= 4
  {
    if k == 0 then [] else
      SummariesUpTo(target, picks, outturns, lo, hi, k - 1)
        + [SummaryOf(target, picks, outturns, BUCKETS[k - 1], lo, hi)]
  }

  lemma {:induction false} SummariesAre(target: Target, picks: seq<Pick>, outturns: map<int, Outturn>, lo: int, hi: int,
                                        k: nat)
    requires k <= 4
    ensures
      var ss := SummariesUpTo(target, picks, outturns, lo, hi, k);
      |ss| == k && forall i :: 0 <= i < k ==> ss[i] == SummaryOf(target, picks, outturns, BUCKETS[i], lo, hi)
  {
    if k > 0 {
      SummariesAre(target, picks, outturns, lo, hi, k - 1);
    }
  }

  method SummariseAll(target: Target, picks: seq<Pick>, outturns: map<int, Outturn>, lo: int, hi: int)
    returns (pairs: seq<Pair>, summaries: seq<Summary>)
    ensures pairs == PairsUpTo(target, picks, outturns, 4)
    ensures summaries == SummariesUpTo(target, picks, outturns, lo, hi, 4)
  {
    pairs, summaries := [], [];
    for k := 0 to 4
      invariant pairs == PairsUpTo(target, picks, outturns, k)
      invariant summaries == SummariesUpTo(target, picks, outturns, lo, hi, k)
    {
      var ps, summary := Summarise(target, BUCKETS[k], picks, outturns, lo, hi);
      PairsStep(target, picks, outturns, k);
      pairs := pairs + ps;
      summaries := summaries + [summary];
    }
  }

  /** One summary per horizon, in order, and the pairs of all horizons. */
  ghost predicate BundleOf(b: Bundle, target: Target, picks: seq<Pick>, selected: map<int, Outturn>, lo: int, hi: int) {
    && b.target == target && b.pairs == PairsUpTo(target, picks, selected, 4) && |b.summaries| == 4
    && forall k :: 0 <= k < 4 ==> b.summaries[k] == SummaryOf(target, picks, selected, BUCKETS[k], lo, hi)
  }

  /** The bundle of one selection of vintages and one of outturns. */
  ghost predicate Verified(b: Bundle, target: Target, forecasts: seq<Forecast>, outturns: seq<Outturn>, lo: int,
                           hi: int) {
    exists picks, selected ::
      && Selection(picks, forecasts, lo, hi, target.basis) && OutturnsOf(selected, outturns, lo, hi)
      && BundleOf(b, target, picks, selected, lo, hi)
  }

  /** A window that is not positive is refused; otherwise the evidence's bundle is returned. */
  method VerifyForecasts(target: Target, forecasts: seq<Forecast>, outturns: seq<Outturn>, lo: int, hi: int)
    returns (r: Option<Bundle>)
    ensures r.None? <==> hi <= lo
    ensures r.Some? ==> Verified(r.value, target, forecasts, outturns, lo, hi)
  {
    if hi <= lo {
      return None;
    }
    var chosen := SelectVintages(forecasts, lo, hi, target.basis);
    var observed := SelectOutturns(outturns, lo, hi);
    var pairs, summaries := SummariseAll(target, chosen, observed, lo, hi);
    r := Some(Bundle(target, pairs, summaries));
    SummariesAre(target, chosen, observed, lo, hi, 4);
    assert BundleOf(r.value, target, chosen, observed, lo, hi);
  }

  // ------------------------------------------------------------------
  // What a bundle guarantees
  // ------------------------------------------------------------------

  lemma {:induction false} PairsBucketed(target: Target, picks: seq<Pick>, outturns: map<int, Outturn>, k: nat)
    requires k <= 4 && DistinctKeys(picks, target.basis)
    ensures forall p :: p in PairsUpTo(target, picks, outturns, k) ==>
      Pick(p.bucket, p.forecast) in picks && Index(p.bucket) < k
      && p.forecast.validFrom in outturns && p == MakePair(target, p.bucket, p.forecast, outturns[p.forecast.validFrom])
    ensures DistinctPairs(PairsUpTo(target, picks, outturns, k))
  {
    if k > 0 {
      var b := BUCKETS[k - 1];
      var fs := OfBucket(picks, b);
      PairsBucketed(target, picks, outturns, k - 1);
      OfBucketHas(picks, b);
      OfBucketDistinct(picks, b, target.basis);
      PairsHave(target, b, fs, outturns);
      PairsDistinct(target, b, fs, outturns);
      assert Index(b) == k - 1;
      DistinctAppend(PairsUpTo(target, picks, outturns, k - 1), PairsOf(target, b, fs, outturns));
    }
  }

  /** The pairs of a bundle have distinct storage identities, and each joins a selected vintage with the
      selected outturn of exactly its valid time. */
  lemma BundleKeysDistinct(target: Target, picks: seq<Pick>, outturns: map<int, Outturn>)
    requires DistinctKeys(picks, target.basis)
    ensures DistinctPairs(PairsUpTo(target, picks, outturns, 4))
    ensures forall p :: p in PairsUpTo(target, picks, outturns, 4) ==>
      Pick(p.bucket, p.forecast) in picks && p.forecast.validFrom in outturns
      && p == MakePair(target, p.bucket, p.forecast, outturns[p.forecast.validFrom])
  {
    PairsBucketed(target, picks, outturns, 4);
  }

  lemma {:induction false} BucketsCount(picks: seq<Pick>)
    ensures |OfBucket(picks, Zero_3h)| + |OfBucket(picks, Three_12h)| + |OfBucket(picks, Twelve_24h)|
          + |OfBucket(picks, TwentyFour_48h)| == |picks|
  {
    if picks != [] {
      BucketsCount(picks[..|picks| - 1]);
    }
  }

  function KeysOf(picks: seq<Pick>, basis: Basis): set<(int, int)> {
    set p | p in picks :: Key(p.forecast, basis)
  }

  lemma KeysStep(picks: seq<Pick>, basis: Basis)
    requires picks != [] && DistinctKeys(picks, basis)
    ensures
      var init, key := picks[..|picks| - 1], Key(picks[|picks| - 1].forecast, basis);
      key !in KeysOf(init, basis) && KeysOf(picks, basis) == KeysOf(init, basis) + {key}
  {
    var init, last := picks[..|picks| - 1], picks[|picks| - 1];
    assert picks == init + [last];
    forall p | p in init ensures Key(p.forecast, basis) != Key(last.forecast, basis) {
      var i :| 0 <= i < |init| && init[i] == p;
      assert picks[i] == p;
    }
  }

  lemma {:induction false} KeysCount(picks: seq<Pick>, basis: Basis)
    requires DistinctKeys(picks, basis)
    ensures |KeysOf(picks, basis)| == |picks|
  {
    if picks != [] {
      KeysStep(picks, basis);
      KeysCount(picks[..|picks| - 1], basis);
    }
  }

  /** The expected counts of the four horizons add up to the number of in-window identities with a lead
      of 0 to 48 hours: none is counted twice or lost. */
  lemma ExpectedAddUp(target: Target, forecasts: seq<Forecast>, picks: seq<Pick>, outturns: map<int, Outturn>, lo: int,
                      hi: int)
    requires Selection(picks, forecasts, lo, hi, target.basis)
    ensures SummaryOf(target, picks, outturns, Zero_3h, lo, hi).expected
           + SummaryOf(target, picks, outturns, Three_12h, lo, hi).expected
           + SummaryOf(target, picks, outturns, Twelve_24h, lo, hi).expected
           + SummaryOf(target, picks, outturns, TwentyFour_48h, lo, hi).expected
          == |Identities(forecasts, lo, hi, target.basis)|
  {
    BucketsCount(picks);
    KeysCount(picks, target.basis);
  }

  /** Every summary of a bundle passes the checks of the schema. */
  lemma SummariesSound(target: Target, picks: seq<Pick>, outturns: map<int, Outturn>, b: Bucket, lo: int, hi: int)
    requires lo < hi
    ensures
      var s := SummaryOf(target, picks, outturns, b, lo, hi);
      && SchemaAccepts(s)
      && (s.bias.Some? ==> Abs(s.bias.value) <= s.mae.value)
      && (s.status == Available <==> s.verified >= 100 && 10 * s.verified >= 9 * s.expected)
  {
    var fs := OfBucket(picks, b);
    PairsHave(target, b, fs, outturns);
    SummarySound(target, b, fs, PairsOf(target, b, fs, outturns), lo, hi);
  }
}
