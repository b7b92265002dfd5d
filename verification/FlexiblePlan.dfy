/** `plan_flexible_use` itself: candidates, recommendation, start-now comparison. */
module FlexiblePlan {
  import opened Basics
  import opened Forecast
  import opened Planner
  import opened PlanOptimality

  datatype Series = Series(
    seriesId: string, geography: string, sourceId: string,
    methodologyVersion: string, vintageAt: Option<int>, points: seq<Point>)

  datatype IdentityField = SeriesId | Geography | SourceId | MethodologyVersion | VintageAt

  datatype PlanStatus = LowerCarbonWindow | NoMeaningfulDifference | WindowFound | InsufficientCoverage

  datatype ComparisonStatus = Compatible | IncompatibleSeries | InsufficientComparison

  datatype Comparison = Comparison(
    status: ComparisonStatus, startNow: Option<Window>, mismatches: seq<IdentityField>,
    delta: Option<real>, percentLower: Option<real>, isMeaningful: Option<bool>)

  datatype Coverage = Coverage(
    requiredIntervals: int, expectedIntervals: int, availableIntervals: int, gapStarts: seq<int>,
    candidateStarts: int, completeCandidates: int)

  datatype Plan = Plan(status: PlanStatus, recommended: Option<Window>, coverage: Coverage, comparison: Comparison)

  const MEANINGFUL_ABSOLUTE_DELTA := 5.0
  const MEANINGFUL_PERCENT_DELTA := 5.0

  function Field(differs: bool, f: IdentityField): seq<IdentityField> {
    if differs then [f] else []
  }

  function Mismatches(l: Series, r: Series): seq<IdentityField> {
    Field(l.seriesId != r.seriesId, SeriesId) + Field(l.geography != r.geography, Geography)
    + Field(l.sourceId != r.sourceId, SourceId)
    + Field(l.methodologyVersion != r.methodologyVersion, MethodologyVersion)
    + Field(l.vintageAt != r.vintageAt, VintageAt)
  }

  function ArgumentError(continuous: bool, duration: int, earliest: int, latest: int): Option<PlanError> {
    if !continuous then Some(NotContinuous)
    else if duration <= 0 then Some(DurationNotPositive)
    else if !Aligned(duration) then Some(DurationNotWhole)
    else if earliest >= latest then Some(EmptyBounds)
    else if !Aligned(earliest) then Some(EarliestUnaligned)
    else if !Aligned(latest) then Some(LatestUnaligned)
    else None
  }

  /** The start-now comparison, given both windows. */
  function Compare(recommended: Window, startNow: Option<Window>, mismatches: seq<IdentityField>): Comparison {
    if startNow.None? then Comparison(InsufficientComparison, None, [], None, None, None)
    else if mismatches != [] then Comparison(IncompatibleSeries, startNow, mismatches, None, None, None)
    else
      var delta := startNow.value.average - recommended.average;
      var percent := if startNow.value.average > 0.0 then Some(delta / startNow.value.average * 100.0) else None;
      var meaningful := percent.Some? && delta >= MEANINGFUL_ABSOLUTE_DELTA
        && percent.value >= MEANINGFUL_PERCENT_DELTA;
      Comparison(Compatible, startNow, [], Some(delta), percent, Some(meaningful))
  }

  function CompareWithout(mismatches: seq<IdentityField>): Comparison {
    if mismatches != [] then Comparison(IncompatibleSeries, None, mismatches, None, None, None)
    else Comparison(InsufficientComparison, None, [], None, None, None)
  }

  function StatusFor(c: Comparison): PlanStatus {
    if c.status != Compatible then WindowFound
    else if c.isMeaningful == Some(true) then LowerCarbonWindow
    else NoMeaningfulDifference
  }

  // ------------------------------------------------------------------
  // The loops
  // ------------------------------------------------------------------

  /** Aligned instants of [start, end) or [start, end], ascending. */
  ghost predicate Grid(xs: seq<int>, start: int, end: int) {
    && (forall i :: 0 <= i < |xs| ==> xs[i] == start + i * HALF_HOUR)
    && start + (|xs| - 1) * HALF_HOUR < end
    && end <= start + |xs| * HALF_HOUR
  }

  method Steps(start: int, end: int) returns (xs: seq<int>)
    ensures if start < end then Grid(xs, start, end) else xs == []
  {
    xs := [];
    var cursor := start;
    while cursor < end
      invariant cursor == start + |xs| * HALF_HOUR
      invariant forall i :: 0 <= i < |xs| ==> xs[i] == start + i * HALF_HOUR
      invariant xs == [] || start + (|xs| - 1) * HALF_HOUR < end
    {
      xs := xs + [cursor];
      cursor := cursor + HALF_HOUR;
    }
  }

  method StepsInclusive(start: int, end: int) returns (xs: seq<int>)
    ensures if start <= end then Grid(xs, start, end + 1) else xs == []
  {
    xs := [];
    var cursor := start;
    while cursor <= end
      invariant cursor == start + |xs| * HALF_HOUR
      invariant forall i :: 0 <= i < |xs| ==> xs[i] == start + i * HALF_HOUR
      invariant xs == [] || start + (|xs| - 1) * HALF_HOUR <= end
    {
      xs := xs + [cursor];
      cursor := cursor + HALF_HOUR;
    }
  }

  lemma OnTheGrid(xs: seq<int>, start: int, end: int, k: int)
    requires Grid(xs, start, end) && Aligned(start)
    ensures k in xs <==> start <= k < end && Aligned(k)
  {
    if start <= k < end && Aligned(k) {
      var i := (k - start) / HALF_HOUR;
      assert k == start + i * HALF_HOUR;
      assert xs[i] == k;
    }
    if k in xs {
      var i :| 0 <= i < |xs| && xs[i] == k;
    }
  }

  /** The expected starts at which no point starts. */
  method Gaps(byStart: map<int, Point>, expected: seq<int>) returns (gaps: seq<int>)
    ensures forall k :: k in gaps <==> k in expected && k !in byStart
    ensures |gaps| <= |expected|
    ensures (forall i, j :: 0 <= i < j < |expected| ==> expected[i] < expected[j]) ==>
            (forall i, j :: 0 <= i < j < |gaps| ==> gaps[i] < gaps[j])
  {
    gaps := [];
    ghost var ascending := forall i, j :: 0 <= i < j < |expected| ==> expected[i] < expected[j];
    for i := 0 to |expected|
      invariant forall k :: k in gaps <==> k in expected[..i] && k !in byStart
      invariant |gaps| <= i
      invariant ascending && i < |expected| ==> forall j :: 0 <= j < |gaps| ==> gaps[j] < expected[i]
      invariant ascending ==> forall i, j :: 0 <= i < j < |gaps| ==> gaps[i] < gaps[j]
    {
      assert expected[..i + 1] == expected[..i] + [expected[i]];
      if expected[i] !in byStart {
        gaps := gaps + [expected[i]];
      }
    }
  }

  ghost predicate CandidateOf(w: Window, ps: seq<Point>, starts: seq<int>, d: int)
    requires d > 0
  {
    w.start in starts && WindowOver(ps, w.start, d) == Some(w)
  }

  /** The half-hours from `earliest` on at which a window still ends by `latest`. */
  function CandidateStarts(earliest: int, latest: int, d: int): seq<int> {
    if latest - d < earliest then [] else
      seq((latest - d - earliest) / HALF_HOUR + 1, (i: nat) => earliest + i * HALF_HOUR)
  }

  lemma GridIsCandidates(xs: seq<int>, earliest: int, latest: int, d: int)
    requires earliest <= latest - d && Grid(xs, earliest, latest - d + 1)
    ensures xs == CandidateStarts(earliest, latest, d)
  {
    assert (latest - d - earliest) / HALF_HOUR == |xs| - 1;
  }

  /** The windows at those of the given starts where every instant is covered. */
  ghost function Complete(ps: seq<Point>, starts: seq<int>, d: int): seq<Window>
    requires d > 0
  {
    if starts == [] then [] else
      var last := starts[|starts| - 1];
      Complete(ps, starts[..|starts| - 1], d)
      + if Covered(ps, last, last + d) then [WindowOver(ps, last, d).value] else []
  }

  lemma {:induction false} CompleteAre(ps: seq<Point>, starts: seq<int>, d: int)
    requires d > 0
    ensures |Complete(ps, starts, d)| <= |starts|
    ensures forall w :: w in Complete(ps, starts, d) <==> CandidateOf(w, ps, starts, d)
  {
    if starts != [] {
      CompleteAre(ps, starts[..|starts| - 1], d);
      assert starts == starts[..|starts| - 1] + [starts[|starts| - 1]];
    }
  }

  method CompleteCandidates(byStart: map<int, Point>, starts: seq<int>, candidateStarts: seq<int>, duration: int,
                            ghost ps: seq<Point>)
    returns (windows: seq<Window>)
    requires Prepared(ps) && byStart == ByStart(ps) && starts == Starts(ps) && duration > 0
    ensures windows == Complete(ps, candidateStarts, duration)
  {
    windows := [];
    for i := 0 to |candidateStarts|
      invariant windows == Complete(ps, candidateStarts[..i], duration)
    {
      assert candidateStarts[..i + 1][..i] == candidateStarts[..i];
      var window := WindowAt(byStart, starts, candidateStarts[i], duration, ps);
      if window.Some? {
        windows := windows + [window.value];
      }
    }
    assert candidateStarts[..|candidateStarts|] == candidateStarts;
  }

  predicate Precedes(a: Window, b: Window) {
    a.average < b.average || (a.average == b.average && a.start <= b.start)
  }

  /** The library `min` over (raw average, start). */
  method LowestAverage(windows: seq<Window>) returns (best: Window)
    requires windows != []
    ensures best in windows && forall w :: w in windows ==> Precedes(best, w)
  {
    best := windows[0];
    for i := 1 to |windows|
      invariant best in windows && forall w :: w in windows[..i] ==> Precedes(best, w)
    {
      assert windows[..i + 1] == windows[..i] + [windows[i]];
      if !Precedes(best, windows[i]) {
        best := windows[i];
      }
    }
    assert windows[..|windows|] == windows;
  }

  // ------------------------------------------------------------------
  // The plan
  // ------------------------------------------------------------------

  lemma BestFound(ps: seq<Point>, windows: seq<Window>, best: Window, starts: seq<int>, n: int, d: int, earliest: int,
                  latest: int)
    requires OnGrid(ps) && Prepared(ps) && n > 0 && d == n * HALF_HOUR && Aligned(earliest) && Aligned(latest)
    requires earliest <= latest - d && Grid(starts, earliest, latest - d + 1)
    requires windows == Complete(ps, starts, d)
    requires best in windows && forall w :: w in windows ==> Precedes(best, w)
    ensures InBounds(best.start, d, earliest, latest) && Aligned(best.start)
    ensures WindowOver(ps, best.start, d) == Some(best)
    ensures BestOverall(ps, best.average, best.start, d, earliest, latest)
  {
    CompleteAre(ps, starts, d);
    OnTheGrid(starts, earliest, latest - d + 1, best.start);
    forall k | Aligned(k) && InBounds(k, d, earliest, latest) && Covered(ps, k, k + d)
      ensures best.average < Average(ps, k, d) || (best.average == Average(ps, k, d) && best.start <= k)
    {
      OnTheGrid(starts, earliest, latest - d + 1, k);
      assert CandidateOf(WindowOver(ps, k, d).value, ps, starts, d);
      assert Precedes(best, WindowOver(ps, k, d).value);
    }
    AlignedIsEnough(ps, best.average, best.start, n, d, earliest, latest);
  }

  lemma NoneFound(ps: seq<Point>, starts: seq<int>, n: int, d: int, earliest: int, latest: int)
    requires OnGrid(ps) && Prepared(ps) && n > 0 && d == n * HALF_HOUR && Aligned(earliest) && Aligned(latest)
    requires earliest <= latest - d ==> Grid(starts, earliest, latest - d + 1)
    requires Complete(ps, starts, d) == []
    ensures !AnyWindow(ps, d, earliest, latest)
  {
    CompleteAre(ps, starts, d);
    if s :| InBounds(s, d, earliest, latest) && Covered(ps, s, s + d) {
      var k := s - s % HALF_HOUR;
      AlignedFrom(ps, s, k, d, earliest, latest);
      OnTheGrid(starts, earliest, latest - d + 1, k);
      assert CandidateOf(WindowOver(ps, k, d).value, ps, starts, d);
      assert false;
    }
  }

  /** What a plan says about its sorted forecast, when the arguments and the forecast are well formed. */
  ghost predicate Sound(plan: Plan, ps: seq<Point>, d: int, earliest: int, latest: int)
    requires d > 0
  {
    && (plan.recommended.Some? <==> AnyWindow(ps, d, earliest, latest))
    && (plan.recommended.Some? ==>
         var best := plan.recommended.value;
         && InBounds(best.start, d, earliest, latest) && Aligned(best.start)
         && WindowOver(ps, best.start, d) == Some(best)
         && BestOverall(ps, best.average, best.start, d, earliest, latest))
  }

  /** The gaps reported are exactly the half-hours of the bounds that no point covers, and the candidates
      counted are the half-hour starts in the bounds, complete where every instant is covered. */
  ghost predicate GapsReported(c: Coverage, ps: seq<Point>, d: int, earliest: int, latest: int)
    requires d > 0
  {
    && (forall k :: k in c.gapStarts <==> earliest <= k < latest && Aligned(k) && !CoveredAt(ps, k))
    && (forall i, j :: 0 <= i < j < |c.gapStarts| ==> c.gapStarts[i] < c.gapStarts[j])
    && c.requiredIntervals * HALF_HOUR == d
    && c.expectedIntervals * HALF_HOUR == latest - earliest
    && c.availableIntervals == c.expectedIntervals - |c.gapStarts|
    && 0 <= c.availableIntervals
    && c.candidateStarts == (if latest - d < earliest then 0 else c.expectedIntervals - c.requiredIntervals + 1)
    && c.completeCandidates == |Complete(ps, CandidateStarts(earliest, latest, d), d)| <= c.candidateStarts
  }

  /** The model's own consistency check on a plan. */
  predicate Consistent(plan: Plan) {
    && (plan.status == InsufficientCoverage <==> plan.recommended.None?)
    && (plan.status == LowerCarbonWindow ==> plan.comparison.isMeaningful == Some(true))
    && (plan.status == NoMeaningfulDifference ==> plan.comparison.isMeaningful == Some(false))
    && (plan.comparison.status == Compatible <==> plan.comparison.delta.Some?)
    && (plan.comparison.status == Compatible <==> plan.comparison.isMeaningful.Some?)
    && (plan.comparison.status == Compatible ==> plan.comparison.startNow.Some?)
    && (plan.comparison.status != Compatible ==> plan.comparison.percentLower.None?)
  }

  method Coverages(byStart: map<int, Point>, required: int, earliest: int, latest: int, ghost ps: seq<Point>)
    returns (c: Coverage)
    requires Prepared(ps) && OnGrid(ps) && byStart == ByStart(ps)
    requires earliest < latest && Aligned(earliest) && Aligned(latest) && required > 0
    ensures forall k :: k in c.gapStarts <==> earliest <= k < latest && Aligned(k) && !CoveredAt(ps, k)
    ensures forall i, j :: 0 <= i < j < |c.gapStarts| ==> c.gapStarts[i] < c.gapStarts[j]
    ensures c.requiredIntervals == required && c.expectedIntervals * HALF_HOUR == latest - earliest
    ensures c.availableIntervals == c.expectedIntervals - |c.gapStarts| >= 0
  {
    var expected := Steps(earliest, latest);
    var gaps := Gaps(byStart, expected);
    c := Coverage(required, |expected|, |expected| - |gaps|, gaps, 0, 0);
    forall k ensures k in gaps <==> earliest <= k < latest && Aligned(k) && !CoveredAt(ps, k) {
      OnTheGrid(expected, earliest, latest, k);
      if Aligned(k) {
        StartsWhereCovered(ps, k);
      }
    }
  }

  lemma StartsWhereCovered(ps: seq<Point>, k: int)
    requires Prepared(ps) && OnGrid(ps) && Aligned(k)
    ensures k in ByStart(ps) <==> CoveredAt(ps, k)
  {
    if CoveredAt(ps, k) {
      GridCovering(ps, k);
      var i :| 0 <= i < |ps| && ps[i].start == k;
      PreparedAscends(ps);
      ByStartFinds(ps, i);
    }
    if k in ByStart(ps) {
      ByStartOnly(ps, k);
      SlotCovers(ps, k, k);
    }
  }

  /** Sorting changes neither coverage nor averages, so soundness can be read on the forecast as it came. */
  lemma SortedReads(points: seq<Point>, s: int, d: int)
    requires d > 0
    ensures Covered(Sorted(points), s, s + d) <==> Covered(points, s, s + d)
    ensures Average(Sorted(points), s, d) == Average(points, s, d)
  {
    SameIntegral(points, s, s + d);
    forall t ensures CoveredAt(points, t) <==> CoveredAt(Sorted(points), t) {
      SameCoverage(points, t);
    }
  }

  /** The planner's promise, on the forecast as it was handed in: a plan is available exactly when some
      window of the requested length is covered inside the bounds, wherever it starts; and then no such
      window has a lower average, nor the same average and an earlier start. */
  ghost predicate Optimal(plan: Plan, points: seq<Point>, d: int, earliest: int, latest: int)
    requires d > 0
  {
    && (plan.status == InsufficientCoverage <==> !AnyWindow(points, d, earliest, latest))
    && (plan.status != InsufficientCoverage ==>
         && plan.recommended.Some?
         && var best := plan.recommended.value;
            && InBounds(best.start, d, earliest, latest) && Covered(points, best.start, best.start + d)
            && best.end == best.start + d
            && best.average == Average(points, best.start, d)
            && BestOverall(points, best.average, best.start, d, earliest, latest))
  }

  lemma SameWindows(points: seq<Point>, d: int, earliest: int, latest: int)
    requires d > 0
    ensures AnyWindow(Sorted(points), d, earliest, latest) <==> AnyWindow(points, d, earliest, latest)
  {
    if s :| InBounds(s, d, earliest, latest) && Covered(points, s, s + d) {
      SortedReads(points, s, d);
    }
    if s :| InBounds(s, d, earliest, latest) && Covered(Sorted(points), s, s + d) {
      SortedReads(points, s, d);
    }
  }

  lemma SoundIsOptimal(plan: Plan, points: seq<Point>, d: int, earliest: int, latest: int)
    requires d > 0 && Sound(plan, Sorted(points), d, earliest, latest) && Consistent(plan)
    ensures Optimal(plan, points, d, earliest, latest)
  {
    SameWindows(points, d, earliest, latest);
    if plan.recommended.Some? {
      var best := plan.recommended.value;
      SortedReads(points, best.start, d);
      forall s | InBounds(s, d, earliest, latest) && Covered(points, s, s + d)
        ensures best.average < Average(points, s, d) || (best.average == Average(points, s, d) && best.start <= s)
      {
        SortedReads(points, s, d);
      }
    }
  }

  /** Starting now, inside the bounds and on the forecast the recommendation was made from, is never
      forecast to be cleaner than the recommendation. */
  lemma StartNowNeverCleaner(plan: Plan, ps: seq<Point>, d: int, earliest: int, latest: int, startNow: int)
    requires d > 0 && Sound(plan, ps, d, earliest, latest) && plan.recommended.Some?
    requires InBounds(startNow, d, earliest, latest)
    requires plan.comparison == Compare(plan.recommended.value, WindowOver(ps, startNow, d), [])
    ensures plan.comparison.delta.Some? <==> Covered(ps, startNow, startNow + d)
    ensures plan.comparison.delta.Some? ==> plan.comparison.delta.value >= 0.0
  {}

  method CompareStartNow(recommended: Window, forecast: Series, other: Series, startNow: int, duration: int)
    returns (r: Result<Comparison, PlanError>)
    requires duration > 0
    ensures Prepare(other.points).Failure? ==> r == Failure(Prepare(other.points).error)
    ensures Prepare(other.points).Success? ==>
      r == Success(Compare(recommended, WindowOver(Sorted(other.points), startNow, duration),
                           Mismatches(forecast, other)))
  {
    var prepared :- Prepare(other.points);
    PrepareIff(other.points);
    var window := WindowAt(ByStart(prepared), Starts(prepared), startNow, duration, prepared);
    r := Success(Compare(recommended, window, Mismatches(forecast, other)));
  }

  /** Candidates on every half-hour, and the lowest of them. */
  method Recommend(prepared: seq<Point>, required: int, duration: int, earliest: int, latest: int)
    returns (recommended: Option<Window>, coverage: Coverage)
    requires Prepared(prepared) && OnGrid(prepared)
    requires required > 0 && duration == required * HALF_HOUR
    requires earliest < latest && Aligned(earliest) && Aligned(latest)
    ensures recommended.Some? <==> AnyWindow(prepared, duration, earliest, latest)
    ensures recommended.Some? ==>
      var best := recommended.value;
      && InBounds(best.start, duration, earliest, latest) && Aligned(best.start)
      && WindowOver(prepared, best.start, duration) == Some(best)
      && BestOverall(prepared, best.average, best.start, duration, earliest, latest)
    ensures GapsReported(coverage, prepared, duration, earliest, latest)
  {
    var byStart, starts := ByStart(prepared), Starts(prepared);
    coverage := Coverages(byStart, required, earliest, latest, prepared);
    var lastCandidate := latest - duration;
    var candidateStarts: seq<int> := [];
    var candidates: seq<Window> := [];
    if lastCandidate >= earliest {
      candidateStarts := StepsInclusive(earliest, lastCandidate);
      candidates := CompleteCandidates(byStart, starts, candidateStarts, duration, prepared);
      GridIsCandidates(candidateStarts, earliest, latest, duration);
    }
    CompleteAre(prepared, candidateStarts, duration);
    coverage := coverage.(candidateStarts := |candidateStarts|, completeCandidates := |candidates|);
    if candidates == [] {
      NoneFound(prepared, candidateStarts, required, duration, earliest, latest);
      return None, coverage;
    }
    var best := LowestAverage(candidates);
    BestFound(prepared, candidates, best, candidateStarts, required, duration, earliest, latest);
    recommended := Some(best);
  }

  lemma ComparedConsistent(best: Window, startNow: Option<Window>, mismatches: seq<IdentityField>, coverage: Coverage)
    ensures
      var c := Compare(best, startNow, mismatches);
      Consistent(Plan(StatusFor(c), Some(best), coverage, c))
  {}

  /** The plan for well-formed arguments and a forecast that could be prepared. */
  ghost predicate Answers(plan: Plan, forecast: Series, other: Series, d: int, earliest: int, latest: int,
                          startNow: int)
    requires d > 0
  {
    && Sound(plan, Sorted(forecast.points), d, earliest, latest)
    && GapsReported(plan.coverage, Sorted(forecast.points), d, earliest, latest)
    && Consistent(plan)
    && (plan.recommended.Some? ==> Prepare(other.points).Success? && plan.status == StatusFor(plan.comparison))
    && plan.comparison ==
       if plan.recommended.None? then CompareWithout(Mismatches(forecast, other))
       else Compare(plan.recommended.value, WindowOver(Sorted(other.points), startNow, d), Mismatches(forecast, other))
  }

  method PlanFlexibleUse(forecast: Series, startNowForecast: Option<Series>, continuous: bool,
                         duration: int, earliest: int, latest: int, startNow: int)
    returns (r: Result<Plan, PlanError>)
    ensures ArgumentError(continuous, duration, earliest, latest).Some? ==>
      r == Failure(ArgumentError(continuous, duration, earliest, latest).value)
    ensures ArgumentError(continuous, duration, earliest, latest).None? && Prepare(forecast.points).Failure? ==>
      r == Failure(Prepare(forecast.points).error)
    ensures ArgumentError(continuous, duration, earliest, latest).None? && Prepare(forecast.points).Success? ==>
      var other := if startNowForecast.Some? then startNowForecast.value else forecast;
      match r
      case Failure(e) =>
        && Prepare(other.points) == Failure(e)
        && AnyWindow(Sorted(forecast.points), duration, earliest, latest)
      case Success(plan) => Answers(plan, forecast, other, duration, earliest, latest, startNow)
  {
    var invalid := ArgumentError(continuous, duration, earliest, latest);
    if invalid.Some? {
      return Failure(invalid.value);
    }
    var required := duration / HALF_HOUR;
    var prepared :- Prepare(forecast.points);
    PrepareIff(forecast.points);
    var recommended, coverage := Recommend(prepared, required, duration, earliest, latest);
    var other := if startNowForecast.Some? then startNowForecast.value else forecast;
    if recommended.None? {
      return Success(Plan(InsufficientCoverage, None, coverage, CompareWithout(Mismatches(forecast, other))));
    }
    var comparison :- CompareStartNow(recommended.value, forecast, other, startNow, duration);
    ComparedConsistent(recommended.value, WindowOver(Sorted(other.points), startNow, duration),
                       Mismatches(forecast, other), coverage);
    r := Success(Plan(StatusFor(comparison), recommended, coverage, comparison));
  }
}
