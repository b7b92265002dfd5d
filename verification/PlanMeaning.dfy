/** What a plan tells its reader, in terms of the forecasts' own fields. */
module PlanMeaning {
  import opened Basics
  import opened Forecast
  import opened Planner
  import opened PlanOptimality
  import opened FlexiblePlan

  // ------------------------------------------------------------------
  // When a difference is meaningful
  // ------------------------------------------------------------------

  /** The identity field differs between the two series. */
  predicate FieldDiffers(f: IdentityField, l: Series, r: Series) {
    match f
    case SeriesId => l.seriesId != r.seriesId
    case Geography => l.geography != r.geography
    case SourceId => l.sourceId != r.sourceId
    case MethodologyVersion => l.methodologyVersion != r.methodologyVersion
    case VintageAt => l.vintageAt != r.vintageAt
  }

  predicate SameIdentity(l: Series, r: Series) {
    && l.seriesId == r.seriesId && l.geography == r.geography && l.sourceId == r.sourceId
    && l.methodologyVersion == r.methodologyVersion && l.vintageAt == r.vintageAt
  }

  lemma MismatchesAre(l: Series, r: Series)
    ensures forall f :: f in Mismatches(l, r) <==> FieldDiffers(f, l, r)
    ensures Mismatches(l, r) == [] <==> SameIdentity(l, r)
  {}

  /** On the forecasts as they were handed in. */
  lemma SortedWindow(points: seq<Point>, s: int, d: int)
    requires d > 0
    ensures WindowOver(Sorted(points), s, d).Some? <==> Covered(points, s, s + d)
    ensures WindowOver(Sorted(points), s, d).Some? ==>
      var w := WindowOver(Sorted(points), s, d).value;
      w.start == s && w.end == s + d && w.average == Average(points, s, d)
  {
    SortedReads(points, s, d);
  }

  /** With a recommendation: which comparison is made, with what figures, and when the plan calls it a lower-carbon
      window. `a` is the average from starting now, `b` that of the recommendation. */
  lemma StatusTells(plan: Plan, forecast: Series, other: Series, d: int, earliest: int, latest: int, startNow: int)
    requires d > 0 && Answers(plan, forecast, other, d, earliest, latest, startNow) && plan.recommended.Some?
    ensures
      var covered := Covered(other.points, startNow, startNow + d);
      var c := plan.comparison;
      && (plan.status == WindowFound <==> !covered || !SameIdentity(forecast, other))
      && (c.status == InsufficientComparison <==> !covered)
      && (c.status == IncompatibleSeries <==> covered && !SameIdentity(forecast, other))
      && (c.startNow.Some? <==> covered)
      && (forall f :: f in c.mismatches <==> covered && FieldDiffers(f, forecast, other))
    ensures
      Covered(other.points, startNow, startNow + d) && SameIdentity(forecast, other) ==>
        var a, b := Average(other.points, startNow, d), plan.recommended.value.average;
        && plan.comparison.startNow.value.average == a && plan.comparison.startNow.value.start == startNow
        && plan.comparison.delta == Some(a - b)
        && plan.comparison.percentLower == (if a > 0.0 then Some((a - b) / a * 100.0) else None)
        && (plan.status == LowerCarbonWindow <==> a > 0.0 && a - b >= 5.0 && (a - b) / a * 100.0 >= 5.0)
        && (plan.status == LowerCarbonWindow || plan.status == NoMeaningfulDifference)
  {
    SortedWindow(other.points, startNow, d);
    MismatchesAre(forecast, other);
  }

  /** Without one: the status, and the fields that differ. */
  lemma NothingTells(plan: Plan, forecast: Series, other: Series, d: int, earliest: int, latest: int, startNow: int)
    requires d > 0 && Answers(plan, forecast, other, d, earliest, latest, startNow) && plan.recommended.None?
    ensures plan.status == InsufficientCoverage && plan.comparison.startNow.None? && plan.comparison.delta.None?
    ensures plan.comparison.status ==
      if SameIdentity(forecast, other) then InsufficientComparison else IncompatibleSeries
    ensures forall f :: f in plan.comparison.mismatches <==> FieldDiffers(f, forecast, other)
  {
    MismatchesAre(forecast, other);
  }

  /** The arguments that are accepted, and the first complaint otherwise. */
  lemma ArgumentsTell(continuous: bool, duration: int, earliest: int, latest: int)
    ensures ArgumentError(continuous, duration, earliest, latest).None? <==>
      && continuous && duration >= HALF_HOUR && duration % HALF_HOUR == 0
      && earliest < latest && earliest % HALF_HOUR == 0 && latest % HALF_HOUR == 0
    ensures ArgumentError(continuous, duration, earliest, latest) == Some(NotContinuous) <==> !continuous
    ensures ArgumentError(continuous, duration, earliest, latest) == Some(DurationNotPositive) <==>
      continuous && duration <= 0
    ensures ArgumentError(continuous, duration, earliest, latest) == Some(DurationNotWhole) <==>
      continuous && duration > 0 && duration % HALF_HOUR != 0
    ensures continuous && duration >= HALF_HOUR && duration % HALF_HOUR == 0 ==>
      && (ArgumentError(continuous, duration, earliest, latest) == Some(EmptyBounds) <==> latest <= earliest)
      && (ArgumentError(continuous, duration, earliest, latest) == Some(EarliestUnaligned) <==>
           earliest < latest && earliest % HALF_HOUR != 0)
  {}

  /** Neither of these holds of a point that can be used. */
  predicate WrongLength(p: Point) {
    p.end - p.start != HALF_HOUR
  }

  predicate OffTheHalfHour(p: Point) {
    p.start % HALF_HOUR != 0
  }

  /** The first point, in time order, that cannot be used on its own. */
  ghost predicate FirstUnusable(ps: seq<Point>, i: nat) {
    && i < |ps| && (WrongLength(ps[i]) || OffTheHalfHour(ps[i]))
    && forall j :: 0 <= j < i ==> !WrongLength(ps[j]) && !OffTheHalfHour(ps[j])
  }

  lemma {:induction false} BadPointTells(ps: seq<Point>)
    ensures BadPoint(ps).None? <==> forall i :: 0 <= i < |ps| ==> !WrongLength(ps[i]) && !OffTheHalfHour(ps[i])
    ensures BadPoint(ps).Some? ==> exists i: nat ::
      && FirstUnusable(ps, i)
      && BadPoint(ps) == Some(if WrongLength(ps[i]) then PointNotHalfHour else PointUnaligned)
  {
    if ps != [] {
      var rest := ps[1..];
      BadPointTells(rest);
      assert forall i :: 1 <= i < |ps| ==> ps[i] == rest[i - 1];
      if WrongLength(ps[0]) || OffTheHalfHour(ps[0]) {
        assert FirstUnusable(ps, 0);
      } else if BadPoint(rest).Some? {
        var i: nat :| FirstUnusable(rest, i)
          && BadPoint(rest) == Some(if WrongLength(rest[i]) then PointNotHalfHour else PointUnaligned);
        assert FirstUnusable(ps, i + 1);
      }
    }
  }

  /** Why a forecast cannot be used: its first unusable point in time order or, if there is none, two points that share
      an instant. */
  lemma PrepareTells(points: seq<Point>)
    ensures Prepare(points) == Failure(PointsOverlap) ==>
      && (forall p :: p in points ==> !WrongLength(p) && !OffTheHalfHour(p))
      && exists i, j :: 0 <= i < j < |Sorted(points)| && Sorted(points)[j].start < Sorted(points)[i].end
    ensures Prepare(points).Failure? && Prepare(points).error != PointsOverlap ==>
      exists i: nat :: FirstUnusable(Sorted(points), i)
        && Prepare(points).error == if WrongLength(Sorted(points)[i]) then PointNotHalfHour else PointUnaligned
  {
    BadPointTells(Sorted(points));
    SortedForecast(points);
  }

  // ------------------------------------------------------------------
  // What the average is
  // ------------------------------------------------------------------

  /** `slots` are the points of the `n` half-hours from `k`, in order. */
  ghost predicate SlotsFrom(ps: seq<Point>, k: int, slots: seq<Point>) {
    forall i :: 0 <= i < |slots| ==> slots[i] in ps && slots[i].start == k + i * HALF_HOUR
  }

  function Intensities(slots: seq<Point>): real {
    if slots == [] then 0.0 else Intensities(slots[..|slots| - 1]) + slots[|slots| - 1].intensity
  }

  lemma {:induction false} SlotsIntegrate(ps: seq<Point>, k: int, slots: seq<Point>)
    requires Prepared(ps) && SlotsFrom(ps, k, slots)
    ensures Integral(ps, k, k + |slots| * HALF_HOUR) == Intensities(slots) * HALF_HOUR as real
  {
    if slots == [] {
      IntegralZero(ps, k, k);
    } else {
      var init, last := slots[..|slots| - 1], slots[|slots| - 1];
      var b := k + |init| * HALF_HOUR;
      SlotsIntegrate(ps, k, init);
      IntegralSplit(ps, k, b, b + HALF_HOUR);
      var i :| 0 <= i < |ps| && ps[i] == last;
      assert HalfHour(ps[i]);
      IntegralWithinPoint(ps, i, b, b + HALF_HOUR);
      OneMoreSlot(Intensities(init), last.intensity);
      assert b + HALF_HOUR == k + |slots| * HALF_HOUR;
    }
  }

  lemma OneMoreSlot(sum: real, intensity: real)
    ensures sum * HALF_HOUR as real + Weighted(intensity, HALF_HOUR) == (sum + intensity) * HALF_HOUR as real
  {
    Distribute(HALF_HOUR as real, sum, intensity);
  }

  lemma MeanOf(total: real, n: nat)
    requires n > 0
    ensures total * HALF_HOUR as real / (n * HALF_HOUR) as real == total / n as real
  {
    var h, x := HALF_HOUR as real, n as real;
    assert (n * HALF_HOUR) as real == x * h;
    var q := total / x;
    assert q * x == total;
    assert q * (x * h) == total * h;
  }

  /** On the half-hour grid a window's average is the mean of its half-hours' intensities; between two half-hours it
      moves linearly from one neighbour's average to the other's (`AverageInterpolates`). */
  lemma AverageIsMean(ps: seq<Point>, k: int, slots: seq<Point>)
    requires Prepared(ps) && SlotsFrom(ps, k, slots) && slots != []
    ensures Average(ps, k, |slots| * HALF_HOUR) == Intensities(slots) / |slots| as real
  {
    SlotsIntegrate(ps, k, slots);
    MeanOf(Intensities(slots), |slots|);
  }

  // ------------------------------------------------------------------
  // Which records a window names
  // ------------------------------------------------------------------

  /** The point has an instant in [a, b). */
  predicate Meets(p: Point, a: int, b: int) {
    p.start < p.end && a < b && p.start < b && a < p.end
  }

  ghost predicate Named(ps: seq<Point>, a: int, b: int, id: string) {
    exists i :: 0 <= i < |ps| && Meets(ps[i], a, b) && ps[i].recordId == id
  }

  /** The records of exactly the points met, never one twice in a row, ending with the last point met. */
  lemma {:induction false} VisitedNames(ps: seq<Point>, a: int, b: int)
    ensures forall id :: id in Visited(ps, a, b) <==> Named(ps, a, b, id)
    ensures forall i :: 0 <= i < |Visited(ps, a, b)| - 1 ==> Visited(ps, a, b)[i] != Visited(ps, a, b)[i + 1]
    ensures ps != [] && Meets(ps[|ps| - 1], a, b) ==>
      Visited(ps, a, b) != [] && Visited(ps, a, b)[|Visited(ps, a, b)| - 1] == ps[|ps| - 1].recordId
  {
    if ps != [] {
      var init, last := ps[..|ps| - 1], ps[|ps| - 1];
      VisitedNames(init, a, b);
      assert Overlap(last, a, b) != 0 <==> Meets(last, a, b);
      forall id ensures Named(ps, a, b, id) <==> Named(init, a, b, id) || (Meets(last, a, b) && last.recordId == id) {
        if i :| 0 <= i < |init| && Meets(init[i], a, b) && init[i].recordId == id {
          assert ps[i] == init[i];
        }
        if i :| 0 <= i < |ps| && Meets(ps[i], a, b) && ps[i].recordId == id {
          assert i < |init| ==> init[i] == ps[i];
        }
      }
    }
  }

  /** The records named keep the order of the points: those met among the first `n` come first. */
  lemma {:induction false} VisitedInOrder(ps: seq<Point>, n: nat, a: int, b: int)
    requires n <= |ps|
    ensures Visited(ps[..n], a, b) <= Visited(ps, a, b)
  {
    if n < |ps| {
      var init := ps[..|ps| - 1];
      VisitedInOrder(init, n, a, b);
      assert init[..n] == ps[..n];
    } else {
      assert ps[..n] == ps;
    }
  }
}
