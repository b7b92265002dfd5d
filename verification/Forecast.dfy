/** Half-hour carbon forecasts as step functions: what is covered, and the
    exact integral.  Instants and durations are whole microseconds of UTC. */
module Forecast {
  import opened Basics
  import opened Sorting

  datatype Point = Point(start: int, end: int, intensity: real, recordId: string)

  datatype PlanError =
    | NotContinuous | DurationNotPositive | DurationNotWhole
    | EmptyBounds | EarliestUnaligned | LatestUnaligned
    | PointNotHalfHour | PointUnaligned | PointsOverlap

  // ------------------------------------------------------------------
  // Meaning
  // ------------------------------------------------------------------

  predicate Covers(p: Point, t: int) {
    p.start <= t < p.end
  }

  ghost predicate CoveredAt(ps: seq<Point>, t: int) {
    exists i :: 0 <= i < |ps| && Covers(ps[i], t)
  }

  ghost predicate Covered(ps: seq<Point>, a: int, b: int) {
    forall t :: a <= t < b ==> CoveredAt(ps, t)
  }

  function Overlap(p: Point, a: int, b: int): nat {
    var lo := if p.start < a then a else p.start;
    var hi := if p.end < b then p.end else b;
    if lo < hi then hi - lo else 0
  }

  /** What a span of microseconds at one intensity adds to the integral. */
  function Weighted(intensity: real, span: int): real {
    intensity * span as real
  }

  function Area(p: Point, a: int, b: int): real {
    Weighted(p.intensity, Overlap(p, a, b))
  }

  /** The integral of the step function over [a, b). */
  function Integral(ps: seq<Point>, a: int, b: int): real {
    if ps == [] then 0.0 else Area(ps[0], a, b) + Integral(ps[1..], a, b)
  }

  predicate HalfHour(p: Point) {
    p.end - p.start == HALF_HOUR
  }

  /** What `_prepare_points` hands to the rest of the planner: disjoint half-hours in time order... */
  ghost predicate Prepared(ps: seq<Point>) {
    && (forall i :: 0 <= i < |ps| ==> HalfHour(ps[i]))
    && (forall i, j :: 0 <= i < j < |ps| ==> ps[i].end <= ps[j].start)
  }

  /** ...on half-hour boundaries. */
  ghost predicate OnGrid(ps: seq<Point>) {
    forall i :: 0 <= i < |ps| ==> HalfHour(ps[i]) && Aligned(ps[i].start)
  }

  // ------------------------------------------------------------------
  // Preparation
  // ------------------------------------------------------------------

  predicate StartsBefore(x: Point, y: Point) {
    x.start <= y.start
  }

  function Sorted(ps: seq<Point>): seq<Point> {
    Sort(ps, StartsBefore)
  }

  function BadPoint(ps: seq<Point>): Option<PlanError> {
    if ps == [] then None
    else if ps[0].end - ps[0].start != HALF_HOUR then Some(PointNotHalfHour)
    else if !Aligned(ps[0].start) then Some(PointUnaligned)
    else BadPoint(ps[1..])
  }

  function Prepare(points: seq<Point>): Result<seq<Point>, PlanError> {
    var ps := Sorted(points);
    if BadPoint(ps).Some? then Failure(BadPoint(ps).value)
    else if exists i :: 0 <= i < |ps| - 1 && ps[i + 1].start < ps[i].end then Failure(PointsOverlap)
    else Success(ps)
  }

  lemma {:induction false} BadPointIff(ps: seq<Point>)
    ensures BadPoint(ps).None? <==> OnGrid(ps)
  {
    if ps != [] {
      BadPointIff(ps[1..]);
      assert forall i :: 1 <= i < |ps| ==> ps[i] == ps[1..][i - 1];
    }
  }

  lemma SortedForecast(points: seq<Point>)
    ensures multiset(Sorted(points)) == multiset(points) && |Sorted(points)| == |points|
    ensures forall p :: p in Sorted(points) <==> p in points
    ensures forall i, j :: 0 <= i < j < |Sorted(points)| ==> Sorted(points)[i].start <= Sorted(points)[j].start
  {
    SortPermutes(points, StartsBefore);
    SortSorts(points, StartsBefore);
  }

  /** The check on neighbours is a check on all pairs: preparation succeeds exactly when every
      point is an aligned half-hour and no two cover a common instant. */
  lemma PrepareIff(points: seq<Point>)
    ensures Prepare(points).Success? <==> Prepared(Sorted(points)) && OnGrid(Sorted(points))
    ensures Prepare(points).Success? ==> Prepare(points).value == Sorted(points)
  {
    var ps := Sorted(points);
    SortedForecast(points);
    BadPointIff(ps);
    if Prepare(points).Success? {
      forall i, j | 0 <= i < j < |ps| ensures ps[i].end <= ps[j].start {
        assert ps[i].end <= ps[i + 1].start;
      }
    }
  }

  lemma SameCoverage(points: seq<Point>, t: int)
    ensures CoveredAt(points, t) <==> CoveredAt(Sorted(points), t)
  {
    SortedForecast(points);
    if i :| 0 <= i < |points| && Covers(points[i], t) {
      assert points[i] in Sorted(points);
    }
    if i :| 0 <= i < |Sorted(points)| && Covers(Sorted(points)[i], t) {
      assert Sorted(points)[i] in points;
    }
  }

  lemma {:induction false} InsertIntegral(p: Point, ps: seq<Point>, a: int, b: int)
    ensures Integral(Insert(p, ps, StartsBefore), a, b) == Area(p, a, b) + Integral(ps, a, b)
  {
    if ps == [] || StartsBefore(p, ps[0]) {
      assert ([p] + ps)[1..] == ps;
    } else {
      var rest := Insert(p, ps[1..], StartsBefore);
      InsertIntegral(p, ps[1..], a, b);
      assert ([ps[0]] + rest)[1..] == rest;
    }
  }

  lemma {:induction false} SameIntegral(points: seq<Point>, a: int, b: int)
    ensures Integral(Sorted(points), a, b) == Integral(points, a, b)
  {
    if points != [] {
      SameIntegral(points[1..], a, b);
      InsertIntegral(points[0], Sorted(points[1..]), a, b);
    }
  }

  // ------------------------------------------------------------------
  // The integral
  // ------------------------------------------------------------------

  lemma AreaSplit(p: Point, a: int, b: int, c: int)
    requires a <= b <= c
    ensures Area(p, a, c) == Area(p, a, b) + Area(p, b, c)
  {
    assert Overlap(p, a, c) == Overlap(p, a, b) + Overlap(p, b, c);
    Distribute(p.intensity, Overlap(p, a, b) as real, Overlap(p, b, c) as real);
  }

  lemma {:induction false} IntegralSplit(ps: seq<Point>, a: int, b: int, c: int)
    requires a <= b <= c
    ensures Integral(ps, a, c) == Integral(ps, a, b) + Integral(ps, b, c)
  {
    if ps != [] {
      IntegralSplit(ps[1..], a, b, c);
      AreaSplit(ps[0], a, b, c);
    }
  }

  lemma {:induction false} IntegralZero(ps: seq<Point>, a: int, b: int)
    requires forall i :: 0 <= i < |ps| ==> Overlap(ps[i], a, b) == 0
    ensures Integral(ps, a, b) == 0.0
  {
    if ps != [] {
      IntegralZero(ps[1..], a, b);
    }
  }

  lemma {:induction false} IntegralWithinPoint(ps: seq<Point>, i: nat, a: int, b: int)
    requires Prepared(ps) && i < |ps| && ps[i].start <= a <= b <= ps[i].end
    ensures Integral(ps, a, b) == Weighted(ps[i].intensity, b - a)
  {
    if i == 0 {
      IntegralZero(ps[1..], a, b);
    } else {
      assert Overlap(ps[0], a, b) == 0;
      IntegralWithinPoint(ps[1..], i - 1, a, b);
    }
  }

  /** `x` is the convex combination of `x0` and `x1` at offset `f` into a half-hour. */
  ghost predicate Blend(f: int, x: real, x0: real, x1: real) {
    HALF_HOUR as real * x == (HALF_HOUR - f) as real * x0 + f as real * x1
  }

  /** How much of an aligned half-hour a sliding window of whole half-hours sees: linear in the offset. */
  lemma OverlapInterpolates(p: Point, k: int, f: int, n: int, d: int)
    requires HalfHour(p) && Aligned(p.start) && Aligned(k) && 0 < f < HALF_HOUR && n > 0 && d == n * HALF_HOUR
    ensures Blend(f, Overlap(p, k + f, k + f + d) as real,
                  Overlap(p, k, k + d) as real, Overlap(p, k + HALF_HOUR, k + HALF_HOUR + d) as real)
  {
    var j := (p.start - k) / HALF_HOUR;
    assert p.start == k + j * HALF_HOUR;
    var o, o0, o1 := Overlap(p, k + f, k + f + d), Overlap(p, k, k + d), Overlap(p, k + HALF_HOUR, k + HALF_HOUR + d);
    if j < 0 {
      assert o == o0 == o1 == 0;
    } else if j == 0 {
      assert o == HALF_HOUR - f && o0 == HALF_HOUR && o1 == 0;
    } else if j < n {
      assert o == o0 == o1 == HALF_HOUR;
    } else if j == n {
      assert o == f && o0 == 0 && o1 == HALF_HOUR;
    } else {
      assert o == o0 == o1 == 0;
    }
  }

  lemma BlendScales(c: real, f: int, x: real, x0: real, x1: real)
    requires Blend(f, x, x0, x1)
    ensures Blend(f, c * x, c * x0, c * x1)
  {
    var h, g, r := HALF_HOUR as real, (HALF_HOUR - f) as real, f as real;
    calc {
      h * (c * x);
      c * (h * x);
      c * (g * x0 + r * x1);
      { Distribute(c, g * x0, r * x1); }
      c * (g * x0) + c * (r * x1);
      g * (c * x0) + r * (c * x1);
    }
  }

  lemma BlendAdds(f: int, x: real, x0: real, x1: real, y: real, y0: real, y1: real)
    requires Blend(f, x, x0, x1) && Blend(f, y, y0, y1)
    ensures Blend(f, x + y, x0 + y0, x1 + y1)
  {
    Distribute((HALF_HOUR - f) as real, x0, y0);
    Distribute(f as real, x1, y1);
  }

  lemma BlendWeighted(c: real, f: int, x: int, x0: int, x1: int)
    requires Blend(f, x as real, x0 as real, x1 as real)
    ensures Blend(f, Weighted(c, x), Weighted(c, x0), Weighted(c, x1))
  {
    BlendScales(c, f, x as real, x0 as real, x1 as real);
  }

  lemma AreaInterpolates(p: Point, k: int, f: int, n: int, d: int)
    requires HalfHour(p) && Aligned(p.start) && Aligned(k) && 0 < f < HALF_HOUR && n > 0 && d == n * HALF_HOUR
    ensures Blend(f, Area(p, k + f, k + f + d), Area(p, k, k + d), Area(p, k + HALF_HOUR, k + HALF_HOUR + d))
  {
    OverlapInterpolates(p, k, f, n, d);
    BlendWeighted(p.intensity, f, Overlap(p, k + f, k + f + d), Overlap(p, k, k + d),
                  Overlap(p, k + HALF_HOUR, k + HALF_HOUR + d));
  }

  /** The interpolation lemma: off a half-hour boundary, the integral of a window of whole half-hours
      is the convex combination of the integrals of its two aligned neighbours. */
  lemma {:induction false} IntegralInterpolates(ps: seq<Point>, k: int, f: int, n: int, d: int)
    requires OnGrid(ps)
    requires Aligned(k) && 0 < f < HALF_HOUR && n > 0 && d == n * HALF_HOUR
    ensures Blend(f, Integral(ps, k + f, k + f + d), Integral(ps, k, k + d),
                  Integral(ps, k + HALF_HOUR, k + HALF_HOUR + d))
  {
    if ps != [] {
      var p, rest := ps[0], ps[1..];
      IntegralInterpolates(rest, k, f, n, d);
      AreaInterpolates(p, k, f, n, d);
      BlendAdds(f, Area(p, k + f, k + f + d), Area(p, k, k + d), Area(p, k + HALF_HOUR, k + HALF_HOUR + d),
                Integral(rest, k + f, k + f + d), Integral(rest, k, k + d),
                  Integral(rest, k + HALF_HOUR, k + HALF_HOUR + d));
    }
  }
}
