/** Why looking at half-hour starts is enough: facts about every start. */
module PlanOptimality {
  import opened Basics
  import opened Forecast
  import opened Planner

  ghost predicate InBounds(s: int, d: int, earliest: int, latest: int) {
    earliest <= s && s + d <= latest
  }

  ghost predicate Slot(ps: seq<Point>, t: int) {
    exists i :: 0 <= i < |ps| && ps[i].start == t
  }

  lemma GridCovering(ps: seq<Point>, t: int)
    requires OnGrid(ps) && CoveredAt(ps, t)
    ensures Slot(ps, t - t % HALF_HOUR)
  {
    var i :| 0 <= i < |ps| && Covers(ps[i], t);
    assert ps[i].start == t - t % HALF_HOUR;
  }

  lemma SlotCovers(ps: seq<Point>, k: int, t: int)
    requires OnGrid(ps) && Slot(ps, k) && k <= t < k + HALF_HOUR
    ensures CoveredAt(ps, t)
  {
    var i :| 0 <= i < |ps| && ps[i].start == k;
    assert Covers(ps[i], t);
  }

  /** A covered window off the half-hour grid has two covered aligned neighbours. */
  lemma NeighboursCovered(ps: seq<Point>, s: int, k: int, d: int)
    requires OnGrid(ps) && Aligned(d) && d > 0 && Aligned(k) && k < s < k + HALF_HOUR
    requires Covered(ps, s, s + d)
    ensures Covered(ps, k, k + d) && Covered(ps, k + HALF_HOUR, k + HALF_HOUR + d)
  {
    forall t | k <= t < s ensures CoveredAt(ps, t) {
      assert CoveredAt(ps, s) && s - s % HALF_HOUR == k;
      GridCovering(ps, s);
      SlotCovers(ps, k, t);
    }
    forall t | s + d <= t < k + HALF_HOUR + d ensures CoveredAt(ps, t) {
      var last := s + d - 1;
      assert CoveredAt(ps, last) && last - last % HALF_HOUR == k + d;
      GridCovering(ps, last);
      SlotCovers(ps, k + d, t);
    }
  }

  lemma Product(a: real, b: real)
    requires a > 0.0 && b >= 0.0
    ensures a * b >= 0.0
    ensures a * b == 0.0 ==> b == 0.0
  {}

  lemma BlendAbove(f: int, x: real, x0: real, x1: real, m: real)
    requires Blend(f, x, x0, x1) && 0 < f < HALF_HOUR && m <= x0 && m <= x1
    ensures m <= x
    ensures x == m ==> x0 == m
  {
    var h, g, r := HALF_HOUR as real, (HALF_HOUR - f) as real, f as real;
    Distribute(g, x0 - m, m);
    Distribute(r, x1 - m, m);
    assert h * m == g * m + r * m;
    Product(g, x0 - m);
    Product(r, x1 - m);
  }

  lemma Quotient(x: real, d: real)
    requires d > 0.0
    ensures x / d == (1.0 / d) * x
  {}

  lemma BlendQuotient(f: int, d: real, x: real, x0: real, x1: real)
    requires Blend(f, x, x0, x1) && d > 0.0
    ensures Blend(f, x / d, x0 / d, x1 / d)
  {
    BlendScales(1.0 / d, f, x, x0, x1);
    Quotient(x, d);
    Quotient(x0, d);
    Quotient(x1, d);
  }

  /** Averages over windows of one length blend as their integrals do. */
  lemma AverageInterpolates(ps: seq<Point>, k: int, f: int, n: int, d: int)
    requires OnGrid(ps) && Aligned(k) && 0 < f < HALF_HOUR && n > 0 && d == n * HALF_HOUR
    ensures Blend(f, Average(ps, k + f, d), Average(ps, k, d), Average(ps, k + HALF_HOUR, d))
  {
    IntegralInterpolates(ps, k, f, n, d);
    BlendQuotient(f, d as real, Integral(ps, k + f, k + f + d), Integral(ps, k, k + d),
                  Integral(ps, k + HALF_HOUR, k + HALF_HOUR + d));
  }

  /** No aligned, covered window in the bounds has a lower average, nor the same one and an earlier start. */
  ghost predicate BestAligned(ps: seq<Point>, average: real, start: int, d: int, earliest: int, latest: int)
    requires d > 0
  {
    forall k :: Aligned(k) && InBounds(k, d, earliest, latest) && Covered(ps, k, k + d) ==>
      average < Average(ps, k, d) || (average == Average(ps, k, d) && start <= k)
  }

  /** The same of every covered window in the bounds, on whatever microsecond it starts. */
  ghost predicate BestOverall(ps: seq<Point>, average: real, start: int, d: int, earliest: int, latest: int)
    requires d > 0
  {
    forall s :: InBounds(s, d, earliest, latest) && Covered(ps, s, s + d) ==>
      average < Average(ps, s, d) || (average == Average(ps, s, d) && start <= s)
  }

  lemma NeighboursInBounds(s: int, k: int, d: int, earliest: int, latest: int)
    requires Aligned(earliest) && Aligned(latest) && Aligned(d) && Aligned(k) && k < s < k + HALF_HOUR
    requires InBounds(s, d, earliest, latest)
    ensures InBounds(k, d, earliest, latest) && InBounds(k + HALF_HOUR, d, earliest, latest) && Aligned(k + HALF_HOUR)
  {}

  /** Wherever a covered window starts in the bounds, one on the half-hour before is covered too. */
  lemma AlignedFrom(ps: seq<Point>, s: int, k: int, d: int, earliest: int, latest: int)
    requires OnGrid(ps) && Aligned(d) && d > 0 && Aligned(earliest) && Aligned(latest) && k == s - s % HALF_HOUR
    requires InBounds(s, d, earliest, latest) && Covered(ps, s, s + d)
    ensures Aligned(k) && InBounds(k, d, earliest, latest) && Covered(ps, k, k + d)
  {
    if k < s {
      NeighboursCovered(ps, s, k, d);
      NeighboursInBounds(s, k, d, earliest, latest);
    }
  }

  lemma OffGridNoBetter(ps: seq<Point>, average: real, start: int, n: int, d: int, earliest: int, latest: int, k: int,
                        f: int)
    requires OnGrid(ps) && n > 0 && d == n * HALF_HOUR
    requires Aligned(earliest) && Aligned(latest) && Aligned(k) && 0 < f < HALF_HOUR
    requires BestAligned(ps, average, start, d, earliest, latest)
    requires InBounds(k + f, d, earliest, latest) && Covered(ps, k + f, k + f + d)
    ensures average < Average(ps, k + f, d) || (average == Average(ps, k + f, d) && start <= k + f)
  {
    var x, x0, x1 := Average(ps, k + f, d), Average(ps, k, d), Average(ps, k + HALF_HOUR, d);
    assert average <= x0 && average <= x1 && (average == x0 ==> start <= k) by {
      NeighboursCovered(ps, k + f, k, d);
      NeighboursInBounds(k + f, k, d, earliest, latest);
    }
    AverageInterpolates(ps, k, f, n, d);
    BlendAbove(f, x, x0, x1, average);
  }

  /** Optimality over all starts follows from optimality over the enumerated half-hours. */
  lemma AlignedIsEnough(ps: seq<Point>, average: real, start: int, n: int, d: int, earliest: int, latest: int)
    requires OnGrid(ps) && n > 0 && d == n * HALF_HOUR && Aligned(earliest) && Aligned(latest)
    requires BestAligned(ps, average, start, d, earliest, latest)
    ensures BestOverall(ps, average, start, d, earliest, latest)
  {
    forall s | InBounds(s, d, earliest, latest) && Covered(ps, s, s + d)
      ensures average < Average(ps, s, d) || (average == Average(ps, s, d) && start <= s)
    {
      if !Aligned(s) {
        OffGridNoBetter(ps, average, start, n, d, earliest, latest, s - s % HALF_HOUR, s % HALF_HOUR);
      }
    }
  }

  /** Some window of the requested length is covered inside the bounds, wherever it starts. */
  ghost predicate AnyWindow(ps: seq<Point>, d: int, earliest: int, latest: int) {
    exists s :: InBounds(s, d, earliest, latest) && Covered(ps, s, s + d)
  }

  /** `n` consecutive non-gap slots from `k`. */
  ghost predicate Run(ps: seq<Point>, k: int, n: int) {
    forall j :: 0 <= j < n ==> Slot(ps, k + j * HALF_HOUR)
  }

  lemma RunIsCoverage(ps: seq<Point>, k: int, n: int)
    requires OnGrid(ps) && Aligned(k) && n > 0
    ensures Run(ps, k, n) <==> Covered(ps, k, k + n * HALF_HOUR)
  {
    if Covered(ps, k, k + n * HALF_HOUR) {
      forall j | 0 <= j < n ensures Slot(ps, k + j * HALF_HOUR) {
        var t := k + j * HALF_HOUR;
        assert t < k + n * HALF_HOUR;
        GridCovering(ps, t);
      }
    }
    if Run(ps, k, n) {
      forall t | k <= t < k + n * HALF_HOUR ensures CoveredAt(ps, t) {
        var j := (t - k) / HALF_HOUR;
        assert Slot(ps, k + j * HALF_HOUR);
        SlotCovers(ps, k + j * HALF_HOUR, t);
      }
    }
  }

  /** Some window of the requested length is covered somewhere in the bounds exactly when there is a run
      of as many consecutive non-gap slots there. */
  lemma WindowExistsIff(ps: seq<Point>, n: int, d: int, earliest: int, latest: int)
    requires OnGrid(ps) && n > 0 && d == n * HALF_HOUR && Aligned(earliest) && Aligned(latest)
    ensures AnyWindow(ps, d, earliest, latest) <==>
      (exists k :: Aligned(k) && InBounds(k, d, earliest, latest) && Run(ps, k, n))
  {
    if s :| InBounds(s, d, earliest, latest) && Covered(ps, s, s + d) {
      var k := s - s % HALF_HOUR;
      if k != s {
        NeighboursCovered(ps, s, k, d);
      }
      RunIsCoverage(ps, k, n);
      assert Aligned(k) && InBounds(k, d, earliest, latest) && Run(ps, k, n);
    }
    if k :| Aligned(k) && InBounds(k, d, earliest, latest) && Run(ps, k, n) {
      RunIsCoverage(ps, k, n);
      assert InBounds(k, d, earliest, latest) && Covered(ps, k, k + d);
    }
  }
}
