/** The flexible-use planner of app/charging/planner.py. */
module Planner {
  import opened Basics
  import opened Forecast

  datatype Window = Window(start: int, end: int, average: real, recordIds: seq<string>)

  // ------------------------------------------------------------------
  // What a window is, independently of how it is found
  // ------------------------------------------------------------------

  function Push(ids: seq<string>, id: string): seq<string> {
    if ids == [] || ids[|ids| - 1] != id then ids + [id] else ids
  }

  /** Record ids of the points met in [a, b), in time order, immediate repeats collapsed. */
  function Visited(ps: seq<Point>, a: int, b: int): seq<string> {
    if ps == [] then [] else
      var p := ps[|ps| - 1];
      var ids := Visited(ps[..|ps| - 1], a, b);
      if Overlap(p, a, b) == 0 then ids else Push(ids, p.recordId)
  }

  function Average(ps: seq<Point>, start: int, d: int): real
    requires d > 0
  {
    Integral(ps, start, start + d) / d as real
  }

  ghost function WindowOver(ps: seq<Point>, start: int, d: int): Option<Window>
    requires d > 0
  {
    if Covered(ps, start, start + d) then
      Some(Window(start, start + d, Average(ps, start, d), Visited(ps, start, start + d)))
    else None
  }

  // ------------------------------------------------------------------
  // Point lookup by bisection
  // ------------------------------------------------------------------

  function Starts(ps: seq<Point>): (starts: seq<int>)
    ensures |starts| == |ps| && forall i :: 0 <= i < |ps| ==> starts[i] == ps[i].start
  {
    if ps == [] then [] else Starts(ps[..|ps| - 1]) + [ps[|ps| - 1].start]
  }

  function ByStart(ps: seq<Point>): map<int, Point> {
    if ps == [] then map[] else ByStart(ps[..|ps| - 1])[ps[|ps| - 1].start := ps[|ps| - 1]]
  }

  /** The library bisection: on an ascending list, how many entries are at most `x`. */
  function BisectRight(xs: seq<int>, x: int): (i: nat)
    ensures i <= |xs|
    ensures (forall a, b :: 0 <= a < b < |xs| ==> xs[a] <= xs[b]) ==>
      && (forall j :: 0 <= j < i ==> xs[j] <= x)
      && (forall j :: i <= j < |xs| ==> x < xs[j])
  {
    if xs == [] then 0
    else if xs[|xs| - 1] <= x then |xs|
    else BisectRight(xs[..|xs| - 1], x)
  }

  ghost predicate Ascending(ps: seq<Point>) {
    forall i, j :: 0 <= i < j < |ps| ==> ps[i].start < ps[j].start
  }

  lemma PreparedAscends(ps: seq<Point>)
    requires Prepared(ps)
    ensures Ascending(ps)
  {
    forall i, j | 0 <= i < j < |ps| ensures ps[i].start < ps[j].start {
      assert HalfHour(ps[i]) && ps[i].end <= ps[j].start;
    }
  }

  lemma {:induction false} ByStartFinds(ps: seq<Point>, i: nat)
    requires Ascending(ps) && i < |ps|
    ensures ps[i].start in ByStart(ps) && ByStart(ps)[ps[i].start] == ps[i]
  {
    var init := ps[..|ps| - 1];
    if i < |ps| - 1 {
      ByStartFinds(init, i);
      assert ps[i].start < ps[|ps| - 1].start;
    }
  }

  lemma {:induction false} ByStartOnly(ps: seq<Point>, t: int)
    requires t in ByStart(ps)
    ensures exists i :: 0 <= i < |ps| && ps[i].start == t
  {
    var init := ps[..|ps| - 1];
    if t == ps[|ps| - 1].start {
    } else {
      ByStartOnly(init, t);
      var i :| 0 <= i < |init| && init[i].start == t;
      assert ps[i].start == t;
    }
  }

  lemma CoversAlone(ps: seq<Point>, j: int, i: int, instant: int)
    requires Prepared(ps) && 0 <= j <= i < |ps|
    requires Covers(ps[j], instant) && ps[i].start <= instant
    ensures i == j
  {}

  /** The bisection splits the points into those that started by the instant and those that did not. */
  lemma BisectSplits(ps: seq<Point>, instant: int)
    requires Prepared(ps)
    ensures
      var n := BisectRight(Starts(ps), instant);
      && n <= |ps|
      && (forall j :: 0 <= j < n ==> ps[j].start <= instant)
      && (forall j :: n <= j < |ps| ==> instant < ps[j].start)
  {
    PreparedAscends(ps);
    var starts := Starts(ps);
    assert forall j :: 0 <= j < |ps| ==> starts[j] == ps[j].start;
  }

  lemma BisectFinds(ps: seq<Point>, instant: int)
    requires Prepared(ps)
    ensures
      var i := BisectRight(Starts(ps), instant) - 1;
      && i < |ps|
      && (i < 0 ==> !CoveredAt(ps, instant))
      && (i >= 0 ==> ps[i].start <= instant && (CoveredAt(ps, instant) ==> instant < ps[i].end))
  {
    BisectSplits(ps, instant);
    if CoveredAt(ps, instant) {
      var j :| 0 <= j < |ps| && Covers(ps[j], instant);
      CoversAlone(ps, j, BisectRight(Starts(ps), instant) - 1, instant);
    }
  }

  method PointCovering(byStart: map<int, Point>, starts: seq<int>, instant: int, ghost ps: seq<Point>)
    returns (found: Option<Point>)
    requires Prepared(ps) && byStart == ByStart(ps) && starts == Starts(ps)
    ensures found.Some? ==> exists i :: 0 <= i < |ps| && ps[i] == found.value && Covers(ps[i], instant)
    ensures found.None? ==> !CoveredAt(ps, instant)
  {
    BisectFinds(ps, instant);
    var index := BisectRight(starts, instant) - 1;
    if index < 0 {
      return None;
    }
    PreparedAscends(ps);
    ByStartFinds(ps, index);
    var point := byStart[starts[index]];
    assert point == ps[index];
    if !(point.start <= instant < point.end) {
      return None;
    }
    return Some(point);
  }

  // ------------------------------------------------------------------
  // One window
  // ------------------------------------------------------------------

  lemma {:induction false} VisitedSame(ps: seq<Point>, a: int, b: int, c: int)
    requires forall i :: 0 <= i < |ps| ==> ps[i].end <= b
    requires b <= c
    ensures Visited(ps, a, b) == Visited(ps, a, c)
  {
    if ps != [] {
      VisitedSame(ps[..|ps| - 1], a, b, c);
    }
  }

  lemma {:induction false} VisitedStep(ps: seq<Point>, i: nat, a: int, b: int, c: int)
    requires Prepared(ps) && i < |ps| && Covers(ps[i], b)
    requires a <= b < c <= ps[i].end && Overlap(ps[i], a, b) == 0
    ensures Visited(ps, a, c) == Push(Visited(ps, a, b), ps[i].recordId)
  {
    var init, last := ps[..|ps| - 1], ps[|ps| - 1];
    if i == |ps| - 1 {
      VisitedSame(init, a, b, c);
    } else {
      assert Overlap(last, a, b) == Overlap(last, a, c) == 0;
      VisitedStep(init, i, a, b, c);
    }
  }

  lemma {:induction false} VisitedNothing(ps: seq<Point>, a: int)
    ensures Visited(ps, a, a) == []
  {
    if ps != [] {
      VisitedNothing(ps[..|ps| - 1], a);
    }
  }

  lemma CoveredStep(ps: seq<Point>, i: nat, a: int, b: int, c: int)
    requires Covered(ps, a, b) && i < |ps| && ps[i].start <= b && c <= ps[i].end
    ensures Covered(ps, a, c)
  {
    forall t | a <= t < c ensures CoveredAt(ps, t) {
      if b <= t {
        assert Covers(ps[i], t);
      }
    }
  }

  lemma IntegralStep(ps: seq<Point>, i: nat, a: int, b: int, c: int)
    requires Prepared(ps) && i < |ps| && a <= b <= c && ps[i].start <= b && c <= ps[i].end
    ensures Integral(ps, a, c) == Integral(ps, a, b) + Weighted(ps[i].intensity, c - b)
  {
    IntegralSplit(ps, a, b, c);
    IntegralWithinPoint(ps, i, b, c);
  }

  /** The walk has only met points that end by `cursor`, or it has not started. */
  lemma Unmet(ps: seq<Point>, i: nat, a: int, b: int)
    requires Prepared(ps) && i < |ps| && Covers(ps[i], b)
    requires b == a || exists k :: 0 <= k < |ps| && ps[k].end == b
    ensures Overlap(ps[i], a, b) == 0
  {
    if b != a {
      var k :| 0 <= k < |ps| && ps[k].end == b;
      assert k < i ==> ps[k].end <= ps[i].start;
      assert HalfHour(ps[k]);
    }
  }

  /** The variables of the walk over the points. */
  datatype Walk = Walk(cursor: int, weightedTotal: real, covered: int, recordIds: seq<string>)

  ghost predicate Walked(ps: seq<Point>, start: int, target: int, w: Walk) {
    && start <= w.cursor <= target
    && Covered(ps, start, w.cursor)
    && (w.cursor == start || w.cursor == target || exists i :: 0 <= i < |ps| && ps[i].end == w.cursor)
    && w.weightedTotal == Integral(ps, start, w.cursor)
    && w.covered == w.cursor - start
    && w.recordIds == Visited(ps, start, w.cursor)
  }

  lemma WalkStarts(ps: seq<Point>, start: int, target: int)
    requires start <= target
    ensures Walked(ps, start, target, Walk(start, 0.0, 0, []))
  {
    VisitedNothing(ps, start);
    IntegralZero(ps, start, start);
  }

  /** One turn of the loop: the segment of `p` from the cursor on. */
  function Step(w: Walk, p: Point, target: int): Walk {
    var segmentEnd := if p.end < target then p.end else target;
    var span := segmentEnd - w.cursor;
    Walk(segmentEnd, w.weightedTotal + Weighted(p.intensity, span), w.covered + span, Push(w.recordIds, p.recordId))
  }

  lemma StepIntegrates(ps: seq<Point>, i: nat, start: int, target: int, w: Walk)
    requires Prepared(ps) && start <= w.cursor < target && w.weightedTotal == Integral(ps, start, w.cursor)
    requires i < |ps| && Covers(ps[i], w.cursor)
    ensures Step(w, ps[i], target).weightedTotal == Integral(ps, start, Step(w, ps[i], target).cursor)
  {
    IntegralStep(ps, i, start, w.cursor, Step(w, ps[i], target).cursor);
  }

  lemma StepVisits(ps: seq<Point>, i: nat, start: int, target: int, w: Walk)
    requires Prepared(ps) && Walked(ps, start, target, w) && w.cursor < target
    requires i < |ps| && Covers(ps[i], w.cursor)
    ensures Step(w, ps[i], target).recordIds == Visited(ps, start, Step(w, ps[i], target).cursor)
  {
    Unmet(ps, i, start, w.cursor);
    VisitedStep(ps, i, start, w.cursor, Step(w, ps[i], target).cursor);
  }

  lemma WalkStep(ps: seq<Point>, i: nat, start: int, target: int, w: Walk)
    requires Prepared(ps) && Walked(ps, start, target, w) && w.cursor < target
    requires i < |ps| && Covers(ps[i], w.cursor)
    ensures Walked(ps, start, target, Step(w, ps[i], target))
  {
    CoveredStep(ps, i, start, w.cursor, Step(w, ps[i], target).cursor);
    StepIntegrates(ps, i, start, target, w);
    StepVisits(ps, i, start, target, w);
  }

  method Advance(byStart: map<int, Point>, starts: seq<int>, start: int, target: int, w: Walk, ghost ps: seq<Point>)
    returns (next: Option<Walk>)
    requires Prepared(ps) && byStart == ByStart(ps) && starts == Starts(ps)
    requires Walked(ps, start, target, w) && w.cursor < target
    ensures next.None? ==> !CoveredAt(ps, w.cursor)
    ensures next.Some? ==> Walked(ps, start, target, next.value) && w.cursor < next.value.cursor
  {
    var found := PointCovering(byStart, starts, w.cursor, ps);
    if found.None? {
      return None;
    }
    ghost var i :| 0 <= i < |ps| && ps[i] == found.value;
    WalkStep(ps, i, start, target, w);
    next := Some(Step(w, found.value, target));
  }

  /** The walk over the points returns a window exactly when every instant of it is covered, with the
      exact average; in exact arithmetic the guards for an empty segment and for missing seconds never fire. */
  method WindowAt(byStart: map<int, Point>, starts: seq<int>, start: int, duration: int, ghost ps: seq<Point>)
    returns (window: Option<Window>)
    requires Prepared(ps) && byStart == ByStart(ps) && starts == Starts(ps)
    requires duration > 0
    ensures window == WindowOver(ps, start, duration)
  {
    var targetEnd := start + duration;
    var walk := Walk(start, 0.0, 0, []);
    WalkStarts(ps, start, targetEnd);
    while walk.cursor < targetEnd
      invariant Walked(ps, start, targetEnd, walk)
      decreases targetEnd - walk.cursor
    {
      var next := Advance(byStart, starts, start, targetEnd, walk, ps);
      if next.None? {
        return None;
      }
      walk := next.value;
    }
    assert walk.covered == duration;
    window := Some(Window(start, targetEnd, walk.weightedTotal / walk.covered as real, walk.recordIds));
  }
}
