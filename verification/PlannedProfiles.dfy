/** Physical Notification segments and profiles, from app/assets/models.py. */
module PlannedProfiles {
  import opened Basics
  import Settlement

  datatype Segment = Segment(
    assetId: string, sourceAssetId: Option<string>, date: int, period: int,
    start: int, end: int, levelFrom: real, levelTo: real, retrievedAt: int, endpoint: string)

  /** What a segment's own constructor insists on. */
  predicate ValidSegment(z: Settlement.Zone, s: Segment) {
    && s.assetId != "" && s.sourceAssetId != Some("")
    && s.start < s.end
    && var p := Settlement.PeriodAt(z, s.date, s.period);
       p.Success? && p.value.startUtc <= s.start && s.end <= p.value.endUtc
  }

  datatype GroupKey = GroupKey(assetId: string, sourceAssetId: Option<string>, date: int, period: int)

  function KeyOf(s: Segment): GroupKey {
    GroupKey(s.assetId, s.sourceAssetId, s.date, s.period)
  }

  datatype Profile = Profile(key: GroupKey, segments: seq<Segment>)

  // ------------------------------------------------------------------
  // Levels
  // ------------------------------------------------------------------

  predicate CoversInstant(s: Segment, t: int) {
    s.start <= t < s.end
  }

  function Line(start: int, end: int, levelFrom: real, levelTo: real, t: int): real
    requires start < end
  {
    var fraction := (t - start) as real / (end - start) as real;
    levelFrom + fraction * (levelTo - levelFrom)
  }

  /** Linear interpolation inside the segment, nothing outside it. */
  function SegmentLevel(s: Segment, t: int, includeEnd: bool): Option<real>
    requires s.start < s.end
  {
    if t < s.start || t > s.end then None
    else if t == s.end && !includeEnd then None
    else Some(Line(s.start, s.end, s.levelFrom, s.levelTo, t))
  }

  lemma FractionBounds(x: int, y: int)
    requires 0 <= x <= y && 0 < y
    ensures 0.0 <= x as real / y as real <= 1.0
    ensures x == y ==> x as real / y as real == 1.0
  {}

  lemma Sign(x: real, y: real)
    requires x >= 0.0
    ensures y >= 0.0 ==> x * y >= 0.0
    ensures y <= 0.0 ==> x * y <= 0.0
  {}

  lemma Part(f: real, d: real)
    requires 0.0 <= f <= 1.0
    ensures Min(0.0, d) <= f * d <= Max(0.0, d)
  {
    Sign(f, d);
    Sign(1.0 - f, d);
    DistributeDifference(1.0, f, d);
  }

  lemma Interpolates(f: real, a: real, b: real)
    requires 0.0 <= f <= 1.0
    ensures Min(a, b) <= a + f * (b - a) <= Max(a, b)
  {
    Part(f, b - a);
  }

  /** A segment has a level exactly where it covers the instant (its end too, when asked), it lies between
      the end levels, and it meets them at the ends. */
  lemma LevelBetween(s: Segment, t: int, includeEnd: bool)
    requires s.start < s.end
    ensures SegmentLevel(s, t, includeEnd).Some? <==> CoversInstant(s, t) || (includeEnd && t == s.end)
    ensures SegmentLevel(s, t, includeEnd).Some? ==>
      Min(s.levelFrom, s.levelTo) <= SegmentLevel(s, t, includeEnd).value <= Max(s.levelFrom, s.levelTo)
    ensures SegmentLevel(s, s.start, includeEnd) == Some(s.levelFrom)
    ensures SegmentLevel(s, s.end, true) == Some(s.levelTo)
  {
    FractionBounds(s.end - s.start, s.end - s.start);
    if SegmentLevel(s, t, includeEnd).Some? {
      FractionBounds(t - s.start, s.end - s.start);
      Interpolates((t - s.start) as real / (s.end - s.start) as real, s.levelFrom, s.levelTo);
    }
  }

  /** The level moves in proportion to the time passed. */
  lemma LevelIsLinear(s: Segment, t: int, u: int)
    requires s.start <= t <= u <= s.end && s.start < s.end
    ensures SegmentLevel(s, t, true).Some? && SegmentLevel(s, u, true).Some?
    ensures (SegmentLevel(s, u, true).value - SegmentLevel(s, t, true).value) * (s.end - s.start) as real
      == (s.levelTo - s.levelFrom) * (u - t) as real
  {
    ScaledLine(s, t);
    ScaledLine(s, u);
    var d, rise, x, y := (s.end - s.start) as real, s.levelTo - s.levelFrom, (t - s.start) as real,
      (u - s.start) as real;
    DistributeDifference(SegmentLevel(s, u, true).value - s.levelFrom, SegmentLevel(s, t, true).value - s.levelFrom, d);
    DistributeDifference(y, x, rise);
    assert y - x == (u - t) as real;
  }

  lemma ScaledLine(s: Segment, t: int)
    requires s.start <= t <= s.end && s.start < s.end
    ensures (SegmentLevel(s, t, true).value - s.levelFrom) * (s.end - s.start) as real
      == (t - s.start) as real * (s.levelTo - s.levelFrom)
  {
    var d, x, rise := (s.end - s.start) as real, (t - s.start) as real, s.levelTo - s.levelFrom;
    Rescale(x, d, rise);
  }

  lemma Rescale(x: real, d: real, rise: real)
    requires d > 0.0
    ensures x / d * rise * d == x * rise
  {
    assert x / d * d == x;
    assert x / d * rise * d == x / d * d * rise;
  }

  // ------------------------------------------------------------------
  // Profiles
  // ------------------------------------------------------------------

  /** Two segments share an instant. */
  predicate Clash(a: Segment, b: Segment) {
    a.start < b.end && b.start < a.end
  }

  predicate NeighboursApart(ss: seq<Segment>) {
    forall i :: 0 <= i < |ss| - 1 ==> ss[i].end <= ss[i + 1].start
  }

  ghost predicate PairwiseApart(ss: seq<Segment>) {
    forall i, j :: 0 <= i < j < |ss| ==> ss[i].end <= ss[j].start && !Clash(ss[i], ss[j])
  }

  predicate Timely(ss: seq<Segment>) {
    forall i :: 0 <= i < |ss| ==> ss[i].start < ss[i].end
  }

  /** The check on neighbours separates every pair. */
  lemma {:induction false} NeighboursSuffice(ss: seq<Segment>)
    requires Timely(ss)
    ensures NeighboursApart(ss) <==> PairwiseApart(ss)
  {
    if NeighboursApart(ss) && |ss| > 1 {
      var init := ss[..|ss| - 1];
      NeighboursSuffice(init);
      forall i, j | 0 <= i < j < |ss| ensures ss[i].end <= ss[j].start && !Clash(ss[i], ss[j]) {
        if j == |ss| - 1 {
          assert ss[j - 1].end <= ss[j].start;
          assert i < j - 1 ==> init[i].end <= init[j - 1].start;
        } else {
          assert init[i].end <= init[j].start;
        }
      }
    }
    if PairwiseApart(ss) {
      assert forall i :: 0 <= i < |ss| - 1 ==> ss[i].end <= ss[i + 1].start;
    }
  }

  datatype ProfileError = NoSegments | ForeignSegment | OverlappingSegments

  /** The profile constructor's loop over its segments. */
  method BuildProfile(key: GroupKey, segments: seq<Segment>) returns (r: Result<Profile, ProfileError>)
    ensures r.Success? <==>
      segments != [] && (forall s :: s in segments ==> KeyOf(s) == key) && NeighboursApart(segments)
    ensures r.Success? ==> r.value == Profile(key, segments)
  {
    if segments == [] {
      return Failure(NoSegments);
    }
    var previous: Option<Segment> := None;
    for i := 0 to |segments|
      invariant previous == if i == 0 then None else Some(segments[i - 1])
      invariant forall s :: s in segments[..i] ==> KeyOf(s) == key
      invariant forall k :: 0 <= k < i - 1 ==> segments[k].end <= segments[k + 1].start
    {
      var segment := segments[i];
      assert segments[..i + 1] == segments[..i] + [segment];
      if KeyOf(segment) != key {
        return Failure(ForeignSegment);
      }
      if previous.Some? && segment.start < previous.value.end {
        assert !NeighboursApart(segments) by {
          assert segments[i].start < segments[i - 1].end && i - 1 + 1 == i;
        }
        return Failure(OverlappingSegments);
      }
      previous := Some(segment);
    }
    assert segments[..|segments|] == segments;
    r := Success(Profile(key, segments));
  }

  function LevelOf(ss: seq<Segment>, t: int): Option<real>
    requires Timely(ss)
  {
    if ss == [] then None
    else if SegmentLevel(ss[0], t, false).Some? then SegmentLevel(ss[0], t, false)
    else LevelOf(ss[1..], t)
  }

  /** The first segment that has a level at the instant gives it. */
  method ProfileLevel(p: Profile, t: int) returns (level: Option<real>)
    requires Timely(p.segments)
    ensures level == LevelOf(p.segments, t)
  {
    for i := 0 to |p.segments|
      invariant LevelOf(p.segments, t) == LevelOf(p.segments[i..], t)
    {
      assert p.segments[i..][1..] == p.segments[i + 1..];
      level := SegmentLevel(p.segments[i], t, false);
      if level.Some? {
        return level;
      }
    }
    level := None;
  }

  /** Among segments apart, an instant has the level of the one segment covering it, whose end levels bound
      it, and no level exactly in a gap. */
  lemma {:induction false} LevelIsTheCovering(ss: seq<Segment>, t: int)
    requires Timely(ss) && PairwiseApart(ss)
    ensures LevelOf(ss, t).None? <==> forall s :: s in ss ==> !CoversInstant(s, t)
    ensures forall s :: s in ss && CoversInstant(s, t) ==>
      && LevelOf(ss, t) == SegmentLevel(s, t, false)
      && LevelOf(ss, t).Some?
      && Min(s.levelFrom, s.levelTo) <= LevelOf(ss, t).value <= Max(s.levelFrom, s.levelTo)
  {
    if ss != [] {
      LevelIsTheCovering(ss[1..], t);
      LevelBetween(ss[0], t, false);
      assert forall s :: s in ss ==> s == ss[0] || s in ss[1..];
      forall s | s in ss[1..] && CoversInstant(s, t)
        ensures !CoversInstant(ss[0], t)
      {
        var j :| 0 <= j < |ss[1..]| && ss[1..][j] == s;
        assert ss[0].end <= ss[j + 1].start;
      }
    }
  }
}
