/** Laws of half-hour materialisation. */
module HalfHourLaws {
  import opened Basics
  import opened HalfHours

  // ------------------------------------------------------------------
  // Splitting a window
  // ------------------------------------------------------------------

  /** A conflict is raised on a window exactly when it is raised on one of its parts. */
  lemma ConflictSplits(obs: seq<Raw>, a: int, b: int, c: int)
    requires a <= b <= c
    ensures ClashWithin(obs, a, c) <==> ClashWithin(obs, a, b) || ClashWithin(obs, b, c)
  {
    if t :| a <= t < c && Clash(obs, t) {
      assert (a <= t < b) || (b <= t < c);
    }
  }

  lemma {:induction false} TileSplits(at: int -> Interval, a: int, m: nat, n: nat)
    ensures Tile(at, a, m + n) == Tile(at, a, m) + Tile(at, a + m * HALF_HOUR, n)
  {
    if n > 0 {
      TileSplits(at, a, m, n - 1);
      assert a + m * HALF_HOUR + (n - 1) * HALF_HOUR == a + (m + n - 1) * HALF_HOUR;
    }
  }

  /** Materialising [a, c) gives the intervals of [a, b) followed by those of [b, c); so with the emitted series. */
  lemma IntervalsSplit(s: Series, threshold: real, a: int, m: nat, n: nat)
    requires ValidSeries(s) && threshold > 0.0
    ensures
      var whole, left := IntervalsOf(s, threshold, a, m + n), IntervalsOf(s, threshold, a, m);
      var right := IntervalsOf(s, threshold, a + m * HALF_HOUR, n);
      whole == left + right && Emitted(whole) == Emitted(left) + Emitted(right)
  {
    TileSplits(Reader(s, threshold), a, m, n);
    EmittedAppend(IntervalsOf(s, threshold, a, m), IntervalsOf(s, threshold, a + m * HALF_HOUR, n));
  }

  lemma EmittedStep(x: seq<Interval>, i: Interval)
    ensures Emitted(x + [i]) == Emitted(x) + EmittedOne(i)
  {
    assert (x + [i])[..|x|] == x;
  }

  lemma Associates(a: seq<Observation>, b: seq<Observation>, c: seq<Observation>)
    ensures (a + b) + c == a + (b + c)
  {}

  lemma EmittedAppendOne(x: seq<Interval>, y: seq<Interval>, i: Interval)
    requires Emitted(x + y) == Emitted(x) + Emitted(y)
    ensures Emitted(x + (y + [i])) == Emitted(x) + Emitted(y + [i])
  {
    assert x + (y + [i]) == (x + y) + [i];
    EmittedStep(x + y, i);
    EmittedStep(y, i);
    Associates(Emitted(x), Emitted(y), EmittedOne(i));
  }

  lemma {:induction false} EmittedAppend(x: seq<Interval>, y: seq<Interval>)
    ensures Emitted(x + y) == Emitted(x) + Emitted(y)
  {
    if y == [] {
      assert x + y == x;
    } else {
      var init, last := y[..|y| - 1], y[|y| - 1];
      assert y == init + [last];
      assert Emitted(x + (init + [last])) == Emitted(x) + Emitted(init + [last]) by {
        EmittedAppend(x, init);
        EmittedAppendOne(x, init, last);
      }
    }
  }

  // ------------------------------------------------------------------
  // Conservation of evidence
  // ------------------------------------------------------------------

  function OutsideOf(obs: seq<Raw>, lo: int, hi: int): seq<Raw> {
    if obs == [] then [] else
      var last := obs[|obs| - 1];
      OutsideOf(obs[..|obs| - 1], lo, hi) + if lo <= last.timestamp < hi then [] else [last]
  }

  lemma {:induction false} RawSplits(obs: seq<Raw>, lo: int, mid: int, hi: int)
    requires lo <= mid <= hi
    ensures |RawWithin(obs, lo, mid)| + |RawWithin(obs, mid, hi)| == |RawWithin(obs, lo, hi)|
  {
    if obs != [] {
      RawSplits(obs[..|obs| - 1], lo, mid, hi);
    }
  }

  lemma {:induction false} InOrOut(obs: seq<Raw>, lo: int, hi: int)
    ensures |RawWithin(obs, lo, hi)| + |OutsideOf(obs, lo, hi)| == |obs|
  {
    if obs != [] {
      InOrOut(obs[..|obs| - 1], lo, hi);
    }
  }

  lemma {:induction false} RawNone(obs: seq<Raw>, at: int)
    ensures RawWithin(obs, at, at) == []
  {
    if obs != [] {
      RawNone(obs[..|obs| - 1], at);
    }
  }

  function TotalRaw(intervals: seq<Interval>): nat {
    if intervals == [] then 0 else TotalRaw(intervals[..|intervals| - 1]) + intervals[|intervals| - 1].rawCount
  }

  function TotalSelected(intervals: seq<Interval>): nat {
    if intervals == [] then 0 else TotalSelected(intervals[..|intervals| - 1]) + |intervals[|intervals| - 1].selected|
  }

  lemma TotalsStep(x: seq<Interval>, i: Interval)
    ensures TotalRaw(x + [i]) == TotalRaw(x) + i.rawCount
    ensures TotalSelected(x + [i]) == TotalSelected(x) + |i.selected|
  {
    assert (x + [i])[..|x|] == x;
  }

  /** Each half-hour counts the raw records in it. */
  ghost predicate CountsRaw(at: int -> Interval, obs: seq<Raw>) {
    forall t :: at(t).rawCount == |RawWithin(obs, t, t + HALF_HOUR)|
  }

  lemma CountStep(obs: seq<Raw>, tile: seq<Interval>, i: Interval, start: int, last: int)
    requires start <= last && TotalRaw(tile) == |RawWithin(obs, start, last)|
    requires i.rawCount == |RawWithin(obs, last, last + HALF_HOUR)|
    ensures TotalRaw(tile + [i]) == |RawWithin(obs, start, last + HALF_HOUR)|
  {
    RawSplits(obs, start, last, last + HALF_HOUR);
    TotalsStep(tile, i);
  }

  lemma {:induction false} TileCounts(obs: seq<Raw>, at: int -> Interval, start: int, n: nat)
    requires CountsRaw(at, obs)
    ensures TotalRaw(Tile(at, start, n)) == |RawWithin(obs, start, start + n * HALF_HOUR)|
  {
    if n == 0 {
      RawNone(obs, start);
    } else {
      var last := start + (n - 1) * HALF_HOUR;
      var tile := Tile(at, start, n - 1);
      assert TotalRaw(tile + [at(last)]) == |RawWithin(obs, start, last + HALF_HOUR)| by {
        TileCounts(obs, at, start, n - 1);
        CountStep(obs, tile, at(last), start, last);
      }
    }
  }

  lemma ReaderCounts(s: Series, threshold: real)
    requires ValidSeries(s) && threshold > 0.0
    ensures CountsRaw(Reader(s, threshold), s.observations)
  {}

  lemma TileConserves(obs: seq<Raw>, at: int -> Interval, start: int, n: nat)
    requires CountsRaw(at, obs)
    ensures TotalRaw(Tile(at, start, n)) + |OutsideOf(obs, start, start + n * HALF_HOUR)| == |obs|
  {
    TileCounts(obs, at, start, n);
    InOrOut(obs, start, start + n * HALF_HOUR);
  }

  /** Every raw observation is counted in exactly one interval or as outside the bounds. */
  lemma EvidenceConserved(s: Series, threshold: real, start: int, n: nat)
    requires ValidSeries(s) && threshold > 0.0
    ensures TotalRaw(IntervalsOf(s, threshold, start, n))
          + |OutsideOf(s.observations, start, start + n * HALF_HOUR)| == |s.observations|
  {
    ReaderCounts(s, threshold);
    TileConserves(s.observations, Reader(s, threshold), start, n);
  }

  // ------------------------------------------------------------------
  // The validator of one interval
  // ------------------------------------------------------------------

  ghost predicate ValidInterval(i: Interval) {
    && Aligned(i.start)
    && i.expectedCount >= 1 && |i.selected| + |i.missing| == i.expectedCount
    && |i.selected| <= i.rawCount
    && 0.0 <= Coverage(|i.selected|, i.expectedCount) <= 1.0
    && i.reasons != []
    && (i.value.Some? <==> i.recordId.Some?)
    && (forall t :: t in i.unexpected ==> i.unexpected[t].timestamp == t)
  }

  lemma {:induction false} SelectedLength(obs: seq<Raw>, times: seq<int>)
    requires forall t :: t in times ==> !Clash(obs, t)
    ensures |SelectedAt(obs, times)| + |MissingAt(obs, times)| == |times|
    ensures forall s :: s in SelectedAt(obs, times) ==> s.timestamp in times
  {
    if times != [] {
      SelectedLength(obs, times[..|times| - 1]);
    }
  }

  ghost predicate Increasing(times: seq<int>) {
    forall i, j :: 0 <= i < j < |times| ==> times[i] < times[j]
  }

  lemma {:induction false} RawKeeps(obs: seq<Raw>, lo: int, hi: int)
    ensures forall o :: o in RawWithin(obs, lo, hi) <==> o in obs && lo <= o.timestamp < hi
  {
    if obs != [] {
      RawKeeps(obs[..|obs| - 1], lo, hi);
      assert obs == obs[..|obs| - 1] + [obs[|obs| - 1]];
    }
  }

  /** As many distinct timestamps as selected samples occur among the raw records. */
  lemma {:induction false} SelectedBelowRaw(obs: seq<Raw>, times: seq<int>, lo: int, hi: int)
    requires forall t :: t in times ==> !Clash(obs, t)
    requires Increasing(times) && forall t :: t in times ==> lo <= t < hi
    ensures |SelectedAt(obs, times)| <= |RawWithin(obs, lo, hi)|
  {
    if times == [] {
    } else {
      var last := times[|times| - 1];
      var init := times[..|times| - 1];
      assert last in times;
      forall t | t in init ensures t in times && t < last {
        var i :| 0 <= i < |init| && init[i] == t;
        assert times[i] < times[|times| - 1];
      }
      SelectedBelowRaw(obs, init, lo, last);
      RawSplits(obs, lo, last, hi);
      if Sampled(obs, last) {
        RawKeeps(obs, last, hi);
        var o :| o in obs && o.timestamp == last;
        assert o in RawWithin(obs, last, hi);
      }
    }
  }

  lemma ExpectedIncrease(start: int, cadence: int)
    requires 1 <= cadence <= 30
    ensures Increasing(ExpectedTimes(start, cadence))
  {
    var ts := ExpectedTimes(start, cadence);
    forall i, j | 0 <= i < j < |ts| ensures ts[i] < ts[j] {
      var step := cadence * MINUTE;
      assert (j - i) * step >= step;
      assert j * step == i * step + (j - i) * step;
    }
  }

  lemma CoverageBounded(selected: nat, expected: nat)
    requires 0 < expected && selected <= expected
    ensures 0.0 <= Coverage(selected, expected) <= 1.0
    ensures Coverage(selected, expected) == 1.0 <==> selected == expected
    ensures selected == 0 ==> Coverage(selected, expected) == 0.0
  {}

  lemma SomeReason(missing: bool, unexpected: bool, below: bool)
    ensures Reasons(missing, unexpected, below) != []
  {}

  lemma AssessValid(identity: Identity, start: int, threshold: real, expectedCount: nat,
                    selected: seq<Selected>, missing: seq<int>, unexpected: map<int, Selected>, raw: seq<Raw>)
    requires expectedCount > 0 && threshold > 0.0 && Aligned(start)
    requires |selected| + |missing| == expectedCount && |selected| <= |raw|
    requires forall t :: t in unexpected ==> unexpected[t].timestamp == t
    ensures ValidInterval(Assess(identity, start, threshold, expectedCount, selected, missing, unexpected, raw))
  {
    CoverageBounded(|selected|, expectedCount);
    SomeReason(missing != [], unexpected != map[], Coverage(|selected|, expectedCount) < threshold);
  }

  /** The interval validator never fires. */
  lemma IntervalValid(s: Series, threshold: real, start: int)
    requires ValidSeries(s) && threshold > 0.0 && Settled(s.observations, start, start + HALF_HOUR)
    requires Aligned(start)
    ensures ValidInterval(IntervalAt(s, threshold, start))
  {
    var obs, times := s.observations, ExpectedTimes(start, s.cadenceMinutes);
    ExpectedInside(start, s.cadenceMinutes);
    ExpectedIncrease(start, s.cadenceMinutes);
    SelectedLength(obs, times);
    SelectedBelowRaw(obs, times, start, start + HALF_HOUR);
    AssessValid(s.identity, start, threshold, |times|, SelectedAt(obs, times), MissingAt(obs, times),
                UnexpectedAt(obs, start, times), RawWithin(obs, start, start + HALF_HOUR));
  }

  /** As many half-hours as fit, each from where the one before ends, none refused by the validator. */
  ghost predicate AllValid(intervals: seq<Interval>, start: int, n: nat) {
    && |intervals| == n
    && (forall k :: 0 <= k < n ==> intervals[k].start == start + k * HALF_HOUR && ValidInterval(intervals[k]))
  }

  ghost predicate ValidAt(at: int -> Interval, t: int) {
    at(t).start == t && ValidInterval(at(t))
  }

  lemma {:induction false} TileValid(at: int -> Interval, start: int, n: nat)
    requires Aligned(start)
    requires forall t :: start <= t && t + HALF_HOUR <= start + n * HALF_HOUR && Aligned(t) ==> ValidAt(at, t)
    ensures AllValid(Tile(at, start, n), start, n)
  {
    if n > 0 {
      TileValid(at, start, n - 1);
      assert ValidAt(at, start + (n - 1) * HALF_HOUR);
    }
  }

  lemma ReaderReads(s: Series, threshold: real, start: int)
    requires ValidSeries(s) && threshold > 0.0
    ensures Reader(s, threshold)(start) == IntervalAt(s, threshold, start)
    ensures Reader(s, threshold)(start).start == start
  {}

  lemma ReaderValid(s: Series, threshold: real, t: int, start: int, end: int)
    requires ValidSeries(s) && threshold > 0.0 && Settled(s.observations, start, end)
    requires start <= t && t + HALF_HOUR <= end && Aligned(t)
    ensures ValidAt(Reader(s, threshold), t)
  {
    assert Settled(s.observations, t, t + HALF_HOUR);
    ReaderReads(s, threshold, t);
    IntervalValid(s, threshold, t);
  }

  /** Nor does it fire on any half-hour of a window without a conflict. */
  lemma WindowValid(s: Series, threshold: real, start: int, n: nat)
    requires ValidSeries(s) && threshold > 0.0 && Settled(s.observations, start, start + n * HALF_HOUR)
    requires Aligned(start)
    ensures AllValid(IntervalsOf(s, threshold, start, n), start, n)
  {
    forall t | start <= t && t + HALF_HOUR <= start + n * HALF_HOUR && Aligned(t)
      ensures ValidAt(Reader(s, threshold), t)
    {
      ReaderValid(s, threshold, t, start, start + n * HALF_HOUR);
    }
    TileValid(Reader(s, threshold), start, n);
  }

  lemma IntervalsStep(s: Series, threshold: real, start: int, n: nat)
    requires ValidSeries(s) && threshold > 0.0
    ensures IntervalsOf(s, threshold, start, n + 1)
         == IntervalsOf(s, threshold, start, n) + [IntervalAt(s, threshold, start + n * HALF_HOUR)]
  {
    ReaderReads(s, threshold, start + n * HALF_HOUR);
  }

  // ------------------------------------------------------------------
  // What the emitted series depends on
  // ------------------------------------------------------------------

  ghost predicate SameTops(obs: seq<Raw>, other: seq<Raw>) {
    forall o :: Top(obs, o) <==> Top(other, o)
  }

  /** `other` reorders or repeats `obs`, with superseded records added anywhere. */
  ghost predicate Superseding(obs: seq<Raw>, other: seq<Raw>) {
    && (forall o :: o in obs ==> o in other)
    && (forall x :: x in other && x !in obs ==>
         exists o :: o in obs && o.timestamp == x.timestamp && o.revision > x.revision)
  }

  lemma SupersededInvisible(obs: seq<Raw>, other: seq<Raw>)
    requires Superseding(obs, other)
    ensures SameTops(obs, other)
  {
    forall o ensures Top(obs, o) <==> Top(other, o) {
      if Top(obs, o) {
        forall x | x in other && x.timestamp == o.timestamp ensures x.revision <= o.revision {
          if x !in obs {
            var y :| y in obs && y.timestamp == x.timestamp && y.revision > x.revision;
          }
        }
      }
      if Top(other, o) {
        assert o in obs;
      }
    }
  }

  lemma SampledByTop(obs: seq<Raw>, t: int)
    ensures Sampled(obs, t) <==> exists o :: Top(obs, o) && o.timestamp == t
  {
    if Sampled(obs, t) {
      TopExists(obs, t);
    }
  }

  lemma SameSample(obs: seq<Raw>, other: seq<Raw>, t: int)
    requires SameTops(obs, other)
    ensures Sampled(obs, t) <==> Sampled(other, t)
    ensures Clash(obs, t) <==> Clash(other, t)
    ensures Sampled(obs, t) && !Clash(obs, t) ==> Chosen(obs, t) == Chosen(other, t)
  {
    SampledByTop(obs, t);
    SampledByTop(other, t);
    if Sampled(obs, t) && !Clash(obs, t) {
      assert TopIds(obs, t) == TopIds(other, t) by {
        assert forall o :: Top(obs, o) ==> o in other;
        assert forall o :: Top(other, o) ==> o in obs;
      }
      assert Selects(other, t, Chosen(obs, t));
      SelectsUnique(other, t, Chosen(obs, t), Chosen(other, t));
    }
  }

  lemma {:induction false} SameSelected(obs: seq<Raw>, other: seq<Raw>, times: seq<int>)
    requires SameTops(obs, other)
    ensures SelectedAt(obs, times) == SelectedAt(other, times)
    ensures MissingAt(obs, times) == MissingAt(other, times)
  {
    if times != [] {
      SameSelected(obs, other, times[..|times| - 1]);
      SameSample(obs, other, times[|times| - 1]);
    }
  }

  lemma SampledTimes(obs: seq<Raw>, t: int)
    ensures t in Times(obs) <==> Sampled(obs, t)
  {}

  lemma SameUnexpectedAt(obs: seq<Raw>, other: seq<Raw>, start: int, expected: seq<int>, t: int)
    requires SameTops(obs, other)
    ensures SameEntry(UnexpectedAt(obs, start, expected), UnexpectedAt(other, start, expected), t)
  {
    SameSample(obs, other, t);
    SampledTimes(obs, t);
    SampledTimes(other, t);
  }

  lemma SameUnexpected(obs: seq<Raw>, other: seq<Raw>, start: int, expected: seq<int>)
    requires SameTops(obs, other)
    ensures UnexpectedAt(obs, start, expected) == UnexpectedAt(other, start, expected)
  {
    var u, v := UnexpectedAt(obs, start, expected), UnexpectedAt(other, start, expected);
    forall t ensures SameEntry(u, v, t) {
      SameUnexpectedAt(obs, other, start, expected, t);
    }
    MapsEqual(u, v);
  }

  ghost predicate SameEntry(u: map<int, Selected>, v: map<int, Selected>, t: int) {
    (t in u <==> t in v) && (t in u ==> u[t] == v[t])
  }

  lemma MapsEqual(u: map<int, Selected>, v: map<int, Selected>)
    requires forall t :: SameEntry(u, v, t)
    ensures u == v
  {
    forall t ensures t in u <==> t in v
             ensures t in u ==> u[t] == v[t]
           {
      assert SameEntry(u, v, t);
    }
  }

  lemma SameSettled(obs: seq<Raw>, other: seq<Raw>, lo: int, hi: int)
    requires SameTops(obs, other)
    ensures Settled(obs, lo, hi) <==> Settled(other, lo, hi)
  {
    forall t ensures Clash(obs, t) <==> Clash(other, t) {
      SameSample(obs, other, t);
    }
  }

  /** Reordering, repeating and adding superseded records leave the emitted series, provenance included,
      as it was (and, by `SameSettled`, the conflicts). */
  lemma EmittedStable(s: Series, other: seq<Raw>, threshold: real, start: int, n: nat)
    requires ValidSeries(s) && threshold > 0.0 && SameTops(s.observations, other)
    ensures Emitted(IntervalsOf(s, threshold, start, n))
      == Emitted(IntervalsOf(s.(observations := other), threshold, start, n))
  {
    var t := s.(observations := other);
    forall at: int ensures EmittedOne(Reader(s, threshold)(at)) == EmittedOne(Reader(t, threshold)(at)) {
      SameInterval(s, other, threshold, at);
    }
    TilesEmitAlike(Reader(s, threshold), Reader(t, threshold), start, n);
  }

  lemma {:induction false} TilesEmitAlike(f: int -> Interval, g: int -> Interval, start: int, n: nat)
    requires forall at: int :: EmittedOne(f(at)) == EmittedOne(g(at))
    ensures Emitted(Tile(f, start, n)) == Emitted(Tile(g, start, n))
  {
    if n > 0 {
      var at := start + (n - 1) * HALF_HOUR;
      TilesEmitAlike(f, g, start, n - 1);
      EmittedStep(Tile(f, start, n - 1), f(at));
      EmittedStep(Tile(g, start, n - 1), g(at));
    }
  }

  lemma SameInterval(s: Series, other: seq<Raw>, threshold: real, at: int)
    requires ValidSeries(s) && threshold > 0.0 && SameTops(s.observations, other)
    ensures
      var i, j := IntervalAt(s, threshold, at), IntervalAt(s.(observations := other), threshold, at);
      i.value == j.value && i.recordId == j.recordId && i.start == j.start
  {
    var times := ExpectedTimes(at, s.cadenceMinutes);
    ExpectedInside(at, s.cadenceMinutes);
    SameSelected(s.observations, other, times);
    SameUnexpected(s.observations, other, at, times);
  }

  // ------------------------------------------------------------------
  // Full coverage and the mean
  // ------------------------------------------------------------------

  /** The distinct timestamps recorded in the half-hour. */
  ghost function TimesRecorded(obs: seq<Raw>, start: int): set<int> {
    set o | o in obs && start <= o.timestamp < start + HALF_HOUR :: o.timestamp
  }

  lemma {:induction false} NothingMissing(obs: seq<Raw>, times: seq<int>)
    ensures MissingAt(obs, times) == [] <==> forall t :: t in times ==> Sampled(obs, t)
  {
    if times != [] {
      NothingMissing(obs, times[..|times| - 1]);
      assert times == times[..|times| - 1] + [times[|times| - 1]];
    }
  }

  /** One sample for each of the times, in order, and each the newest recorded there. */
  ghost predicate SamplesOf(obs: seq<Raw>, times: seq<int>, ss: seq<Selected>) {
    |ss| == |times| && forall i :: 0 <= i < |times| ==> Selects(obs, times[i], ss[i])
  }

  lemma SamplesAppend(obs: seq<Raw>, times: seq<int>, ss: seq<Selected>, last: int)
    requires SamplesOf(obs, times, ss) && Sampled(obs, last) && !Clash(obs, last)
    ensures SamplesOf(obs, times + [last], ss + [Chosen(obs, last)])
  {}

  lemma {:induction false} AllSampled(obs: seq<Raw>, times: seq<int>)
    requires forall t :: t in times ==> Sampled(obs, t) && !Clash(obs, t)
    ensures SamplesOf(obs, times, SelectedAt(obs, times))
  {
    if times != [] {
      var init, last := times[..|times| - 1], times[|times| - 1];
      assert last in times && forall t :: t in init ==> t in times;
      AllSampled(obs, init);
      SamplesAppend(obs, init, SelectedAt(obs, init), last);
      assert init + [last] == times;
    }
  }

  /** At threshold 1 an interval has a value exactly when the timestamps recorded in it are the cadence grid;
      then its samples are the newest of each grid time, in order, and the value is their mean. */
  lemma FullCoverageIff(s: Series, start: int)
    requires ValidSeries(s) && Settled(s.observations, start, start + HALF_HOUR)
    ensures IntervalAt(s, 1.0, start).value.Some? <==>
      TimesRecorded(s.observations, start) == set t | t in ExpectedTimes(start, s.cadenceMinutes)
    ensures
      var i := IntervalAt(s, 1.0, start);
      i.value.Some? ==>
        && SamplesOf(s.observations, ExpectedTimes(start, s.cadenceMinutes), i.selected)
        && i.selected != [] && i.value == Some(Total(i.selected) / |i.selected| as real)
  {
    var obs, times := s.observations, ExpectedTimes(start, s.cadenceMinutes);
    ExpectedInside(start, s.cadenceMinutes);
    SelectedLength(obs, times);
    ValueAtFull(s.identity, start, |times|, SelectedAt(obs, times), MissingAt(obs, times),
                UnexpectedAt(obs, start, times), RawWithin(obs, start, start + HALF_HOUR));
    NothingMissing(obs, times);
    NothingUnexpected(obs, start, times);
    RecordedIs(obs, start, times);
    if IntervalAt(s, 1.0, start).value.Some? {
      AllSampled(obs, times);
      SumIsQuotient(SelectedAt(obs, times), |times| as real);
    }
  }

  lemma NothingUnexpected(obs: seq<Raw>, start: int, times: seq<int>)
    requires Settled(obs, start, start + HALF_HOUR)
    ensures UnexpectedAt(obs, start, times) == map[] <==>
      forall t :: start <= t < start + HALF_HOUR && Sampled(obs, t) ==> t in times
  {
    var unexpected := UnexpectedAt(obs, start, times);
    forall t | start <= t < start + HALF_HOUR && Sampled(obs, t) && t !in times ensures t in unexpected {}
    if unexpected != map[] {
      var t :| t in unexpected;
    }
  }

  lemma ValueAtFull(identity: Identity, start: int, expectedCount: nat, selected: seq<Selected>, missing: seq<int>,
                    unexpected: map<int, Selected>, raw: seq<Raw>)
    requires expectedCount > 0 && |selected| + |missing| == expectedCount
    ensures Assess(identity, start, 1.0, expectedCount, selected, missing, unexpected, raw).value.Some? <==>
       missing == [] && unexpected == map[]
  {
    CoverageBounded(|selected|, expectedCount);
  }

  ghost predicate SampledExactly(obs: seq<Raw>, start: int, times: seq<int>) {
    && (forall t :: t in times ==> Sampled(obs, t))
    && (forall t :: start <= t < start + HALF_HOUR && Sampled(obs, t) ==> t in times)
  }

  lemma RecordedIs(obs: seq<Raw>, start: int, times: seq<int>)
    requires forall t :: t in times ==> start <= t < start + HALF_HOUR
    ensures TimesRecorded(obs, start) == (set t | t in times) <==> SampledExactly(obs, start, times)
  {
    var recorded, grid := TimesRecorded(obs, start), set t | t in times;
    forall t ensures t in recorded <==> start <= t < start + HALF_HOUR && Sampled(obs, t) {}
    forall t ensures t in grid <==> t in times {}
    if recorded == grid {
      forall t ensures t in recorded <==> t in times {}
    }
    if SampledExactly(obs, start, times) {
      forall t ensures t in recorded <==> t in grid {
        assert t in recorded ==> Sampled(obs, t);
        assert t in grid ==> t in times && Sampled(obs, t);
      }
      assert recorded == grid;
    }
  }

  function Total(ss: seq<Selected>): real {
    if ss == [] then 0.0 else Total(ss[..|ss| - 1]) + ss[|ss| - 1].value
  }

  lemma AddQuotients(x: real, y: real, n: real)
    requires n > 0.0
    ensures x / n + y / n == (x + y) / n
  {}

  /** Dividing first and summing is summing and dividing. */
  lemma {:induction false} SumIsQuotient(ss: seq<Selected>, n: real)
    requires n > 0.0
    ensures Sum(ss, n) == Total(ss) / n
  {
    if ss != [] {
      SumIsQuotient(ss[..|ss| - 1], n);
      AddQuotients(Total(ss[..|ss| - 1]), ss[|ss| - 1].value, n);
    }
  }

  lemma {:induction false} TotalBetween(ss: seq<Selected>, lo: real, hi: real)
    requires forall s :: s in ss ==> lo <= s.value <= hi
    ensures lo * |ss| as real <= Total(ss) <= hi * |ss| as real
  {
    if ss != [] {
      TotalBetween(ss[..|ss| - 1], lo, hi);
      assert ss[|ss| - 1] in ss;
      assert lo * |ss| as real == lo * (|ss| - 1) as real + lo;
      assert hi * |ss| as real == hi * (|ss| - 1) as real + hi;
    }
  }

  lemma QuotientBetween(x: real, lo: real, hi: real, n: real)
    requires n > 0.0 && lo * n <= x <= hi * n
    ensures lo <= x / n <= hi
  {}

  /** The emitted value is the arithmetic mean of the selected values, hence between the least and the greatest. */
  lemma MeanBetween(ss: seq<Selected>, lo: real, hi: real)
    requires ss != [] && forall s :: s in ss ==> lo <= s.value <= hi
    ensures Mean(ss) == Total(ss) / |ss| as real
    ensures lo <= Mean(ss) <= hi
  {
    SumIsQuotient(ss, |ss| as real);
    TotalBetween(ss, lo, hi);
    QuotientBetween(Total(ss), lo, hi, |ss| as real);
  }

  lemma {:induction false} SelectedFromTops(obs: seq<Raw>, times: seq<int>, x: Selected)
    requires x in SelectedAt(obs, times)
    ensures exists o :: Top(obs, o) && o.timestamp in times && o.value == x.value
  {
    var init, last := times[..|times| - 1], times[|times| - 1];
    assert times == init + [last];
    if x in SelectedAt(obs, init) {
      SelectedFromTops(obs, init, x);
      var o :| Top(obs, o) && o.timestamp in init && o.value == x.value;
      assert o.timestamp in times;
    } else {
      var o :| Top(obs, o) && o.timestamp == last && o.revision == x.revision;
      assert o.timestamp in times;
    }
  }

  /** An emitted value never leaves the range of the newest values recorded in its half-hour. */
  lemma ValueBetween(s: Series, threshold: real, start: int, lo: real, hi: real)
    requires ValidSeries(s) && threshold > 0.0 && IntervalAt(s, threshold, start).value.Some?
    requires forall o :: Top(s.observations, o) && start <= o.timestamp < start + HALF_HOUR ==> lo <= o.value <= hi
    ensures lo <= IntervalAt(s, threshold, start).value.value <= hi
  {
    var times := ExpectedTimes(start, s.cadenceMinutes);
    var ss := SelectedAt(s.observations, times);
    ExpectedInside(start, s.cadenceMinutes);
    forall x | x in ss ensures lo <= x.value <= hi {
      SelectedFromTops(s.observations, times, x);
    }
    MeanBetween(ss, lo, hi);
  }
}
