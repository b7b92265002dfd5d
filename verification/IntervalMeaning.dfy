/** What a materialised half-hour tells its reader, in terms of the raw records' own fields. */
module IntervalMeaning {
  import opened Basics
  import opened HalfHours
  import opened HalfHourLaws
  import Materialize

  // ------------------------------------------------------------------
  // The grid
  // ------------------------------------------------------------------

  predicate StepsFrom(start: int, cadence: int, n: int, t: int) {
    t == start + n * (cadence * MINUTE)
  }

  /** In the half-hour, a whole number of cadences after its start. */
  ghost predicate GridTime(start: int, cadence: int, t: int) {
    start <= t < start + HALF_HOUR && exists n :: StepsFrom(start, cadence, n, t)
  }

  lemma AtLeastOnce(d: int, step: int)
    requires d >= 1 && step > 0
    ensures d * step >= step
  {}

  lemma LessTimes(a: int, b: int, step: int)
    requires step > 0 && a < b
    ensures a * step < b * step
  {
    AtLeastOnce(b - a, step);
    assert b * step == a * step + (b - a) * step;
  }

  lemma StepInside(cadence: int, n: int)
    requires 1 <= cadence <= 30 && 30 % cadence == 0
    requires 0 <= n * (cadence * MINUTE) < HALF_HOUR
    ensures 0 <= n < PerHalfHour(cadence)
  {
    var step, per := cadence * MINUTE, PerHalfHour(cadence);
    assert per * cadence == 30;
    assert per * step == HALF_HOUR;
    if n < 0 {
      LessTimes(n, 0, step);
    } else if per < n {
      LessTimes(per, n, step);
    }
  }

  lemma ExpectedMeans(start: int, cadence: int, t: int)
    requires 1 <= cadence <= 30 && 30 % cadence == 0
    ensures t in ExpectedTimes(start, cadence) <==> GridTime(start, cadence, t)
  {
    var ts := ExpectedTimes(start, cadence);
    if t in ts {
      var i :| 0 <= i < |ts| && ts[i] == t;
      ExpectedInside(start, cadence);
      assert StepsFrom(start, cadence, i, t);
    }
    if GridTime(start, cadence, t) {
      var n :| StepsFrom(start, cadence, n, t);
      StepInside(cadence, n);
      assert ts[n] == t;
    }
  }

  // ------------------------------------------------------------------
  // The records
  // ------------------------------------------------------------------

  ghost predicate Recorded(obs: seq<Raw>, t: int) {
    exists o :: o in obs && o.timestamp == t
  }

  /** Nothing is recorded at its time with a higher revision. */
  ghost predicate NewestThere(obs: seq<Raw>, o: Raw) {
    o in obs && forall x :: x in obs && x.timestamp == o.timestamp ==> x.revision <= o.revision
  }

  /** The sample of its time: the value and revision of the newest records, all of which agree, and their ids. */
  ghost predicate SampleTells(obs: seq<Raw>, s: Selected) {
    && (exists o :: NewestThere(obs, o) && o.timestamp == s.timestamp)
    && (forall o :: NewestThere(obs, o) && o.timestamp == s.timestamp ==>
         o.value == s.value && o.revision == s.revision && o.sourceRecordId in s.sourceRecordIds)
    && (forall id :: id in s.sourceRecordIds ==>
         exists o :: NewestThere(obs, o) && o.timestamp == s.timestamp && o.sourceRecordId == id)
  }

  lemma SelectsTells(obs: seq<Raw>, t: int, s: Selected)
    requires Selects(obs, t, s)
    ensures s.timestamp == t && SampleTells(obs, s)
  {
    forall o ensures NewestThere(obs, o) <==> Top(obs, o) {}
    var top :| Top(obs, top) && top.timestamp == t && top.revision == s.revision;
    forall o | NewestThere(obs, o) && o.timestamp == t ensures o.revision == s.revision {
      assert o.revision <= top.revision <= o.revision;
    }
  }

  /** Samples of exactly the recorded times, in time order. */
  ghost predicate SamplesTell(obs: seq<Raw>, times: seq<int>, ss: seq<Selected>) {
    && (forall s :: s in ss ==> s.timestamp in times && SampleTells(obs, s))
    && (forall t :: t in times && Recorded(obs, t) ==> exists s :: s in ss && s.timestamp == t)
    && (forall i, j :: 0 <= i < j < |ss| ==> ss[i].timestamp < ss[j].timestamp)
  }

  lemma TimesBefore(times: seq<int>)
    requires Increasing(times) && times != []
    ensures Increasing(times[..|times| - 1])
    ensures forall t :: t in times[..|times| - 1] ==> t in times && t < times[|times| - 1]
    ensures forall t :: t in times ==> t in times[..|times| - 1] || t == times[|times| - 1]
  {
    var init, last := times[..|times| - 1], times[|times| - 1];
    assert times == init + [last];
    forall t | t in init ensures t < last {
      var i :| 0 <= i < |init| && init[i] == t;
      assert times[i] < times[|times| - 1];
    }
  }

  lemma SampleAdded(obs: seq<Raw>, init: seq<int>, last: int, ss: seq<Selected>, times: seq<int>)
    requires SamplesTell(obs, init, ss) && Sampled(obs, last) && !Clash(obs, last)
    requires forall t :: t in times <==> t in init || t == last
    requires forall t :: t in init ==> t < last
    ensures SamplesTell(obs, times, ss + [Chosen(obs, last)])
  {
    var s, more := Chosen(obs, last), ss + [Chosen(obs, last)];
    SelectsTells(obs, last, s);
    assert s in more && forall x :: x in ss ==> x in more;
    forall i, j | 0 <= i < j < |more| ensures more[i].timestamp < more[j].timestamp {
      if j == |ss| {
        assert ss[i] in ss;
      }
    }
  }

  lemma SampleSkipped(obs: seq<Raw>, init: seq<int>, last: int, ss: seq<Selected>, times: seq<int>)
    requires SamplesTell(obs, init, ss) && !Recorded(obs, last)
    requires forall t :: t in times <==> t in init || t == last
    ensures SamplesTell(obs, times, ss)
  {}

  lemma SelectedStep(obs: seq<Raw>, times: seq<int>)
    requires times != []
    ensures
      var init, last := times[..|times| - 1], times[|times| - 1];
      SelectedAt(obs, times) == if Sampled(obs, last) && !Clash(obs, last)
                                then SelectedAt(obs, init) + [Chosen(obs, last)] else SelectedAt(obs, init)
  {}

  lemma SamplesStep(obs: seq<Raw>, times: seq<int>, ss: seq<Selected>)
    requires times != [] && Increasing(times) && !Clash(obs, times[|times| - 1])
    requires SamplesTell(obs, times[..|times| - 1], ss)
    ensures
      var last := times[|times| - 1];
      SamplesTell(obs, times, if Sampled(obs, last) then ss + [Chosen(obs, last)] else ss)
  {
    var init, last := times[..|times| - 1], times[|times| - 1];
    TimesBefore(times);
    if Sampled(obs, last) {
      SampleAdded(obs, init, last, ss, times);
    } else {
      SampleSkipped(obs, init, last, ss, times);
    }
  }

  lemma {:induction false} SelectedTell(obs: seq<Raw>, times: seq<int>)
    requires Increasing(times) && forall t :: t in times ==> !Clash(obs, t)
    ensures SamplesTell(obs, times, SelectedAt(obs, times))
  {
    if times == [] {
      assert SelectedAt(obs, times) == [];
    } else {
      TimesBefore(times);
      SelectedTell(obs, times[..|times| - 1]);
      assert times[|times| - 1] in times;
      SamplesStep(obs, times, SelectedAt(obs, times[..|times| - 1]));
      SelectedStep(obs, times);
    }
  }

  lemma {:induction false} MissingTell(obs: seq<Raw>, times: seq<int>)
    ensures forall t :: t in MissingAt(obs, times) <==> t in times && !Recorded(obs, t)
  {
    if times != [] {
      MissingTell(obs, times[..|times| - 1]);
      assert times == times[..|times| - 1] + [times[|times| - 1]];
    }
  }

  // ------------------------------------------------------------------
  // The half-hour
  // ------------------------------------------------------------------

  /** So many of the expected times are sampled that the threshold is met. */
  predicate Enough(selected: nat, expected: nat, threshold: real) {
    selected as real >= threshold * expected as real
  }

  lemma EnoughMeans(selected: nat, expected: nat, threshold: real)
    requires expected > 0
    ensures Coverage(selected, expected) >= threshold <==> Enough(selected, expected, threshold)
    ensures threshold > 0.0 && selected == 0 ==> !Enough(selected, expected, threshold)
  {
    var n := expected as real;
    assert Coverage(selected, expected) * n == selected as real;
  }

  /** Whether there is a value, which one, and the reasons given. */
  ghost predicate VerdictTells(i: Interval, identity: Identity, start: int, threshold: real) {
    var enough := Enough(|i.selected|, i.expectedCount, threshold);
    && i.recordId == (if i.value.Some? then Some(RecordId(identity, start, i.selected)) else None)
    && (i.value.Some? <==> enough && i.unexpected == map[])
    && (i.value.Some? ==> i.selected != [] && i.value == Some(Total(i.selected) / |i.selected| as real))
    && (MissingExpected in i.reasons <==> i.missing != [])
    && (UnexpectedTimestamps in i.reasons <==> i.unexpected != map[])
    && (BelowThreshold in i.reasons <==> !enough)
    && (PartialAccepted in i.reasons <==> i.value.Some? && i.missing != [])
    && (Available in i.reasons <==> i.value.Some? && i.missing == [])
  }

  lemma AssessTells(identity: Identity, start: int, threshold: real, expectedCount: nat,
                    selected: seq<Selected>, missing: seq<int>, unexpected: map<int, Selected>, raw: seq<Raw>)
    requires expectedCount > 0 && threshold > 0.0 && |selected| + |missing| == expectedCount
    ensures
      VerdictTells(Assess(identity, start, threshold, expectedCount, selected, missing, unexpected, raw),
                   identity, start, threshold)
  {
    EnoughMeans(|selected|, expectedCount, threshold);
    ReasonsMean(missing != [], unexpected != map[], Coverage(|selected|, expectedCount) < threshold);
    MeanTells(selected);
  }

  lemma MeanTells(selected: seq<Selected>)
    ensures selected != [] ==> Mean(selected) == Total(selected) / |selected| as real
  {
    if selected != [] {
      SumIsQuotient(selected, |selected| as real);
    }
  }

  lemma ReasonsMean(missing: bool, unexpected: bool, below: bool)
    ensures MissingExpected in Reasons(missing, unexpected, below) <==> missing
    ensures UnexpectedTimestamps in Reasons(missing, unexpected, below) <==> unexpected
    ensures BelowThreshold in Reasons(missing, unexpected, below) <==> below
    ensures PartialAccepted in Reasons(missing, unexpected, below) <==> missing && !unexpected && !below
    ensures Available in Reasons(missing, unexpected, below) <==> !missing && !unexpected && !below
  {}

  /** What is listed: the newest sample of each recorded grid time, the grid times without a record, and the newest
      samples recorded off the grid. */
  ghost predicate EvidenceTells(i: Interval, obs: seq<Raw>, cadence: int, start: int)
    requires 1 <= cadence <= 30
  {
    && i.expectedCount * cadence == 30 && |i.selected| + |i.missing| == i.expectedCount
    && SamplesTell(obs, ExpectedTimes(start, cadence), i.selected)
    && (forall t :: t in ExpectedTimes(start, cadence) <==> GridTime(start, cadence, t))
    && (forall t :: t in i.missing <==> GridTime(start, cadence, t) && !Recorded(obs, t))
    && (forall t :: t in i.unexpected <==>
         start <= t < start + HALF_HOUR && !GridTime(start, cadence, t) && Recorded(obs, t))
    && (forall t :: t in i.unexpected ==> i.unexpected[t].timestamp == t && SampleTells(obs, i.unexpected[t]))
  }

  lemma WholeGrid(cadence: int)
    requires 1 <= cadence <= 30 && 30 % cadence == 0
    ensures PerHalfHour(cadence) * cadence == 30
  {}

  /** Samples, gaps and strays, whatever the grid. */
  ghost predicate Sorted(obs: seq<Raw>, start: int, times: seq<int>, selected: seq<Selected>, missing: seq<int>,
                         unexpected: map<int, Selected>)
  {
    && |selected| + |missing| == |times|
    && SamplesTell(obs, times, selected)
    && (forall t :: t in missing <==> t in times && !Recorded(obs, t))
    && (forall t :: t in unexpected <==> start <= t < start + HALF_HOUR && t !in times && Recorded(obs, t))
    && (forall t :: t in unexpected ==> unexpected[t].timestamp == t && SampleTells(obs, unexpected[t]))
  }

  lemma RecordsSorted(obs: seq<Raw>, start: int, times: seq<int>)
    requires Increasing(times) && (forall t :: t in times ==> start <= t < start + HALF_HOUR)
    requires Settled(obs, start, start + HALF_HOUR)
    ensures Sorted(obs, start, times, SelectedAt(obs, times), MissingAt(obs, times), UnexpectedAt(obs, start, times))
  {
    assert forall t :: t in times ==> !Clash(obs, t);
    SelectedLength(obs, times);
    SelectedTell(obs, times);
    MissingTell(obs, times);
    UnexpectedTell(obs, start, times);
  }

  lemma OnTheGrid(i: Interval, obs: seq<Raw>, cadence: int, start: int)
    requires 1 <= cadence <= 30 && 30 % cadence == 0 && i.expectedCount == PerHalfHour(cadence)
    requires Sorted(obs, start, ExpectedTimes(start, cadence), i.selected, i.missing, i.unexpected)
    ensures EvidenceTells(i, obs, cadence, start)
  {
    WholeGrid(cadence);
    forall t ensures t in ExpectedTimes(start, cadence) <==> GridTime(start, cadence, t) {
      ExpectedMeans(start, cadence, t);
    }
  }

  lemma EvidenceListed(s: Series, threshold: real, start: int)
    requires ValidSeries(s) && threshold > 0.0 && Settled(s.observations, start, start + HALF_HOUR)
    ensures EvidenceTells(IntervalAt(s, threshold, start), s.observations, s.cadenceMinutes, start)
  {
    ExpectedInside(start, s.cadenceMinutes);
    ExpectedIncrease(start, s.cadenceMinutes);
    RecordsSorted(s.observations, start, ExpectedTimes(start, s.cadenceMinutes));
    OnTheGrid(IntervalAt(s, threshold, start), s.observations, s.cadenceMinutes, start);
  }

  /** A record of the half-hour has the id. */
  ghost predicate RecordedAs(obs: seq<Raw>, start: int, id: string) {
    exists o :: o in obs && start <= o.timestamp < start + HALF_HOUR && o.sourceRecordId == id
  }

  /** For every threshold: a value exists exactly when nothing is recorded off the grid and enough of the grid is
      recorded, and it is the mean of the newest values recorded on the grid. */
  lemma IntervalTells(s: Series, threshold: real, start: int)
    requires ValidSeries(s) && threshold > 0.0 && Settled(s.observations, start, start + HALF_HOUR)
    ensures
      var i := IntervalAt(s, threshold, start);
      && i.start == start
      && EvidenceTells(i, s.observations, s.cadenceMinutes, start)
      && VerdictTells(i, s.identity, start, threshold)
  {
    EvidenceListed(s, threshold, start);
    VerdictListed(s, threshold, start);
  }

  /** The half-hour names exactly the records made in it. */
  lemma RecordsTell(s: Series, threshold: real, start: int)
    requires ValidSeries(s) && threshold > 0.0
    ensures forall id :: id in IntervalAt(s, threshold, start).rawIds <==> RecordedAs(s.observations, start, id)
  {
    RawKeeps(s.observations, start, start + HALF_HOUR);
  }

  lemma VerdictListed(s: Series, threshold: real, start: int)
    requires ValidSeries(s) && threshold > 0.0 && Settled(s.observations, start, start + HALF_HOUR)
    ensures VerdictTells(IntervalAt(s, threshold, start), s.identity, start, threshold)
  {
    var obs, times := s.observations, ExpectedTimes(start, s.cadenceMinutes);
    ExpectedInside(start, s.cadenceMinutes);
    SelectedLength(obs, times);
    AssessTells(s.identity, start, threshold, |times|, SelectedAt(obs, times), MissingAt(obs, times),
                UnexpectedAt(obs, start, times), RawWithin(obs, start, start + HALF_HOUR));
  }

  // ------------------------------------------------------------------
  // The window and the emitted series
  // ------------------------------------------------------------------

  /** The arguments that are accepted, and the first complaint otherwise. */
  lemma ArgumentsTell(start: int, end: int, threshold: real)
    ensures
      var e := Materialize.ArgumentError(start, end, threshold);
      && (e.None? <==> start % HALF_HOUR == 0 && end % HALF_HOUR == 0 && start < end && 0.0 < threshold <= 1.0)
      && (e == Some(Materialize.StartUnaligned) <==> start % HALF_HOUR != 0)
      && (e == Some(Materialize.EndUnaligned) <==> start % HALF_HOUR == 0 && end % HALF_HOUR != 0)
      && (e == Some(Materialize.EmptyWindow) <==>
           start % HALF_HOUR == 0 && end % HALF_HOUR == 0 && end <= start)
  {}

  /** The observation is the interval's value. */
  predicate Shows(o: Observation, i: Interval) {
    i.value == Some(o.value) && i.recordId == Some(o.recordId) && i.start == o.start
  }

  ghost predicate InTimeOrder(intervals: seq<Interval>) {
    forall i, j :: 0 <= i < j < |intervals| ==> intervals[i].start < intervals[j].start
  }

  lemma OneShown(i: Interval, o: Observation)
    ensures o in EmittedOne(i) <==> Shows(o, i)
  {}

  lemma {:induction false} EmittedHas(intervals: seq<Interval>, o: Observation)
    ensures o in Emitted(intervals) <==> exists i :: i in intervals && Shows(o, i)
  {
    if intervals != [] {
      var init, last := intervals[..|intervals| - 1], intervals[|intervals| - 1];
      EmittedHas(init, o);
      assert Emitted(intervals) == Emitted(init) + EmittedOne(last);
      OneShown(last, o);
      if i :| i in init && Shows(o, i) {
        assert i in intervals;
      }
      if i :| i in intervals && Shows(o, i) {
        assert intervals == init + [last] && (i in init || i == last);
      }
      assert last in intervals;
    }
  }

  /** The emitted series shows exactly the half-hours with a value, in time order. */
  lemma {:induction false} EmittedTells(intervals: seq<Interval>)
    requires InTimeOrder(intervals)
    ensures forall o :: o in Emitted(intervals) <==> exists i :: i in intervals && Shows(o, i)
    ensures forall i, j :: 0 <= i < j < |Emitted(intervals)| ==>
      Emitted(intervals)[i].start < Emitted(intervals)[j].start
  {
    forall o ensures o in Emitted(intervals) <==> exists i :: i in intervals && Shows(o, i) {
      EmittedHas(intervals, o);
    }
    if intervals != [] {
      var init, last := intervals[..|intervals| - 1], intervals[|intervals| - 1];
      EmittedTells(init);
      EmittedBefore(intervals);
    }
  }

  lemma EmittedBefore(intervals: seq<Interval>)
    requires intervals != [] && InTimeOrder(intervals)
    ensures
      var init, last := intervals[..|intervals| - 1], intervals[|intervals| - 1];
      forall o :: o in Emitted(init) ==> o.start < last.start
  {
    var init, last := intervals[..|intervals| - 1], intervals[|intervals| - 1];
    forall o | o in Emitted(init) ensures o.start < last.start {
      EmittedHas(init, o);
      var i :| i in init && Shows(o, i);
      var k :| 0 <= k < |init| && init[k] == i;
      assert intervals[k] == i;
    }
  }

  lemma UnexpectedTell(obs: seq<Raw>, start: int, times: seq<int>)
    requires Settled(obs, start, start + HALF_HOUR)
    ensures
      var u := UnexpectedAt(obs, start, times);
      && (forall t :: t in u <==> start <= t < start + HALF_HOUR && t !in times && Recorded(obs, t))
      && (forall t :: t in u ==> u[t].timestamp == t && SampleTells(obs, u[t]))
  {
    var u := UnexpectedAt(obs, start, times);
    forall t | start <= t < start + HALF_HOUR && t !in times && Recorded(obs, t) ensures t in u {
      assert Sampled(obs, t);
    }
    forall t | t in u ensures u[t].timestamp == t && SampleTells(obs, u[t]) {
      SelectsTells(obs, t, u[t]);
    }
  }
}
