/** The materialisation job's loops, from app/history/materialize.py. */
module Materialize {
  import opened Basics
  import opened HalfHours
  import opened HalfHourLaws

  datatype MaterializeError = StartUnaligned | EndUnaligned | EmptyWindow | BadThreshold | ConflictingValues

  datatype Materialization = Materialization(
    start: int, end: int, threshold: real, rawCount: nat, selectedCount: nat,
    outsideCount: nat, outsideTimes: set<int>, outsideIds: set<string>,
    intervals: seq<Interval>, observations: seq<Observation>)

  // ------------------------------------------------------------------
  // _select_highest_revisions
  // ------------------------------------------------------------------

  method HighestRevision(candidates: seq<Raw>) returns (highest: nat)
    requires candidates != []
    ensures exists o :: o in candidates && o.revision == highest
    ensures forall o :: o in candidates ==> o.revision <= highest
  {
    highest := candidates[0].revision;
    for i := 1 to |candidates|
      invariant exists o :: o in candidates && o.revision == highest
      invariant forall o :: o in candidates[..i] ==> o.revision <= highest
    {
      assert candidates[..i + 1] == candidates[..i] + [candidates[i]];
      if candidates[i].revision > highest {
        highest := candidates[i].revision;
      }
    }
    assert candidates[..|candidates|] == candidates;
  }

  /** The records of one timestamp: one logical sample, or a conflict. */
  method SelectAt(t: int, candidates: seq<Raw>) returns (s: Option<Selected>)
    requires candidates != [] && forall o :: o in candidates ==> o.timestamp == t
    ensures s.None? <==> Clash(candidates, t)
    ensures s.Some? ==> Selects(candidates, t, s.value)
  {
    var highestRevision := HighestRevision(candidates);
    var highest := set o | o in candidates && o.revision == highestRevision;
    var values := set o | o in highest :: o.value;
    assert forall o :: o in highest <==> Top(candidates, o);
    assert exists o :: o in highest by {
      var o :| o in candidates && o.revision == highestRevision;
      assert o in highest;
    }
    var first :| first in highest;
    if values != {first.value} {
      assert Clash(candidates, t) by {
        assert first.value in values;
        var v :| v in values && v != first.value;
        var other :| other in highest && other.value == v;
        assert Top(candidates, first) && Top(candidates, other);
      }
      return None;
    }
    assert forall o :: o in highest ==> o.value in values;
    var ids := set o | o in highest :: o.sourceRecordId;
    assert ids == TopIds(candidates, t);
    s := Some(Selected(t, first.value, highestRevision, ids));
  }

  lemma TopOfGroup(obs: seq<Raw>, group: seq<Raw>, t: int)
    requires forall o :: o in group <==> o in obs && o.timestamp == t
    ensures forall o :: Top(group, o) <==> Top(obs, o) && o.timestamp == t
  {}

  /** Selection needs only the records at its timestamp. */
  lemma GroupDecides(obs: seq<Raw>, group: seq<Raw>, t: int)
    requires forall o :: o in group <==> o in obs && o.timestamp == t
    ensures Clash(group, t) <==> Clash(obs, t)
    ensures forall s :: Selects(group, t, s) <==> Selects(obs, t, s)
  {
    TopOfGroup(obs, group, t);
    assert TopIds(group, t) == TopIds(obs, t);
  }

  lemma SomeTime(times: set<int>)
    ensures times == {} || exists t :: t in times
  {
    if forall t :: t !in times {
      assert times == {};
    }
  }

  method GroupByTimestamp(obs: seq<Raw>) returns (groups: map<int, seq<Raw>>)
    ensures forall t :: t in groups <==> Sampled(obs, t)
    ensures forall t, o :: t in groups ==> (o in groups[t] <==> o in obs && o.timestamp == t)
  {
    groups := map[];
    for i := 0 to |obs|
      invariant forall t :: t in groups <==> Sampled(obs[..i], t)
      invariant forall t, o :: t in groups ==> (o in groups[t] <==> o in obs[..i] && o.timestamp == t)
    {
      var t := obs[i].timestamp;
      assert obs[..i + 1] == obs[..i] + [obs[i]];
      assert forall o :: o in obs[..i + 1] <==> o in obs[..i] || o == obs[i];
      groups := groups[t := (if t in groups then groups[t] else []) + [obs[i]]];
    }
    assert obs[..|obs|] == obs;
  }

  /** Fails exactly when two records of the highest revision at one timestamp disagree; otherwise holds,
      for every recorded timestamp and no other, its one logical sample. */
  method SelectHighestRevisions(obs: seq<Raw>) returns (r: Result<map<int, Selected>, MaterializeError>)
    ensures r.Failure? ==> r.error == ConflictingValues && exists t :: Clash(obs, t)
    ensures r.Success? ==> forall t :: !Clash(obs, t)
    ensures r.Success? ==> forall t :: t in r.value <==> Sampled(obs, t)
    ensures r.Success? ==> forall t :: t in r.value ==> Selects(obs, t, r.value[t])
  {
    var groups := GroupByTimestamp(obs);
    var selected: map<int, Selected> := map[];
    var pending := groups.Keys;
    while pending != {}
      invariant pending <= groups.Keys
      invariant forall t :: t in selected <==> t in groups && t !in pending
      invariant forall t :: t in selected ==> Selects(obs, t, selected[t]) && !Clash(obs, t)
      decreases |pending|
    {
      SomeTime(pending);
      var t :| t in pending;
      GroupDecides(obs, groups[t], t);
      var s := SelectAt(t, groups[t]);
      if s.None? {
        return Failure(ConflictingValues);
      }
      selected := selected[t := s.value];
      pending := pending - {t};
    }
    forall t ensures !Clash(obs, t) {
      if Clash(obs, t) {
        assert Sampled(obs, t);
      }
    }
    r := Success(selected);
  }

  // ------------------------------------------------------------------
  // Bucketing
  // ------------------------------------------------------------------

  function BucketStart(t: int, windowStart: int): int {
    windowStart + ((t - windowStart) / HALF_HOUR) * HALF_HOUR
  }

  function GetRaw(m: map<int, seq<Raw>>, k: int): seq<Raw> {
    if k in m then m[k] else []
  }

  lemma WithinStep(obs: seq<Raw>, i: nat, lo: int, hi: int)
    requires i < |obs|
    ensures RawWithin(obs[..i + 1], lo, hi)
         == RawWithin(obs[..i], lo, hi) + if lo <= obs[i].timestamp < hi then [obs[i]] else []
    ensures OutsideOf(obs[..i + 1], lo, hi)
         == OutsideOf(obs[..i], lo, hi) + if lo <= obs[i].timestamp < hi then [] else [obs[i]]
  {
    assert obs[..i + 1][..i] == obs[..i];
  }

  /** The dictionary lists, for each half-hour of the window, its raw records. */
  ghost predicate RawListed(rawByInterval: map<int, seq<Raw>>, obs: seq<Raw>, start: int, end: int) {
    forall k: nat :: start + (k + 1) * HALF_HOUR <= end ==>
      GetRaw(rawByInterval, start + k * HALF_HOUR) == RawWithin(obs, start + k * HALF_HOUR, start + (k + 1) * HALF_HOUR)
  }

  lemma BucketStartIs(t: int, start: int, k: nat)
    ensures BucketStart(t, start) == start + k * HALF_HOUR <==>
      start + k * HALF_HOUR <= t < start + (k + 1) * HALF_HOUR
  {}

  /** What filing one record does to the list of one half-hour. */
  lemma RawFiled(rawByInterval: map<int, seq<Raw>>, obs: seq<Raw>, i: nat, b: int, lo: int, hi: int)
    requires i < |obs| && GetRaw(rawByInterval, lo) == RawWithin(obs[..i], lo, hi)
    requires b == lo <==> lo <= obs[i].timestamp < hi
    ensures GetRaw(rawByInterval[b := GetRaw(rawByInterval, b) + [obs[i]]], lo) == RawWithin(obs[..i + 1], lo, hi)
  {
    WithinStep(obs, i, lo, hi);
  }

  lemma RawListedIn(rawByInterval: map<int, seq<Raw>>, obs: seq<Raw>, i: nat, start: int, end: int)
    requires i < |obs| && RawListed(rawByInterval, obs[..i], start, end)
    ensures
      var b := BucketStart(obs[i].timestamp, start);
      RawListed(rawByInterval[b := GetRaw(rawByInterval, b) + [obs[i]]], obs[..i + 1], start, end)
  {
    var b := BucketStart(obs[i].timestamp, start);
    forall k: nat | start + (k + 1) * HALF_HOUR <= end
      ensures GetRaw(rawByInterval[b := GetRaw(rawByInterval, b) + [obs[i]]], start + k * HALF_HOUR)
           == RawWithin(obs[..i + 1], start + k * HALF_HOUR, start + (k + 1) * HALF_HOUR)
    {
      BucketStartIs(obs[i].timestamp, start, k);
      RawFiled(rawByInterval, obs, i, b, start + k * HALF_HOUR, start + (k + 1) * HALF_HOUR);
    }
  }

  lemma RawListedOut(rawByInterval: map<int, seq<Raw>>, obs: seq<Raw>, i: nat, start: int, end: int)
    requires i < |obs| && RawListed(rawByInterval, obs[..i], start, end) && !(start <= obs[i].timestamp < end)
    ensures RawListed(rawByInterval, obs[..i + 1], start, end)
  {
    forall k: nat | start + (k + 1) * HALF_HOUR <= end
      ensures RawWithin(obs[..i + 1], start + k * HALF_HOUR, start + (k + 1) * HALF_HOUR)
           == RawWithin(obs[..i], start + k * HALF_HOUR, start + (k + 1) * HALF_HOUR)
    {
      WithinStep(obs, i, start + k * HALF_HOUR, start + (k + 1) * HALF_HOUR);
    }
  }

  /** Raw records of each half-hour, and those outside the window. */
  method Bucket(obs: seq<Raw>, start: int, end: int)
    returns (rawByInterval: map<int, seq<Raw>>, inWindow: seq<Raw>, outside: seq<Raw>)
    ensures inWindow == RawWithin(obs, start, end) && outside == OutsideOf(obs, start, end)
    ensures RawListed(rawByInterval, obs, start, end)
  {
    rawByInterval, inWindow, outside := map[], [], [];
    for i := 0 to |obs|
      invariant inWindow == RawWithin(obs[..i], start, end) && outside == OutsideOf(obs[..i], start, end)
      invariant RawListed(rawByInterval, obs[..i], start, end)
    {
      var t := obs[i].timestamp;
      WithinStep(obs, i, start, end);
      if start <= t < end {
        RawListedIn(rawByInterval, obs, i, start, end);
        inWindow := inWindow + [obs[i]];
        var b := BucketStart(t, start);
        rawByInterval := rawByInterval[b := GetRaw(rawByInterval, b) + [obs[i]]];
      } else {
        RawListedOut(rawByInterval, obs, i, start, end);
        outside := outside + [obs[i]];
      }
    }
    assert obs[..|obs|] == obs;
  }

  function GetSelected(m: map<int, map<int, Selected>>, k: int): map<int, Selected> {
    if k in m then m[k] else map[]
  }

  function SelectedWithin(selected: map<int, Selected>, lo: int, hi: int): map<int, Selected> {
    map t | t in selected && lo <= t < hi :: selected[t]
  }

  method BucketSelected(selected: map<int, Selected>, start: int) returns (byInterval: map<int, map<int, Selected>>)
    requires forall t :: t in selected ==> start <= t
    ensures forall k: nat ::
      GetSelected(byInterval, start + k * HALF_HOUR)
        == SelectedWithin(selected, start + k * HALF_HOUR, start + (k + 1) * HALF_HOUR)
  {
    byInterval := map[];
    var pending := selected.Keys;
    ghost var done: map<int, Selected> := map[];
    while pending != {}
      invariant pending <= selected.Keys
      invariant done == map t | t in selected && t !in pending :: selected[t]
      invariant forall k: nat ::
        GetSelected(byInterval, start + k * HALF_HOUR)
          == SelectedWithin(done, start + k * HALF_HOUR, start + (k + 1) * HALF_HOUR)
      decreases |pending|
    {
      SomeTime(pending);
      var t :| t in pending;
      ghost var before := byInterval;
      var b := BucketStart(t, start);
      byInterval := byInterval[b := GetSelected(byInterval, b)[t := selected[t]]];
      pending := pending - {t};
      forall k: nat ensures GetSelected(byInterval, start + k * HALF_HOUR)
        == SelectedWithin(done[t := selected[t]], start + k * HALF_HOUR, start + (k + 1) * HALF_HOUR)
      {
        BucketStartIs(t, start, k);
        assert start + (k + 1) * HALF_HOUR == start + k * HALF_HOUR + HALF_HOUR;
        BucketGrows(before, done, t, selected[t], b, start + k * HALF_HOUR);
      }
      done := done[t := selected[t]];
    }
    assert done == selected;
  }

  lemma BucketGrows(before: map<int, map<int, Selected>>, done: map<int, Selected>, t: int, s: Selected, b: int,
                    lo: int)
    requires GetSelected(before, lo) == SelectedWithin(done, lo, lo + HALF_HOUR)
    requires b == lo <==> lo <= t < lo + HALF_HOUR
    ensures GetSelected(before[b := GetSelected(before, b)[t := s]], lo)
      == SelectedWithin(done[t := s], lo, lo + HALF_HOUR)
  {}

  // ------------------------------------------------------------------
  // The job
  // ------------------------------------------------------------------

  function ArgumentError(start: int, end: int, threshold: real): Option<MaterializeError> {
    if !Aligned(start) then Some(StartUnaligned)
    else if !Aligned(end) then Some(EndUnaligned)
    else if end <= start then Some(EmptyWindow)
    else if !(0.0 < threshold <= 1.0) then Some(BadThreshold)
    else None
  }

  /** The selection made inside the window is the selection of the whole series there. */
  ghost predicate Agrees(selected: map<int, Selected>, obs: seq<Raw>, lo: int, hi: int) {
    && (forall t :: t in selected <==> lo <= t < hi && Sampled(obs, t))
    && (forall t :: lo <= t < hi ==> !Clash(obs, t))
    && (forall t :: t in selected ==> selected[t] == Chosen(obs, t))
  }

  lemma WindowAgrees(obs: seq<Raw>, inWindow: seq<Raw>, lo: int, hi: int, t: int)
    requires inWindow == RawWithin(obs, lo, hi)
    ensures Sampled(inWindow, t) <==> lo <= t < hi && Sampled(obs, t)
    ensures Clash(inWindow, t) <==> lo <= t < hi && Clash(obs, t)
    ensures lo <= t < hi ==> forall s :: Selects(inWindow, t, s) <==> Selects(obs, t, s)
  {
    RawKeeps(obs, lo, hi);
    if lo <= t < hi {
      assert forall o :: Top(inWindow, o) && o.timestamp == t <==> Top(obs, o) && o.timestamp == t;
      assert TopIds(inWindow, t) == TopIds(obs, t) by {
        assert forall o :: Top(inWindow, o) ==> o in obs;
        assert forall o :: Top(obs, o) && o.timestamp == t ==> o in inWindow;
      }
    }
  }

  lemma SelectionAgrees(obs: seq<Raw>, inWindow: seq<Raw>, selected: map<int, Selected>, lo: int, hi: int)
    requires inWindow == RawWithin(obs, lo, hi)
    requires forall t :: !Clash(inWindow, t)
    requires forall t :: t in selected <==> Sampled(inWindow, t)
    requires forall t :: t in selected ==> Selects(inWindow, t, selected[t])
    ensures Agrees(selected, obs, lo, hi)
  {
    forall t ensures t in selected <==> lo <= t < hi && Sampled(obs, t)
             ensures lo <= t < hi ==> !Clash(obs, t)
             ensures t in selected ==> Sampled(obs, t) && !Clash(obs, t) && selected[t] == Chosen(obs, t)
    {
      WindowAgrees(obs, inWindow, lo, hi, t);
      if t in selected {
        SelectsUnique(obs, t, selected[t], Chosen(obs, t));
      }
    }
  }

  /** The samples and the gaps at the expected times. */
  method Inspect(selected: map<int, Selected>, times: seq<int>, ghost obs: seq<Raw>, ghost lo: int, ghost hi: int)
    returns (samples: seq<Selected>, missing: seq<int>)
    requires Agrees(selected, obs, lo, hi) && forall t :: t in times ==> lo <= t < hi
    ensures samples == SelectedAt(obs, times) && missing == MissingAt(obs, times)
  {
    samples, missing := [], [];
    for i := 0 to |times|
      invariant samples == SelectedAt(obs, times[..i]) && missing == MissingAt(obs, times[..i])
    {
      assert times[..i + 1][..i] == times[..i];
      assert times[i] in times;
      if times[i] in selected {
        samples := samples + [selected[times[i]]];
      } else {
        missing := missing + [times[i]];
      }
    }
    assert times[..|times|] == times;
  }

  function Leftover(within: map<int, Selected>, times: seq<int>): map<int, Selected> {
    map t | t in within && t !in times :: within[t]
  }

  lemma UnexpectedAgrees(selected: map<int, Selected>, obs: seq<Raw>, lo: int, hi: int, start: int, times: seq<int>)
    requires Agrees(selected, obs, lo, hi) && lo <= start && start + HALF_HOUR <= hi
    ensures Leftover(SelectedWithin(selected, start, start + HALF_HOUR), times) == UnexpectedAt(obs, start, times)
  {
    forall t ensures t in Times(obs) <==> Sampled(obs, t) {
      SampledTimes(obs, t);
    }
  }

  lemma AssessIs(s: Series, threshold: real, start: int, times: seq<int>, samples: seq<Selected>, missing: seq<int>,
                 unexpected: map<int, Selected>, raw: seq<Raw>)
    requires ValidSeries(s) && threshold > 0.0 && times == ExpectedTimes(start, s.cadenceMinutes) && |times| > 0
    requires samples == SelectedAt(s.observations, times) && missing == MissingAt(s.observations, times)
    requires unexpected == UnexpectedAt(s.observations, start, times)
    requires raw == RawWithin(s.observations, start, start + HALF_HOUR)
    ensures Assess(s.identity, start, threshold, |times|, samples, missing, unexpected, raw)
      == IntervalAt(s, threshold, start)
  {}

  method AssessInterval(s: Series, threshold: real, start: int, selected: map<int, Selected>,
                        within: map<int, Selected>, raw: seq<Raw>, ghost lo: int, ghost hi: int)
    returns (interval: Interval)
    requires ValidSeries(s) && threshold > 0.0
    requires Agrees(selected, s.observations, lo, hi) && lo <= start && start + HALF_HOUR <= hi
    requires within == SelectedWithin(selected, start, start + HALF_HOUR)
    requires raw == RawWithin(s.observations, start, start + HALF_HOUR)
    ensures interval == IntervalAt(s, threshold, start)
  {
    ExpectedInside(start, s.cadenceMinutes);
    var times := ExpectedTimes(start, s.cadenceMinutes);
    var samples, missing := Inspect(selected, times, s.observations, lo, hi);
    UnexpectedAgrees(selected, s.observations, lo, hi, start, times);
    AssessIs(s, threshold, start, times, samples, missing, Leftover(within, times), raw);
    interval := Assess(s.identity, start, threshold, |times|, samples, missing, Leftover(within, times), raw);
  }

  /** The loop's variables after `k` half-hours. */
  ghost predicate WalkedTo(s: Series, threshold: real, start: int, k: nat,
                           intervals: seq<Interval>, observations: seq<Observation>, selectedCount: nat)
    requires ValidSeries(s) && threshold > 0.0
  {
    intervals == IntervalsOf(s, threshold, start, k) && observations == Emitted(intervals)
      && selectedCount == TotalSelected(intervals)
  }

  lemma WalkStep(s: Series, threshold: real, start: int, k: nat, intervals: seq<Interval>,
                 observations: seq<Observation>, selectedCount: nat, interval: Interval)
    requires ValidSeries(s) && threshold > 0.0
      && WalkedTo(s, threshold, start, k, intervals, observations, selectedCount)
    requires interval == IntervalAt(s, threshold, start + k * HALF_HOUR)
    ensures WalkedTo(s, threshold, start, k + 1, intervals + [interval],
                     observations + EmittedOne(interval), selectedCount + |interval.selected|)
  {
    IntervalsStep(s, threshold, start, k);
    EmittedStep(intervals, interval);
    TotalsStep(intervals, interval);
  }

  /** Dictionaries holding, for each of the `n` half-hours, its raw records and its samples. */
  ghost predicate Bucketed(s: Series, start: int, n: nat, selected: map<int, Selected>,
                           selectedByInterval: map<int, map<int, Selected>>, rawByInterval: map<int, seq<Raw>>) {
    && Agrees(selected, s.observations, start, start + n * HALF_HOUR)
    && (forall k: nat :: k < n ==>
         && GetSelected(selectedByInterval, start + k * HALF_HOUR)
           == SelectedWithin(selected, start + k * HALF_HOUR, start + (k + 1) * HALF_HOUR)
         && GetRaw(rawByInterval, start + k * HALF_HOUR)
           == RawWithin(s.observations, start + k * HALF_HOUR, start + (k + 1) * HALF_HOUR))
  }

  method AssessOne(s: Series, threshold: real, start: int, intervalStart: int, selected: map<int, Selected>,
                   selectedByInterval: map<int, map<int, Selected>>, rawByInterval: map<int, seq<Raw>>,
                   ghost n: nat, ghost k: nat)
    returns (interval: Interval)
    requires ValidSeries(s) && threshold > 0.0 && k < n && intervalStart == start + k * HALF_HOUR
    requires Bucketed(s, start, n, selected, selectedByInterval, rawByInterval)
    ensures interval == IntervalAt(s, threshold, start + k * HALF_HOUR)
  {
    assert start + (k + 1) * HALF_HOUR == intervalStart + HALF_HOUR <= start + n * HALF_HOUR;
    interval := AssessInterval(s, threshold, intervalStart, selected,
                               GetSelected(selectedByInterval, intervalStart), GetRaw(rawByInterval, intervalStart),
                               start, start + n * HALF_HOUR);
  }

  /** One half-hour of the loop, and what it adds. */
  method WalkOne(s: Series, threshold: real, start: int, intervalStart: int, selected: map<int, Selected>,
                 selectedByInterval: map<int, map<int, Selected>>, rawByInterval: map<int, seq<Raw>>,
                 ghost n: nat, ghost k: nat, ghost intervals: seq<Interval>, ghost observations: seq<Observation>,
                 ghost selectedCount: nat)
    returns (interval: Interval)
    requires ValidSeries(s) && threshold > 0.0 && k < n && intervalStart == start + k * HALF_HOUR
    requires Bucketed(s, start, n, selected, selectedByInterval, rawByInterval)
    requires WalkedTo(s, threshold, start, k, intervals, observations, selectedCount)
    ensures WalkedTo(s, threshold, start, k + 1, intervals + [interval],
                     observations + EmittedOne(interval), selectedCount + |interval.selected|)
  {
    interval := AssessOne(s, threshold, start, intervalStart, selected, selectedByInterval, rawByInterval, n, k);
    WalkStep(s, threshold, start, k, intervals, observations, selectedCount, interval);
  }

  lemma HalfHoursLeft(start: int, k: nat, n: nat)
    requires k <= n
    ensures start + k * HALF_HOUR < start + n * HALF_HOUR <==> k < n
    ensures start + (k + 1) * HALF_HOUR == start + k * HALF_HOUR + HALF_HOUR
  {}

  /** The loop over the half-hours of the window. */
  method Walk(s: Series, threshold: real, start: int, end: int, selected: map<int, Selected>,
              selectedByInterval: map<int, map<int, Selected>>, rawByInterval: map<int, seq<Raw>>, ghost n: nat)
    returns (intervals: seq<Interval>, observations: seq<Observation>, selectedCount: nat)
    requires ValidSeries(s) && threshold > 0.0 && end == start + n * HALF_HOUR
    requires Bucketed(s, start, n, selected, selectedByInterval, rawByInterval)
    ensures WalkedTo(s, threshold, start, n, intervals, observations, selectedCount)
  {
    intervals, observations, selectedCount := [], [], 0;
    var intervalStart := start;
    ghost var k: nat := 0;
    while intervalStart < end
      invariant k <= n && intervalStart == start + k * HALF_HOUR
      invariant WalkedTo(s, threshold, start, k, intervals, observations, selectedCount)
      decreases n - k
    {
      HalfHoursLeft(start, k, n);
      var interval := WalkOne(s, threshold, start, intervalStart, selected, selectedByInterval, rawByInterval, n, k,
                              intervals, observations, selectedCount);
      observations := observations + EmittedOne(interval);
      selectedCount := selectedCount + |interval.selected|;
      intervals := intervals + [interval];
      intervalStart := intervalStart + HALF_HOUR;
      k := k + 1;
    }
    HalfHoursLeft(start, k, n);
  }

  predicate OutsideReported(m: Materialization, outside: seq<Raw>) {
    m.outsideCount == |outside| && m.outsideTimes == Times(outside)
      && m.outsideIds == set o | o in outside :: o.sourceRecordId
  }

  /** The result carries these intervals, and its counts and its series match them. */
  ghost predicate Counted(m: Materialization, obs: seq<Raw>, intervals: seq<Interval>, outside: seq<Raw>) {
    && m.intervals == intervals && m.observations == Emitted(intervals)
    && OutsideReported(m, outside)
    && m.rawCount == |obs| == TotalRaw(intervals) + m.outsideCount
    && m.selectedCount == TotalSelected(intervals)
  }

  /** The result validator of a finished job, and that its intervals are the specified ones. */
  ghost predicate Reported(m: Materialization, s: Series, start: int, n: nat, threshold: real)
    requires ValidSeries(s) && threshold > 0.0
  {
    && m.start == start && m.end == start + n * HALF_HOUR && m.threshold == threshold
    && Counted(m, s.observations, IntervalsOf(s, threshold, start, n),
               OutsideOf(s.observations, start, start + n * HALF_HOUR))
    && AllValid(m.intervals, start, n)
  }

  function Assemble(obs: seq<Raw>, start: int, end: int, threshold: real, selectedCount: nat, outside: seq<Raw>,
                    intervals: seq<Interval>, observations: seq<Observation>): Materialization
  {
    Materialization(start, end, threshold, |obs|, selectedCount, |outside|, Times(outside),
                    set o | o in outside :: o.sourceRecordId, intervals, observations)
  }

  lemma AssembledCounts(obs: seq<Raw>, start: int, end: int, threshold: real, selectedCount: nat, outside: seq<Raw>,
                        intervals: seq<Interval>, observations: seq<Observation>)
    requires observations == Emitted(intervals) && selectedCount == TotalSelected(intervals)
    requires TotalRaw(intervals) + |outside| == |obs|
    ensures Counted(Assemble(obs, start, end, threshold, selectedCount, outside, intervals, observations),
                    obs, intervals, outside)
  {}

  lemma Report(s: Series, start: int, n: nat, threshold: real, selectedCount: nat, outside: seq<Raw>,
               intervals: seq<Interval>, observations: seq<Observation>)
    requires ValidSeries(s) && threshold > 0.0 && Settled(s.observations, start, start + n * HALF_HOUR)
    requires Aligned(start) && WalkedTo(s, threshold, start, n, intervals, observations, selectedCount)
    requires outside == OutsideOf(s.observations, start, start + n * HALF_HOUR)
    ensures
      var m := Assemble(s.observations, start, start + n * HALF_HOUR, threshold, selectedCount, outside,
                        intervals, observations);
      Reported(m, s, start, n, threshold)
  {
    EvidenceConserved(s, threshold, start, n);
    AssembledCounts(s.observations, start, start + n * HALF_HOUR, threshold, selectedCount, outside,
                    intervals, observations);
    WindowValid(s, threshold, start, n);
  }

  /** Bucketing and revision selection; what the loop over the half-hours needs. */
  method SelectWindow(s: Series, start: int, end: int, ghost n: nat)
    returns (r: Result<map<int, Selected>, MaterializeError>, selectedByInterval: map<int, map<int, Selected>>,
             rawByInterval: map<int, seq<Raw>>, outside: seq<Raw>)
    requires end == start + n * HALF_HOUR
    ensures r.Failure? <==> ClashWithin(s.observations, start, end)
    ensures r.Failure? ==> r.error == ConflictingValues
    ensures r.Success? ==> Bucketed(s, start, n, r.value, selectedByInterval, rawByInterval)
    ensures outside == OutsideOf(s.observations, start, end)
  {
    var inWindow;
    selectedByInterval := map[];
    rawByInterval, inWindow, outside := Bucket(s.observations, start, end);
    r := SelectHighestRevisions(inWindow);
    if r.Failure? {
      ghost var t :| Clash(inWindow, t);
      WindowAgrees(s.observations, inWindow, start, end, t);
      return;
    }
    SelectionAgrees(s.observations, inWindow, r.value, start, end);
    selectedByInterval := BucketSelected(r.value, start);
  }

  method MaterializeWindow(s: Series, start: int, end: int, threshold: real, ghost n: nat)
    returns (r: Result<Materialization, MaterializeError>)
    requires ValidSeries(s) && threshold > 0.0 && end == start + n * HALF_HOUR && Aligned(start)
    ensures r.Failure? <==> ClashWithin(s.observations, start, end)
    ensures r.Failure? ==> r.error == ConflictingValues
    ensures r.Success? ==> Reported(r.value, s, start, n, threshold)
  {
    var selection, selectedByInterval, rawByInterval, outside := SelectWindow(s, start, end, n);
    if selection.Failure? {
      return Failure(selection.error);
    }
    var intervals, observations, selectedCount := Walk(s, threshold, start, end, selection.value, selectedByInterval,
                                                       rawByInterval, n);
    Report(s, start, n, threshold, selectedCount, outside, intervals, observations);
    r := Success(Assemble(s.observations, start, end, threshold, selectedCount, outside, intervals, observations));
  }

  /** Fails on bad arguments and on a conflict inside the window, and on nothing else; otherwise the
      intervals and the emitted series are those read off the whole raw series, and every raw record is
      accounted for. */
  method MaterializeHalfHours(s: Series, start: int, end: int, threshold: real)
    returns (r: Result<Materialization, MaterializeError>)
    requires ValidSeries(s)
    ensures ArgumentError(start, end, threshold).Some? ==> r == Failure(ArgumentError(start, end, threshold).value)
    ensures ArgumentError(start, end, threshold).None? ==>
      && (r.Failure? <==> ClashWithin(s.observations, start, end))
      && (r.Failure? ==> r.error == ConflictingValues)
      && (r.Success? ==> Reported(r.value, s, start, (end - start) / HALF_HOUR, threshold))
  {
    if ArgumentError(start, end, threshold).Some? {
      return Failure(ArgumentError(start, end, threshold).value);
    }
    r := MaterializeWindow(s, start, end, threshold, (end - start) / HALF_HOUR);
  }
}
