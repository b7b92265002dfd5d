/** Half-hour means of a raw metric series: what app/history/materialize.py
    is supposed to produce, read off the raw observations directly. */
module HalfHours {
  import opened Basics

  const MINUTE := 60_000_000
  datatype Raw = Raw(timestamp: int, value: real, revision: nat, sourceRecordId: string)

  datatype Identity = Identity(
    metricId: string, geography: string, measure: string, factClass: string, sourceId: string, methodology: string)

  datatype Series = Series(identity: Identity, cadenceMinutes: int, observations: seq<Raw>)

  predicate ValidSeries(s: Series) {
    1 <= s.cadenceMinutes <= 30 && 30 % s.cadenceMinutes == 0
  }

  /** Sorted distinct record ids are a set. */
  datatype Selected = Selected(timestamp: int, value: real, revision: nat, sourceRecordIds: set<string>)

  // ------------------------------------------------------------------
  // Revision selection
  // ------------------------------------------------------------------

  /** `o` carries the highest revision recorded at its timestamp. */
  ghost predicate Top(obs: seq<Raw>, o: Raw) {
    o in obs && forall x :: x in obs && x.timestamp == o.timestamp ==> x.revision <= o.revision
  }

  ghost predicate Sampled(obs: seq<Raw>, t: int) {
    exists o :: o in obs && o.timestamp == t
  }

  /** Two records of the highest revision at `t` disagree. */
  ghost predicate Clash(obs: seq<Raw>, t: int) {
    exists a, b :: Top(obs, a) && Top(obs, b) && a.timestamp == t && b.timestamp == t && a.value != b.value
  }

  ghost predicate ClashWithin(obs: seq<Raw>, lo: int, hi: int) {
    exists t :: lo <= t < hi && Clash(obs, t)
  }

  ghost function TopIds(obs: seq<Raw>, t: int): set<string> {
    set o | o in obs && Top(obs, o) && o.timestamp == t :: o.sourceRecordId
  }

  /** `s` is the one logical sample of the records at `t`. */
  ghost predicate Selects(obs: seq<Raw>, t: int, s: Selected) {
    && s.timestamp == t
    && (exists o :: Top(obs, o) && o.timestamp == t && o.revision == s.revision)
    && (forall o :: Top(obs, o) && o.timestamp == t ==> o.value == s.value)
    && s.sourceRecordIds == TopIds(obs, t)
  }

  lemma {:induction false} TopExists(obs: seq<Raw>, t: int)
    requires Sampled(obs, t)
    ensures exists o :: Top(obs, o) && o.timestamp == t
  {
    var init, last := obs[..|obs| - 1], obs[|obs| - 1];
    assert obs == init + [last];
    if Sampled(init, t) {
      TopExists(init, t);
      var o :| Top(init, o) && o.timestamp == t;
      if last.timestamp == t && last.revision > o.revision {
        assert Top(obs, last);
      } else {
        assert Top(obs, o);
      }
    } else {
      assert last.timestamp == t by {
        var o :| o in obs && o.timestamp == t;
        assert o in init || o == last;
      }
      assert Top(obs, last) by {
        assert forall x :: x in obs && x.timestamp == t ==> x == last;
      }
    }
  }

  lemma SelectsExists(obs: seq<Raw>, t: int)
    requires Sampled(obs, t) && !Clash(obs, t)
    ensures exists s :: Selects(obs, t, s)
  {
    TopExists(obs, t);
    var o :| Top(obs, o) && o.timestamp == t;
    assert Selects(obs, t, Selected(t, o.value, o.revision, TopIds(obs, t)));
  }

  lemma SelectsUnique(obs: seq<Raw>, t: int, r: Selected, s: Selected)
    requires Selects(obs, t, r) && Selects(obs, t, s)
    ensures r == s
  {
    var a :| Top(obs, a) && a.timestamp == t && a.revision == r.revision;
    var b :| Top(obs, b) && b.timestamp == t && b.revision == s.revision;
    assert a.revision == b.revision;
  }

  ghost function Chosen(obs: seq<Raw>, t: int): (s: Selected)
    requires Sampled(obs, t) && !Clash(obs, t)
    ensures Selects(obs, t, s)
  {
    SelectsExists(obs, t);
    var s :| Selects(obs, t, s);
    s
  }

  // ------------------------------------------------------------------
  // One interval
  // ------------------------------------------------------------------

  datatype Reason = Available | MissingExpected | UnexpectedTimestamps | BelowThreshold | PartialAccepted

  /** The record id is a hash of exactly this evidence; here it is the evidence. */
  datatype RecordId = RecordId(identity: Identity, start: int, evidence: seq<Selected>)

  datatype Interval = Interval(
    start: int, reasons: seq<Reason>, expectedCount: nat, rawCount: nat,
    missing: seq<int>, selected: seq<Selected>, unexpected: map<int, Selected>, rawIds: set<string>,
    value: Option<real>, recordId: Option<RecordId>)

  function PerHalfHour(cadence: int): nat
    requires cadence > 0
  {
    30 / cadence
  }

  function ExpectedTimes(start: int, cadence: int): (ts: seq<int>)
    requires 1 <= cadence <= 30
    ensures |ts| == PerHalfHour(cadence)
  {
    seq(PerHalfHour(cadence), (i: nat) => start + i * (cadence * MINUTE))
  }

  function RawWithin(obs: seq<Raw>, lo: int, hi: int): seq<Raw> {
    if obs == [] then [] else
      var last := obs[|obs| - 1];
      RawWithin(obs[..|obs| - 1], lo, hi) + if lo <= last.timestamp < hi then [last] else []
  }

  function Sum(ss: seq<Selected>, n: real): real
    requires n > 0.0
  {
    if ss == [] then 0.0 else Sum(ss[..|ss| - 1], n) + ss[|ss| - 1].value / n
  }

  /** The mean as it is summed: each value divided first. */
  function Mean(ss: seq<Selected>): real
    requires ss != []
  {
    Sum(ss, |ss| as real)
  }

  function Coverage(selected: nat, expected: nat): real
    requires expected > 0
  {
    selected as real / expected as real
  }

  function Reasons(missing: bool, unexpected: bool, below: bool): seq<Reason> {
    var rs := (if missing then [MissingExpected] else []) + (if unexpected then [UnexpectedTimestamps] else [])
              + (if below then [BelowThreshold] else [])
              + (if !below && !unexpected && missing then [PartialAccepted] else []);
    if rs == [] then [Available] else rs
  }

  /** The interval that these samples make; shared by the specification and the job. */
  function Assess(identity: Identity, start: int, threshold: real, expectedCount: nat,
                  selected: seq<Selected>, missing: seq<int>, unexpected: map<int, Selected>, raw: seq<Raw>): Interval
    requires expectedCount > 0 && threshold > 0.0
  {
    var below := Coverage(|selected|, expectedCount) < threshold;
    var sufficient := !below && unexpected == map[];
    Interval(start, Reasons(missing != [], unexpected != map[], below), expectedCount, |raw|,
             missing, selected, unexpected,
             set r | r in raw :: r.sourceRecordId,
             if sufficient && selected != [] then Some(Mean(selected)) else None,
             if sufficient then Some(RecordId(identity, start, selected)) else None)
  }

  ghost predicate Settled(obs: seq<Raw>, lo: int, hi: int) {
    !ClashWithin(obs, lo, hi)
  }

  function Times(obs: seq<Raw>): set<int> {
    set o | o in obs :: o.timestamp
  }

  /** Selected samples at the given times; conflicting ones are never asked for. */
  ghost function SelectedAt(obs: seq<Raw>, times: seq<int>): seq<Selected> {
    if times == [] then [] else
      var last := times[|times| - 1];
      SelectedAt(obs, times[..|times| - 1]) + if Sampled(obs, last) && !Clash(obs, last) then [Chosen(obs, last)]
        else []
  }

  ghost function MissingAt(obs: seq<Raw>, times: seq<int>): seq<int> {
    if times == [] then [] else
      var last := times[|times| - 1];
      MissingAt(obs, times[..|times| - 1]) + if Sampled(obs, last) then [] else [last]
  }

  ghost function UnexpectedAt(obs: seq<Raw>, start: int, expected: seq<int>): map<int, Selected> {
    map t | t in Times(obs) && start <= t < start + HALF_HOUR && t !in expected && Sampled(obs, t)
      && !Clash(obs, t) :: Chosen(obs, t)
  }

  lemma {:induction false} ExpectedWithin(start: int, cadence: int, i: nat)
    requires 1 <= cadence <= 30 && 30 % cadence == 0 && i < PerHalfHour(cadence)
    ensures start <= start + i * (cadence * MINUTE) < start + HALF_HOUR
  {
    var n := PerHalfHour(cadence);
    assert n * cadence == 30;
    assert i * cadence <= (n - 1) * cadence;
    assert i * (cadence * MINUTE) == (i * cadence) * MINUTE;
  }

  lemma ExpectedInside(start: int, cadence: int)
    requires 1 <= cadence <= 30 && 30 % cadence == 0
    ensures forall t :: t in ExpectedTimes(start, cadence) ==> start <= t < start + HALF_HOUR
    ensures PerHalfHour(cadence) > 0
  {
    forall t | t in ExpectedTimes(start, cadence) ensures start <= t < start + HALF_HOUR {
      var i :| 0 <= i < |ExpectedTimes(start, cadence)| && ExpectedTimes(start, cadence)[i] == t;
      ExpectedWithin(start, cadence, i);
    }
  }

  /** The half-hour from `start`, read off the whole raw series. */
  ghost function IntervalAt(s: Series, threshold: real, start: int): Interval
    requires ValidSeries(s) && threshold > 0.0
  {
    ExpectedInside(start, s.cadenceMinutes);
    var times := ExpectedTimes(start, s.cadenceMinutes);
    Assess(s.identity, start, threshold, |times|, SelectedAt(s.observations, times), MissingAt(s.observations, times),
           UnexpectedAt(s.observations, start, times), RawWithin(s.observations, start, start + HALF_HOUR))
  }

  /** `n` consecutive half-hours from `start`. */
  ghost function Tile(at: int -> Interval, start: int, n: nat): seq<Interval> {
    if n == 0 then [] else Tile(at, start, n - 1) + [at(start + (n - 1) * HALF_HOUR)]
  }

  ghost function Reader(s: Series, threshold: real): int -> Interval
    requires ValidSeries(s) && threshold > 0.0
  {
    start => IntervalAt(s, threshold, start)
  }

  ghost function IntervalsOf(s: Series, threshold: real, start: int, n: nat): seq<Interval>
    requires ValidSeries(s) && threshold > 0.0
  {
    Tile(Reader(s, threshold), start, n)
  }

  datatype Observation = Observation(start: int, value: real, recordId: RecordId)

  function EmittedOne(i: Interval): seq<Observation> {
    if i.value.Some? && i.recordId.Some? then [Observation(i.start, i.value.value, i.recordId.value)] else []
  }

  /** The emitted series: one observation per available interval. */
  function Emitted(intervals: seq<Interval>): seq<Observation> {
    if intervals == [] then [] else
      Emitted(intervals[..|intervals| - 1]) + EmittedOne(intervals[|intervals| - 1])
  }
}
