/** What consolidated profiles say about an asset's plan at an instant. */
module PlanLevels {
  import opened Basics
  import opened PlannedProfiles
  import opened Consolidation
  import opened Sorting
  import Settlement
  import Text

  /** The level is that of a covering segment, between its end levels. */
  ghost predicate Told(s: Segment, t: int, level: Option<real>) {
    && s.start < s.end
    && level.Some? && level == SegmentLevel(s, t, false)
    && Min(s.levelFrom, s.levelTo) <= level.value <= Max(s.levelFrom, s.levelTo)
  }

  lemma ShapeTells(k: Segment, s: Segment, t: int, level: Option<real>)
    requires ShapeOf(k) == ShapeOf(s) && Told(k, t, level)
    ensures Told(s, t, level)
  {}

  lemma CoveringTold(ss: seq<Segment>, t: int, s: Segment)
    requires Timely(ss) && PairwiseApart(ss) && Holds(ss, ShapeOf(s)) && CoversInstant(s, t)
    ensures Told(s, t, LevelOf(ss, t))
  {
    LevelIsTheCovering(ss, t);
    var k :| k in ss && ShapeOf(k) == ShapeOf(s);
    assert CoversInstant(k, t) && k.start < k.end;
    assert Told(k, t, LevelOf(ss, t));
    ShapeTells(k, s, t, LevelOf(ss, t));
  }

  /** A profile's level is that of the one newest shape covering the instant, between its end levels, and
      nothing exactly where no newest segment covers it. */
  lemma ProfileTellsPlan(segments: seq<Segment>, p: Profile, t: int)
    requires Consolidated(segments, p)
    ensures LevelOf(p.segments, t).None? <==>
      forall s :: Newest(segments, s) && KeyOf(s) == p.key ==> !CoversInstant(s, t)
    ensures forall s :: Newest(segments, s) && KeyOf(s) == p.key && CoversInstant(s, t) ==>
      Told(s, t, LevelOf(p.segments, t))
  {
    forall s | Newest(segments, s) && KeyOf(s) == p.key && CoversInstant(s, t)
      ensures Told(s, t, LevelOf(p.segments, t))
    {
      CoveringTold(p.segments, t, s);
    }
    if LevelOf(p.segments, t).Some? {
      LevelIsTheCovering(p.segments, t);
      var k :| k in p.segments && CoversInstant(k, t);
      assert Newest(segments, k) && KeyOf(k) == p.key;
    }
  }

  // ------------------------------------------------------------------
  // Order and older snapshots
  // ------------------------------------------------------------------

  /** `b` is `a` in any order and repetition, with segments older than some other of their key added. */
  ghost predicate AddsOlder(a: seq<Segment>, b: seq<Segment>) {
    && (forall s :: s in a ==> s in b)
    && (forall s :: s in b && s !in a ==> exists n :: n in a && KeyOf(n) == KeyOf(s) && n.retrievedAt > s.retrievedAt)
  }

  lemma NewestStays(a: seq<Segment>, b: seq<Segment>, s: Segment)
    requires AddsOlder(a, b)
    ensures Newest(a, s) <==> Newest(b, s)
  {
    if Newest(a, s) {
      forall o | o in b && KeyOf(o) == KeyOf(s) ensures o.retrievedAt <= s.retrievedAt {
        if o !in a {
          var n :| n in a && KeyOf(n) == KeyOf(o) && n.retrievedAt > o.retrievedAt;
        }
      }
    }
    if s in b && s !in a {
      var n :| n in a && KeyOf(n) == KeyOf(s) && n.retrievedAt > s.retrievedAt;
      assert n in b;
      assert !Newest(b, s);
    }
  }

  lemma ConflictStays(a: seq<Segment>, b: seq<Segment>, key: GroupKey)
    requires AddsOlder(a, b)
    ensures Conflict(a, key) <==> Conflict(b, key)
  {
    forall s ensures Newest(a, s) <==> Newest(b, s) {
      NewestStays(a, b, s);
    }
  }

  /** Neither the order of the segments nor older snapshots change the keys, the conflicts or any level. */
  lemma OlderChangesNothing(a: seq<Segment>, b: seq<Segment>, p: Profile, q: Profile, t: int)
    requires AddsOlder(a, b)
    requires Consolidated(a, p) && Consolidated(b, q) && p.key == q.key
    ensures forall k :: k in Keys(a) <==> k in Keys(b)
    ensures Conflict(a, p.key) <==> Conflict(b, p.key)
    ensures LevelOf(p.segments, t) == LevelOf(q.segments, t)
  {
    KeysStay(a, b);
    ConflictStays(a, b, p.key);
    forall s ensures Newest(a, s) <==> Newest(b, s) {
      NewestStays(a, b, s);
    }
    ProfileTellsPlan(a, p, t);
    ProfileTellsPlan(b, q, t);
    if LevelOf(p.segments, t).Some? {
      var s :| Newest(a, s) && KeyOf(s) == p.key && CoversInstant(s, t);
      assert LevelOf(q.segments, t) == SegmentLevel(s, t, false);
    }
  }

  lemma KeysStay(a: seq<Segment>, b: seq<Segment>)
    requires AddsOlder(a, b)
    ensures forall k :: k in Keys(a) <==> k in Keys(b)
  {
    KeysAre(a);
    KeysAre(b);
    forall k | k in Keys(b) ensures k in Keys(a) {
      var s :| s in b && KeyOf(s) == k;
      if s !in a {
        var n :| n in a && KeyOf(n) == KeyOf(s) && n.retrievedAt > s.retrievedAt;
      }
    }
  }

  // ------------------------------------------------------------------
  // The whole result
  // ------------------------------------------------------------------

  lemma ProfileLeOrders()
    ensures TotalPreorder(ProfileLe())
  {
    forall p, q ensures ProfileLe()(p, q) || ProfileLe()(q, p) {
      Text.LeTotal(SourceOrEmpty(p.key), SourceOrEmpty(q.key));
    }
    forall p, q, r | ProfileLe()(p, q) && ProfileLe()(q, r) ensures ProfileLe()(p, r) {
      if p.key.date == q.key.date == r.key.date && p.key.period == q.key.period == r.key.period {
        Text.LeTransitive(SourceOrEmpty(p.key), SourceOrEmpty(q.key), SourceOrEmpty(r.key));
      }
    }
  }

  /** On success nothing conflicts, each asset and period of the input has exactly one profile, and the
      profiles run in order of date, period and source. */
  lemma OneProfileEach(segments: seq<Segment>, profiles: seq<Profile>, sorted: seq<Profile>)
    requires Built(segments, Keys(segments), profiles) && sorted == Sort(profiles, ProfileLe())
    ensures forall k :: !Conflict(segments, k)
    ensures forall s :: s in segments ==> exists p :: p in sorted && p.key == KeyOf(s)
    ensures forall p :: p in sorted ==> Consolidated(segments, p)
    ensures forall i, j :: 0 <= i < j < |sorted| ==> sorted[i].key != sorted[j].key
    ensures SortedBy(sorted, ProfileLe())
  {
    KeysAre(segments);
    SortPermutes(profiles, ProfileLe());
    ProfileLeOrders();
    SortSorts(profiles, ProfileLe());
    DistinctKeys(profiles, sorted, Keys(segments));
    forall s | s in segments ensures exists p :: p in sorted && p.key == KeyOf(s) {
      var i :| 0 <= i < |Keys(segments)| && Keys(segments)[i] == KeyOf(s);
      assert profiles[i] in sorted;
    }
    forall k ensures !Conflict(segments, k) {
      if k in Keys(segments) {
        var i :| 0 <= i < |Keys(segments)| && Keys(segments)[i] == k;
        assert !Conflict(segments, Keys(segments)[i]);
      }
    }
  }

  lemma DistinctKeys(profiles: seq<Profile>, sorted: seq<Profile>, keys: seq<GroupKey>)
    requires |profiles| == |keys| && NoDuplicates(keys) && forall i :: 0 <= i < |keys| ==> profiles[i].key == keys[i]
    requires multiset(sorted) == multiset(profiles)
    ensures forall i, j :: 0 <= i < j < |sorted| ==> sorted[i].key != sorted[j].key
  {
    assert NoDuplicates(profiles) by {
      forall i, j | 0 <= i < j < |profiles| ensures profiles[i] != profiles[j] {
        assert keys[i] != keys[j];
      }
    }
    NoDuplicatesPermutes(profiles, sorted);
    forall i, j | 0 <= i < j < |sorted| ensures sorted[i].key != sorted[j].key {
      assert sorted[i] in multiset(profiles) && sorted[j] in multiset(profiles);
      var k :| 0 <= k < |profiles| && profiles[k] == sorted[i];
      var l :| 0 <= l < |profiles| && profiles[l] == sorted[j];
      assert sorted[i] != sorted[j];
      assert keys[k] != keys[l];
    }
  }

  // ------------------------------------------------------------------
  // One plan per asset
  // ------------------------------------------------------------------

  /** Across all periods an asset id and source id together have at most one planned level at an instant:
      settlement periods tile time, and segments stay inside theirs. */
  lemma AssetLevelUnique(z: Settlement.Zone, segments: seq<Segment>, p: Profile, q: Profile, t: int)
    requires forall s :: s in segments ==> ValidSegment(z, s)
    requires Consolidated(segments, p) && Consolidated(segments, q)
    requires p.key.assetId == q.key.assetId && p.key.sourceAssetId == q.key.sourceAssetId
    requires LevelOf(p.segments, t).Some? && LevelOf(q.segments, t).Some?
    ensures p.key == q.key && LevelOf(p.segments, t) == LevelOf(q.segments, t)
  {
    ProfileTellsPlan(segments, p, t);
    ProfileTellsPlan(segments, q, t);
    var a :| Newest(segments, a) && KeyOf(a) == p.key && CoversInstant(a, t);
    var b :| Newest(segments, b) && KeyOf(b) == q.key && CoversInstant(b, t);
    Settlement.PeriodsTile(z, t, a.date, a.period, b.date, b.period);
    assert LevelOf(q.segments, t) == SegmentLevel(a, t, false);
  }

  /** No two newest segments of one asset under different source ids share an instant. */
  ghost predicate SourcesApart(segments: seq<Segment>) {
    forall a, b :: Newest(segments, a) && Newest(segments, b) && a.assetId == b.assetId && Clash(a, b) ==>
      a.sourceAssetId == b.sourceAssetId
  }

  /** Both profiles plan the asset they share at `t`. */
  ghost predicate BothPlan(p: Profile, q: Profile, t: int)
    requires Timely(p.segments) && Timely(q.segments)
  {
    p.key.assetId == q.key.assetId && LevelOf(p.segments, t).Some? && LevelOf(q.segments, t).Some?
  }

  /** At no instant do two of the profiles plan one asset. */
  ghost predicate OnePlan(profiles: seq<Profile>)
    requires forall p :: p in profiles ==> Timely(p.segments)
  {
    forall p, q, t :: p in profiles && q in profiles && BothPlan(p, q, t) ==> p == q
  }

  lemma ApartPlansOnce(z: Settlement.Zone, segments: seq<Segment>, p: Profile, q: Profile, t: int)
    requires forall s :: s in segments ==> ValidSegment(z, s)
    requires Consolidated(segments, p) && Consolidated(segments, q)
    requires SourcesApart(segments) && BothPlan(p, q, t)
    ensures p.key == q.key
  {
    ProfileTellsPlan(segments, p, t);
    ProfileTellsPlan(segments, q, t);
    var a :| Newest(segments, a) && KeyOf(a) == p.key && CoversInstant(a, t);
    var b :| Newest(segments, b) && KeyOf(b) == q.key && CoversInstant(b, t);
    assert Clash(a, b);
    AssetLevelUnique(z, segments, p, q, t);
  }

  lemma SharedInstantPlansTwice(segments: seq<Segment>, a: Segment, b: Segment, p: Profile, q: Profile)
    requires Newest(segments, a) && Newest(segments, b) && a.assetId == b.assetId
    requires a.start < a.end && b.start < b.end && Clash(a, b)
    requires Consolidated(segments, p) && Consolidated(segments, q) && p.key == KeyOf(a) && q.key == KeyOf(b)
    ensures exists t :: BothPlan(p, q, t)
  {
    var t := if a.start < b.start then b.start else a.start;
    ProfileTellsPlan(segments, p, t);
    ProfileTellsPlan(segments, q, t);
    assert CoversInstant(a, t) && CoversInstant(b, t);
    assert BothPlan(p, q, t);
  }

  /** What `OneProfileEach` says of a result. */
  ghost predicate Planned(segments: seq<Segment>, sorted: seq<Profile>) {
    && (forall p :: p in sorted ==> Consolidated(segments, p))
    && (forall s :: s in segments ==> exists p :: p in sorted && p.key == KeyOf(s))
    && (forall i, j :: 0 <= i < j < |sorted| ==> sorted[i].key != sorted[j].key)
  }

  lemma ApartGivesOnePlan(z: Settlement.Zone, segments: seq<Segment>, sorted: seq<Profile>)
    requires forall s :: s in segments ==> ValidSegment(z, s)
    requires Planned(segments, sorted) && SourcesApart(segments)
    ensures OnePlan(sorted)
  {
    forall p, q, t | p in sorted && q in sorted && BothPlan(p, q, t) ensures p == q {
      ApartPlansOnce(z, segments, p, q, t);
    }
  }

  lemma OnePlanGivesApart(z: Settlement.Zone, segments: seq<Segment>, sorted: seq<Profile>)
    requires forall s :: s in segments ==> ValidSegment(z, s)
    requires Planned(segments, sorted) && OnePlan(sorted)
    ensures SourcesApart(segments)
  {
    forall a, b | Newest(segments, a) && Newest(segments, b) && a.assetId == b.assetId && Clash(a, b)
      ensures a.sourceAssetId == b.sourceAssetId
    {
      assert ValidSegment(z, a) && ValidSegment(z, b);
      var p :| p in sorted && p.key == KeyOf(a);
      var q :| q in sorted && q.key == KeyOf(b);
      SharedInstantPlansTwice(segments, a, b, p, q);
    }
  }

  /** A successful consolidation plans every asset at most once at an instant exactly when no two newest
      segments of one asset under different source ids share an instant. */
  lemma OnePlanIff(z: Settlement.Zone, segments: seq<Segment>, profiles: seq<Profile>, sorted: seq<Profile>)
    requires forall s :: s in segments ==> ValidSegment(z, s)
    requires Built(segments, Keys(segments), profiles) && sorted == Sort(profiles, ProfileLe())
    ensures forall p :: p in sorted ==> Timely(p.segments)
    ensures SourcesApart(segments) <==> OnePlan(sorted)
  {
    assert Planned(segments, sorted) by {
      OneProfileEach(segments, profiles, sorted);
    }
    if SourcesApart(segments) {
      ApartGivesOnePlan(z, segments, sorted);
    } else if OnePlan(sorted) {
      OnePlanGivesApart(z, segments, sorted);
    }
  }

  /** One notification of an asset's first half-hour of a day, with and without its source id. */
  function TwoSources(z: Settlement.Zone, day: int): seq<Segment> {
    var p := Settlement.PeriodOf(z, day, 1);
    [Segment("A", None, day, 1, p.startUtc, p.endUtc, 1.0, 1.0, 0, "PN"),
     Segment("A", Some("X"), day, 1, p.startUtc, p.endUtc, 2.0, 2.0, 0, "PN")]
  }

  /** Two segments of different keys never meet in a group. */
  lemma EachItsProfile(a: Segment, b: Segment)
    requires a.start < a.end && b.start < b.end && KeyOf(a) != KeyOf(b)
    ensures Built([a, b], Keys([a, b]), [Profile(KeyOf(a), [a]), Profile(KeyOf(b), [b])])
  {
    assert [a, b][..1] == [a] && [a][..0] == [];
    assert Keys([a]) == [KeyOf(a)];
    assert Keys([a, b]) == [KeyOf(a), KeyOf(b)];
    assert Newest([a, b], a) && Newest([a, b], b);
  }

  lemma LevelAtStart(s: Segment)
    requires s.start < s.end
    ensures LevelOf([s], s.start) == Some(s.levelFrom)
  {
    LevelBetween(s, s.start, false);
  }

  /** Nothing refuses them, and they give the asset two levels at one instant. */
  lemma TwoSourcesTwoLevels(z: Settlement.Zone, day: int)
    ensures
      var ss := TwoSources(z, day);
      var p, q := Profile(KeyOf(ss[0]), [ss[0]]), Profile(KeyOf(ss[1]), [ss[1]]);
      && (forall s :: s in ss ==> ValidSegment(z, s))
      && Built(ss, Keys(ss), [p, q])
      && LevelOf(p.segments, ss[0].start) == Some(1.0) && LevelOf(q.segments, ss[0].start) == Some(2.0)
  {
    var ss := TwoSources(z, day);
    Settlement.DayLength(z, day);
    EachItsProfile(ss[0], ss[1]);
    LevelAtStart(ss[0]);
    LevelAtStart(ss[1]);
    assert ss == [ss[0], ss[1]];
  }

  // ------------------------------------------------------------------
  // In the segments' own fields
  // ------------------------------------------------------------------

  /** Of one asset, source and settlement period. */
  predicate Together(a: Segment, b: Segment) {
    a.assetId == b.assetId && a.sourceAssetId == b.sourceAssetId && a.date == b.date && a.period == b.period
  }

  /** No segment of its asset, source and period was retrieved later. */
  ghost predicate LastRetrieved(segments: seq<Segment>, s: Segment) {
    s in segments && forall o :: o in segments && Together(o, s) ==> o.retrievedAt <= s.retrievedAt
  }

  predicate SameShape(a: Segment, b: Segment) {
    a.start == b.start && a.end == b.end && a.levelFrom == b.levelFrom && a.levelTo == b.levelTo
  }

  /** A profile's segments: of one asset and period, last retrieved, in time order without overlap, and every last
      retrieved shape of that asset and period is there. */
  ghost predicate ProfileTells(segments: seq<Segment>, p: Profile) {
    && p.segments != []
    && (forall s :: s in p.segments ==>
         && LastRetrieved(segments, s) && s.assetId == p.key.assetId && s.sourceAssetId == p.key.sourceAssetId
         && s.date == p.key.date && s.period == p.key.period)
    && (forall i, j :: 0 <= i < j < |p.segments| ==> p.segments[i].end <= p.segments[j].start)
    && (forall s, o :: s in p.segments && LastRetrieved(segments, o) && Together(o, s) ==> Shown(p, o))
  }

  ghost predicate Shown(p: Profile, o: Segment) {
    exists k :: k in p.segments && SameShape(k, o)
  }

  lemma ConsolidatedTells(segments: seq<Segment>, p: Profile)
    requires Consolidated(segments, p)
    ensures ProfileTells(segments, p)
  {
    forall s ensures LastRetrieved(segments, s) <==> Newest(segments, s) {
      assert forall o :: Together(o, s) <==> KeyOf(o) == KeyOf(s);
    }
    forall s, o | s in p.segments && LastRetrieved(segments, o) && Together(o, s) ensures Shown(p, o) {
      assert KeyOf(o) == p.key && Newest(segments, o);
      assert Holds(p.segments, ShapeOf(o));
    }
  }

  /** Date, then period, then source, profiles without a source first. */
  predicate EarlierProfile(p: Profile, q: Profile) {
    || p.key.date < q.key.date
    || (p.key.date == q.key.date && p.key.period < q.key.period)
    || (p.key.date == q.key.date && p.key.period == q.key.period
        && (p.key.sourceAssetId.None? || (q.key.sourceAssetId.Some?
            && Text.Le(p.key.sourceAssetId.value, q.key.sourceAssetId.value))
            || (q.key.sourceAssetId.None? && p.key.sourceAssetId.value == "")))
  }

  lemma ProfileLeMeans(p: Profile, q: Profile)
    ensures ProfileLe()(p, q) <==> EarlierProfile(p, q)
  {}

  lemma NothingClashes(segments: seq<Segment>, a: Segment, b: Segment)
    requires LastRetrieved(segments, a) && LastRetrieved(segments, b) && Together(a, b) && !SameShape(a, b)
    requires !Conflict(segments, KeyOf(a))
    ensures a.end <= b.start || b.end <= a.start
  {
    assert Newest(segments, a) && Newest(segments, b) && KeyOf(a) == KeyOf(b) && ShapeOf(a) != ShapeOf(b);
  }

  lemma ProfilesInOrder(sorted: seq<Profile>)
    requires SortedBy(sorted, ProfileLe())
    ensures forall i, j :: 0 <= i < j < |sorted| ==> EarlierProfile(sorted[i], sorted[j])
  {
    forall i, j | 0 <= i < j < |sorted| ensures EarlierProfile(sorted[i], sorted[j]) {
      ProfileLeMeans(sorted[i], sorted[j]);
    }
  }

  /** A successful consolidation, profile by profile: no two last retrieved segments of one asset and period share an
      instant, and the profiles come in order. */
  lemma ResultTells(segments: seq<Segment>, profiles: seq<Profile>, sorted: seq<Profile>)
    requires Built(segments, Keys(segments), profiles) && sorted == Sort(profiles, ProfileLe())
    ensures forall p :: p in sorted ==> ProfileTells(segments, p)
    ensures forall i, j :: 0 <= i < j < |sorted| ==> EarlierProfile(sorted[i], sorted[j])
    ensures forall a, b ::
      LastRetrieved(segments, a) && LastRetrieved(segments, b) && Together(a, b) && !SameShape(a, b) ==>
        a.end <= b.start || b.end <= a.start
  {
    OneProfileEach(segments, profiles, sorted);
    ProfilesInOrder(sorted);
    forall p | p in sorted ensures ProfileTells(segments, p) {
      ConsolidatedTells(segments, p);
    }
    forall a, b | LastRetrieved(segments, a) && LastRetrieved(segments, b) && Together(a, b) && !SameShape(a, b)
      ensures a.end <= b.start || b.end <= a.start
    {
      NothingClashes(segments, a, b);
    }
  }
}
