/** `consolidate_physical_notifications`: the newest snapshot of each asset and
    period becomes one profile, or a conflict stops everything. */
module Consolidation {
  import opened Basics
  import opened PlannedProfiles
  import opened Sorting
  import Text

  datatype Shape = Shape(start: int, end: int, levelFrom: real, levelTo: real)

  function ShapeOf(s: Segment): Shape {
    Shape(s.start, s.end, s.levelFrom, s.levelTo)
  }

  // ------------------------------------------------------------------
  // What is asked for
  // ------------------------------------------------------------------

  /** Keys in the order they first appear. */
  function Keys(segments: seq<Segment>): seq<GroupKey> {
    if segments == [] then [] else
      var init, key := Keys(segments[..|segments| - 1]), KeyOf(segments[|segments| - 1]);
      if key in init then init else init + [key]
  }

  /** A segment of the newest snapshot of its asset and period. */
  ghost predicate Newest(segments: seq<Segment>, s: Segment) {
    s in segments && forall o :: o in segments && KeyOf(o) == KeyOf(s) ==> o.retrievedAt <= s.retrievedAt
  }

  /** Two different shapes of one newest snapshot share an instant. */
  ghost predicate Conflict(segments: seq<Segment>, key: GroupKey) {
    exists a, b ::
      && Newest(segments, a) && Newest(segments, b) && KeyOf(a) == KeyOf(b) == key
      && ShapeOf(a) != ShapeOf(b) && Clash(a, b)
  }

  ghost predicate Holds(ss: seq<Segment>, shape: Shape) {
    exists k :: k in ss && ShapeOf(k) == shape
  }

  ghost predicate DistinctShapes(ss: seq<Segment>) {
    forall i, j :: 0 <= i < j < |ss| ==> ShapeOf(ss[i]) != ShapeOf(ss[j])
  }

  /** The profile of a key: the newest shapes, once each, in time order and apart. */
  ghost predicate Consolidated(segments: seq<Segment>, p: Profile) {
    && p.segments != []
    && (forall s :: s in p.segments ==> KeyOf(s) == p.key && Newest(segments, s))
    && (forall s :: Newest(segments, s) && KeyOf(s) == p.key ==> Holds(p.segments, ShapeOf(s)))
    && Timely(p.segments) && PairwiseApart(p.segments)
  }

  function ProfileLe(): (Profile, Profile) -> bool {
    (p: Profile, q: Profile) =>
      if p.key.date != q.key.date then p.key.date < q.key.date
      else if p.key.period != q.key.period then p.key.period < q.key.period
      else Text.Le(SourceOrEmpty(p.key), SourceOrEmpty(q.key))
  }

  function SourceOrEmpty(k: GroupKey): string {
    if k.sourceAssetId.Some? then k.sourceAssetId.value else ""
  }

  // ------------------------------------------------------------------
  // Grouping
  // ------------------------------------------------------------------

  function Of(segments: seq<Segment>, key: GroupKey): seq<Segment> {
    if segments == [] then [] else
      var init, last := Of(segments[..|segments| - 1], key), segments[|segments| - 1];
      if KeyOf(last) == key then init + [last] else init
  }

  lemma {:induction false} OfIs(segments: seq<Segment>, key: GroupKey)
    ensures forall s :: s in Of(segments, key) <==> s in segments && KeyOf(s) == key
  {
    if segments != [] {
      OfIs(segments[..|segments| - 1], key);
      assert segments == segments[..|segments| - 1] + [segments[|segments| - 1]];
    }
  }

  lemma {:induction false} KeysAre(segments: seq<Segment>)
    ensures NoDuplicates(Keys(segments))
    ensures forall k :: k in Keys(segments) <==> exists s :: s in segments && KeyOf(s) == k
    ensures forall s :: s in segments ==> KeyOf(s) in Keys(segments)
  {
    if segments != [] {
      KeysAre(segments[..|segments| - 1]);
      assert segments == segments[..|segments| - 1] + [segments[|segments| - 1]];
    }
  }

  method GroupSegments(segments: seq<Segment>) returns (order: seq<GroupKey>, grouped: map<GroupKey, seq<Segment>>)
    ensures order == Keys(segments)
    ensures forall k :: k in order <==> k in grouped
    ensures forall k :: k in grouped ==> grouped[k] == Of(segments, k)
  {
    order, grouped := [], map[];
    for i := 0 to |segments|
      invariant order == Keys(segments[..i])
      invariant forall k :: k in order <==> k in grouped
      invariant forall k :: k in grouped ==> grouped[k] == Of(segments[..i], k)
      invariant forall k :: k !in grouped ==> Of(segments[..i], k) == []
    {
      var segment := segments[i];
      assert segments[..i + 1][..i] == segments[..i];
      var key := KeyOf(segment);
      if key !in grouped {
        order := order + [key];
      }
      grouped := grouped[key := (if key in grouped then grouped[key] else []) + [segment]];
    }
    assert segments[..|segments|] == segments;
  }

  // ------------------------------------------------------------------
  // One group
  // ------------------------------------------------------------------

  ghost predicate NewestOf(candidates: seq<Segment>, s: Segment) {
    s in candidates && forall o :: o in candidates ==> o.retrievedAt <= s.retrievedAt
  }

  method LatestRetrieval(candidates: seq<Segment>) returns (latest: int)
    requires candidates != []
    ensures forall s :: s in candidates ==> (s.retrievedAt == latest <==> NewestOf(candidates, s))
  {
    latest := candidates[0].retrievedAt;
    ghost var holder := candidates[0];
    for i := 1 to |candidates|
      invariant holder in candidates && holder.retrievedAt == latest
      invariant forall k :: 0 <= k < i ==> candidates[k].retrievedAt <= latest
    {
      if candidates[i].retrievedAt > latest {
        latest, holder := candidates[i].retrievedAt, candidates[i];
      }
    }
  }

  /** The newest shapes of a group, and nothing else. */
  ghost predicate Snapshot(candidates: seq<Segment>, ss: seq<Segment>) {
    && (forall s :: s in ss ==> NewestOf(candidates, s))
    && (forall s :: NewestOf(candidates, s) ==> Holds(ss, ShapeOf(s)))
  }

  method UniqueShapes(candidates: seq<Segment>, latest: int) returns (kept: seq<Segment>)
    ensures forall s :: s in kept ==> s in candidates && s.retrievedAt == latest
    ensures forall s :: s in candidates && s.retrievedAt == latest ==> Holds(kept, ShapeOf(s))
    ensures DistinctShapes(kept)
  {
    kept := [];
    var place: map<Shape, nat> := map[];
    for i := 0 to |candidates|
      invariant forall s :: s in kept ==> s in candidates[..i] && s.retrievedAt == latest
      invariant forall s :: s in candidates[..i] && s.retrievedAt == latest ==> ShapeOf(s) in place
      invariant forall shape :: shape in place ==> place[shape] < |kept| && ShapeOf(kept[place[shape]]) == shape
      invariant forall k :: 0 <= k < |kept| ==> ShapeOf(kept[k]) in place && place[ShapeOf(kept[k])] == k
    {
      var item := candidates[i];
      assert candidates[..i + 1] == candidates[..i] + [item];
      if item.retrievedAt == latest {
        var shape := ShapeOf(item);
        if shape in place {
          kept := kept[place[shape] := item];
        } else {
          place := place[shape := |kept|];
          kept := kept + [item];
        }
      }
    }
    assert candidates[..|candidates|] == candidates;
  }

  function SegmentLe(): (Segment, Segment) -> bool {
    (a: Segment, b: Segment) => a.start < b.start || (a.start == b.start && a.end <= b.end)
  }

  lemma SortedShapes(kept: seq<Segment>, ordered: seq<Segment>)
    requires DistinctShapes(kept)
    requires ordered == Sort(kept, SegmentLe())
    ensures SortedBy(ordered, SegmentLe())
    ensures forall s :: s in ordered <==> s in kept
    ensures DistinctShapes(ordered)
  {
    SortPermutes(kept, SegmentLe());
    SortSorts(kept, SegmentLe());
    NoDuplicatesPermutes(kept, ordered);
    forall i, j | 0 <= i < j < |ordered| ensures ShapeOf(ordered[i]) != ShapeOf(ordered[j]) {
      assert ordered[i] in kept && ordered[j] in kept && ordered[i] != ordered[j];
    }
  }

  method NeighbourCheck(ordered: seq<Segment>) returns (ok: bool)
    ensures ok <==> NeighboursApart(ordered)
  {
    if ordered == [] {
      return true;
    }
    for i := 1 to |ordered|
      invariant forall k :: 0 <= k < i - 1 ==> ordered[k].end <= ordered[k + 1].start
    {
      if ordered[i].start < ordered[i - 1].end {
        assert ordered[i - 1 + 1].start < ordered[i - 1].end;
        return false;
      }
    }
    ok := true;
  }

  ghost predicate GroupConflict(candidates: seq<Segment>) {
    exists a, b :: NewestOf(candidates, a) && NewestOf(candidates, b) && ShapeOf(a) != ShapeOf(b) && Clash(a, b)
  }

  ghost predicate GroupConsolidated(candidates: seq<Segment>, ss: seq<Segment>) {
    ss != [] && Snapshot(candidates, ss) && Timely(ss) && PairwiseApart(ss)
  }

  /** In sorted order, neighbours apart means no two shapes share an instant. */
  lemma ConflictShows(candidates: seq<Segment>, ordered: seq<Segment>)
    requires Timely(ordered) && SortedBy(ordered, SegmentLe()) && DistinctShapes(ordered)
    requires Snapshot(candidates, ordered)
    ensures NeighboursApart(ordered) <==> !GroupConflict(candidates)
  {
    if !NeighboursApart(ordered) {
      var i :| 0 <= i < |ordered| - 1 && ordered[i + 1].start < ordered[i].end;
      var a, b := ordered[i], ordered[i + 1];
      assert SegmentLe()(a, b);
      assert NewestOf(candidates, a) && NewestOf(candidates, b) && ShapeOf(a) != ShapeOf(b);
      assert Clash(a, b);
    } else {
      NeighboursSuffice(ordered);
      forall a, b | NewestOf(candidates, a) && NewestOf(candidates, b) && ShapeOf(a) != ShapeOf(b)
        ensures !Clash(a, b)
      {
        var k :| k in ordered && ShapeOf(k) == ShapeOf(a);
        var l :| l in ordered && ShapeOf(l) == ShapeOf(b);
        ApartNeverClash(ordered, k, l);
      }
    }
  }

  lemma ApartNeverClash(ss: seq<Segment>, a: Segment, b: Segment)
    requires PairwiseApart(ss) && a in ss && b in ss && a != b
    ensures !Clash(a, b)
  {
    var i :| 0 <= i < |ss| && ss[i] == a;
    var j :| 0 <= j < |ss| && ss[j] == b;
    if i < j {
      assert !Clash(ss[i], ss[j]);
    } else {
      assert !Clash(ss[j], ss[i]);
    }
  }

  /** One key of the dictionary. The profile's own checks always pass. */
  method ConsolidateGroup(key: GroupKey, candidates: seq<Segment>) returns (r: Option<Profile>)
    requires candidates != [] && Timely(candidates)
    requires forall s :: s in candidates ==> KeyOf(s) == key
    ensures r.None? <==> GroupConflict(candidates)
    ensures r.Some? ==> r.value.key == key && GroupConsolidated(candidates, r.value.segments)
  {
    var latest := LatestRetrieval(candidates);
    var kept := UniqueShapes(candidates, latest);
    var ordered := Sort(kept, SegmentLe());
    SortedShapes(kept, ordered);
    OrderedIsNewest(candidates, latest, kept, ordered);
    ConflictShows(candidates, ordered);
    var ok := NeighbourCheck(ordered);
    if !ok {
      return None;
    }
    NeighboursSuffice(ordered);
    var built := BuildProfile(key, ordered);
    r := Some(built.value);
  }

  lemma SomeNewest(candidates: seq<Segment>)
    requires candidates != []
    ensures exists s :: NewestOf(candidates, s)
  {
    if |candidates| == 1 {
      assert NewestOf(candidates, candidates[0]);
    } else {
      var init, last := candidates[..|candidates| - 1], candidates[|candidates| - 1];
      assert candidates == init + [last];
      SomeNewest(init);
      var s :| NewestOf(init, s);
      assert NewestOf(candidates, if s.retrievedAt < last.retrievedAt then last else s);
    }
  }

  lemma OrderedIsNewest(candidates: seq<Segment>, latest: int, kept: seq<Segment>, ordered: seq<Segment>)
    requires candidates != [] && Timely(candidates)
    requires forall s :: s in candidates ==> (s.retrievedAt == latest <==> NewestOf(candidates, s))
    requires forall s :: s in kept ==> s in candidates && s.retrievedAt == latest
    requires forall s :: s in candidates && s.retrievedAt == latest ==> Holds(kept, ShapeOf(s))
    requires forall s :: s in ordered <==> s in kept
    ensures ordered != [] && Timely(ordered) && Snapshot(candidates, ordered)
  {
    SomeNewest(candidates);
    var s :| NewestOf(candidates, s);
    assert s in candidates && s.retrievedAt == latest;
    forall i | 0 <= i < |ordered| ensures ordered[i].start < ordered[i].end {
      assert ordered[i] in candidates;
    }
    forall x | NewestOf(candidates, x) ensures Holds(ordered, ShapeOf(x)) {
      assert Holds(kept, ShapeOf(x));
    }
  }

  // ------------------------------------------------------------------
  // All groups
  // ------------------------------------------------------------------

  lemma GroupLifts(segments: seq<Segment>, key: GroupKey)
    ensures forall s :: NewestOf(Of(segments, key), s) <==> Newest(segments, s) && KeyOf(s) == key
    ensures GroupConflict(Of(segments, key)) <==> Conflict(segments, key)
  {
    OfIs(segments, key);
  }

  /** The first key, in order of appearance, whose newest segments conflict. */
  ghost predicate FirstConflict(segments: seq<Segment>, key: GroupKey) {
    exists n :: 0 <= n < |Keys(segments)| && Keys(segments)[n] == key && Conflict(segments, key)
      && (forall m :: 0 <= m < n ==> !Conflict(segments, Keys(segments)[m]))
  }

  /** One profile for each of the first keys. */
  ghost predicate Built(segments: seq<Segment>, keys: seq<GroupKey>, profiles: seq<Profile>) {
    && |profiles| == |keys|
    && (forall i :: 0 <= i < |keys| ==>
      profiles[i].key == keys[i] && Consolidated(segments, profiles[i]) && !Conflict(segments, keys[i]))
  }

  lemma BuiltStep(segments: seq<Segment>, keys: seq<GroupKey>, n: nat, profiles: seq<Profile>, p: Profile)
    requires n < |keys| && Built(segments, keys[..n], profiles)
    requires p.key == keys[n] && Consolidated(segments, p) && !Conflict(segments, keys[n])
    ensures Built(segments, keys[..n + 1], profiles + [p])
  {
    var all := profiles + [p];
    forall i | 0 <= i < n + 1
      ensures all[i].key == keys[i] && Consolidated(segments, all[i]) && !Conflict(segments, keys[i])
    {
      if i < n {
        assert profiles[i].key == keys[..n][i];
      }
    }
  }

  lemma ConflictFirst(segments: seq<Segment>, n: nat, profiles: seq<Profile>)
    requires n < |Keys(segments)| && Built(segments, Keys(segments)[..n], profiles)
      && Conflict(segments, Keys(segments)[n])
    ensures FirstConflict(segments, Keys(segments)[n])
  {
    forall m | 0 <= m < n ensures !Conflict(segments, Keys(segments)[m]) {
      assert Keys(segments)[..n][m] == Keys(segments)[m];
    }
  }

  /** Fails on the first conflicting key; otherwise every key has its one profile, sorted by date, period
      and source, ties as first seen. */
  method ConsolidatePhysicalNotifications(segments: seq<Segment>) returns (r: Result<seq<Profile>, GroupKey>)
    requires Timely(segments)
    ensures r.Failure? ==> FirstConflict(segments, r.error)
    ensures r.Success? ==>
      exists profiles :: Built(segments, Keys(segments), profiles) && r.value == Sort(profiles, ProfileLe())
  {
    var order, grouped := GroupSegments(segments);
    var profiles: seq<Profile> := [];
    for n := 0 to |order|
      invariant Built(segments, order[..n], profiles)
    {
      var key := order[n];
      var profile := ConsolidateKey(segments, key, grouped[key]);
      if profile.None? {
        ConflictFirst(segments, n, profiles);
        return Failure(key);
      }
      BuiltStep(segments, order, n, profiles, profile.value);
      profiles := profiles + [profile.value];
    }
    assert order[..|order|] == order;
    r := Success(Sort(profiles, ProfileLe()));
  }

  method ConsolidateKey(segments: seq<Segment>, key: GroupKey, candidates: seq<Segment>) returns (r: Option<Profile>)
    requires Timely(segments) && key in Keys(segments) && candidates == Of(segments, key)
    ensures r.None? <==> Conflict(segments, key)
    ensures r.Some? ==> r.value.key == key && Consolidated(segments, r.value)
  {
    GroupReady(segments, key);
    GroupLifts(segments, key);
    r := ConsolidateGroup(key, candidates);
  }

  lemma GroupReady(segments: seq<Segment>, key: GroupKey)
    requires Timely(segments) && key in Keys(segments)
    ensures Of(segments, key) != [] && Timely(Of(segments, key))
    ensures forall s :: s in Of(segments, key) ==> KeyOf(s) == key
  {
    KeysAre(segments);
    OfIs(segments, key);
    var s :| s in segments && KeyOf(s) == key;
    assert s in Of(segments, key);
    forall i | 0 <= i < |Of(segments, key)| ensures Of(segments, key)[i].start < Of(segments, key)[i].end {
      assert Of(segments, key)[i] in segments;
    }
  }
}
