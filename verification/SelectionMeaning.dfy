/** What a ranked selection tells its reader, in terms of the events' own fields. */
module SelectionMeaning {
  import opened Basics
  import opened Events
  import opened EventOverlap
  import opened EventKeys
  import opened EventGroups
  import opened EventRanking
  import opened EventSelection
  import opened Sorting
  import Text

  // ------------------------------------------------------------------
  // The order
  // ------------------------------------------------------------------

  /** A warning is never after a notice or another report, a notice never after another report. */
  predicate NoLessAuthority(a: Authority, b: Authority) {
    (b == SystemWarning ==> a == SystemWarning) && (b == AuthoritativeNotice ==> a != OtherReported)
  }

  /** Reported megawatts are never after missing ones, nor larger after smaller. */
  predicate NoLessReported(a: Option<real>, b: Option<real>) {
    b.Some? ==> a.Some? && a.value >= b.value
  }

  /** The higher score; then authority; then reported megawatts; then the later publication; then the smaller id. */
  predicate ComesFirst(a: Scored, b: Scored) {
    var x, y := a.event, b.event;
    && a.total >= b.total
    && (a.total == b.total ==> NoLessAuthority(x.authority, y.authority))
    && (a.total == b.total && x.authority == y.authority ==> NoLessReported(x.unavailableMw, y.unavailableMw))
    && (a.total == b.total && x.authority == y.authority && x.unavailableMw == y.unavailableMw ==>
         && x.publishedAt >= y.publishedAt
         && (x.publishedAt == y.publishedAt ==> Text.Le(x.eventId, y.eventId)))
  }

  lemma KeyMeans(a: Scored, b: Scored)
    ensures KeyLe(a, b) <==> ComesFirst(a, b)
  {}

  // ------------------------------------------------------------------
  // What is grouped together
  // ------------------------------------------------------------------

  /** The instant lies in the reported window; a window without an end lasts as long as instants do. */
  predicate InWindow(e: Revision, t: int) {
    && e.effectiveStart.Some? && e.effectiveStart.value <= t < FOREVER
    && (e.effectiveEnd.Some? ==> t < e.effectiveEnd.value)
  }

  /** Windows overlap exactly when they share an instant, whatever ends are reported within the range of instants. */
  lemma OverlapMeans(l: Scored, r: Scored)
    requires l.event.effectiveEnd.Some? ==> l.event.effectiveEnd.value <= FOREVER
    requires r.event.effectiveEnd.Some? ==> r.event.effectiveEnd.value <= FOREVER
    ensures Overlap(l, r) <==> exists t :: InWindow(l.event, t) && InWindow(r.event, t)
  {
    if Overlap(l, r) {
      var s, t := l.event.effectiveStart.value, r.event.effectiveStart.value;
      assert InWindow(l.event, if s < t then t else s) && InWindow(r.event, if s < t then t else s);
    }
  }

  /** Both events name one asset, reliably. */
  predicate OneAsset(x: Revision, y: Revision, norm: Normal) {
    && x.assetIdentityReliable && y.assetIdentityReliable && x.assetId.Some? && y.assetId.Some?
    && x.assetId.value != "" && y.assetId.value != "" && norm(x.assetId.value) == norm(y.assetId.value)
  }

  /** Events of the pool on one asset, each overlapping the next. */
  ghost predicate ChainOfOverlaps(path: seq<Scored>, pool: set<Scored>, norm: Normal) {
    && (forall i :: 0 <= i < |path| ==> path[i] in pool && OneAsset(path[0].event, path[i].event, norm))
    && (forall i :: 0 <= i < |path| - 1 ==> Overlap(path[i], path[i + 1]))
  }

  ghost predicate Joined(path: seq<Scored>, pool: set<Scored>, norm: Normal, x: Scored, y: Scored) {
    path != [] && path[0] == x && path[|path| - 1] == y && ChainOfOverlaps(path, pool, norm)
  }

  lemma JoinedNamesAsset(path: seq<Scored>, pool: set<Scored>, norm: Normal, x: Scored, y: Scored)
    requires Joined(path, pool, norm, x, y)
    ensures Reliable(x) && Links(path, OfAsset(pool, Asset(x, norm), norm), x, y)
  {
    assert OneAsset(path[0].event, path[0].event, norm);
  }

  lemma ClusterMeans(pool: set<Scored>, x: Scored, y: Scored, norm: Normal)
    requires x in pool
    ensures y in Cluster(pool, x, norm) <==> x == y || exists path :: Joined(path, pool, norm, x, y)
  {
    if path :| Joined(path, pool, norm, x, y) {
      JoinedNamesAsset(path, pool, norm, x, y);
    }
    if Reliable(x) {
      var mates := OfAsset(pool, Asset(x, norm), norm);
      LinkedSelf(mates, x);
      if Linked(mates, x, y) {
        var path :| Links(path, mates, x, y);
        assert Joined(path, pool, norm, x, y);
      }
    }
  }

  // ------------------------------------------------------------------
  // The selection
  // ------------------------------------------------------------------

  /** Among the events, the newest revision of its event, neither resolved, superseded nor withdrawn, and not ended. */
  ghost predicate Competes(x: Scored, events: seq<Revision>, asOf: int, total: Revision -> int) {
    && x.event in events && x.total == total(x.event)
    && (forall e :: e in events && e.eventId == x.event.eventId ==> e.revision <= x.event.revision)
    && (x.event.status == Open || x.event.status == Updated)
    && (x.event.effectiveEnd.Some? ==> asOf < x.event.effectiveEnd.value)
  }

  lemma PoolMeans(events: seq<Revision>, asOf: int, total: Revision -> int, x: Scored)
    ensures x in Pool(events, asOf, total) <==> Competes(x, events, asOf, total)
  {
    if Competes(x, events, asOf, total) {
      assert x.event in Latest(events) && Eligible(x.event, asOf);
      assert x == Scored(x.event, total(x.event));
    }
  }

  /** The group is that of its representative: its members are those joined to it, none of which comes before it. */
  ghost predicate Represents(g: Group, pool: set<Scored>, norm: Normal) {
    var r := g.representative;
    && r in pool
    && g.memberIds == (set y | y in Cluster(pool, r, norm) :: y.event.eventId)
    && (forall y :: y in Cluster(pool, r, norm) ==> ComesFirst(r, y))
    && KeyTells(g, pool, norm)
  }

  /** The key and asset presented: an event that names no asset reliably has its own id; a group on an asset has the
      asset's, with the least id of its members unless all that competes on the asset is in it. */
  ghost predicate KeyTells(g: Group, pool: set<Scored>, norm: Normal) {
    var e := g.representative.event;
    if OneAsset(e, e, norm) then
      && g.asset == Some(norm(e.assetId.value)) && g.key.AssetKey? && g.key.assetId == norm(e.assetId.value)
      && (g.key.suffix.None? <==>
           forall y :: y in pool && OneAsset(e, y.event, norm) ==> y in Cluster(pool, g.representative, norm))
      && (g.key.suffix.Some? ==>
           && g.key.suffix.value in g.memberIds
           && (forall id :: id in g.memberIds ==> Text.Le(g.key.suffix.value, id)))
    else g.asset.None? && g.key == EventKey(e.eventId)
  }

  lemma KeyForTells(g: Group, pool: set<Scored>, norm: Normal)
    requires g.representative in pool && Describes(g, pool, g.representative, norm)
    ensures KeyTells(g, pool, norm)
  {
    var r := g.representative;
    assert Reliable(r) <==> OneAsset(r.event, r.event, norm);
    if Reliable(r) {
      var mates, cluster := OfAsset(pool, Asset(r, norm), norm), Cluster(pool, r, norm);
      forall y ensures y in mates <==> y in pool && OneAsset(r.event, y.event, norm) {}
      assert cluster <= mates;
      assert cluster == mates <==> forall y :: y in mates ==> y in cluster;
    }
  }

  lemma RankingRepresents(all: seq<Group>, pool: set<Scored>, norm: Normal, g: Group)
    requires IsRanking(all, pool, norm) && g in all
    ensures Represents(g, pool, norm)
  {
    var x :| x in pool && Describes(g, pool, x, norm);
    DescribesRepresentative(g, pool, x, norm);
    forall y | y in Cluster(pool, g.representative, norm) ensures ComesFirst(g.representative, y) {
      KeyMeans(g.representative, y);
    }
    KeyForTells(g, pool, norm);
  }

  /** Every competing event is in some group whose representative does not come after it. */
  lemma RankingCovers(all: seq<Group>, pool: set<Scored>, norm: Normal, x: Scored)
    requires IsRanking(all, pool, norm) && x in pool
    ensures exists k :: 0 <= k < |all| && x.event.eventId in all[k].memberIds && KeyLe(all[k].representative, x)
  {
    assert Ranked(all, x, pool, norm);
    var g :| g in all && Describes(g, pool, x, norm);
    var k :| 0 <= k < |all| && all[k] == g;
    ClusterMeans(pool, x, x, norm);
    assert x in Cluster(pool, x, norm);
  }

  /** Each group leads with its first event, and the groups come in the published order. */
  ghost predicate WellLed(picked: seq<Group>, pool: set<Scored>, norm: Normal) {
    && (forall g :: g in picked ==> Represents(g, pool, norm))
    && (forall i, j :: 0 <= i < j < |picked| ==> ComesFirst(picked[i].representative, picked[j].representative))
  }

  ghost predicate LeftOut(picked: seq<Group>, x: Scored) {
    forall g :: g in picked ==> x.event.eventId !in g.memberIds
  }

  lemma RankingLeads(all: seq<Group>, pool: set<Scored>, norm: Normal)
    requires IsRanking(all, pool, norm)
    ensures WellLed(all, pool, norm)
  {
    forall g | g in all ensures Represents(g, pool, norm) {
      RankingRepresents(all, pool, norm, g);
    }
    forall i, j | 0 <= i < j < |all| ensures ComesFirst(all[i].representative, all[j].representative) {
      assert RepLe(all[i], all[j]);
      KeyMeans(all[i].representative, all[j].representative);
    }
  }

  lemma FirstLead(all: seq<Group>, n: nat, pool: set<Scored>, norm: Normal)
    requires WellLed(all, pool, norm) && n <= |all|
    ensures WellLed(all[..n], pool, norm)
  {
    assert forall g :: g in all[..n] ==> g in all;
  }

  lemma EarlierLeads(all: seq<Group>, i: nat, k: nat, x: Scored)
    requires i < k < |all| && SortedBy(all, RepLe) && KeyLe(all[k].representative, x)
    ensures ComesFirst(all[i].representative, x)
  {
    assert RepLe(all[i], all[k]);
    KeyTransitive(all[i].representative, all[k].representative, x);
    KeyMeans(all[i].representative, x);
  }

  lemma EarliersLead(all: seq<Group>, n: nat, k: nat, x: Scored)
    requires n <= k < |all| && SortedBy(all, RepLe) && KeyLe(all[k].representative, x)
    ensures forall g :: g in all[..n] ==> ComesFirst(g.representative, x)
  {
    forall g | g in all[..n] ensures ComesFirst(g.representative, x) {
      var i :| 0 <= i < n && all[..n][i] == g;
      EarlierLeads(all, i, k, x);
    }
  }

  lemma LeftOutIsLater(all: seq<Group>, n: nat, k: nat, x: Scored)
    requires n <= |all| && k < |all| && LeftOut(all[..n], x) && x.event.eventId in all[k].memberIds
    ensures n <= k
  {
    forall i | 0 <= i < n ensures x.event.eventId !in all[i].memberIds {
      assert all[..n][i] in all[..n];
    }
  }

  /** An event left out of the first groups comes after the leader of each. */
  lemma LeftOutComesAfter(all: seq<Group>, pool: set<Scored>, n: nat, norm: Normal, x: Scored)
    requires IsRanking(all, pool, norm) && n <= |all| && x in pool && LeftOut(all[..n], x)
    ensures n < |all|
    ensures forall g :: g in all[..n] ==> ComesFirst(g.representative, x)
  {
    RankingCovers(all, pool, norm, x);
    var k :| 0 <= k < |all| && x.event.eventId in all[k].memberIds && KeyLe(all[k].representative, x);
    LeftOutIsLater(all, n, k, x);
    EarliersLead(all, n, k, x);
  }

  lemma FirstGroups(s: Selection, pool: set<Scored>, limit: nat, norm: Normal, all: seq<Group>)
    requires IsRanking(all, pool, norm) && s.eligibleGroups == |all|
    requires s.selected == if |all| <= limit then all else all[..limit]
    ensures WellLed(s.selected, pool, norm)
    ensures |s.selected| == if s.eligibleGroups <= limit then s.eligibleGroups else limit
    ensures forall x :: x in pool && LeftOut(s.selected, x) ==>
      |s.selected| == limit && forall g :: g in s.selected ==> ComesFirst(g.representative, x)
  {
    var n := |s.selected|;
    assert s.selected == all[..n];
    RankingLeads(all, pool, norm);
    FirstLead(all, n, pool, norm);
    forall x | x in pool && LeftOut(all[..n], x)
      ensures n < |all| && forall g :: g in all[..n] ==> ComesFirst(g.representative, x)
    {
      LeftOutComesAfter(all, pool, n, norm, x);
    }
  }

  /** The selection holds the first groups by the published order, each led by its first event; whatever competes and
      is left out comes after all of their leaders, and only because the limit is reached. */
  lemma SelectionTells(s: Selection, events: seq<Revision>, asOf: int, limit: nat, total: Revision -> int, norm: Normal)
    requires IsSelection(s, events, asOf, limit, total, norm)
    ensures WellLed(s.selected, Pool(events, asOf, total), norm)
    ensures |s.selected| == if s.eligibleGroups <= limit then s.eligibleGroups else limit
    ensures forall x :: x in Pool(events, asOf, total) <==> Competes(x, events, asOf, total)
    ensures forall x :: Competes(x, events, asOf, total) && LeftOut(s.selected, x) ==>
      |s.selected| == limit && forall g :: g in s.selected ==> ComesFirst(g.representative, x)
  {
    var pool := Pool(events, asOf, total);
    forall x ensures x in pool <==> Competes(x, events, asOf, total) {
      PoolMeans(events, asOf, total, x);
    }
    var all: seq<Group> :| IsRanking(all, pool, norm) && s.eligibleGroups == |all|
            && s.selected == (if |all| <= limit then all else all[..limit]);
    FirstGroups(s, pool, limit, norm, all);
  }
}
