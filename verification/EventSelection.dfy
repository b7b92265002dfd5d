/** The ranked selection, and why it does not depend on how the revisions arrive. */
module EventSelection {
  import opened Basics
  import opened Events
  import opened EventOverlap
  import opened EventKeys
  import opened EventGroups
  import opened EventRanking
  import opened Sorting
  import Text

  predicate Eligible(e: Revision, asOf: int) {
    !Terminal(e.status) && (e.effectiveEnd.Some? ==> e.effectiveEnd.value > asOf)
  }

  /** The events that compete: newest revisions, eligible at `asOf`, with their scores. */
  ghost function Pool(events: seq<Revision>, asOf: int, total: Revision -> int): set<Scored> {
    set r | r in Latest(events) && Eligible(r, asOf) :: Scored(r, total(r))
  }

  ghost predicate DistinctIds(pool: set<Scored>) {
    forall x, y :: x in pool && y in pool && x.event.eventId == y.event.eventId ==> x == y
  }

  /** `g` is the group of `x`: all that chains of overlap join to it, represented by its best member. */
  ghost predicate Describes(g: Group, pool: set<Scored>, x: Scored, norm: Normal) {
    var cluster := Cluster(pool, x, norm);
    && g.memberIds == (set y | y in cluster :: y.event.eventId)
    && g.representative in cluster && (forall y :: y in cluster ==> KeyLe(g.representative, y))
    && KeyFor(g.key, pool, x, norm)
    && g.asset == (if Reliable(x) then Some(Asset(x, norm)) else None)
  }

  ghost predicate Ranked(all: seq<Group>, x: Scored, pool: set<Scored>, norm: Normal) {
    exists g :: g in all && Describes(g, pool, x, norm)
  }

  predicate RepLe(g: Group, h: Group) {
    KeyLe(g.representative, h.representative)
  }

  /** All groups of the pool, each once, best first. */
  ghost predicate IsRanking(all: seq<Group>, pool: set<Scored>, norm: Normal) {
    && (forall g :: g in all ==> exists x :: x in pool && Describes(g, pool, x, norm))
    && (forall x :: x in pool ==> Ranked(all, x, pool, norm))
    && NoDuplicates(all) && SortedBy(all, RepLe)
  }

  // ------------------------------------------------------------------
  // The ranking is unique
  // ------------------------------------------------------------------

  /** Being in one cluster is an equivalence. */
  lemma ClusterSame(pool: set<Scored>, x: Scored, y: Scored, norm: Normal)
    requires x in pool && y in Cluster(pool, x, norm)
    ensures y in pool && Reliable(y) == Reliable(x)
    ensures Reliable(x) ==> Asset(y, norm) == Asset(x, norm)
    ensures Cluster(pool, y, norm) == Cluster(pool, x, norm)
  {
    if Reliable(x) {
      var mates := OfAsset(pool, Asset(x, norm), norm);
      LinkedSymmetric(mates, x, y);
      forall z | z in mates ensures Linked(mates, x, z) <==> Linked(mates, y, z) {
        if Linked(mates, x, z) { LinkedTransitive(mates, y, x, z); }
        if Linked(mates, y, z) { LinkedTransitive(mates, x, y, z); }
      }
    }
  }

  lemma DescribesUnique(g: Group, h: Group, pool: set<Scored>, x: Scored, norm: Normal)
    requires DistinctIds(pool) && x in pool
    requires Describes(g, pool, x, norm) && Describes(h, pool, x, norm)
    ensures g == h
  {
    KeyAntisymmetric(g.representative, h.representative);
    ClusterSame(pool, x, g.representative, norm);
    ClusterSame(pool, x, h.representative, norm);
    if Reliable(x) && g.key.suffix.Some? {
      Text.LeAntisymmetric(g.key.suffix.value, h.key.suffix.value);
    }
  }

  lemma DescribesRepresentative(g: Group, pool: set<Scored>, x: Scored, norm: Normal)
    requires x in pool && Describes(g, pool, x, norm)
    ensures g.representative in pool && Describes(g, pool, g.representative, norm)
  {
    ClusterSame(pool, x, g.representative, norm);
  }

  lemma RepOrder()
    ensures TotalPreorder(RepLe) && forall g :: RepLe(g, g)
  {
    forall g, h ensures RepLe(g, h) || RepLe(h, g) {
      KeyTotal(g.representative, h.representative);
    }
    forall f, g, h | RepLe(f, g) && RepLe(g, h) ensures RepLe(f, h) {
      KeyTransitive(f.representative, g.representative, h.representative);
    }
  }

  /** Two groups of the pool that compare equal are one group. */
  lemma SameGroup(g: Group, h: Group, pool: set<Scored>, x: Scored, y: Scored, norm: Normal)
    requires DistinctIds(pool) && x in pool && y in pool
    requires Describes(g, pool, x, norm) && Describes(h, pool, y, norm)
    requires g.representative.event.eventId == h.representative.event.eventId
    ensures g == h
  {
    DescribesRepresentative(g, pool, x, norm);
    DescribesRepresentative(h, pool, y, norm);
    DescribesUnique(g, h, pool, g.representative, norm);
  }

  lemma RankingHas(all: seq<Group>, pool: set<Scored>, norm: Normal, g: Group, x: Scored)
    requires DistinctIds(pool) && x in pool && Describes(g, pool, x, norm) && Ranked(all, x, pool, norm)
    ensures g in all
  {
    var h :| h in all && Describes(h, pool, x, norm);
    DescribesUnique(g, h, pool, x, norm);
  }

  /** One ranking of a pool has no group that another lacks. */
  lemma RankingWithin(a: seq<Group>, b: seq<Group>, pool: set<Scored>, norm: Normal)
    requires DistinctIds(pool) && IsRanking(a, pool, norm) && IsRanking(b, pool, norm)
    ensures forall g :: g in a ==> g in b
  {
    forall g | g in a ensures g in b {
      var x :| x in pool && Describes(g, pool, x, norm);
      RankingHas(b, pool, norm, g, x);
    }
  }

  /** The sort key admits one ranking of a pool and no other. */
  lemma RankingUnique(a: seq<Group>, b: seq<Group>, pool: set<Scored>, norm: Normal)
    requires DistinctIds(pool) && IsRanking(a, pool, norm) && IsRanking(b, pool, norm)
    ensures a == b
  {
    RankingWithin(a, b, pool, norm);
    RankingWithin(b, a, pool, norm);
    SameElements(a, b);
    forall g, h | g in a && h in a && RepLe(g, h) && RepLe(h, g) ensures g == h {
      KeyAntisymmetric(g.representative, h.representative);
      var x :| x in pool && Describes(g, pool, x, norm);
      var y :| y in pool && Describes(h, pool, y, norm);
      SameGroup(g, h, pool, x, y, norm);
    }
    RepOrder();
    SortedUnique(a, b, RepLe);
  }

  // ------------------------------------------------------------------
  // Ranking
  // ------------------------------------------------------------------

  function Ids(members: seq<Scored>): set<string> {
    set m | m in members :: m.event.eventId
  }

  ghost predicate BuiltFrom(g: Group, raw: RawGroup) {
    && g.key == raw.key && g.asset == raw.asset && g.memberIds == Ids(raw.members)
    && g.representative in raw.members && (forall m :: m in raw.members ==> KeyLe(g.representative, m))
  }

  lemma BuiltDescribes(g: Group, raw: RawGroup, pool: set<Scored>, x: Scored, norm: Normal)
    requires BuiltFrom(g, raw) && Faithful(raw, pool, norm) && x in raw.members
    ensures Describes(g, pool, x, norm)
  {
    assert GroupOf(raw, pool, x, norm);
    var cluster := Cluster(pool, x, norm);
    assert forall y :: y in cluster <==> y in raw.members;
    assert g.memberIds == set y | y in cluster :: y.event.eventId;
  }

  lemma BuiltRanks(groups: seq<Group>, gs: seq<RawGroup>, pool: set<Scored>, norm: Normal, sorted: seq<Group>)
    requires |groups| == |gs| && forall i :: 0 <= i < |gs| ==> BuiltFrom(groups[i], gs[i])
    requires AllFaithful(gs, pool, norm) && Partition(gs) && forall x :: Grouped(gs, x) <==> x in pool
    requires sorted == Sort(groups, RepLe)
    ensures IsRanking(sorted, pool, norm) && |sorted| == |groups|
  {
    SortPermutes(groups, RepLe);
    RepOrder();
    SortSorts(groups, RepLe);
    forall i, j | 0 <= i < j < |groups| ensures groups[i] != groups[j] {
      assert groups[i].representative in gs[i].members;
      assert groups[j].representative in gs[j].members;
    }
    NoDuplicatesPermutes(groups, sorted);
    forall g | g in sorted ensures exists x :: x in pool && Describes(g, pool, x, norm) {
      var i :| 0 <= i < |groups| && groups[i] == g;
      assert gs[i] in gs;
      BuiltDescribes(g, gs[i], pool, g.representative, norm);
      assert Grouped(gs, g.representative);
    }
    forall x | x in pool ensures Ranked(sorted, x, pool, norm) {
      var raw :| raw in gs && x in raw.members;
      var i :| 0 <= i < |gs| && gs[i] == raw;
      BuiltDescribes(groups[i], raw, pool, x, norm);
      assert groups[i] in sorted;
    }
  }

  method ScoreEligible(latest: seq<Revision>, asOf: int, total: Revision -> int) returns (scores: seq<Scored>)
    requires NoDuplicates(latest)
    ensures NoDuplicates(scores)
    ensures forall x :: x in scores <==> x.event in latest && Eligible(x.event, asOf) && x.total == total(x.event)
  {
    scores := [];
    for i := 0 to |latest|
      invariant NoDuplicates(scores)
      invariant forall x :: x in scores <==>
        x.event in latest[..i] && Eligible(x.event, asOf) && x.total == total(x.event)
    {
      assert latest[..i + 1] == latest[..i] + [latest[i]];
      if Eligible(latest[i], asOf) {
        scores := scores + [Scored(latest[i], total(latest[i]))];
      }
    }
    assert latest[..|latest|] == latest;
  }

  ghost predicate IsSelection(s: Selection, events: seq<Revision>, asOf: int, limit: nat, total: Revision -> int,
                              norm: Normal) {
    exists all ::
      && IsRanking(all, Pool(events, asOf, total), norm)
      && s.eligibleGroups == |all|
      && s.selected == (if |all| <= limit then all else all[..limit])
  }

  /** Fails exactly on a limit outside one to three or on conflicting duplicates; otherwise selects the
      first `limit` groups of the ranking of all eligible newest revisions. */
  method RankRelevantEvents(events: seq<Revision>, asOf: int, limit: int, total: Revision -> int, norm: Normal)
    returns (r: Result<Selection, RankError>)
    ensures r == Failure(LimitOutOfRange) <==> !(1 <= limit <= 3)
    ensures r == Failure(ConflictingDuplicate) <==> 1 <= limit <= 3 && Conflicting(events)
    ensures r.Success? ==>
      limit > 0 && IsSelection(r.value, events, asOf, limit, total, norm) && |r.value.selected| <= limit
  {
    if !(1 <= limit <= MAX_SELECTED) {
      return Failure(LimitOutOfRange);
    }
    var latestOrError := LatestRevisions(events);
    if latestOrError.Failure? {
      return Failure(latestOrError.error);
    }
    var latest := latestOrError.value;
    var scores := ScoreEligible(latest, asOf, total);
    PoolIsScores(events, latest, scores, asOf, total);
    var gs := GroupEligible(scores, norm);
    var groups: seq<Group> := [];
    for i := 0 to |gs|
      invariant |groups| == i && forall k :: 0 <= k < i ==> BuiltFrom(groups[k], gs[k])
    {
      assert Faithful(gs[i], Elems(scores), norm);
      var representative := Representative(gs[i].members);
      groups := groups + [Group(gs[i].key, gs[i].asset, Ids(gs[i].members), representative)];
    }
    var ranked := Sort(groups, RepLe);
    BuiltRanks(groups, gs, Elems(scores), norm, ranked);
    r := Success(Selection(|ranked|, if |ranked| <= limit then ranked else ranked[..limit]));
  }

  lemma PoolIsScores(events: seq<Revision>, latest: seq<Revision>, scores: seq<Scored>, asOf: int,
                     total: Revision -> int)
    requires (set x | x in latest) == Latest(events)
    requires forall x :: x in scores <==> x.event in latest && Eligible(x.event, asOf) && x.total == total(x.event)
    ensures Elems(scores) == Pool(events, asOf, total)
  {
    forall x ensures x in scores <==> x in Pool(events, asOf, total) {
      assert x.event in latest <==> x.event in set y | y in latest;
      if x in scores {
        assert x == Scored(x.event, total(x.event));
      }
    }
  }

  lemma PoolDistinct(events: seq<Revision>, asOf: int, total: Revision -> int)
    requires !Conflicting(events)
    ensures DistinctIds(Pool(events, asOf, total))
  {
    forall x, y | x in Pool(events, asOf, total) && y in Pool(events, asOf, total) && x.event.eventId == y.event.eventId
      ensures x == y
    {
      LatestDistinct(events, x.event, y.event);
    }
  }

  /** The selection depends on the set of revisions alone, not on their order or repetition. */
  lemma SelectionIgnoresOrder(events: seq<Revision>, others: seq<Revision>, asOf: int, limit: nat,
                              total: Revision -> int, norm: Normal, s: Selection, t: Selection)
    requires forall e :: e in events <==> e in others
    requires !Conflicting(events)
    requires IsSelection(s, events, asOf, limit, total, norm)
    requires IsSelection(t, others, asOf, limit, total, norm)
    ensures s == t
  {
    assert Latest(events) == Latest(others);
    PoolDistinct(events, asOf, total);
    var a :| IsRanking(a, Pool(events, asOf, total), norm) && s.eligibleGroups == |a|
          && s.selected == (if |a| <= limit then a else a[..limit]);
    var b :| IsRanking(b, Pool(others, asOf, total), norm) && t.eligibleGroups == |b|
          && t.selected == (if |b| <= limit then b else b[..limit]);
    RankingUnique(a, b, Pool(events, asOf, total), norm);
  }
}
