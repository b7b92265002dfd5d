/** The published grouping rule asks that a group's reported windows overlap.
    Groups are chains of overlaps, so the rule holds exactly where overlap is
    transitive on each reliable asset's events. */
module GroupingRule {
  import opened Basics
  import opened Events
  import opened EventOverlap
  import opened EventGroups
  import opened EventRanking
  import opened EventSelection
  import EventHistory

  /** Any two different events of the group overlap. */
  ghost predicate AllOverlap(group: set<Scored>) {
    forall y, z :: y in group && z in group && y != z ==> Overlap(y, z)
  }

  /** Whatever overlaps a common event overlaps. */
  ghost predicate OverlapTransitive(mates: set<Scored>) {
    forall a, b, c :: a in mates && b in mates && c in mates && a != c ==>
      (Overlap(a, b) && Overlap(b, c) ==> Overlap(a, c))
  }

  lemma {:induction false} ChainEnds(path: seq<Scored>, mates: set<Scored>)
    requires Chain(path, mates) && OverlapTransitive(mates)
    ensures path[0] == path[|path| - 1] || Overlap(path[0], path[|path| - 1])
  {
    if |path| > 1 {
      var init := path[..|path| - 1];
      assert Chain(init, mates);
      ChainEnds(init, mates);
      assert Overlap(path[|path| - 2], path[|path| - 2 + 1]);
    }
  }

  lemma TransitiveGroups(pool: set<Scored>, x: Scored, norm: Normal)
    requires Reliable(x) ==> OverlapTransitive(OfAsset(pool, Asset(x, norm), norm))
    ensures AllOverlap(Cluster(pool, x, norm))
  {
    forall y, z | y in Cluster(pool, x, norm) && z in Cluster(pool, x, norm) && y != z ensures Overlap(y, z) {
      var mates := OfAsset(pool, Asset(x, norm), norm);
      LinkedSymmetric(mates, x, y);
      LinkedTransitive(mates, y, x, z);
      var path :| Links(path, mates, y, z);
      ChainEnds(path, mates);
    }
  }

  /** Two overlaps with a common event put their ends in one group. */
  lemma ChainOfThree(mates: set<Scored>, a: Scored, b: Scored, c: Scored)
    requires a in mates && b in mates && c in mates && Overlap(a, b) && Overlap(b, c)
    ensures Linked(mates, a, a) && Linked(mates, a, c)
  {
    LinkedSelf(mates, a);
    LinkedStep(mates, a, a, b);
    LinkedStep(mates, a, b, c);
  }

  ghost predicate RuleHolds(pool: set<Scored>, norm: Normal) {
    forall x :: x in pool ==> AllOverlap(Cluster(pool, x, norm))
  }

  ghost predicate TransitiveByAsset(pool: set<Scored>, norm: Normal) {
    forall x :: x in pool && Reliable(x) ==> OverlapTransitive(OfAsset(pool, Asset(x, norm), norm))
  }

  lemma RuleMakesTransitive(pool: set<Scored>, x: Scored, norm: Normal)
    requires RuleHolds(pool, norm) && Reliable(x)
    ensures OverlapTransitive(OfAsset(pool, Asset(x, norm), norm))
  {
    var mates := OfAsset(pool, Asset(x, norm), norm);
    forall a, b, c | a in mates && b in mates && c in mates && a != c && Overlap(a, b) && Overlap(b, c)
      ensures Overlap(a, c)
    {
      ChainOfThree(mates, a, b, c);
      assert AllOverlap(Cluster(pool, a, norm));
    }
  }

  /** The rule as published holds exactly where, for every reliable asset, overlap is transitive on its events. */
  lemma RuleHoldsIff(pool: set<Scored>, norm: Normal)
    ensures RuleHolds(pool, norm) <==> TransitiveByAsset(pool, norm)
  {
    if RuleHolds(pool, norm) {
      forall x | x in pool && Reliable(x) ensures OverlapTransitive(OfAsset(pool, Asset(x, norm), norm)) {
        RuleMakesTransitive(pool, x, norm);
      }
    }
    if TransitiveByAsset(pool, norm) {
      forall x | x in pool ensures AllOverlap(Cluster(pool, x, norm)) {
        TransitiveGroups(pool, x, norm);
      }
    }
  }

  /** The same of the groups that are built. */
  lemma GroupsObeyIff(gs: seq<RawGroup>, scores: seq<Scored>, norm: Normal)
    requires AllFaithful(gs, Elems(scores), norm)
    requires forall x :: Grouped(gs, x) <==> x in scores
    ensures (forall g :: g in gs ==> AllOverlap(Elems(g.members))) <==> TransitiveByAsset(Elems(scores), norm)
  {
    var pool := Elems(scores);
    RuleHoldsIff(pool, norm);
    if forall g :: g in gs ==> AllOverlap(Elems(g.members)) {
      forall x | x in pool ensures AllOverlap(Cluster(pool, x, norm)) {
        assert Grouped(gs, x);
        var g :| g in gs && x in g.members;
        assert Faithful(g, pool, norm) && GroupOf(g, pool, x, norm);
      }
    }
    if RuleHolds(pool, norm) {
      forall g | g in gs ensures AllOverlap(Elems(g.members)) {
        assert Faithful(g, pool, norm);
        var x := g.members[0];
        assert x in g.members && GroupOf(g, pool, x, norm);
        assert Grouped(gs, x);
      }
    }
  }

  // ------------------------------------------------------------------
  // An input that breaks the rule
  // ------------------------------------------------------------------

  /** A first report of a reliable asset's unavailability over [start, end). */
  function Report(eventId: string, start: int, end: int): Revision {
    Revision(eventId, 1, Open, 0, Some(start), Some(end), OtherReported, Some("A"), None, true,
             None, None, None, None, "checksum", None, None, ["record"])
  }

  const FIRST := Report("1", 0, 10)
  const SECOND := Report("2", 5, 20)
  const THIRD := Report("3", 15, 30)

  lemma ChainBreaksRule(pool: set<Scored>, a: Scored, b: Scored, c: Scored, norm: Normal)
    requires a in pool && b in pool && c in pool && Reliable(a) && Reliable(b) && Reliable(c)
    requires a.event.assetId == b.event.assetId == c.event.assetId
    requires Overlap(a, b) && Overlap(b, c) && !Overlap(a, c) && a != c
    ensures a in Cluster(pool, a, norm) && c in Cluster(pool, a, norm) && !RuleHolds(pool, norm)
  {
    ChainOfThree(OfAsset(pool, Asset(a, norm), norm), a, b, c);
    assert !AllOverlap(Cluster(pool, a, norm));
  }

  lemma ReportsCompete(total: Revision -> int)
    ensures
      var events := [FIRST, SECOND, THIRD];
      && !Conflicting(events)
      && (forall e :: e in events ==> EventHistory.WellFormed(e) && Scored(e, total(e)) in Pool(events, 0, total))
  {
    var events := [FIRST, SECOND, THIRD];
    assert FIRST.eventId[0] == '1' && SECOND.eventId[0] == '2' && THIRD.eventId[0] == '3';
    forall e | e in events ensures EventHistory.WellFormed(e) && Eligible(e, 0) && e in Latest(events) {}
  }

  /** Three valid reports of one asset, in one group, of which the first and the last do not overlap. */
  lemma ChainGroupedApart(total: Revision -> int, norm: Normal)
    ensures
      var events := [FIRST, SECOND, THIRD];
      var pool := Pool(events, 0, total);
      var a, c := Scored(FIRST, total(FIRST)), Scored(THIRD, total(THIRD));
      && (forall e :: e in events ==> EventHistory.WellFormed(e)) && !Conflicting(events)
      && a in pool && c in Cluster(pool, a, norm) && a in Cluster(pool, a, norm)
      && !Overlap(a, c) && !RuleHolds(pool, norm)
  {
    var events := [FIRST, SECOND, THIRD];
    var a, b, c := Scored(FIRST, total(FIRST)), Scored(SECOND, total(SECOND)), Scored(THIRD, total(THIRD));
    ReportsCompete(total);
    assert FIRST in events && SECOND in events && THIRD in events;
    assert a.event.effectiveStart == Some(0) && c.event.effectiveStart == Some(15);
    ChainBreaksRule(Pool(events, 0, total), a, b, c, norm);
  }
}
