/** `rank_relevant_events`: latest revisions, groups, and the first few of them. */
module EventRanking {
  import opened Basics
  import opened Events
  import opened EventOverlap
  import opened EventGroups
  import opened Sorting
  import Text

  const MAX_SELECTED := 3

  datatype RankError = LimitOutOfRange | ConflictingDuplicate

  datatype Group = Group(key: GroupKey, asset: Option<string>, memberIds: set<string>, representative: Scored)

  datatype Selection = Selection(eligibleGroups: nat, selected: seq<Group>)

  // ------------------------------------------------------------------
  // Latest revisions
  // ------------------------------------------------------------------

  ghost predicate Conflicting(events: seq<Revision>) {
    exists x, y :: x in events && y in events && x.eventId == y.eventId && x.revision == y.revision && x != y
  }

  /** The newest revision of each event. */
  ghost function Latest(events: seq<Revision>): set<Revision> {
    set r | r in events && forall e :: e in events && e.eventId == r.eventId ==> e.revision <= r.revision
  }

  /** What the two dictionaries hold after reading `events`; `order` is the key order of the first. */
  ghost predicate Tabled(events: seq<Revision>, order: seq<string>, byEvent: map<string, Revision>,
                         seen: map<(string, int), Revision>) {
    && (forall e :: e in events ==> (e.eventId, e.revision) in seen && seen[(e.eventId, e.revision)] == e)
    && (forall k :: k in seen ==> seen[k] in events && k == (seen[k].eventId, seen[k].revision))
    && (forall e :: e in events ==> e.eventId in byEvent && e.revision <= byEvent[e.eventId].revision)
    && (forall id :: id in byEvent ==> byEvent[id].eventId == id && byEvent[id] in events)
    && NoDuplicates(order) && (forall id :: id in order <==> id in byEvent)
  }

  method TableEvent(events: seq<Revision>, order: seq<string>, byEvent: map<string, Revision>,
                    seen: map<(string, int), Revision>, event: Revision)
    returns (ok: bool, order': seq<string>, byEvent': map<string, Revision>, seen': map<(string, int), Revision>)
    requires Tabled(events, order, byEvent, seen)
    ensures ok <==> !exists x :: x in events && x.eventId == event.eventId && x.revision == event.revision && x != event
    ensures ok ==> Tabled(events + [event], order', byEvent', seen')
  {
    var revisionKey := (event.eventId, event.revision);
    order', byEvent', seen' := order, byEvent, seen;
    if revisionKey in seen && seen[revisionKey] != event {
      return false, order', byEvent', seen';
    }
    seen' := seen[revisionKey := event];
    if event.eventId !in byEvent || event.revision > byEvent[event.eventId].revision {
      if event.eventId !in byEvent {
        order' := order + [event.eventId];
      }
      byEvent' := byEvent[event.eventId := event];
    }
    ok := true;
  }

  lemma ConflictFound(events: seq<Revision>, i: nat)
    requires i < |events|
    requires exists x ::
      x in events[..i] && x.eventId == events[i].eventId && x.revision == events[i].revision && x != events[i]
    ensures Conflicting(events)
  {
    var x :| x in events[..i] && x.eventId == events[i].eventId && x.revision == events[i].revision && x != events[i];
    assert x in events && events[i] in events;
  }

  /** Fails exactly when two unequal records share an event id and a revision; otherwise keeps, once
      each, the newest revision of every event. */
  method LatestRevisions(events: seq<Revision>) returns (r: Result<seq<Revision>, RankError>)
    ensures r.Failure? <==> Conflicting(events)
    ensures r.Failure? ==> r.error == ConflictingDuplicate
    ensures r.Success? ==> NoDuplicates(r.value) && (set x | x in r.value) == Latest(events)
  {
    var order: seq<string> := [];
    var byEvent: map<string, Revision> := map[];
    var seen: map<(string, int), Revision> := map[];
    for i := 0 to |events|
      invariant Tabled(events[..i], order, byEvent, seen)
    {
      assert events[..i + 1] == events[..i] + [events[i]];
      var ok;
      ok, order, byEvent, seen := TableEvent(events[..i], order, byEvent, seen, events[i]);
      if !ok {
        ConflictFound(events, i);
        return Failure(ConflictingDuplicate);
      }
    }
    assert events[..|events|] == events;
    var latest := seq(|order|, (i: nat) requires i < |order| && order[i] in byEvent => byEvent[order[i]]);
    TableIsLatest(events, order, byEvent, seen, latest);
    r := Success(latest);
  }

  lemma TableIsLatest(events: seq<Revision>, order: seq<string>, byEvent: map<string, Revision>,
                      seen: map<(string, int), Revision>, latest: seq<Revision>)
    requires Tabled(events, order, byEvent, seen)
    requires |latest| == |order| && forall i :: 0 <= i < |order| ==> latest[i] == byEvent[order[i]]
    ensures !Conflicting(events) && NoDuplicates(latest)
    ensures (set x | x in latest) == Latest(events)
  {
    forall r | r in Latest(events) ensures r in latest {
      var i :| 0 <= i < |order| && order[i] == r.eventId;
      assert latest[i].revision == r.revision;
      assert seen[(r.eventId, r.revision)] == r;
      assert latest[i] == r;
    }
  }

  lemma LatestDistinct(events: seq<Revision>, x: Revision, y: Revision)
    requires !Conflicting(events) && x in Latest(events) && y in Latest(events) && x.eventId == y.eventId
    ensures x == y
  {}

  // ------------------------------------------------------------------
  // All groups of the eligible events
  // ------------------------------------------------------------------

  lemma PartitionAppend(a: seq<RawGroup>, b: seq<RawGroup>)
    requires Partition(a) && Partition(b)
    requires forall x :: Grouped(a, x) ==> !Grouped(b, x)
    ensures Partition(a + b)
  {
    var all := a + b;
    forall i, j, x | 0 <= i < j < |all| && x in all[i].members ensures x !in all[j].members {
      if i < |a| <= j {
        assert all[i] in a && all[j] in b;
        assert Grouped(a, x);
      }
    }
  }

  lemma GroupedAppend(a: seq<RawGroup>, b: seq<RawGroup>, x: Scored)
    ensures Grouped(a + b, x) <==> Grouped(a, x) || Grouped(b, x)
  {
    if g :| g in a && x in g.members { assert g in a + b; }
    if g :| g in b && x in g.members { assert g in a + b; }
  }

  /** The standalone groups after reading a prefix of the scores... */
  ghost predicate Alone(read: seq<Scored>, gs: seq<RawGroup>, pool: set<Scored>, norm: Normal) {
    && Partition(gs) && AllFaithful(gs, pool, norm)
    && (forall x :: Grouped(gs, x) <==> x in read && !Reliable(x))
  }

  function GetScores(byAsset: map<string, seq<Scored>>, a: string): seq<Scored> {
    if a in byAsset then byAsset[a] else []
  }

  /** ...and the lists kept per reliable asset. */
  ghost predicate PerAsset(read: seq<Scored>, assets: seq<string>, byAsset: map<string, seq<Scored>>, norm: Normal) {
    && NoDuplicates(assets)
    && (forall a :: a in assets <==> a in byAsset)
    && (forall a :: GetScores(byAsset, a) == Pick(read, a, norm))
    && (forall a :: a in byAsset ==> byAsset[a] != [])
  }

  lemma PickStep(read: seq<Scored>, x: Scored, a: string, norm: Normal)
    ensures Pick(read + [x], a, norm)
         == if Reliable(x) && Asset(x, norm) == a then Pick(read, a, norm) + [x] else Pick(read, a, norm)
  {
    assert (read + [x])[..|read|] == read;
  }

  lemma PerAssetSkips(read: seq<Scored>, x: Scored, assets: seq<string>, byAsset: map<string, seq<Scored>>,
                      norm: Normal)
    requires PerAsset(read, assets, byAsset, norm) && !Reliable(x)
    ensures PerAsset(read + [x], assets, byAsset, norm)
  {
    forall a ensures Pick(read + [x], a, norm) == Pick(read, a, norm) {
      PickStep(read, x, a, norm);
    }
  }

  /** Filing one more score under its reliable asset. */
  lemma PerAssetStep(read: seq<Scored>, x: Scored, assets: seq<string>, byAsset: map<string, seq<Scored>>, norm: Normal)
    requires PerAsset(read, assets, byAsset, norm) && Reliable(x)
    ensures
      var a := Asset(x, norm);
      var grown := if a in byAsset then assets else assets + [a];
      PerAsset(read + [x], grown, byAsset[a := GetScores(byAsset, a) + [x]], norm)
  {
    var next := byAsset[Asset(x, norm) := GetScores(byAsset, Asset(x, norm)) + [x]];
    forall a ensures GetScores(next, a) == Pick(read + [x], a, norm) {
      PickStep(read, x, a, norm);
    }
  }

  lemma AloneStep(read: seq<Scored>, x: Scored, gs: seq<RawGroup>, pool: set<Scored>, norm: Normal)
    requires Alone(read, gs, pool, norm) && !Reliable(x) && x !in read
    ensures Alone(read + [x], gs + [RawGroup(EventKey(x.event.eventId), None, [x])], pool, norm)
  {
    var g := RawGroup(EventKey(x.event.eventId), None, [x]);
    assert Faithful(g, pool, norm);
    forall y ensures Grouped(gs + [g], y) <==> Grouped(gs, y) || y == x {
      GroupedAppend(gs, [g], y);
      if y == x { assert g in [g] && y in g.members; }
    }
    PartitionAppend(gs, [g]);
  }

  method SplitByAsset(scores: seq<Scored>, ghost pool: set<Scored>, norm: Normal)
    returns (gs: seq<RawGroup>, assets: seq<string>, byAsset: map<string, seq<Scored>>)
    requires NoDuplicates(scores)
    ensures Alone(scores, gs, pool, norm) && PerAsset(scores, assets, byAsset, norm)
  {
    gs, assets, byAsset := [], [], map[];
    for i := 0 to |scores|
      invariant Alone(scores[..i], gs, pool, norm)
      invariant PerAsset(scores[..i], assets, byAsset, norm)
    {
      var x := scores[i];
      assert scores[..i + 1] == scores[..i] + [x];
      if Reliable(x) {
        var a := Asset(x, norm);
        PerAssetStep(scores[..i], x, assets, byAsset, norm);
        assets := if a in byAsset then assets else assets + [a];
        byAsset := byAsset[a := GetScores(byAsset, a) + [x]];
      } else {
        PerAssetSkips(scores[..i], x, assets, byAsset, norm);
        AloneStep(scores[..i], x, gs, pool, norm);
        gs := gs + [RawGroup(EventKey(x.event.eventId), None, [x])];
      }
    }
    assert scores[..|scores|] == scores;
  }

  /** Groups made so far: all standalone events and the assets already visited. */
  ghost predicate Made(scores: seq<Scored>, gs: seq<RawGroup>, done: seq<string>, pool: set<Scored>, norm: Normal) {
    && Partition(gs) && AllFaithful(gs, pool, norm)
    && (forall x :: Grouped(gs, x) <==> x in scores && (Reliable(x) ==> Asset(x, norm) in done))
  }

  lemma MadeStep(scores: seq<Scored>, gs: seq<RawGroup>, done: seq<string>, a: string, more: seq<RawGroup>,
                 pool: set<Scored>, norm: Normal)
    requires Made(scores, gs, done, pool, norm) && a !in done
    requires AllFaithful(more, pool, norm) && Partition(more)
    requires forall g, x :: g in more && x in g.members ==> x in Pick(scores, a, norm)
    requires forall x :: x in Pick(scores, a, norm) ==> Grouped(more, x)
    ensures Made(scores, gs + more, done + [a], pool, norm)
  {
    PickHas(scores, a, norm);
    forall x ensures Grouped(gs + more, x) <==> Grouped(gs, x) || x in Pick(scores, a, norm) {
      GroupedAppend(gs, more, x);
    }
    PartitionAppend(gs, more);
  }

  /** Every eligible event is in exactly one group; an event of a reliable asset is grouped with exactly
      what a chain of overlapping windows joins to it, any other event is alone. */
  method GroupEligible(scores: seq<Scored>, norm: Normal) returns (gs: seq<RawGroup>)
    requires NoDuplicates(scores)
    ensures AllFaithful(gs, Elems(scores), norm) && Partition(gs)
    ensures forall x :: Grouped(gs, x) <==> x in scores
  {
    var assets, byAsset;
    gs, assets, byAsset := SplitByAsset(scores, Elems(scores), norm);
    var ordered := Sort(assets, Text.Le);
    SortPermutes(assets, Text.Le);
    NoDuplicatesPermutes(assets, ordered);
    for k := 0 to |ordered|
      invariant Made(scores, gs, ordered[..k], Elems(scores), norm)
    {
      var a := ordered[k];
      assert ordered[..k + 1] == ordered[..k] + [a];
      PickHas(scores, a, norm);
      assert a in assets;
      assert byAsset[a] == GetScores(byAsset, a) == Pick(scores, a, norm);
      assert Elems(byAsset[a]) == OfAsset(Elems(scores), a, norm);
      var more := AssetGroups(byAsset[a], a, Elems(scores), norm);
      MadeStep(scores, gs, ordered[..k], a, more, Elems(scores), norm);
      gs := gs + more;
    }
    assert ordered[..|ordered|] == ordered;
    forall x | x in scores && Reliable(x) ensures Asset(x, norm) in ordered {
      PickHas(scores, Asset(x, norm), norm);
      assert x in GetScores(byAsset, Asset(x, norm));
    }
  }
}
