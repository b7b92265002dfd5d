/** The collision pass over a batch: no asset keeps two sites. */
module AssetCollisions {
  import opened Basics
  import opened AssetNames
  import opened AssetLinks
  import opened AssetBatch

  predicate Selects(d: Decision, id: string) {
    d.selected.Some? && d.selected.value.elexonAssetId == id
  }

  /** Positions of the decisions that selected the asset, ascending. */
  function Holders(ds: seq<Decision>, id: string): (hs: seq<nat>)
    ensures forall i: nat :: i in hs <==> i < |ds| && Selects(ds[i], id)
    ensures forall a :: 0 <= a < |hs| ==> hs[a] < |ds|
    ensures forall a, b :: 0 <= a < b < |hs| ==> hs[a] < hs[b]
  {
    if ds == [] then [] else
      var last := |ds| - 1;
      var hs := Holders(ds[..last], id);
      if Selects(ds[last], id) then hs + [last] else hs
  }

  function RecordIds(ds: seq<Decision>, positions: seq<nat>): multiset<string>
    requires forall k :: 0 <= k < |positions| ==> positions[k] < |ds|
  {
    if positions == [] then multiset{} else multiset{ds[positions[0]].recordId} + RecordIds(ds, positions[1..])
  }

  function Demote(d: Decision, ids: multiset<string>): Decision {
    d.(disposition := Ambiguous, highConfidence := false, selected := None,
       reason := CrossSiteCollision, conflicting := ids[d.recordId := 0])
  }

  /** What the pass makes of the decision at position `i`. */
  function Resolved(ds: seq<Decision>, i: nat): Decision
    requires i < |ds|
  {
    if ds[i].selected.None? then ds[i] else
      var holders := Holders(ds, ds[i].selected.value.elexonAssetId);
      if |holders| < 2 then ds[i] else Demote(ds[i], RecordIds(ds, holders))
  }

  // ------------------------------------------------------------------
  // The pass
  // ------------------------------------------------------------------

  function GetHolders(byId: map<string, seq<nat>>, id: string): seq<nat> {
    if id in byId then byId[id] else []
  }

  ghost predicate Grouped(byId: map<string, seq<nat>>, ds: seq<Decision>) {
    forall id :: GetHolders(byId, id) == Holders(ds, id)
  }

  lemma GroupStep(byId: map<string, seq<nat>>, ds: seq<Decision>, i: nat)
    requires i < |ds| && Grouped(byId, ds[..i])
    ensures ds[i].selected.None? ==> Grouped(byId, ds[..i + 1])
    ensures ds[i].selected.Some? ==>
      var id := ds[i].selected.value.elexonAssetId;
      Grouped(byId[id := GetHolders(byId, id) + [i]], ds[..i + 1])
  {
    forall id
      ensures Holders(ds[..i + 1], id)
           == if Selects(ds[i], id) then GetHolders(byId, id) + [i] else GetHolders(byId, id)
    {
      HoldersStep(ds, i, id);
    }
  }

  method GroupByAsset(ds: seq<Decision>) returns (byId: map<string, seq<nat>>)
    ensures Grouped(byId, ds)
  {
    byId := map[];
    assert Grouped(byId, ds[..0]);
    for i := 0 to |ds|
      invariant Grouped(byId, ds[..i])
    {
      GroupStep(byId, ds, i);
      if ds[i].selected.Some? {
        var id := ds[i].selected.value.elexonAssetId;
        byId := byId[id := GetHolders(byId, id) + [i]];
      }
    }
    assert ds[..|ds|] == ds;
  }

  lemma HoldersStep(ds: seq<Decision>, i: nat, id: string)
    requires i < |ds|
    ensures Holders(ds[..i + 1], id) == if Selects(ds[i], id) then Holders(ds[..i], id) + [i] else Holders(ds[..i], id)
  {
    assert ds[..i + 1][..i] == ds[..i];
  }

  ghost predicate PassedOver(ds: seq<Decision>, now: seq<Decision>, pending: set<string>) {
    && |now| == |ds|
    && (forall i :: 0 <= i < |ds| ==>
         now[i] == (if Contested(ds[i], pending) then ds[i] else Resolved(ds, i)))
  }

  /** The decision selected an asset that the pass has not visited yet. */
  predicate Contested(d: Decision, pending: set<string>) {
    d.selected.Some? && d.selected.value.elexonAssetId in pending
  }

  /** Overwrite the listed decisions in place. */
  method DemoteAt(now: seq<Decision>, indexes: seq<nat>, ids: multiset<string>) returns (next: seq<Decision>)
    requires forall k :: 0 <= k < |indexes| ==> indexes[k] < |now|
    requires forall a, b :: 0 <= a < b < |indexes| ==> indexes[a] < indexes[b]
    ensures |next| == |now|
    ensures forall i: nat :: i < |now| ==> next[i] == if i in indexes then Demote(now[i], ids) else now[i]
  {
    next := now;
    for k := 0 to |indexes|
      invariant |next| == |now|
      invariant forall i: nat :: i < |now| ==> next[i] == if i in indexes[..k] then Demote(now[i], ids) else now[i]
    {
      assert indexes[..k + 1] == indexes[..k] + [indexes[k]];
      assert indexes[k] !in indexes[..k];
      next := next[indexes[k] := Demote(next[indexes[k]], ids)];
    }
    assert indexes[..|indexes|] == indexes;
  }

  /** Demote every holder of one contested asset. */
  method DemoteHolders(ds: seq<Decision>, now: seq<Decision>, id: string, indexes: seq<nat>, ghost pending: set<string>)
    returns (next: seq<Decision>)
    requires PassedOver(ds, now, pending) && id in pending && indexes == Holders(ds, id) && |indexes| >= 2
    ensures PassedOver(ds, next, pending - {id})
  {
    next := DemoteAt(now, indexes, RecordIds(ds, indexes));
    forall i: nat | i in indexes ensures now[i] == ds[i] {
      assert Contested(ds[i], pending);
    }
    AllDemoted(ds, now, id, pending, next);
  }

  lemma AllDemoted(ds: seq<Decision>, now: seq<Decision>, id: string, pending: set<string>, next: seq<Decision>)
    requires PassedOver(ds, now, pending) && id in pending && |Holders(ds, id)| >= 2
    requires |next| == |ds| && forall i :: 0 <= i < |ds| ==>
      next[i] == if i in Holders(ds, id) then Demote(ds[i], RecordIds(ds, Holders(ds, id))) else now[i]
    ensures PassedOver(ds, next, pending - {id})
  {}

  lemma Uncontested(ds: seq<Decision>, now: seq<Decision>, id: string, pending: set<string>)
    requires PassedOver(ds, now, pending) && id in pending && |Holders(ds, id)| < 2
    ensures PassedOver(ds, now, pending - {id})
  {}

  method ResolveCollisions(ds: seq<Decision>) returns (resolved: seq<Decision>)
    ensures |resolved| == |ds| && forall i :: 0 <= i < |ds| ==> resolved[i] == Resolved(ds, i)
  {
    var byId := GroupByAsset(ds);
    resolved := ds;
    var pending := byId.Keys;
    forall i | 0 <= i < |ds| && ds[i].selected.Some? ensures ds[i].selected.value.elexonAssetId in byId {
      assert i in GetHolders(byId, ds[i].selected.value.elexonAssetId);
    }
    while pending != {}
      invariant pending <= byId.Keys
      invariant PassedOver(ds, resolved, pending)
      decreases |pending|
    {
      var id :| id in pending;
      assert GetHolders(byId, id) == Holders(ds, id);
      if |byId[id]| >= 2 {
        resolved := DemoteHolders(ds, resolved, id, byId[id], pending);
      } else {
        Uncontested(ds, resolved, id, pending);
      }
      pending := pending - {id};
    }
  }

  // ------------------------------------------------------------------
  // What the pass guarantees
  // ------------------------------------------------------------------

  lemma OtherHolder(ds: seq<Decision>, i: nat, id: string)
    requires i < |ds| && Selects(ds[i], id)
    ensures |Holders(ds, id)| >= 2 <==> exists j :: 0 <= j < |ds| && j != i && Selects(ds[j], id)
  {
    var hs := Holders(ds, id);
    assert i in hs;
    if |hs| >= 2 {
      var j := if hs[0] == i then hs[1] else hs[0];
      assert hs[0] in hs && hs[1] in hs && hs[0] < hs[1];
    }
    if j :| 0 <= j < |ds| && j != i && Selects(ds[j], id) {
      assert j in hs;
      var a :| 0 <= a < |hs| && hs[a] == i;
      var b :| 0 <= b < |hs| && hs[b] == j;
    }
  }

  /** A decision survives the pass exactly when it selected an asset that no other decision selected. */
  lemma SelectedIff(ds: seq<Decision>, i: nat)
    requires i < |ds|
    ensures Resolved(ds, i).selected.Some? <==>
      && ds[i].selected.Some?
      && forall j :: 0 <= j < |ds| && j != i ==> !Selects(ds[j], ds[i].selected.value.elexonAssetId)
    ensures Resolved(ds, i).selected.Some? ==> Resolved(ds, i) == ds[i]
  {
    if ds[i].selected.Some? {
      OtherHolder(ds, i, ds[i].selected.value.elexonAssetId);
    }
  }

  /** No two surviving decisions share an asset. */
  lemma OneToOne(ds: seq<Decision>, i: nat, j: nat, id: string)
    requires i < |ds| && j < |ds| && Selects(Resolved(ds, i), id) && Selects(Resolved(ds, j), id)
    ensures i == j
  {
    SelectedIff(ds, i);
    SelectedIff(ds, j);
  }

  lemma ResolvedValid(ds: seq<Decision>, i: nat)
    requires i < |ds| && ValidDecision(ds[i])
    ensures ValidDecision(Resolved(ds, i))
  {
    if ds[i].selected.Some? {
      assert ds[i].disposition == Linked && |ds[i].candidates| == 1;
    }
  }

  lemma {:induction false} RecordIdsHave(ds: seq<Decision>, positions: seq<nat>, id: string)
    requires forall k :: 0 <= k < |positions| ==> positions[k] < |ds|
    ensures id in RecordIds(ds, positions) <==> exists k :: 0 <= k < |positions| && ds[positions[k]].recordId == id
  {
    if positions != [] {
      var rest := positions[1..];
      RecordIdsHave(ds, rest, id);
      if k :| 0 <= k < |rest| && ds[rest[k]].recordId == id {
        assert ds[positions[k + 1]].recordId == id;
      }
      if k :| 0 <= k < |positions| && ds[positions[k]].recordId == id {
        assert k > 0 ==> ds[rest[k - 1]].recordId == id;
      }
    }
  }

  /** A demoted decision names exactly the other record ids that selected its asset. */
  lemma ConflictsNamed(ds: seq<Decision>, i: nat, id: string, other: string)
    requires i < |ds| && Selects(ds[i], id) && Resolved(ds, i).selected.None?
    ensures Resolved(ds, i).reason == CrossSiteCollision
    ensures other in Resolved(ds, i).conflicting <==>
      other != ds[i].recordId && exists j :: 0 <= j < |ds| && Selects(ds[j], id) && ds[j].recordId == other
  {
    RecordIdsHave(ds, Holders(ds, id), other);
    var hs := Holders(ds, id);
    if j :| 0 <= j < |ds| && Selects(ds[j], id) && ds[j].recordId == other {
      assert j in hs;
      var k :| 0 <= k < |hs| && hs[k] == j;
      assert ds[hs[k]].recordId == other;
    }
    if k :| 0 <= k < |hs| && ds[hs[k]].recordId == other {
      assert hs[k] in hs;
    }
  }

  lemma FirstPass(site: Site, units: seq<Unit>)
    ensures
      var d, table := DecisionFor(site, TableOf(site, units)), TableOf(site, units);
      && (d.selected.Some? <==> |table| == 1)
      && (forall id :: Selects(d, id) <==> |table| == 1 && id in table)
      && (d.disposition == Linked <==> d.selected.Some?)
  {
    var table := TableOf(site, units);
    TableShape(site, units);
    if |table| == 1 {
      var id :| id in table;
      OneKey(table, id);
    }
  }

  /** What the brute-force matcher would decide, site by site. */
  ghost function FirstDecisions(sites: seq<Site>, units: seq<Unit>): seq<Decision> {
    seq(|sites|, (i: nat) requires i < |sites| => DecisionFor(sites[i], TableOf(sites[i], units)))
  }

  /** The whole batch: the brute-force decisions with their collisions resolved.  A site ends linked exactly when it
      has one strong candidate asset and no other site's only strong candidate is that asset; no two linked sites
      share an asset; every decision, demoted ones included, is valid. */
  method LinkSites(sites: seq<Site>, units: seq<Unit>) returns (decisions: seq<Decision>)
    ensures |decisions| == |sites|
    ensures forall i :: 0 <= i < |sites| ==> decisions[i] == Resolved(FirstDecisions(sites, units), i)
    ensures forall i :: 0 <= i < |sites| ==> ValidDecision(decisions[i])
    ensures forall i :: 0 <= i < |sites| ==>
      (decisions[i].disposition == Linked <==>
        exists id :: SoleCandidate(sites[i], units, id)
                  && forall j :: 0 <= j < |sites| && j != i ==> !SoleCandidate(sites[j], units, id))
    ensures forall i, j, id :: 0 <= i < |sites| && 0 <= j < |sites| ==>
      Selects(decisions[i], id) && Selects(decisions[j], id) ==> i == j
  {
    var first := LinkEach(sites, units);
    assert first == FirstDecisions(sites, units);
    decisions := ResolveCollisions(first);
    forall i | 0 <= i < |sites|
      ensures ValidDecision(decisions[i])
      ensures decisions[i].disposition == Linked <==>
        exists id :: SoleCandidate(sites[i], units, id)
                  && forall j :: 0 <= j < |sites| && j != i ==> !SoleCandidate(sites[j], units, id)
    {
      LinkedIff(sites, units, first, i);
    }
    forall i, j, id | 0 <= i < |sites| && 0 <= j < |sites| && Selects(decisions[i], id) && Selects(decisions[j], id)
      ensures i == j
    {
      OneToOne(first, i, j, id);
    }
  }

  /** The asset is the site's one strong candidate, over all units. */
  predicate SoleCandidate(site: Site, units: seq<Unit>, id: string) {
    var table := TableOf(site, units);
    |table| == 1 && id in table
  }

  lemma LinkedIff(sites: seq<Site>, units: seq<Unit>, first: seq<Decision>, i: nat)
    requires |first| == |sites| && i < |sites|
    requires forall k :: 0 <= k < |sites| ==>
      first[k] == DecisionFor(sites[k], TableOf(sites[k], units)) && ValidDecision(first[k])
    ensures ValidDecision(Resolved(first, i))
    ensures Resolved(first, i).disposition == Linked <==>
      exists id :: SoleCandidate(sites[i], units, id)
                && forall j :: 0 <= j < |sites| && j != i ==> !SoleCandidate(sites[j], units, id)
  {
    ResolvedValid(first, i);
    SelectedIff(first, i);
    forall k, id | 0 <= k < |sites| ensures Selects(first[k], id) <==> SoleCandidate(sites[k], units, id) {
      FirstPass(sites[k], units);
    }
    assert Resolved(first, i).disposition == Linked <==> Resolved(first, i).selected.Some?;
    if Resolved(first, i).selected.Some? {
      var id := first[i].selected.value.elexonAssetId;
      assert Selects(first[i], id) && SoleCandidate(sites[i], units, id);
    }
    if id :| SoleCandidate(sites[i], units, id) &&
             (forall j :: 0 <= j < |sites| && j != i ==> !SoleCandidate(sites[j], units, id)) {
      assert Selects(first[i], id);
    }
  }
}
