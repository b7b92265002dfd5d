/** A batch of sites: the inverted token index and the one-to-one pass. */
module AssetBatch {
  import opened Basics
  import opened AssetNames
  import opened AssetLinks

  // ------------------------------------------------------------------
  // The prefilter
  // ------------------------------------------------------------------

  /** Units at the given positions, in list order. */
  function Subset(units: seq<Unit>, positions: set<nat>): seq<Unit> {
    if units == [] then [] else
      var last := |units| - 1;
      Subset(units[..last], positions) + if last in positions then [units[last]] else []
  }

  /** Leaving out units that offer nothing leaves the table, hence the decision, alone. */
  lemma {:induction false} PrefilterExact(site: Site, units: seq<Unit>, positions: set<nat>)
    requires forall i :: 0 <= i < |units| && CandidateFor(site, units[i]).Some? ==> i in positions
    ensures TableOf(site, Subset(units, positions)) == TableOf(site, units)
  {
    if units != [] {
      var last := |units| - 1;
      PrefilterExact(site, units[..last], positions);
      var rest := Subset(units[..last], positions);
      if last in positions {
        assert (rest + [units[last]])[..|rest|] == rest;
      } else {
        assert rest + [] == rest;
      }
    }
  }

  type TokenIndex = map<Token, set<nat>>

  predicate Listed(index: TokenIndex, t: Token, i: nat) {
    t in index && i in index[t]
  }

  /** Every position is listed under exactly its unit's distinguishing tokens. */
  ghost predicate Indexes(index: TokenIndex, units: seq<Unit>) {
    forall t, i: nat :: Listed(index, t, i) <==> i < |units| && t in IndexTokens(units[i])
  }

  method IndexName(index: TokenIndex, name: Option<Name>, position: nat) returns (index': TokenIndex)
    ensures forall t, i: nat :: Listed(index', t, i) <==>
      Listed(index, t, i) || (t in OptionTokens(name) && i == position)
  {
    index' := index;
    if name.Some? {
      var pending := OptionTokens(name);
      while pending != {}
        invariant pending <= OptionTokens(name)
        invariant forall t, i: nat :: Listed(index', t, i) <==>
          Listed(index, t, i) || (t in OptionTokens(name) && t !in pending && i == position)
        decreases |pending|
      {
        var token :| token in pending;
        ghost var before := index';
        index' := index'[token := (if token in index' then index'[token] else {}) + {position}];
        pending := pending - {token};
        assert forall t, i: nat :: Listed(index', t, i) <==> Listed(before, t, i) || (t == token && i == position);
      }
    }
  }

  method BuildIndex(units: seq<Unit>) returns (index: TokenIndex)
    ensures Indexes(index, units)
  {
    index := map[];
    for k := 0 to |units|
      invariant Indexes(index, units[..k])
    {
      ghost var before := index;
      index := IndexName(index, units[k].displayName, k);
      index := IndexName(index, units[k].leadPartyName, k);
      IndexGrows(before, index, units, k);
    }
    assert units[..|units|] == units;
  }

  lemma IndexGrows(before: TokenIndex, after: TokenIndex, units: seq<Unit>, k: nat)
    requires k < |units| && Indexes(before, units[..k])
    requires forall t, i: nat :: Listed(after, t, i) <==>
      Listed(before, t, i) || (t in IndexTokens(units[k]) && i == k)
    ensures Indexes(after, units[..k + 1])
  {
    forall t, i: nat ensures Listed(after, t, i) <==> i < k + 1 && t in IndexTokens(units[..k + 1][i]) {
      assert Listed(before, t, i) <==> i < k && t in IndexTokens(units[..k][i]);
    }
  }

  method PossiblePositions(site: Site, index: TokenIndex) returns (positions: set<nat>)
    ensures forall i: nat :: i in positions <==> exists t :: t in SiteTokens(site) && Listed(index, t, i)
  {
    positions := {};
    var pending := SiteTokens(site);
    while pending != {}
      invariant pending <= SiteTokens(site)
      invariant forall i: nat :: i in positions <==> exists t :: t in SiteTokens(site) - pending && Listed(index, t, i)
      decreases |pending|
    {
      var token :| token in pending;
      ghost var before, done := positions, SiteTokens(site) - pending;
      if token in index {
        positions := positions + index[token];
      }
      pending := pending - {token};
      forall i: nat ensures i in positions <==> exists t :: t in SiteTokens(site) - pending && Listed(index, t, i) {
        if i in positions && i !in before {
          assert token in SiteTokens(site) - pending;
        }
        if i in before {
          var t :| t in done && Listed(index, t, i);
          assert t in SiteTokens(site) - pending;
        }
        if t :| t in SiteTokens(site) - pending && Listed(index, t, i) {
          assert t in done || t == token;
        }
      }
    }
  }

  /** The positions the index proposes, read in list order. */
  method PossibleUnits(units: seq<Unit>, positions: set<nat>) returns (possible: seq<Unit>)
    ensures possible == Subset(units, positions)
  {
    possible := [];
    for i := 0 to |units|
      invariant possible == Subset(units[..i], positions)
    {
      assert units[..i + 1][..i] == units[..i];
      if i in positions {
        possible := possible + [units[i]];
      } else {
        assert possible + [] == possible;
      }
    }
    assert units[..|units|] == units;
  }

  lemma IndexedIsEnough(site: Site, units: seq<Unit>, index: TokenIndex, positions: set<nat>)
    requires Indexes(index, units)
    requires forall i: nat :: i in positions <==> exists t :: t in SiteTokens(site) && Listed(index, t, i)
    ensures TableOf(site, Subset(units, positions)) == TableOf(site, units)
  {
    forall i | 0 <= i < |units| && CandidateFor(site, units[i]).Some? ensures i in positions {
      CandidateSharesToken(site, units[i]);
      var t :| t in SiteTokens(site) && t in IndexTokens(units[i]);
      assert Listed(index, t, i);
    }
    PrefilterExact(site, units, positions);
  }

  /** The indexed pass decides every site as the brute-force matcher would on the whole list. */
  method LinkEach(sites: seq<Site>, units: seq<Unit>) returns (decisions: seq<Decision>)
    ensures |decisions| == |sites|
    ensures forall i :: 0 <= i < |sites| ==>
      decisions[i] == DecisionFor(sites[i], TableOf(sites[i], units)) && ValidDecision(decisions[i])
  {
    var index := BuildIndex(units);
    decisions := [];
    for i := 0 to |sites|
      invariant |decisions| == i
      invariant forall k :: 0 <= k < i ==>
        decisions[k] == DecisionFor(sites[k], TableOf(sites[k], units)) && ValidDecision(decisions[k])
    {
      var positions := PossiblePositions(sites[i], index);
      var possible := PossibleUnits(units, positions);
      IndexedIsEnough(sites[i], units, index, positions);
      var decision := LinkSite(sites[i], possible);
      decisions := decisions + [decision];
    }
  }
}
