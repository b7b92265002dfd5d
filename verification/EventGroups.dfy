/** `_group_eligible_scores`: reliable assets' events by overlap, everything else on its own. */
module EventGroups {
  import opened Basics
  import opened EventOverlap
  import opened EventKeys
  import opened Sorting
  import Text

  /** `norm` stands for the strip-and-casefold of an asset id. */
  type Normal = string -> string

  predicate Reliable(x: Scored) {
    x.event.assetIdentityReliable && x.event.assetId.Some? && x.event.assetId.value != ""
  }

  function Asset(x: Scored, norm: Normal): string
    requires Reliable(x)
  {
    norm(x.event.assetId.value)
  }

  /** Eligible events reported for one reliable asset. */
  function OfAsset(pool: set<Scored>, asset: string, norm: Normal): set<Scored> {
    set y | y in pool && Reliable(y) && Asset(y, norm) == asset
  }

  /** Everything the overlap relation joins to `x`, within its reliable asset; else `x` alone. */
  ghost function Cluster(pool: set<Scored>, x: Scored, norm: Normal): set<Scored> {
    if Reliable(x) then
      var mates := OfAsset(pool, Asset(x, norm), norm);
      set y | y in mates && Linked(mates, x, y)
    else {x}
  }

  datatype GroupKey = EventKey(eventId: string) | AssetKey(assetId: string, suffix: Option<string>)

  datatype RawGroup = RawGroup(key: GroupKey, asset: Option<string>, members: seq<Scored>)

  ghost predicate LeastId(id: string, members: set<Scored>) {
    && (exists y :: y in members && y.event.eventId == id)
    && (forall y :: y in members ==> Text.Le(id, y.event.eventId))
  }

  /** The key names the asset, with the least event id appended when the asset has other components. */
  ghost predicate KeyFor(key: GroupKey, pool: set<Scored>, x: Scored, norm: Normal) {
    if Reliable(x) then
      var cluster := Cluster(pool, x, norm);
      && key.AssetKey? && key.assetId == Asset(x, norm)
      && (key.suffix.None? <==> cluster == OfAsset(pool, Asset(x, norm), norm))
      && (key.suffix.Some? ==> LeastId(key.suffix.value, cluster))
    else key == EventKey(x.event.eventId)
  }

  ghost predicate GroupOf(g: RawGroup, pool: set<Scored>, x: Scored, norm: Normal) {
    && Elems(g.members) == Cluster(pool, x, norm)
    && KeyFor(g.key, pool, x, norm)
    && g.asset == (if Reliable(x) then Some(Asset(x, norm)) else None)
  }

  ghost predicate Faithful(g: RawGroup, pool: set<Scored>, norm: Normal) {
    g.members != [] && forall x :: x in g.members ==> GroupOf(g, pool, x, norm)
  }

  // ------------------------------------------------------------------
  // Components are clusters
  // ------------------------------------------------------------------

  lemma {:induction false} FlattenHas(cs: seq<seq<Scored>>, x: Scored)
    ensures x in Flatten(cs) <==> exists i :: 0 <= i < |cs| && x in cs[i]
  {
    if cs != [] {
      var init := cs[..|cs| - 1];
      FlattenHas(init, x);
      if i :| 0 <= i < |init| && x in init[i] {
        assert x in cs[i];
      }
    }
  }

  lemma ComponentsHave(cs: seq<seq<Scored>>, xs: seq<Scored>, x: Scored)
    requires AreComponents(cs, xs)
    ensures x in xs <==> exists i :: 0 <= i < |cs| && x in cs[i]
  {
    FlattenHas(cs, x);
    assert x in multiset(Flatten(cs)) <==> x in multiset(xs);
  }

  lemma OverlapSharesComponent(cs: seq<seq<Scored>>, i: nat, j: nat, x: Scored, y: Scored)
    requires Separate(cs) && i < |cs| && j < |cs| && x in cs[i] && y in cs[j] && Overlap(x, y)
    ensures i == j
  {}

  /** A chain that starts in a component never leaves it. */
  lemma {:induction false} ChainStays(cs: seq<seq<Scored>>, xs: seq<Scored>, i: nat, path: seq<Scored>)
    requires AreComponents(cs, xs) && i < |cs| && Chain(path, Elems(xs)) && path[0] in cs[i]
    ensures path[|path| - 1] in cs[i]
  {
    if |path| > 1 {
      var y := path[1];
      ComponentsHave(cs, xs, y);
      var j :| 0 <= j < |cs| && y in cs[j];
      OverlapSharesComponent(cs, i, j, path[0], y);
      assert Chain(path[1..], Elems(xs));
      ChainStays(cs, xs, i, path[1..]);
    }
  }

  lemma ComponentIsCluster(cs: seq<seq<Scored>>, xs: seq<Scored>, i: nat, x: Scored)
    requires AreComponents(cs, xs) && i < |cs| && x in cs[i]
    ensures Elems(cs[i]) == set y | y in xs && Linked(Elems(xs), x, y)
  {
    assert Elems(cs[i]) <= Elems(xs) by {
      forall y | y in cs[i] ensures y in xs {
        ComponentsHave(cs, xs, y);
      }
    }
    forall y | y in cs[i] ensures y in xs && Linked(Elems(xs), x, y) {
      assert Linked(Elems(cs[i]), x, y);
      LinkedGrows(Elems(cs[i]), Elems(xs), x, y);
    }
    forall y | y in xs && Linked(Elems(xs), x, y) ensures y in cs[i] {
      var path :| Links(path, Elems(xs), x, y);
      ChainStays(cs, xs, i, path);
    }
  }

  lemma {:induction false} FlattenCounts(cs: seq<seq<Scored>>, i: nat, j: nat, x: Scored)
    requires i < j < |cs| && x in cs[i] && x in cs[j]
    ensures multiset(Flatten(cs))[x] >= 2
  {
    var init := cs[..|cs| - 1];
    if j < |cs| - 1 {
      FlattenCounts(init, i, j, x);
    } else {
      FlattenHas(init, x);
      assert x in init[i];
      assert x in multiset(Flatten(init)) && x in multiset(cs[j]);
    }
  }

  /** No event is in two components. */
  lemma ComponentsDisjoint(cs: seq<seq<Scored>>, xs: seq<Scored>, i: nat, j: nat, x: Scored)
    requires AreComponents(cs, xs) && NoDuplicates(xs)
    requires i < |cs| && j < |cs| && x in cs[i] && x in cs[j]
    ensures i == j
  {
    ComponentsHave(cs, xs, x);
    NoDuplicatesCount(xs);
    assert multiset(Flatten(cs))[x] == 1;
    if i < j {
      FlattenCounts(cs, i, j, x);
    } else if j < i {
      FlattenCounts(cs, j, i, x);
    }
  }

  lemma OnlyComponent(cs: seq<seq<Scored>>, xs: seq<Scored>, i: nat)
    requires AreComponents(cs, xs) && NoDuplicates(xs) && i < |cs|
    ensures |cs| == 1 <==> Elems(cs[i]) == Elems(xs)
  {
    if |cs| == 1 {
      forall x ensures x in cs[0] <==> x in xs {
        ComponentsHave(cs, xs, x);
      }
    } else {
      var j := if i == 0 then 1 else 0;
      var y := cs[j][0];
      ComponentsHave(cs, xs, y);
      assert y in Elems(xs);
      if y in cs[i] {
        ComponentsDisjoint(cs, xs, i, j, y);
      }
    }
  }

  // ------------------------------------------------------------------
  // The grouping
  // ------------------------------------------------------------------

  function AssetGroup(c: seq<Scored>, asset: string, only: bool): RawGroup
    requires c != []
  {
    RawGroup(AssetKey(asset, if only then None else Some(MinId(c))), Some(asset), c)
  }

  lemma AssetGroupFaithful(cs: seq<seq<Scored>>, xs: seq<Scored>, i: nat, asset: string, pool: set<Scored>,
                           norm: Normal)
    requires AreComponents(cs, xs) && NoDuplicates(xs) && i < |cs|
    requires Elems(xs) == OfAsset(pool, asset, norm)
    ensures Faithful(AssetGroup(cs[i], asset, |cs| == 1), pool, norm)
  {
    var g := AssetGroup(cs[i], asset, |cs| == 1);
    OnlyComponent(cs, xs, i);
    forall x | x in g.members ensures GroupOf(g, pool, x, norm) {
      ComponentsHave(cs, xs, x);
      assert x in Elems(xs);
      ComponentIsCluster(cs, xs, i, x);
      assert Elems(cs[i]) == Cluster(pool, x, norm);
      var m :| m in cs[i] && m.event.eventId == MinId(cs[i]);
      assert m in Elems(cs[i]);
      assert LeastId(MinId(cs[i]), Elems(cs[i]));
    }
  }

  /** Members of one reliable asset, in list order. */
  function Pick(xs: seq<Scored>, asset: string, norm: Normal): seq<Scored> {
    if xs == [] then [] else
      var last := xs[|xs| - 1];
      Pick(xs[..|xs| - 1], asset, norm) + if Reliable(last) && Asset(last, norm) == asset then [last] else []
  }

  lemma {:induction false} PickHas(xs: seq<Scored>, asset: string, norm: Normal)
    ensures forall y :: y in Pick(xs, asset, norm) <==> y in xs && Reliable(y) && Asset(y, norm) == asset
    ensures NoDuplicates(xs) ==> NoDuplicates(Pick(xs, asset, norm))
  {
    if xs != [] {
      var init, last := xs[..|xs| - 1], xs[|xs| - 1];
      PickHas(init, asset, norm);
      assert xs == init + [last];
      if NoDuplicates(xs) {
        assert last !in init;
      }
    }
  }

  ghost predicate Partition(gs: seq<RawGroup>) {
    forall i, j, x :: 0 <= i < j < |gs| && x in gs[i].members ==> x !in gs[j].members
  }

  ghost predicate AllFaithful(gs: seq<RawGroup>, pool: set<Scored>, norm: Normal) {
    forall g :: g in gs ==> Faithful(g, pool, norm)
  }

  ghost predicate Grouped(gs: seq<RawGroup>, x: Scored) {
    exists g :: g in gs && x in g.members
  }

  /** Groups of one asset, from its components. */
  method AssetGroups(xs: seq<Scored>, asset: string, ghost pool: set<Scored>, norm: Normal) returns (gs: seq<RawGroup>)
    requires NoDuplicates(xs) && Elems(xs) == OfAsset(pool, asset, norm)
    ensures AllFaithful(gs, pool, norm) && Partition(gs)
    ensures forall g, x :: g in gs && x in g.members ==> x in xs
    ensures forall x :: x in xs ==> Grouped(gs, x)
  {
    var remaining := Sort(xs, IdLe);
    SortPermutes(xs, IdLe);
    NoDuplicatesPermutes(xs, remaining);
    assert Elems(remaining) == Elems(xs);
    var cs := Components(remaining);
    gs := seq(|cs|, (i: nat) requires i < |cs| && cs[i] != [] => AssetGroup(cs[i], asset, |cs| == 1));
    forall g | g in gs ensures Faithful(g, pool, norm) && forall x :: x in g.members ==> x in xs {
      var i :| 0 <= i < |gs| && gs[i] == g;
      AssetGroupFaithful(cs, remaining, i, asset, pool, norm);
      forall x | x in g.members ensures x in xs {
        ComponentsHave(cs, remaining, x);
      }
    }
    forall i, j, x | 0 <= i < j < |gs| && x in gs[i].members ensures x !in gs[j].members {
      if x in cs[j] {
        ComponentsDisjoint(cs, remaining, i, j, x);
      }
    }
    forall x | x in xs ensures Grouped(gs, x) {
      ComponentsHave(cs, remaining, x);
      var i :| 0 <= i < |cs| && x in cs[i];
      assert gs[i] in gs && x in gs[i].members;
    }
  }
}
