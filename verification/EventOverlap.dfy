/** Grouping one asset's events by overlapping reported windows: the fixpoint
    loop of app/events/relevance.py finds the connected components. */
module EventOverlap {
  import opened Basics
  import opened Events

  /** An event with what the scorer said of it; the score table is a parameter of the ranking. */
  datatype Scored = Scored(event: Revision, total: int)

  /** The last representable instant, which stands in for an unreported end. */
  const FOREVER := 253_402_300_799_999_999

  function EndOf(e: Revision): int {
    if e.effectiveEnd.Some? then e.effectiveEnd.value else FOREVER
  }

  predicate Overlap(l: Scored, r: Scored) {
    && l.event.effectiveStart.Some? && r.event.effectiveStart.Some?
    && var start := if l.event.effectiveStart.value < r.event.effectiveStart.value
                    then r.event.effectiveStart.value else l.event.effectiveStart.value;
       var end := if EndOf(l.event) < EndOf(r.event) then EndOf(l.event) else EndOf(r.event);
       start < end
  }

  // ------------------------------------------------------------------
  // Chains of overlaps
  // ------------------------------------------------------------------

  ghost predicate Chain(path: seq<Scored>, pool: set<Scored>) {
    && path != []
    && (forall i :: 0 <= i < |path| ==> path[i] in pool)
    && (forall i :: 0 <= i < |path| - 1 ==> Overlap(path[i], path[i + 1]))
  }

  ghost predicate Links(path: seq<Scored>, pool: set<Scored>, a: Scored, b: Scored) {
    Chain(path, pool) && path[0] == a && path[|path| - 1] == b
  }

  /** `a` and `b` are joined by a chain of overlaps inside `pool`. */
  ghost predicate Linked(pool: set<Scored>, a: Scored, b: Scored) {
    exists path :: Links(path, pool, a, b)
  }

  function Reverse(s: seq<Scored>): (r: seq<Scored>)
    ensures |r| == |s| && forall i :: 0 <= i < |s| ==> r[i] == s[|s| - 1 - i]
  {
    if s == [] then [] else Reverse(s[1..]) + [s[0]]
  }

  lemma LinkedSelf(pool: set<Scored>, a: Scored)
    requires a in pool
    ensures Linked(pool, a, a)
  {
    assert Links([a], pool, a, a);
  }

  lemma LinkedSymmetric(pool: set<Scored>, a: Scored, b: Scored)
    requires Linked(pool, a, b)
    ensures Linked(pool, b, a)
  {
    var path :| Links(path, pool, a, b);
    assert Links(Reverse(path), pool, b, a);
  }

  lemma LinkedTransitive(pool: set<Scored>, a: Scored, b: Scored, c: Scored)
    requires Linked(pool, a, b) && Linked(pool, b, c)
    ensures Linked(pool, a, c)
  {
    var p :| Links(p, pool, a, b);
    var q :| Links(q, pool, b, c);
    var path := p + q[1..];
    forall i | 0 <= i < |path| - 1 ensures Overlap(path[i], path[i + 1]) {
      if i >= |p| - 1 {
        assert path[i] == q[i - (|p| - 1)] && path[i + 1] == q[i - (|p| - 1) + 1];
      }
    }
    assert Links(path, pool, a, c);
  }

  lemma LinkedGrows(small: set<Scored>, big: set<Scored>, a: Scored, b: Scored)
    requires small <= big && Linked(small, a, b)
    ensures Linked(big, a, b)
  {
    var path :| Links(path, small, a, b);
    assert Links(path, big, a, b);
  }

  lemma LinkedStep(pool: set<Scored>, a: Scored, b: Scored, c: Scored)
    requires Linked(pool, a, b) && c in pool && Overlap(b, c)
    ensures Linked(pool, a, c)
  {
    assert Links([b, c], pool, b, c);
    LinkedTransitive(pool, a, b, c);
  }

  // ------------------------------------------------------------------
  // Components
  // ------------------------------------------------------------------

  function Elems(s: seq<Scored>): set<Scored> {
    set x | x in s
  }

  ghost predicate Connected(c: seq<Scored>) {
    forall x, y :: x in c && y in c ==> Linked(Elems(c), x, y)
  }

  ghost predicate Apart(xs: seq<Scored>, ys: seq<Scored>) {
    forall x, y :: x in xs && y in ys ==> !Overlap(x, y)
  }

  function Flatten(cs: seq<seq<Scored>>): seq<Scored> {
    if cs == [] then [] else Flatten(cs[..|cs| - 1]) + cs[|cs| - 1]
  }

  /** The connected components of the overlap graph on `xs`, every element in exactly one of them. */
  ghost predicate AreComponents(cs: seq<seq<Scored>>, xs: seq<Scored>) {
    && multiset(Flatten(cs)) == multiset(xs)
    && (forall i :: 0 <= i < |cs| ==> cs[i] != [] && Connected(cs[i]))
    && Separate(cs)
  }

  ghost predicate Separate(cs: seq<seq<Scored>>) {
    forall i, j :: 0 <= i < |cs| && 0 <= j < |cs| && i != j ==> Apart(cs[i], cs[j])
  }

  /** list.remove: drop the first equal element. */
  function Remove(s: seq<Scored>, x: Scored): (r: seq<Scored>)
    requires x in s
    ensures multiset(r) == multiset(s) - multiset{x}
    ensures |r| == |s| - 1
  {
    if s[0] == x then
      assert s == [s[0]] + s[1..];
      s[1..]
    else
      assert s == [s[0]] + s[1..];
      [s[0]] + Remove(s[1..], x)
  }

  predicate Touches(c: Scored, component: seq<Scored>) {
    exists m :: m in component && Overlap(c, m)
  }

  lemma ConnectedOne(x: Scored)
    ensures Connected([x])
  {
    LinkedSelf(Elems([x]), x);
  }

  lemma ConnectedGrows(component: seq<Scored>, c: Scored)
    requires Connected(component) && Touches(c, component)
    ensures Connected(component + [c])
  {
    var all := component + [c];
    var pool := Elems(all);
    var m :| m in component && Overlap(c, m);
    forall x | x in all ensures Linked(pool, x, m) {
      if x in component {
        LinkedGrows(Elems(component), pool, x, m);
      } else {
        LinkedSelf(pool, c);
        LinkedStep(pool, c, c, m);
      }
    }
    forall x, y | x in all && y in all ensures Linked(pool, x, y) {
      LinkedSymmetric(pool, y, m);
      LinkedTransitive(pool, x, m, y);
    }
  }

  lemma Moved(remaining: seq<Scored>, component: seq<Scored>, snapshot: seq<Scored>, i: nat)
    requires i < |snapshot| && multiset(snapshot[i..]) <= multiset(remaining)
    ensures multiset(snapshot[i + 1..]) <= multiset(remaining)
    ensures snapshot[i] in remaining
    ensures
      var rest := Remove(remaining, snapshot[i]);
      && multiset(rest) + multiset(component + [snapshot[i]]) == multiset(remaining) + multiset(component)
      && multiset(snapshot[i + 1..]) <= multiset(rest)
  {
    assert snapshot[i..] == [snapshot[i]] + snapshot[i + 1..];
    assert snapshot[i] in multiset(snapshot[i..]);
    assert snapshot[i] in multiset(remaining);
  }

  /** One pass over a snapshot of the remaining events. */
  method Absorb(remaining0: seq<Scored>, component0: seq<Scored>)
    returns (remaining: seq<Scored>, component: seq<Scored>, changed: bool)
    requires component0 != [] && Connected(component0)
    ensures component != [] && Connected(component)
    ensures multiset(remaining) + multiset(component) == multiset(remaining0) + multiset(component0)
    ensures changed ==> |remaining| < |remaining0|
    ensures !changed ==> remaining == remaining0 && component == component0 && Apart(remaining, component)
  {
    remaining, component, changed := remaining0, component0, false;
    for i := 0 to |remaining0|
      invariant component != [] && Connected(component)
      invariant multiset(remaining) + multiset(component) == multiset(remaining0) + multiset(component0)
      invariant multiset(remaining0[i..]) <= multiset(remaining)
      invariant changed ==> |remaining| < |remaining0|
      invariant !changed ==> remaining == remaining0 && component == component0
      invariant !changed ==> forall j :: 0 <= j < i ==> !Touches(remaining0[j], component)
    {
      var candidate := remaining0[i];
      Moved(remaining, component, remaining0, i);
      if Touches(candidate, component) {
        ConnectedGrows(component, candidate);
        remaining := Remove(remaining, candidate);
        component := component + [candidate];
        changed := true;
      }
    }
  }

  lemma ApartAfter(cs: seq<seq<Scored>>, remaining: seq<Scored>, component: seq<Scored>, rest: seq<Scored>)
    requires forall i :: 0 <= i < |cs| ==> Apart(remaining, cs[i])
    requires multiset(rest) + multiset(component) == multiset(remaining)
    ensures forall i :: 0 <= i < |cs| ==> Apart(rest, cs[i]) && Apart(component, cs[i]) && Apart(cs[i], component)
  {
    forall x | x in rest || x in component ensures x in remaining {
      assert x in multiset(rest) + multiset(component);
    }
  }

  /** The inner loop: absorb until a pass absorbs nothing. */
  method Grow(seed: Scored, others: seq<Scored>) returns (remaining: seq<Scored>, component: seq<Scored>)
    ensures component != [] && Connected(component) && Apart(remaining, component)
    ensures multiset(remaining) + multiset(component) == multiset([seed] + others)
    ensures |remaining| <= |others|
  {
    remaining, component := others, [seed];
    ConnectedOne(seed);
    var changed := true;
    while changed
      invariant component != [] && Connected(component)
      invariant multiset(remaining) + multiset(component) == multiset([seed] + others)
      invariant |remaining| <= |others|
      invariant !changed ==> Apart(remaining, component)
      decreases |remaining|, changed
    {
      remaining, component, changed := Absorb(remaining, component);
    }
  }

  lemma SeparateGrows(cs: seq<seq<Scored>>, component: seq<Scored>)
    requires Separate(cs)
    requires forall i :: 0 <= i < |cs| ==> Apart(component, cs[i]) && Apart(cs[i], component)
    ensures Separate(cs + [component])
  {
    var all := cs + [component];
    forall i, j | 0 <= i < |all| && 0 <= j < |all| && i != j ensures Apart(all[i], all[j]) {
      assert i < |cs| ==> all[i] == cs[i];
      assert j < |cs| ==> all[j] == cs[j];
    }
  }

  lemma ComponentsGrow(cs: seq<seq<Scored>>, component: seq<Scored>)
    requires AreComponents(cs, Flatten(cs)) && component != [] && Connected(component)
    requires forall i :: 0 <= i < |cs| ==> Apart(component, cs[i]) && Apart(cs[i], component)
    ensures AreComponents(cs + [component], Flatten(cs + [component]))
    ensures Flatten(cs + [component]) == Flatten(cs) + component
  {
    var all := cs + [component];
    assert all[..|cs|] == cs;
    SeparateGrows(cs, component);
    assert forall i :: 0 <= i < |all| ==> all[i] == if i < |cs| then cs[i] else component;
  }

  /** The variables of the outer loop. */
  ghost predicate Split(xs: seq<Scored>, components: seq<seq<Scored>>, remaining: seq<Scored>) {
    && multiset(remaining) + multiset(Flatten(components)) == multiset(xs)
    && AreComponents(components, Flatten(components))
    && (forall i :: 0 <= i < |components| ==> Apart(remaining, components[i]))
  }

  lemma SplitStep(xs: seq<Scored>, components: seq<seq<Scored>>, remaining: seq<Scored>, component: seq<Scored>,
                  rest: seq<Scored>)
    requires Split(xs, components, remaining) && component != [] && Connected(component) && Apart(rest, component)
    requires multiset(rest) + multiset(component) == multiset(remaining)
    ensures Split(xs, components + [component], rest)
  {
    ApartAfter(components, remaining, component, rest);
    ComponentsGrow(components, component);
  }

  lemma SplitDone(xs: seq<Scored>, components: seq<seq<Scored>>)
    requires Split(xs, components, [])
    ensures AreComponents(components, xs)
  {}

  lemma SplitNone(xs: seq<Scored>)
    ensures Split(xs, [], xs)
  {}

  /** The outer loop: every event ends in exactly one component, and the components are the connected
      components of the overlap graph. */
  method Components(xs: seq<Scored>) returns (components: seq<seq<Scored>>)
    ensures AreComponents(components, xs)
  {
    components := [];
    var remaining := xs;
    SplitNone(xs);
    while remaining != []
      invariant Split(xs, components, remaining)
      decreases |remaining|
    {
      var rest, component := Grow(remaining[0], remaining[1..]);
      assert [remaining[0]] + remaining[1..] == remaining;
      SplitStep(xs, components, remaining, component, rest);
      components := components + [component];
      remaining := rest;
    }
    SplitDone(xs, components);
  }
}
