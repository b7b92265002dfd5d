/** The strict total order of ranked events: score, authority, unavailable
    megawatts (missing last), publication time, event id. */
module EventKeys {
  import opened Basics
  import opened Events
  import opened EventOverlap
  import Text

  function Priority(a: Authority): int {
    match a
    case SystemWarning => 3
    case AuthoritativeNotice => 2
    case OtherReported => 1
  }

  function Unavailable(e: Revision): real {
    if e.unavailableMw.Some? then e.unavailableMw.value else 0.0
  }

  /** The tuple comparison of `_score_sort_key`: smaller sorts first. */
  predicate KeyLe(a: Scored, b: Scored) {
    var x, y := a.event, b.event;
    if a.total != b.total then a.total > b.total
    else if Priority(x.authority) != Priority(y.authority) then Priority(x.authority) > Priority(y.authority)
    else if x.unavailableMw.None? != y.unavailableMw.None? then x.unavailableMw.Some?
    else if Unavailable(x) != Unavailable(y) then Unavailable(x) > Unavailable(y)
    else if x.publishedAt != y.publishedAt then x.publishedAt > y.publishedAt
    else Text.Le(x.eventId, y.eventId)
  }

  lemma KeyTotal(a: Scored, b: Scored)
    ensures KeyLe(a, b) || KeyLe(b, a)
  {
    Text.LeTotal(a.event.eventId, b.event.eventId);
  }

  lemma KeyReflexive(a: Scored)
    ensures KeyLe(a, a)
  {
    Text.LeReflexive(a.event.eventId);
  }

  lemma KeyTransitive(a: Scored, b: Scored, c: Scored)
    requires KeyLe(a, b) && KeyLe(b, c)
    ensures KeyLe(a, c)
  {
    if Text.Le(a.event.eventId, b.event.eventId) && Text.Le(b.event.eventId, c.event.eventId) {
      Text.LeTransitive(a.event.eventId, b.event.eventId, c.event.eventId);
    }
  }

  /** Ties are impossible between different events. */
  lemma KeyAntisymmetric(a: Scored, b: Scored)
    requires KeyLe(a, b) && KeyLe(b, a)
    ensures a.event.eventId == b.event.eventId
  {
    Text.LeAntisymmetric(a.event.eventId, b.event.eventId);
  }

  predicate IdLe(a: Scored, b: Scored) {
    Text.Le(a.event.eventId, b.event.eventId)
  }

  /** The library `min` under the sort key. */
  method Representative(members: seq<Scored>) returns (best: Scored)
    requires members != []
    ensures best in members && forall m :: m in members ==> KeyLe(best, m)
  {
    best := members[0];
    KeyReflexive(best);
    for i := 1 to |members|
      invariant best in members && forall m :: m in members[..i] ==> KeyLe(best, m)
    {
      assert members[..i + 1] == members[..i] + [members[i]];
      KeyTotal(best, members[i]);
      if !KeyLe(best, members[i]) {
        forall m | m in members[..i] ensures KeyLe(members[i], m) {
          KeyTransitive(members[i], best, m);
        }
        best := members[i];
        KeyReflexive(best);
      }
    }
    assert members[..|members|] == members;
  }

  /** The least event id of a component. */
  function MinId(members: seq<Scored>): (id: string)
    requires members != []
    ensures exists m :: m in members && m.event.eventId == id
    ensures forall m :: m in members ==> Text.Le(id, m.event.eventId)
  {
    var last := members[|members| - 1];
    Text.LeReflexive(last.event.eventId);
    if |members| == 1 then last.event.eventId else
      var init := members[..|members| - 1];
      var id := MinId(init);
      Text.LeTotal(id, last.event.eventId);
      assert members == init + [last];
      if Text.Le(id, last.event.eventId) then id else
        assert forall m :: m in init ==> Text.Le(last.event.eventId, m.event.eventId) by {
          forall m | m in init ensures Text.Le(last.event.eventId, m.event.eventId) {
            Text.LeTransitive(last.event.eventId, id, m.event.eventId);
          }
        }
        last.event.eventId
  }
}
