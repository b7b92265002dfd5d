/** The append-only revision chain of app/events/revisions.py. */
module EventHistory {
  import opened Basics
  import opened Events

  /** The validator of one reported revision. */
  predicate WellFormed(r: Revision) {
    && r.eventId != "" && r.revision >= 1 && r.evidenceChecksum != "" && r.sourceRecordIds != []
    && r.reportedCause != Some("") && r.materialReason != Some("") && r.supersededBy != Some("")
    && (r.unavailableMw.Some? ==> r.unavailableMw.value >= 0.0)
    && (r.normalCapacityMw.Some? ==> r.normalCapacityMw.value > 0.0)
    && (r.effectiveStart.Some? && r.effectiveEnd.Some? ==> r.effectiveStart.value <= r.effectiveEnd.value)
    && (r.assetIdentityReliable ==> r.assetId.Some? && r.assetId.value != "")
    && (r.revision == 1 ==> r.status == Open)
    && (r.revision > 1 ==> r.status != Open && r.materialReason.Some?)
    && (r.status == Superseded <==> r.supersededBy.Some?)
  }

  // ------------------------------------------------------------------
  // Deltas
  // ------------------------------------------------------------------

  datatype DiffError =
    | DifferentEvent | NotSequential | PublishedBackwards | TerminalRevised | InvalidTransition
    | NoTrackedChange | InvalidChain

  datatype Field =
    | UnavailableMw | NormalCapacityMw | EffectiveStart | EffectiveEnd
    | Status | ReportedCause | EvidenceChecksum | MaterialReason

  datatype Value = Number(n: Option<real>) | Instant(t: Option<int>) | StatusIs(s: EventStatus)
    | Words(w: Option<string>)

  datatype Change = Change(field: Field, before: Value, after: Value)

  datatype Delta = Delta(eventId: string, fromRevision: int, toRevision: int, changes: seq<Change>)

  /** The tracked fields, in the order deltas list them. */
  const FIELDS: seq<Field> := [UnavailableMw, NormalCapacityMw, EffectiveStart, EffectiveEnd,
                               Status, ReportedCause, EvidenceChecksum, MaterialReason]

  /** getattr on a tracked field. */
  function Attribute(r: Revision, f: Field): Value {
    match f
    case UnavailableMw => Number(r.unavailableMw)
    case NormalCapacityMw => Number(r.normalCapacityMw)
    case EffectiveStart => Instant(r.effectiveStart)
    case EffectiveEnd => Instant(r.effectiveEnd)
    case Status => StatusIs(r.status)
    case ReportedCause => Words(r.reportedCause)
    case EvidenceChecksum => Words(Some(r.evidenceChecksum))
    case MaterialReason => Words(r.materialReason)
  }

  /** The tracked fields of a revision, as a table. */
  function Tracked(r: Revision): map<Field, Value> {
    map f: Field | f in FIELDS :: Attribute(r, f)
  }

  function Changes(p: Revision, c: Revision, fields: seq<Field>): seq<Change> {
    if fields == [] then [] else
      var f := fields[0];
      (if Attribute(p, f) != Attribute(c, f) then [Change(f, Attribute(p, f), Attribute(c, f))] else [])
      + Changes(p, c, fields[1..])
  }

  function TransitionError(previous: EventStatus, current: EventStatus): Option<DiffError> {
    if Terminal(previous) then Some(TerminalRevised)
    else if current == Open then Some(InvalidTransition)
    else None
  }

  function Diff(previous: Revision, current: Revision): Result<Delta, DiffError> {
    if previous.eventId != current.eventId then Failure(DifferentEvent)
    else if current.revision != previous.revision + 1 then Failure(NotSequential)
    else if current.publishedAt < previous.publishedAt then Failure(PublishedBackwards)
    else if TransitionError(previous.status, current.status).Some? then
      Failure(TransitionError(previous.status, current.status).value)
    else
      var changes := Changes(previous, current, FIELDS);
      if changes == [] then Failure(NoTrackedChange)
      else Success(Delta(current.eventId, previous.revision, current.revision, changes))
  }

  // ------------------------------------------------------------------
  // Histories
  // ------------------------------------------------------------------

  datatype History = History(eventId: string, revisions: seq<Revision>)

  /** The validator of a whole lifecycle. */
  predicate ValidChain(h: History) {
    && h.eventId != "" && h.revisions != []
    && (forall i :: 0 <= i < |h.revisions| ==> WellFormed(h.revisions[i]) && h.revisions[i].eventId == h.eventId)
    && h.revisions[0].revision == 1
    && (forall i :: 0 <= i < |h.revisions| - 1 ==> Diff(h.revisions[i], h.revisions[i + 1]).Success?)
  }

  function Current(h: History): Revision
    requires h.revisions != []
  {
    h.revisions[|h.revisions| - 1]
  }

  /** Diff against the current revision, then build the longer lifecycle, which validates itself again. */
  function Append(h: History, r: Revision): Result<(History, Delta), DiffError>
    requires h.revisions != []
  {
    var delta :- Diff(Current(h), r);
    var updated := History(h.eventId, h.revisions + [r]);
    if ValidChain(updated) then Success((updated, delta)) else Failure(InvalidChain)
  }

  /** The single step decides: the extended chain is valid exactly when the append is accepted, and the
      second validation never refuses what the first accepted. */
  lemma AppendDecides(h: History, r: Revision)
    requires ValidChain(h) && WellFormed(r)
    ensures Append(h, r).Success? <==> ValidChain(History(h.eventId, h.revisions + [r]))
    ensures Append(h, r).Success? <==> Diff(Current(h), r).Success?
    ensures Append(h, r).Failure? ==> Append(h, r).error != InvalidChain
    ensures Append(h, r).Success? ==>
      Append(h, r).value.0.revisions == h.revisions + [r] && Append(h, r).value.1 == Diff(Current(h), r).value
  {
    var extended := h.revisions + [r];
    assert extended[|h.revisions| - 1] == Current(h) && extended[|h.revisions|] == r;
    if Diff(Current(h), r).Success? {
      forall i | 0 <= i < |extended| - 1 ensures Diff(extended[i], extended[i + 1]).Success? {
        if i < |h.revisions| - 1 {
          assert Diff(h.revisions[i], h.revisions[i + 1]).Success?;
        }
      }
    }
  }

  /** Revisions are numbered 1..n, open only at the first, terminal only at the last, and published in order. */
  lemma {:induction false} ChainShape(h: History, i: nat, j: nat)
    requires ValidChain(h) && i <= j < |h.revisions|
    ensures h.revisions[j].revision == j + 1
    ensures h.revisions[j].status == Open <==> j == 0
    ensures Terminal(h.revisions[i].status) ==> i == |h.revisions| - 1
    ensures h.revisions[i].publishedAt <= h.revisions[j].publishedAt
  {
    if i < |h.revisions| - 1 {
      assert Diff(h.revisions[i], h.revisions[i + 1]).Success?;
    }
    if j > 0 {
      assert Diff(h.revisions[j - 1], h.revisions[j]).Success?;
      ChainShape(h, if i == j then i - 1 else i, j - 1);
    }
  }

  /** A run: offer revisions one after another, keeping the history when one is refused. */
  function Offer(h: History, offered: seq<Revision>): History
    requires h.revisions != []
    decreases |offered|
  {
    if offered == [] then h
    else if Append(h, offered[0]).Success? then Offer(Append(h, offered[0]).value.0, offered[1..])
    else Offer(h, offered[1..])
  }

  /** Whatever is offered, the history stays valid and only grows at its end. */
  lemma {:induction false} OfferKeeps(h: History, offered: seq<Revision>)
    requires ValidChain(h)
    ensures ValidChain(Offer(h, offered))
    ensures h.revisions <= Offer(h, offered).revisions
    ensures Terminal(Current(h).status) ==> Offer(h, offered) == h
    decreases |offered|
  {
    if offered != [] {
      var a := Append(h, offered[0]);
      if a.Success? {
        OfferKeeps(a.value.0, offered[1..]);
      } else {
        OfferKeeps(h, offered[1..]);
      }
    }
  }

  // ------------------------------------------------------------------
  // Folding the deltas
  // ------------------------------------------------------------------

  function ApplyAll(t: map<Field, Value>, changes: seq<Change>): map<Field, Value>
    decreases |changes|
  {
    if changes == [] then t else ApplyAll(t[changes[0].field := changes[0].after], changes[1..])
  }

  function Reversed(changes: seq<Change>): seq<Change> {
    if changes == [] then [] else
      [Change(changes[0].field, changes[0].after, changes[0].before)] + Reversed(changes[1..])
  }

  lemma {:induction false} ApplyChanges(t: map<Field, Value>, p: Revision, c: Revision, fields: seq<Field>)
    requires forall f :: f in fields ==> f in t && (t[f] == Attribute(p, f) || t[f] == Attribute(c, f))
    ensures
      var u := ApplyAll(t, Changes(p, c, fields));
      && u.Keys == t.Keys
      && (forall f :: f in fields ==> u[f] == Attribute(c, f))
      && (forall f :: f in t && f !in fields ==> u[f] == t[f])
    decreases |fields|
  {
    if fields != [] {
      var f, rest := fields[0], fields[1..];
      if Attribute(p, f) != Attribute(c, f) {
        var change := Change(f, Attribute(p, f), Attribute(c, f));
        assert Changes(p, c, fields) == [change] + Changes(p, c, rest);
        assert ([change] + Changes(p, c, rest))[1..] == Changes(p, c, rest);
        ApplyChanges(t[f := Attribute(c, f)], p, c, rest);
      } else {
        assert [] + Changes(p, c, rest) == Changes(p, c, rest);
        ApplyChanges(t, p, c, rest);
      }
    }
  }

  lemma {:induction false} ReversedChanges(p: Revision, c: Revision, fields: seq<Field>)
    ensures Reversed(Changes(p, c, fields)) == Changes(c, p, fields)
  {
    if fields != [] {
      var f, rest := fields[0], Changes(p, c, fields[1..]);
      ReversedChanges(p, c, fields[1..]);
      if Attribute(p, f) != Attribute(c, f) {
        var change := Change(f, Attribute(p, f), Attribute(c, f));
        assert ([change] + rest)[1..] == rest;
      } else {
        assert [] + rest == rest && [] + Changes(c, p, fields[1..]) == Changes(c, p, fields[1..]);
      }
    }
  }

  lemma {:induction false} ChangesListed(p: Revision, c: Revision, fields: seq<Field>)
    ensures forall x :: x in Changes(p, c, fields) <==>
      x.field in fields && x.before != x.after && x.before == Attribute(p, x.field) && x.after == Attribute(c, x.field)
  {
    if fields != [] {
      ChangesListed(p, c, fields[1..]);
    }
  }

  /** One delta leads from the old tracked fields to the new and, read backwards, from the new to the old. */
  lemma DeltaRoundTrip(p: Revision, c: Revision)
    ensures ApplyAll(Tracked(p), Changes(p, c, FIELDS)) == Tracked(c)
    ensures ApplyAll(Tracked(c), Reversed(Changes(p, c, FIELDS))) == Tracked(p)
  {
    ApplyChanges(Tracked(p), p, c, FIELDS);
    ReversedChanges(p, c, FIELDS);
    ApplyChanges(Tracked(c), c, p, FIELDS);
  }

  /** An otherwise acceptable revision is refused for want of a change exactly when nothing tracked differs. */
  lemma NoChangeIff(p: Revision, c: Revision)
    ensures Diff(p, c) == Failure(NoTrackedChange) <==>
      && p.eventId == c.eventId && c.revision == p.revision + 1 && p.publishedAt <= c.publishedAt
      && TransitionError(p.status, c.status).None? && Tracked(p) == Tracked(c)
  {
    ChangesListed(p, c, FIELDS);
    var changes := Changes(p, c, FIELDS);
    if changes != [] {
      var x := changes[0];
      assert x in changes;
      assert Tracked(p)[x.field] != Tracked(c)[x.field];
    } else {
      forall f | f in FIELDS ensures Attribute(p, f) == Attribute(c, f) {
        assert Change(f, Attribute(p, f), Attribute(c, f)) !in changes;
      }
      assert Tracked(p) == Tracked(c);
    }
  }

  /** Replay the deltas between neighbouring revisions, up to revision index `i`. */
  function Replay(h: History, i: nat): map<Field, Value>
    requires i < |h.revisions|
  {
    if i == 0 then Tracked(h.revisions[0])
    else ApplyAll(Replay(h, i - 1), Changes(h.revisions[i - 1], h.revisions[i], FIELDS))
  }

  /** Folding the deltas over the first revision's tracked fields rebuilds every later revision's. */
  lemma {:induction false} ReplayRebuilds(h: History, i: nat)
    requires i < |h.revisions|
    ensures Replay(h, i) == Tracked(h.revisions[i])
  {
    if i > 0 {
      ReplayRebuilds(h, i - 1);
      DeltaRoundTrip(h.revisions[i - 1], h.revisions[i]);
    }
  }

  // ------------------------------------------------------------------
  // In the revisions' own fields
  // ------------------------------------------------------------------

  /** Some tracked field differs. */
  predicate Changed(p: Revision, c: Revision) {
    || p.unavailableMw != c.unavailableMw || p.normalCapacityMw != c.normalCapacityMw
    || p.effectiveStart != c.effectiveStart || p.effectiveEnd != c.effectiveEnd
    || p.status != c.status || p.reportedCause != c.reportedCause
    || p.evidenceChecksum != c.evidenceChecksum || p.materialReason != c.materialReason
  }

  lemma FieldListed(p: Revision, c: Revision, f: Field)
    ensures Change(f, Attribute(p, f), Attribute(c, f)) in Changes(p, c, FIELDS) <==> Attribute(p, f) != Attribute(c, f)
  {
    ChangesListed(p, c, FIELDS);
    assert FIELDS[match f case UnavailableMw => 0 case NormalCapacityMw => 1 case EffectiveStart => 2
                  case EffectiveEnd => 3 case Status => 4 case ReportedCause => 5 case EvidenceChecksum => 6
                  case MaterialReason => 7] == f;
  }

  lemma ChangedIff(p: Revision, c: Revision)
    ensures Changed(p, c) <==> exists f :: Attribute(p, f) != Attribute(c, f)
  {
    assert p.unavailableMw != c.unavailableMw ==> Attribute(p, UnavailableMw) != Attribute(c, UnavailableMw);
    assert p.normalCapacityMw != c.normalCapacityMw ==>
      Attribute(p, NormalCapacityMw) != Attribute(c, NormalCapacityMw);
    assert p.effectiveStart != c.effectiveStart ==> Attribute(p, EffectiveStart) != Attribute(c, EffectiveStart);
    assert p.effectiveEnd != c.effectiveEnd ==> Attribute(p, EffectiveEnd) != Attribute(c, EffectiveEnd);
    assert p.status != c.status ==> Attribute(p, Status) != Attribute(c, Status);
    assert p.reportedCause != c.reportedCause ==> Attribute(p, ReportedCause) != Attribute(c, ReportedCause);
    assert p.evidenceChecksum != c.evidenceChecksum ==>
      Attribute(p, EvidenceChecksum) != Attribute(c, EvidenceChecksum);
    assert p.materialReason != c.materialReason ==> Attribute(p, MaterialReason) != Attribute(c, MaterialReason);
  }

  lemma ChangesIff(p: Revision, c: Revision)
    ensures Changed(p, c) <==> Changes(p, c, FIELDS) != []
  {
    ChangedIff(p, c);
    ChangesListed(p, c, FIELDS);
    if Changes(p, c, FIELDS) != [] {
      var x := Changes(p, c, FIELDS)[0];
      assert x in Changes(p, c, FIELDS);
    }
    if f :| Attribute(p, f) != Attribute(c, f) {
      FieldListed(p, c, f);
    }
  }

  /** A revision is taken up exactly when it is the event's next one, published no earlier, the event is not closed, it
      does not reopen it, and something tracked has changed; otherwise the first of these that fails is the reason. */
  lemma AppendTells(h: History, r: Revision)
    requires ValidChain(h) && WellFormed(r)
    ensures
      var p := h.revisions[|h.revisions| - 1];
      var live := p.status == Open || p.status == Updated;
      && (Append(h, r).Success? <==>
           && r.eventId == p.eventId && r.revision == p.revision + 1 && r.publishedAt >= p.publishedAt
           && live && r.status != Open && Changed(p, r))
      && (Append(h, r) == Failure(DifferentEvent) <==> r.eventId != p.eventId)
      && (Append(h, r) == Failure(NotSequential) <==> r.eventId == p.eventId && r.revision != p.revision + 1)
      && (Append(h, r) == Failure(PublishedBackwards) <==>
           r.eventId == p.eventId && r.revision == p.revision + 1 && r.publishedAt < p.publishedAt)
      && (r.eventId == p.eventId && r.revision == p.revision + 1 && r.publishedAt >= p.publishedAt ==>
           && (Append(h, r) == Failure(TerminalRevised) <==> !live)
           && (Append(h, r) == Failure(InvalidTransition) <==> live && r.status == Open)
           && (Append(h, r) == Failure(NoTrackedChange) <==> live && r.status != Open && !Changed(p, r)))
  {
    AppendDecides(h, r);
    ChangesIff(Current(h), r);
  }

  /** The change is listed exactly if there is one. */
  predicate Lists(changes: seq<Change>, f: Field, before: Value, after: Value) {
    Change(f, before, after) in changes <==> before != after
  }

  ghost predicate ListsAll(changes: seq<Change>, p: Revision, c: Revision) {
    && Lists(changes, UnavailableMw, Number(p.unavailableMw), Number(c.unavailableMw))
    && Lists(changes, NormalCapacityMw, Number(p.normalCapacityMw), Number(c.normalCapacityMw))
    && Lists(changes, EffectiveStart, Instant(p.effectiveStart), Instant(c.effectiveStart))
    && Lists(changes, EffectiveEnd, Instant(p.effectiveEnd), Instant(c.effectiveEnd))
    && Lists(changes, Status, StatusIs(p.status), StatusIs(c.status))
    && Lists(changes, ReportedCause, Words(p.reportedCause), Words(c.reportedCause))
    && Lists(changes, EvidenceChecksum, Words(Some(p.evidenceChecksum)), Words(Some(c.evidenceChecksum)))
    && Lists(changes, MaterialReason, Words(p.materialReason), Words(c.materialReason))
  }

  lemma AllListed(changes: seq<Change>, p: Revision, c: Revision)
    requires forall f :: Lists(changes, f, Attribute(p, f), Attribute(c, f))
    ensures ListsAll(changes, p, c)
  {
    assert Lists(changes, UnavailableMw, Attribute(p, UnavailableMw), Attribute(c, UnavailableMw));
    assert Lists(changes, NormalCapacityMw, Attribute(p, NormalCapacityMw), Attribute(c, NormalCapacityMw));
    assert Lists(changes, EffectiveStart, Attribute(p, EffectiveStart), Attribute(c, EffectiveStart));
    assert Lists(changes, EffectiveEnd, Attribute(p, EffectiveEnd), Attribute(c, EffectiveEnd));
    assert Lists(changes, Status, Attribute(p, Status), Attribute(c, Status));
    assert Lists(changes, ReportedCause, Attribute(p, ReportedCause), Attribute(c, ReportedCause));
    assert Lists(changes, EvidenceChecksum, Attribute(p, EvidenceChecksum), Attribute(c, EvidenceChecksum));
    assert Lists(changes, MaterialReason, Attribute(p, MaterialReason), Attribute(c, MaterialReason));
  }

  /** The delta names the step and lists exactly the fields that changed, with both values. */
  lemma DeltaTells(p: Revision, c: Revision)
    requires Diff(p, c).Success?
    ensures
      var d := Diff(p, c).value;
      && d.eventId == c.eventId && d.fromRevision == p.revision && d.toRevision == c.revision
      && (forall x :: x in d.changes ==> x.before != x.after) && ListsAll(d.changes, p, c)
  {
    ChangesListed(p, c, FIELDS);
    forall f ensures Lists(Changes(p, c, FIELDS), f, Attribute(p, f), Attribute(c, f)) {
      FieldListed(p, c, f);
    }
    AllListed(Changes(p, c, FIELDS), p, c);
  }

  /** What a reader may rely on in every revision of a lifecycle. */
  lemma HistoryTells(h: History, i: nat)
    requires ValidChain(h) && i < |h.revisions|
    ensures
      var r := h.revisions[i];
      && r.eventId == h.eventId != "" && r.revision == i + 1
      && r.evidenceChecksum != "" && r.sourceRecordIds != []
      && (r.unavailableMw.Some? ==> r.unavailableMw.value >= 0.0)
      && (r.normalCapacityMw.Some? ==> r.normalCapacityMw.value > 0.0)
      && (r.effectiveStart.Some? && r.effectiveEnd.Some? ==> r.effectiveStart.value <= r.effectiveEnd.value)
      && (r.assetIdentityReliable ==> r.assetId.Some? && r.assetId.value != "")
      && (i > 0 ==> r.materialReason.Some? && r.status != Open && r.publishedAt >= h.revisions[i - 1].publishedAt)
      && (r.supersededBy.Some? <==> r.status == Superseded)
      && r.reportedCause != Some("") && r.materialReason != Some("") && r.supersededBy != Some("")
      && (i < |h.revisions| - 1 ==> r.status == Open || r.status == Updated)
  {
    ChainShape(h, i, i);
    if i > 0 {
      ChainShape(h, i - 1, i);
    }
  }
}
