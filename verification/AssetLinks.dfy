/** Link decisions for one site and for a batch, from app/assets/linking.py. */
module AssetLinks {
  import opened Basics
  import opened AssetNames

  datatype Disposition = Linked | Ambiguous | Unlinked

  datatype Reason = UniqueStrongCandidate | NoStrongCandidate | MultipleStrongCandidates | CrossSiteCollision

  /** Candidates sorted by their distinct asset ids are a table by asset id; sorted record ids are a multiset. */
  datatype Decision = Decision(
    recordId: string, disposition: Disposition, how: Method, highConfidence: bool,
    selected: Option<Candidate>, candidates: map<string, Candidate>, reason: Reason,
    conflicting: multiset<string>)

  /** What the decision record insists on when it is built. */
  predicate ValidDecision(d: Decision) {
    match d.disposition
    case Linked =>
      && d.highConfidence && d.how != NoMethod && d.selected.Some?
      && d.selected.value.evidence != [] && |d.candidates| == 1
    case Ambiguous =>
      !d.highConfidence && d.selected.None? && d.how != NoMethod && d.candidates != map[]
    case Unlinked =>
      !d.highConfidence && d.selected.None? && d.how == NoMethod && d.candidates == map[]
  }

  // ------------------------------------------------------------------
  // One site
  // ------------------------------------------------------------------

  type Table = map<string, RankedCandidate>

  function Enter(table: Table, c: Option<RankedCandidate>): Table {
    if c.None? then table else
      var id := c.value.candidate.elexonAssetId;
      if id !in table || Outranks(c.value.rank, table[id].rank) then table[id := c.value] else table
  }

  /** The best candidate of each asset id over a list of units. */
  function TableOf(site: Site, units: seq<Unit>): Table {
    if units == [] then map[] else
      Enter(TableOf(site, units[..|units| - 1]), CandidateFor(site, units[|units| - 1]))
  }

  function Candidates(table: Table): map<string, Candidate> {
    map id | id in table :: table[id].candidate
  }

  /** The method of the highest rank in the table: exact if anything is exact. */
  function BestMethod(table: Table): Method {
    if exists id :: id in table && table[id].rank.strength == 2 then ExactSiteIdentity else ContainedSiteIdentity
  }

  ghost function DecisionFor(site: Site, table: Table): Decision {
    if table == map[] then
      Decision(site.recordId, Unlinked, NoMethod, false, None, map[], NoStrongCandidate, multiset{})
    else if |table| != 1 then
      Decision(site.recordId, Ambiguous, BestMethod(table), false, None, Candidates(table), MultipleStrongCandidates,
               multiset{})
    else
      var id :| id in table;
      var c := table[id].candidate;
      Decision(site.recordId, Linked, c.how, true, Some(c), Candidates(table), UniqueStrongCandidate, multiset{})
  }

  lemma {:induction false} TableShape(site: Site, units: seq<Unit>)
    ensures forall id :: id in TableOf(site, units) ==>
      var r := TableOf(site, units)[id];
      && r.candidate.elexonAssetId == id && r.candidate.evidence != [] && r.candidate.how != NoMethod
      && (r.rank.strength == 2 <==> r.candidate.how == ExactSiteIdentity)
      && (r.rank.strength != 2 ==> r.rank.strength == 1)
  {
    if units != [] {
      TableShape(site, units[..|units| - 1]);
    }
  }

  ghost predicate Offers(site: Site, unit: Unit, id: string) {
    CandidateFor(site, unit).Some? && unit.assetId == id
  }

  lemma SplitLast(units: seq<Unit>)
    requires units != []
    ensures forall u :: u in units <==> u in units[..|units| - 1] || u == units[|units| - 1]
  {
    assert units == units[..|units| - 1] + [units[|units| - 1]];
  }

  /** The entry of an asset id exists exactly when some unit of the list offers it, and is such a unit's candidate. */
  lemma {:induction false} TableOffered(site: Site, units: seq<Unit>, id: string)
    ensures id in TableOf(site, units) <==> exists u :: u in units && Offers(site, u, id)
    ensures id in TableOf(site, units) ==>
      exists u :: u in units && Offers(site, u, id) && CandidateFor(site, u).value == TableOf(site, units)[id]
  {
    if units != [] {
      var init, last := units[..|units| - 1], units[|units| - 1];
      TableOffered(site, init, id);
      SplitLast(units);
      if id in TableOf(site, init) {
        var u :| u in init && Offers(site, u, id) && CandidateFor(site, u).value == TableOf(site, init)[id];
        assert u in units;
      }
      assert last in units;
    }
  }

  /** No unit's candidate outranks the entry of its asset id. */
  lemma {:induction false} TableBest(site: Site, units: seq<Unit>, u: Unit)
    requires u in units && CandidateFor(site, u).Some?
    ensures u.assetId in TableOf(site, units)
    ensures !Outranks(CandidateFor(site, u).value.rank, TableOf(site, units)[u.assetId].rank)
  {
    var init, last := units[..|units| - 1], units[|units| - 1];
    SplitLast(units);
    if u in init {
      TableBest(site, init, u);
    }
  }

  method StrongestMethod(table: Table) returns (how: Method)
    requires table != map[]
    requires forall id :: id in table ==>
      (table[id].rank.strength == 2 <==> table[id].candidate.how == ExactSiteIdentity)
      && (table[id].rank.strength == 2 || table[id].rank.strength == 1)
      && table[id].candidate.how != NoMethod
    ensures how == BestMethod(table)
  {
    var pending := table.Keys;
    var first :| first in pending;
    var best := table[first];
    pending := pending - {first};
    while pending != {}
      invariant pending <= table.Keys
      invariant exists id :: id in table && table[id] == best
      invariant forall id :: id in table && id !in pending ==> !Outranks(table[id].rank, best.rank)
      decreases |pending|
    {
      var id :| id in pending;
      if Outranks(table[id].rank, best.rank) {
        best := table[id];
      }
      pending := pending - {id};
    }
    how := best.candidate.how;
  }

  /** One site against a list of units; its answer is a function of the table of best candidates. */
  method LinkSite(site: Site, units: seq<Unit>) returns (d: Decision)
    ensures d == DecisionFor(site, TableOf(site, units)) && ValidDecision(d)
  {
    var table: Table := map[];
    for i := 0 to |units|
      invariant table == TableOf(site, units[..i])
    {
      assert units[..i + 1][..i] == units[..i];
      var candidate := CandidateFor(site, units[i]);
      if candidate.Some? {
        var id := candidate.value.candidate.elexonAssetId;
        if id !in table || Outranks(candidate.value.rank, table[id].rank) {
          table := table[id := candidate.value];
        }
      }
    }
    assert units[..|units|] == units;
    TableShape(site, units);
    if table == map[] {
      return Decision(site.recordId, Unlinked, NoMethod, false, None, map[], NoStrongCandidate, multiset{});
    }
    var finalists := Candidates(table);
    assert finalists.Keys == table.Keys;
    assert |finalists| == |finalists.Keys| == |table.Keys| == |table|;
    if |table| != 1 {
      var how := StrongestMethod(table);
      return Decision(site.recordId, Ambiguous, how, false, None, finalists, MultipleStrongCandidates, multiset{});
    }
    var id :| id in table;
    var selected := table[id].candidate;
    OneKey(table, id);
    d := Decision(site.recordId, Linked, selected.how, true, Some(selected), finalists, UniqueStrongCandidate,
                  multiset{});
  }

  lemma OneKey(table: Table, id: string)
    requires |table| == 1 && id in table
    ensures forall x :: x in table ==> x == id
  {
    assert |table.Keys - {id}| == |table.Keys| - 1 == |table| - 1;
    forall x | x in table ensures x == id {
      assert x in table.Keys - {id} <==> x != id;
    }
  }
}
