/** Conservative matching of one REPD site with one Elexon BM unit, from
    app/assets/linking.py.  Names come with their normalised tokens. */
module AssetNames {
  import opened Basics

  type Token = string

  datatype Name = Name(value: string, tokens: seq<Token>)

  /** `expectedFuels` is the fuel set of the site's technology, if the technology is in the table. */
  datatype Site = Site(
    recordId: string, projectName: Name, operatorName: Option<Name>,
    capacityMw: Option<real>, isStorage: bool, expectedFuels: Option<set<string>>)

  datatype Unit = Unit(
    assetId: string, sourceAssetId: Option<string>, displayName: Option<Name>, leadPartyName: Option<Name>,
    fuelKey: Option<string>, generationMw: Option<real>, demandMw: Option<real>)

  const GENERIC: set<Token> := {
    "and", "battery", "centre", "development", "energy", "extension", "farm", "generator", "hydro",
    "limited", "ltd", "offshore", "onshore", "park", "phase", "plant", "power", "project", "solar",
    "station", "storage", "turbine", "unit", "wind"}

  const LOW_SPECIFICITY: set<Token> := {
    "bank", "black", "east", "green", "hill", "lower", "new", "north", "old", "south", "upper",
    "west", "white", "wood"}

  const LEGAL_SUFFIXES: set<Token> := {"co", "company", "inc", "incorporated", "limited", "llp", "ltd", "plc"}

  datatype Method = ExactSiteIdentity | ContainedSiteIdentity | NoMethod

  datatype ElexonField = DisplayName | LeadPartyName | GenerationCapacity | DemandCapacity | FuelType

  datatype EvidenceKind = NameExact | NameContained | CapacityCompatible | FuelCompatible | OperatorCompatible

  datatype Evidence = Evidence(kind: EvidenceKind, field: ElexonField)

  datatype Rank = Rank(strength: int, field: int)

  datatype Candidate = Candidate(elexonAssetId: string, sourceAssetId: Option<string>, how: Method,
                                 evidence: seq<Evidence>)

  datatype RankedCandidate = RankedCandidate(candidate: Candidate, rank: Rank)

  datatype NameMatch = NameMatch(how: Method, field: ElexonField, rank: Rank)

  // ------------------------------------------------------------------
  // Tokens
  // ------------------------------------------------------------------

  predicate AllDigits(t: Token) {
    t != "" && forall i :: 0 <= i < |t| ==> '0' <= t[i] <= '9'
  }

  predicate Distinguishes(t: Token) {
    t !in GENERIC && !AllDigits(t)
  }

  function Distinctive(tokens: seq<Token>): (ds: seq<Token>)
    ensures forall t :: t in ds <==> t in tokens && Distinguishes(t)
  {
    if tokens == [] then [] else
      (if Distinguishes(tokens[0]) then [tokens[0]] else []) + Distinctive(tokens[1..])
  }

  function Strong(tokens: seq<Token>): seq<Token> {
    if tokens == [] then [] else
      (if tokens[0] !in LOW_SPECIFICITY && !AllDigits(tokens[0]) then [tokens[0]] else []) + Strong(tokens[1..])
  }

  predicate IsDistinctive(tokens: seq<Token>, contained: bool) {
    var ds := Distinctive(tokens);
    ds != [] &&
    if !contained then |tokens| >= 2 || |ds[0]| >= 6
    else |Strong(ds)| >= 2 || exists t :: t in Strong(ds) && |t| >= 5
  }

  /** `shorter` occurs in `longer` as a run of consecutive tokens. */
  predicate Phrase(shorter: seq<Token>, longer: seq<Token>) {
    exists i :: 0 <= i <= |longer| - |shorter| && OccursAt(shorter, longer, i)
  }

  predicate OccursAt(shorter: seq<Token>, longer: seq<Token>, i: int) {
    0 <= i <= |longer| - |shorter| && longer[i..i + |shorter|] == shorter
  }

  predicate StrongContainment(left: seq<Token>, right: seq<Token>) {
    var (shorter, longer) := if |left| <= |right| then (left, right) else (right, left);
    && |shorter| >= 3 && 5 * |shorter| >= 3 * |longer|
    && IsDistinctive(shorter, true)
    && Phrase(shorter, longer)
  }

  // ------------------------------------------------------------------
  // Evidence
  // ------------------------------------------------------------------

  function FieldMatch(project: seq<Token>, name: Option<Name>, field: ElexonField, fieldRank: int): Option<NameMatch> {
    if name.None? then None
    else if project == name.value.tokens then Some(NameMatch(ExactSiteIdentity, field, Rank(2, fieldRank)))
    else if StrongContainment(project, name.value.tokens) then
      Some(NameMatch(ContainedSiteIdentity, field, Rank(1, fieldRank)))
    else None
  }

  predicate Outranks(a: Rank, b: Rank) {
    a.strength > b.strength || (a.strength == b.strength && a.field > b.field)
  }

  function BestNameMatch(project: seq<Token>, unit: Unit): Option<NameMatch> {
    if !IsDistinctive(project, false) then None else
      var display := FieldMatch(project, unit.displayName, DisplayName, 2);
      var lead := FieldMatch(project, unit.leadPartyName, LeadPartyName, 1);
      if display.None? then lead
      else if lead.None? || !Outranks(lead.value.rank, display.value.rank) then display
      else lead
  }

  predicate WithinTolerance(capacity: real, value: real) {
    value > 0.0 && Abs(capacity - value) <= Max(0.1, 0.02 * Max(capacity, value))
  }

  function CapacityEvidence(site: Site, unit: Unit): Option<Evidence> {
    if site.capacityMw.None? then None else
      var mw := site.capacityMw.value;
      var generation := unit.generationMw.Some? && WithinTolerance(mw, unit.generationMw.value);
      var demand := site.isStorage && unit.demandMw.Some? && WithinTolerance(mw, Abs(unit.demandMw.value));
      if generation && demand then
        // the smaller difference, then the alphabetically first field
        if Abs(mw - unit.generationMw.value) < Abs(mw - Abs(unit.demandMw.value))
        then Some(Evidence(CapacityCompatible, GenerationCapacity))
        else Some(Evidence(CapacityCompatible, DemandCapacity))
      else if generation then Some(Evidence(CapacityCompatible, GenerationCapacity))
      else if demand then Some(Evidence(CapacityCompatible, DemandCapacity))
      else None
  }

  predicate FuelContradicts(site: Site, unit: Unit) {
    site.expectedFuels.Some? && unit.fuelKey.Some? && unit.fuelKey.value !in site.expectedFuels.value
  }

  function FuelEvidence(site: Site, unit: Unit): Option<Evidence> {
    if site.expectedFuels.Some? && unit.fuelKey.Some? && unit.fuelKey.value in site.expectedFuels.value
    then Some(Evidence(FuelCompatible, FuelType)) else None
  }

  function OperatorTokens(tokens: seq<Token>): seq<Token> {
    if tokens != [] && tokens[|tokens| - 1] in LEGAL_SUFFIXES then OperatorTokens(tokens[..|tokens| - 1]) else tokens
  }

  function OperatorEvidence(site: Site, unit: Unit): Option<Evidence> {
    if site.operatorName.None? || unit.leadPartyName.None? then None else
      var repd, elexon := OperatorTokens(site.operatorName.value.tokens),
        OperatorTokens(unit.leadPartyName.value.tokens);
      if repd == [] || elexon == [] || repd != elexon then None
      else Some(Evidence(OperatorCompatible, LeadPartyName))
  }

  function Present(e: Option<Evidence>): seq<Evidence> {
    if e.Some? then [e.value] else []
  }

  /** The complete evidence policy for one pair. */
  function CandidateFor(site: Site, unit: Unit): Option<RankedCandidate> {
    var name := BestNameMatch(site.projectName.tokens, unit);
    var capacity := CapacityEvidence(site, unit);
    var fuel, operator := FuelEvidence(site, unit), OperatorEvidence(site, unit);
    if name.None? || capacity.None? || FuelContradicts(site, unit) then None
    else if (name.value.how == ContainedSiteIdentity || name.value.field == LeadPartyName) && fuel.None?
      && operator.None? then None
    else
      var kind := if name.value.how == ExactSiteIdentity then NameExact else NameContained;
      Some(RankedCandidate(
        Candidate(unit.assetId, unit.sourceAssetId, name.value.how,
                  [Evidence(kind, name.value.field), capacity.value] + Present(fuel) + Present(operator)),
        name.value.rank))
  }

  // ------------------------------------------------------------------
  // A match shares a token that tells it apart
  // ------------------------------------------------------------------

  function OptionTokens(name: Option<Name>): set<Token> {
    if name.None? then {} else set t | t in name.value.tokens && Distinguishes(t)
  }

  /** The tokens under which a unit is indexed. */
  function IndexTokens(unit: Unit): set<Token> {
    OptionTokens(unit.displayName) + OptionTokens(unit.leadPartyName)
  }

  function SiteTokens(site: Site): set<Token> {
    set t | t in site.projectName.tokens && Distinguishes(t)
  }

  lemma DistinctiveHasToken(tokens: seq<Token>, contained: bool)
    requires IsDistinctive(tokens, contained)
    ensures exists t :: t in tokens && Distinguishes(t)
  {
    var ds := Distinctive(tokens);
    assert ds[0] in ds;
  }

  lemma PhraseTokens(shorter: seq<Token>, longer: seq<Token>, t: Token)
    requires Phrase(shorter, longer) && t in shorter
    ensures t in longer
  {
    var i :| 0 <= i <= |longer| - |shorter| && OccursAt(shorter, longer, i);
    assert t in longer[i..i + |shorter|];
  }

  lemma FieldMatchShares(project: seq<Token>, name: Option<Name>, field: ElexonField, rank: int)
    requires IsDistinctive(project, false) && FieldMatch(project, name, field, rank).Some?
    ensures exists t :: t in project && t in OptionTokens(name)
  {
    var other := name.value.tokens;
    if project == other {
      DistinctiveHasToken(project, false);
      var t :| t in project && Distinguishes(t);
      assert t in OptionTokens(name);
    } else {
      var (shorter, longer) := if |project| <= |other| then (project, other) else (other, project);
      DistinctiveHasToken(shorter, true);
      var t :| t in shorter && Distinguishes(t);
      PhraseTokens(shorter, longer, t);
      assert t in project && t in OptionTokens(name);
    }
  }

  /** Why the inverted index cannot miss a candidate. */
  lemma CandidateSharesToken(site: Site, unit: Unit)
    requires CandidateFor(site, unit).Some?
    ensures exists t :: t in SiteTokens(site) && t in IndexTokens(unit)
  {
    var project := site.projectName.tokens;
    var t: Token;
    if FieldMatch(project, unit.displayName, DisplayName, 2).Some? {
      FieldMatchShares(project, unit.displayName, DisplayName, 2);
      t :| t in project && t in OptionTokens(unit.displayName);
    } else {
      FieldMatchShares(project, unit.leadPartyName, LeadPartyName, 1);
      t :| t in project && t in OptionTokens(unit.leadPartyName);
    }
    assert t in SiteTokens(site) && t in IndexTokens(unit);
  }
}
