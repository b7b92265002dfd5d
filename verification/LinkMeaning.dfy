/** What a link tells its reader, in terms of the site's and the unit's own fields. */
module LinkMeaning {
  import opened Basics
  import opened AssetNames
  import opened AssetLinks
  import opened AssetBatch
  import opened AssetCollisions

  // ------------------------------------------------------------------
  // Names
  // ------------------------------------------------------------------

  predicate Digits(t: Token) {
    t != "" && forall i :: 0 <= i < |t| ==> '0' <= t[i] <= '9'
  }

  /** The token says something about the site: neither a generic word nor a number. */
  predicate Telling(t: Token) {
    t !in GENERIC && !Digits(t)
  }

  /** Nor a word that many sites have in their names. */
  predicate Specific(t: Token) {
    Telling(t) && t !in LOW_SPECIFICITY
  }

  /** The first telling token is at position `i`. */
  ghost predicate FirstTelling(tokens: seq<Token>, i: nat) {
    i < |tokens| && Telling(tokens[i]) && forall j :: 0 <= j < i ==> !Telling(tokens[j])
  }

  /** A telling token and another token besides, or a first telling token of at least six characters. */
  ghost predicate NamesASite(tokens: seq<Token>) {
    exists i :: 0 <= i < |tokens| && FirstTelling(tokens, i) && (|tokens| >= 2 || |tokens[i]| >= 6)
  }

  /** Two specific tokens, or one of at least five characters. */
  ghost predicate NamesASitePart(tokens: seq<Token>) {
    || (exists i, j :: 0 <= i < j < |tokens| && Specific(tokens[i]) && Specific(tokens[j]))
    || (exists t :: t in tokens && Specific(t) && |t| >= 5)
  }

  predicate RunAt(short: seq<Token>, long: seq<Token>, i: nat) {
    i + |short| <= |long| && long[i..i + |short|] == short
  }

  /** `short` is a run of at least three tokens of `long`, covers three fifths of it, and names part of a site. */
  ghost predicate LargeRun(short: seq<Token>, long: seq<Token>) {
    && 3 <= |short| && 3 * |long| <= 5 * |short|
    && NamesASitePart(short)
    && exists i: nat :: RunAt(short, long, i)
  }

  predicate SameName(project: seq<Token>, name: Option<Name>) {
    name.Some? && name.value.tokens == project
  }

  ghost predicate PartlySameName(project: seq<Token>, name: Option<Name>) {
    && name.Some? && name.value.tokens != project
    && (LargeRun(project, name.value.tokens) || LargeRun(name.value.tokens, project))
  }

  lemma {:induction false} DistinctiveIs(tokens: seq<Token>)
    ensures Distinctive(tokens) == [] <==> forall t :: t in tokens ==> !Telling(t)
    ensures Distinctive(tokens) != [] ==>
      exists i :: 0 <= i < |tokens| && FirstTelling(tokens, i) && tokens[i] == Distinctive(tokens)[0]
    ensures forall t :: t in Strong(Distinctive(tokens)) <==> t in tokens && Specific(t)
  {
    if tokens != [] {
      var first, rest := tokens[0], tokens[1..];
      DistinctiveIs(rest);
      assert tokens == [first] + rest;
      assert Distinguishes(first) <==> Telling(first);
      if Telling(first) {
        assert FirstTelling(tokens, 0);
        assert Distinctive(tokens)[1..] == Distinctive(rest);
      } else {
        assert Distinctive(tokens) == Distinctive(rest);
        if Distinctive(rest) != [] {
          var i :| 0 <= i < |rest| && FirstTelling(rest, i) && rest[i] == Distinctive(rest)[0];
          assert FirstTelling(tokens, i + 1);
        }
      }
    }
  }

  lemma FirstTellingUnique(tokens: seq<Token>, i: nat, j: nat)
    requires FirstTelling(tokens, i) && FirstTelling(tokens, j)
    ensures i == j
  {}

  /** How many specific tokens there are. */
  function SpecificCount(tokens: seq<Token>): nat {
    if tokens == [] then 0 else (if Specific(tokens[0]) then 1 else 0) + SpecificCount(tokens[1..])
  }

  lemma {:induction false} StrongCounts(tokens: seq<Token>)
    ensures |Strong(Distinctive(tokens))| == SpecificCount(tokens)
  {
    if tokens != [] {
      StrongCounts(tokens[1..]);
      assert Distinguishes(tokens[0]) <==> Telling(tokens[0]);
      if Telling(tokens[0]) {
        assert Distinctive(tokens)[1..] == Distinctive(tokens[1..]);
      } else {
        assert Distinctive(tokens) == Distinctive(tokens[1..]);
      }
    }
  }

  lemma {:induction false} CountIs(tokens: seq<Token>)
    ensures SpecificCount(tokens) >= 1 <==> exists i :: 0 <= i < |tokens| && Specific(tokens[i])
    ensures SpecificCount(tokens) >= 2 <==>
      exists i, j :: 0 <= i < j < |tokens| && Specific(tokens[i]) && Specific(tokens[j])
  {
    if tokens != [] {
      var rest := tokens[1..];
      CountIs(rest);
      if i :| 0 <= i < |rest| && Specific(rest[i]) {
        assert Specific(tokens[i + 1]);
      }
      if i :| 0 < i < |tokens| && Specific(tokens[i]) {
        assert Specific(rest[i - 1]);
      }
      if i, j :| 0 <= i < j < |rest| && Specific(rest[i]) && Specific(rest[j]) {
        assert Specific(tokens[i + 1]) && Specific(tokens[j + 1]);
      }
      if i, j :| 0 < i < j < |tokens| && Specific(tokens[i]) && Specific(tokens[j]) {
        assert Specific(rest[i - 1]) && Specific(rest[j - 1]);
      }
    }
  }

  lemma WholeNameMeans(tokens: seq<Token>)
    ensures IsDistinctive(tokens, false) <==> NamesASite(tokens)
  {
    DistinctiveIs(tokens);
    if i :| 0 <= i < |tokens| && FirstTelling(tokens, i) {
      assert tokens[i] in tokens;
      var j :| 0 <= j < |tokens| && FirstTelling(tokens, j) && tokens[j] == Distinctive(tokens)[0];
      FirstTellingUnique(tokens, i, j);
    }
  }

  lemma PartFrom(tokens: seq<Token>, ds: seq<Token>, strong: seq<Token>)
    requires ds == [] <==> forall t :: t in tokens ==> !Telling(t)
    requires forall t :: t in strong <==> t in tokens && Specific(t)
    requires |strong| >= 2 <==> exists i, j :: 0 <= i < j < |tokens| && Specific(tokens[i]) && Specific(tokens[j])
    ensures ds != [] && (|strong| >= 2 || exists t :: t in strong && |t| >= 5) <==> NamesASitePart(tokens)
  {
    if i, j :| 0 <= i < j < |tokens| && Specific(tokens[i]) && Specific(tokens[j]) {
      assert tokens[i] in tokens;
    }
    if t :| t in strong && |t| >= 5 {
      assert t in tokens && Telling(t);
    }
  }

  lemma PartNameMeans(tokens: seq<Token>)
    ensures IsDistinctive(tokens, true) <==> NamesASitePart(tokens)
  {
    DistinctiveIs(tokens);
    StrongCounts(tokens);
    CountIs(tokens);
    PartFrom(tokens, Distinctive(tokens), Strong(Distinctive(tokens)));
  }

  lemma PhraseMeans(short: seq<Token>, long: seq<Token>)
    ensures Phrase(short, long) <==> exists i: nat :: RunAt(short, long, i)
  {
    if i :| 0 <= i <= |long| - |short| && OccursAt(short, long, i) {
      assert RunAt(short, long, i);
    }
    if i: nat :| RunAt(short, long, i) {
      assert OccursAt(short, long, i);
    }
  }

  lemma RunOfEqualLength(a: seq<Token>, b: seq<Token>, i: nat)
    requires |a| >= |b| && RunAt(a, b, i)
    ensures a == b
  {
    assert i == 0 && b[0..|b|] == b;
  }

  lemma ContainmentMeans(project: seq<Token>, other: seq<Token>)
    requires project != other
    ensures StrongContainment(project, other) <==> LargeRun(project, other) || LargeRun(other, project)
  {
    PartNameMeans(project);
    PartNameMeans(other);
    PhraseMeans(project, other);
    PhraseMeans(other, project);
    if |project| >= |other| {
      if i: nat :| RunAt(project, other, i) { RunOfEqualLength(project, other, i); }
    }
    if |other| >= |project| {
      if i: nat :| RunAt(other, project, i) { RunOfEqualLength(other, project, i); }
    }
  }

  // ------------------------------------------------------------------
  // Capacity, fuel, operator
  // ------------------------------------------------------------------

  /** At most a tenth of a megawatt apart, or two per cent of the larger. */
  predicate Close(a: real, b: real) {
    var apart := if a < b then b - a else a - b;
    apart <= 0.1 || 50.0 * apart <= a || 50.0 * apart <= b
  }

  /** The unit generates about the site's capacity or, for storage, draws about that much. */
  predicate CapacityFits(site: Site, unit: Unit) {
    site.capacityMw.Some? &&
    var mw := site.capacityMw.value;
    || (unit.generationMw.Some? && unit.generationMw.value > 0.0 && Close(mw, unit.generationMw.value))
    || (site.isStorage && unit.demandMw.Some? && unit.demandMw.value > 0.0 && Close(mw, unit.demandMw.value))
    || (site.isStorage && unit.demandMw.Some? && unit.demandMw.value < 0.0 && Close(mw, -unit.demandMw.value))
  }

  lemma ToleranceMeans(mw: real, value: real)
    ensures WithinTolerance(mw, value) <==> value > 0.0 && Close(mw, value)
  {}

  lemma CapacityMeans(site: Site, unit: Unit)
    ensures CapacityEvidence(site, unit).Some? <==> CapacityFits(site, unit)
  {
    if site.capacityMw.Some? && unit.generationMw.Some? {
      ToleranceMeans(site.capacityMw.value, unit.generationMw.value);
    }
    if site.capacityMw.Some? && unit.demandMw.Some? {
      ToleranceMeans(site.capacityMw.value, Abs(unit.demandMw.value));
    }
  }

  predicate FuelAgrees(site: Site, unit: Unit) {
    site.expectedFuels.Some? && unit.fuelKey.Some? && unit.fuelKey.value in site.expectedFuels.value
  }

  predicate FuelDiffers(site: Site, unit: Unit) {
    site.expectedFuels.Some? && unit.fuelKey.Some? && unit.fuelKey.value !in site.expectedFuels.value
  }

  /** The first `n` tokens are what is left of a company's name without its legal suffixes. */
  predicate Company(tokens: seq<Token>, n: nat) {
    && 0 < n <= |tokens| && tokens[n - 1] !in LEGAL_SUFFIXES
    && forall i :: n <= i < |tokens| ==> tokens[i] in LEGAL_SUFFIXES
  }

  ghost predicate SameCompany(a: seq<Token>, b: seq<Token>) {
    exists n, m :: 0 <= n <= |a| && 0 <= m <= |b| && Company(a, n) && Company(b, m) && a[..n] == b[..m]
  }

  ghost predicate OperatorAgrees(site: Site, unit: Unit) {
    && site.operatorName.Some? && unit.leadPartyName.Some?
    && SameCompany(site.operatorName.value.tokens, unit.leadPartyName.value.tokens)
  }

  lemma {:induction false} OperatorTokensAre(tokens: seq<Token>)
    ensures OperatorTokens(tokens) <= tokens
    ensures forall n :: Company(tokens, n) <==> OperatorTokens(tokens) != [] && n == |OperatorTokens(tokens)|
  {
    if tokens != [] && tokens[|tokens| - 1] in LEGAL_SUFFIXES {
      var init := tokens[..|tokens| - 1];
      OperatorTokensAre(init);
      forall n: nat ensures Company(tokens, n) <==> Company(init, n) {
        if Company(init, n) {
          assert forall i :: n <= i < |tokens| ==> tokens[i] == (if i < |init| then init[i] else tokens[|tokens| - 1]);
        }
      }
    } else if tokens != [] {
      assert forall n: nat :: Company(tokens, n) ==> !(n < |tokens|);
    }
  }

  lemma OperatorMeans(site: Site, unit: Unit)
    ensures OperatorEvidence(site, unit).Some? <==> OperatorAgrees(site, unit)
  {
    if site.operatorName.Some? && unit.leadPartyName.Some? {
      var a, b := site.operatorName.value.tokens, unit.leadPartyName.value.tokens;
      OperatorTokensAre(a);
      OperatorTokensAre(b);
      if OperatorTokens(a) != [] && OperatorTokens(a) == OperatorTokens(b) {
        assert Company(a, |OperatorTokens(a)|) && Company(b, |OperatorTokens(b)|);
      }
    }
  }

  // ------------------------------------------------------------------
  // Which pairs fit
  // ------------------------------------------------------------------

  /** How good the name relation is: the display name itself, the lead party's name, part of either, or nothing. */
  ghost function Grade(project: seq<Token>, unit: Unit): nat {
    if !NamesASite(project) then 0
    else if SameName(project, unit.displayName) then 4
    else if SameName(project, unit.leadPartyName) then 3
    else if PartlySameName(project, unit.displayName) then 2
    else if PartlySameName(project, unit.leadPartyName) then 1
    else 0
  }

  /** The pair is evidence enough for a link: compatible capacity, no contradicting fuel, and either the display name
      itself or a weaker name relation with a fuel or an operator that agrees. */
  ghost predicate Fits(site: Site, unit: Unit) {
    && CapacityFits(site, unit) && !FuelDiffers(site, unit)
    && Grade(site.projectName.tokens, unit) > 0
    && (Grade(site.projectName.tokens, unit) == 4 || FuelAgrees(site, unit) || OperatorAgrees(site, unit))
  }

  /** The match one name field gives, by how it agrees. */
  function MatchFor(same: bool, partly: bool, field: ElexonField, rank: int): Option<NameMatch> {
    if same then Some(NameMatch(ExactSiteIdentity, field, Rank(2, rank)))
    else if partly then Some(NameMatch(ContainedSiteIdentity, field, Rank(1, rank)))
    else None
  }

  lemma FieldMeans(project: seq<Token>, name: Option<Name>, field: ElexonField, rank: int)
    ensures FieldMatch(project, name, field, rank)
         == MatchFor(SameName(project, name), PartlySameName(project, name), field, rank)
  {
    if name.Some? && name.value.tokens != project {
      ContainmentMeans(project, name.value.tokens);
    }
  }

  /** What the best name match of each grade is. */
  predicate Graded(m: NameMatch, grade: nat) {
    && (m.how == ExactSiteIdentity <==> grade >= 3) && (m.how == ContainedSiteIdentity <==> grade <= 2)
    && m.field == (if grade == 4 || grade == 2 then DisplayName else LeadPartyName)
    && m.rank.strength == (if grade >= 3 then 2 else 1)
    && m.rank.field == (if grade == 4 || grade == 2 then 2 else 1)
  }

  lemma BestGraded(sameDisplay: bool, partlyDisplay: bool, sameLead: bool, partlyLead: bool, project: seq<Token>,
                   unit: Unit)
    requires FieldMatch(project, unit.displayName, DisplayName, 2)
      == MatchFor(sameDisplay, partlyDisplay, DisplayName, 2)
    requires FieldMatch(project, unit.leadPartyName, LeadPartyName, 1)
      == MatchFor(sameLead, partlyLead, LeadPartyName, 1)
    requires IsDistinctive(project, false)
    ensures
      var grade := if sameDisplay then 4 else if sameLead then 3 else if partlyDisplay then 2 else if partlyLead then 1
        else 0;
      var best := BestNameMatch(project, unit);
      (best.Some? <==> grade > 0) && (best.Some? ==> Graded(best.value, grade))
  {}

  lemma NameMeans(project: seq<Token>, unit: Unit)
    ensures BestNameMatch(project, unit).Some? <==> Grade(project, unit) > 0
    ensures BestNameMatch(project, unit).Some? ==> Graded(BestNameMatch(project, unit).value, Grade(project, unit))
  {
    WholeNameMeans(project);
    if IsDistinctive(project, false) {
      FieldMeans(project, unit.displayName, DisplayName, 2);
      FieldMeans(project, unit.leadPartyName, LeadPartyName, 1);
      BestGraded(SameName(project, unit.displayName), PartlySameName(project, unit.displayName),
                 SameName(project, unit.leadPartyName), PartlySameName(project, unit.leadPartyName), project, unit);
    }
  }

  /** The evidence a candidate lists: how the names agree, the capacity field, and fuel and operator if they agree. */
  ghost predicate Evidenced(site: Site, unit: Unit, c: Candidate) {
    var grade := Grade(site.projectName.tokens, unit);
    && c.elexonAssetId == unit.assetId && c.sourceAssetId == unit.sourceAssetId
    && c.how == (if grade >= 3 then ExactSiteIdentity else ContainedSiteIdentity)
    && 2 <= |c.evidence| <= 4
    && c.evidence[0].kind == (if grade >= 3 then NameExact else NameContained)
    && c.evidence[0].field == (if grade == 4 || grade == 2 then DisplayName else LeadPartyName)
    && c.evidence[1].kind == CapacityCompatible && CapacityFrom(site, unit, c.evidence[1].field)
    && (Evidence(FuelCompatible, FuelType) in c.evidence <==> FuelAgrees(site, unit))
    && (Evidence(OperatorCompatible, LeadPartyName) in c.evidence <==> OperatorAgrees(site, unit))
  }

  /** The capacity is read from the field that is closer to the site's, from the demand on a tie. */
  predicate CapacityFrom(site: Site, unit: Unit, field: ElexonField) {
    site.capacityMw.Some? &&
    var mw := site.capacityMw.value;
    match field
    case GenerationCapacity =>
      && unit.generationMw.Some? && Close(mw, unit.generationMw.value)
      && (site.isStorage && unit.demandMw.Some? && unit.demandMw.value != 0.0
          && Close(mw, Magnitude(unit.demandMw.value)) ==>
           Magnitude(mw - unit.generationMw.value) < Magnitude(mw - Magnitude(unit.demandMw.value)))
    case DemandCapacity =>
      && site.isStorage && unit.demandMw.Some? && Close(mw, Magnitude(unit.demandMw.value))
      && (unit.generationMw.Some? && unit.generationMw.value > 0.0 && Close(mw, unit.generationMw.value) ==>
           Magnitude(mw - Magnitude(unit.demandMw.value)) <= Magnitude(mw - unit.generationMw.value))
    case _ => false
  }

  function Magnitude(x: real): real {
    if x >= 0.0 then x else -x
  }

  lemma CapacityKind(site: Site, unit: Unit)
    ensures CapacityEvidence(site, unit).Some? ==>
      && CapacityEvidence(site, unit).value.kind == CapacityCompatible
      && CapacityFrom(site, unit, CapacityEvidence(site, unit).value.field)
  {
    if site.capacityMw.Some? && unit.generationMw.Some? {
      ToleranceMeans(site.capacityMw.value, unit.generationMw.value);
    }
    if site.capacityMw.Some? && unit.demandMw.Some? {
      ToleranceMeans(site.capacityMw.value, Abs(unit.demandMw.value));
    }
  }

  /** A unit is a candidate exactly when it fits; and then the candidate says why. */
  lemma CandidateMeans(site: Site, unit: Unit)
    ensures CandidateFor(site, unit).Some? <==> Fits(site, unit)
    ensures CandidateFor(site, unit).Some? ==>
      && Evidenced(site, unit, CandidateFor(site, unit).value.candidate)
      && CandidateFor(site, unit).value.rank.strength == (if Grade(site.projectName.tokens, unit) >= 3 then 2 else 1)
      && CandidateFor(site, unit).value.rank.field ==
           (if Grade(site.projectName.tokens, unit) == 4 || Grade(site.projectName.tokens, unit) == 2 then 2 else 1)
  {
    NameMeans(site.projectName.tokens, unit);
    CapacityMeans(site, unit);
    CapacityKind(site, unit);
    OperatorMeans(site, unit);
  }

  // ------------------------------------------------------------------
  // Decisions
  // ------------------------------------------------------------------

  ghost predicate FitsAs(site: Site, units: seq<Unit>, id: string) {
    exists u :: u in units && u.assetId == id && Fits(site, u)
  }

  /** The best graded unit of the asset, and the first of these, is the one presented. */
  ghost predicate Presents(site: Site, units: seq<Unit>, c: Candidate) {
    exists i :: 0 <= i < |units| && FirstBest(site, units, i, c.elexonAssetId) && Evidenced(site, units[i], c)
  }

  ghost predicate FirstBest(site: Site, units: seq<Unit>, i: nat, id: string) {
    && i < |units| && units[i].assetId == id && Fits(site, units[i])
    && forall j :: 0 <= j < |units| && units[j].assetId == id && Fits(site, units[j]) ==>
         var mine, other := Grade(site.projectName.tokens, units[i]), Grade(site.projectName.tokens, units[j]);
         other <= mine && (j < i ==> other < mine)
  }

  ghost predicate TableEntry(site: Site, units: seq<Unit>, r: RankedCandidate, i: nat, id: string) {
    FirstBest(site, units, i, id) && CandidateFor(site, units[i]) == Some(r)
  }

  lemma EntryStays(site: Site, init: seq<Unit>, last: Unit, r: RankedCandidate, i: nat, id: string)
    requires TableEntry(site, init, r, i, id)
    requires last.assetId == id && Fits(site, last) ==>
      Grade(site.projectName.tokens, last) <= Grade(site.projectName.tokens, init[i])
    ensures TableEntry(site, init + [last], r, i, id)
  {
    var units := init + [last];
    forall j | 0 <= j < |units| && units[j].assetId == id && Fits(site, units[j])
      ensures
        var mine, other := Grade(site.projectName.tokens, units[i]), Grade(site.projectName.tokens, units[j]);
        other <= mine && (j < i ==> other < mine)
    {
      assert j < |init| ==> units[j] == init[j];
    }
  }

  lemma RanksAreGrades(site: Site, a: Unit, b: Unit)
    requires Fits(site, a) && Fits(site, b)
    ensures CandidateFor(site, a).Some? && CandidateFor(site, b).Some?
    ensures Outranks(CandidateFor(site, b).value.rank, CandidateFor(site, a).value.rank) <==>
      Grade(site.projectName.tokens, b) > Grade(site.projectName.tokens, a)
  {
    CandidateMeans(site, a);
    CandidateMeans(site, b);
  }

  ghost predicate TableTells(site: Site, units: seq<Unit>, table: Table, id: string) {
    && (id in table <==> FitsAs(site, units, id))
    && (id in table ==> exists i: nat :: TableEntry(site, units, table[id], i, id))
  }

  lemma FitsStep(site: Site, init: seq<Unit>, last: Unit, id: string)
    ensures FitsAs(site, init + [last], id) <==> FitsAs(site, init, id) || (last.assetId == id && Fits(site, last))
  {
    if u :| u in init && u.assetId == id && Fits(site, u) {
      assert u in init + [last];
    }
    if last.assetId == id && Fits(site, last) {
      assert last in init + [last];
    }
  }

  /** The last unit offers nothing for the asset. */
  lemma StepWithout(site: Site, init: seq<Unit>, last: Unit, table: Table, id: string)
    requires TableTells(site, init, table, id) && !(last.assetId == id && Fits(site, last))
    ensures TableTells(site, init + [last], table, id)
  {
    FitsStep(site, init, last, id);
    if id in table {
      var i: nat :| TableEntry(site, init, table[id], i, id);
      EntryStays(site, init, last, table[id], i, id);
    }
  }

  /** The last unit is the asset's first. */
  lemma StepFirst(site: Site, init: seq<Unit>, last: Unit, table: Table, id: string, r: RankedCandidate)
    requires TableTells(site, init, table, id) && id !in table
    requires last.assetId == id && Fits(site, last) && CandidateFor(site, last) == Some(r)
    ensures TableTells(site, init + [last], table[id := r], id)
  {
    FitsStep(site, init, last, id);
    var units := init + [last];
    forall j | 0 <= j < |init| ensures !(units[j].assetId == id && Fits(site, units[j])) {
      assert units[j] == init[j] && init[j] in init;
    }
    assert TableEntry(site, units, r, |init|, id);
  }

  lemma EntryReplaced(site: Site, init: seq<Unit>, last: Unit, was: RankedCandidate, i: nat, id: string,
                      r: RankedCandidate)
    requires TableEntry(site, init, was, i, id) && last.assetId == id && Fits(site, last)
    requires Grade(site.projectName.tokens, last) > Grade(site.projectName.tokens, init[i])
    requires CandidateFor(site, last) == Some(r)
    ensures TableEntry(site, init + [last], r, |init|, id)
  {
    assert forall j :: 0 <= j < |init| ==> (init + [last])[j] == init[j];
  }

  /** The asset has an entry already. */
  lemma StepAgain(site: Site, init: seq<Unit>, last: Unit, was: RankedCandidate, i: nat, id: string, r: RankedCandidate)
    requires TableEntry(site, init, was, i, id)
    requires last.assetId == id && Fits(site, last) && CandidateFor(site, last) == Some(r)
    ensures Outranks(r.rank, was.rank) ==> TableEntry(site, init + [last], r, |init|, id)
    ensures !Outranks(r.rank, was.rank) ==> TableEntry(site, init + [last], was, i, id)
  {
    RanksAreGrades(site, init[i], last);
    if Outranks(r.rank, was.rank) {
      EntryReplaced(site, init, last, was, i, id, r);
    } else {
      EntryStays(site, init, last, was, i, id);
    }
  }

  lemma StepOver(site: Site, init: seq<Unit>, last: Unit, table: Table, id: string, r: RankedCandidate)
    requires TableTells(site, init, table, id) && id in table
    requires last.assetId == id && Fits(site, last) && CandidateFor(site, last) == Some(r)
    ensures TableTells(site, init + [last], if Outranks(r.rank, table[id].rank) then table[id := r] else table, id)
  {
    FitsStep(site, init, last, id);
    var i: nat :| TableEntry(site, init, table[id], i, id);
    StepAgain(site, init, last, table[id], i, id, r);
  }

  /** Each entry of the table comes from the first of its asset's best graded units. */
  lemma {:induction false} TableMeans(site: Site, units: seq<Unit>, id: string)
    ensures TableTells(site, units, TableOf(site, units), id)
  {
    if units != [] {
      var init, last := units[..|units| - 1], units[|units| - 1];
      var table := TableOf(site, init);
      assert units == init + [last];
      TableMeans(site, init, id);
      CandidateMeans(site, last);
      if last.assetId != id || !Fits(site, last) {
        StepWithout(site, init, last, table, id);
        OthersStay(site, init, last, table, id);
      } else if id in table {
        StepOver(site, init, last, table, id, CandidateFor(site, last).value);
      } else {
        StepFirst(site, init, last, table, id, CandidateFor(site, last).value);
      }
    }
  }

  /** Only the offered asset's entry changes. */
  lemma OthersStay(site: Site, init: seq<Unit>, last: Unit, table: Table, id: string)
    requires last.assetId != id || !Fits(site, last)
    requires TableTells(site, init + [last], table, id)
    ensures TableTells(site, init + [last], Enter(table, CandidateFor(site, last)), id)
  {
    CandidateMeans(site, last);
  }

  // ------------------------------------------------------------------
  // What is decided
  // ------------------------------------------------------------------

  /** Every unit that fits the site is of this one asset, and some unit does. */
  ghost predicate OnlyFits(site: Site, units: seq<Unit>, id: string) {
    FitsAs(site, units, id) && forall u :: u in units && Fits(site, u) ==> u.assetId == id
  }

  lemma TablesAre(site: Site, units: seq<Unit>)
    ensures forall id :: id in TableOf(site, units) <==> FitsAs(site, units, id)
  {
    forall id ensures id in TableOf(site, units) <==> FitsAs(site, units, id) {
      TableMeans(site, units, id);
    }
  }

  lemma SoleMeans(site: Site, units: seq<Unit>, id: string)
    ensures SoleCandidate(site, units, id) <==> OnlyFits(site, units, id)
  {
    var table := TableOf(site, units);
    TablesAre(site, units);
    if SoleCandidate(site, units, id) {
      OneKey(table, id);
      forall u | u in units && Fits(site, u) ensures u.assetId == id {
        assert FitsAs(site, units, u.assetId);
      }
    }
    if OnlyFits(site, units, id) {
      assert forall x :: x in table ==> x == id;
      assert table.Keys == {id};
      assert |table| == |table.Keys|;
    }
  }

  /** The candidates a decision lists are those of the assets with a fitting unit, each with its best unit's evidence.
      */
  ghost predicate ListsFitting(site: Site, units: seq<Unit>, d: Decision) {
    && (forall id :: id in d.candidates <==> FitsAs(site, units, id))
    && (forall id :: id in d.candidates ==>
         d.candidates[id].elexonAssetId == id && Presents(site, units, d.candidates[id]))
  }

  lemma CandidatesPresented(site: Site, units: seq<Unit>, id: string)
    requires id in TableOf(site, units)
    ensures
      var c := TableOf(site, units)[id].candidate;
      c.elexonAssetId == id && Presents(site, units, c)
  {
    var r := TableOf(site, units)[id];
    TableMeans(site, units, id);
    var i: nat :| TableEntry(site, units, r, i, id);
    CandidateMeans(site, units[i]);
  }

  lemma FirstDecisionLists(site: Site, units: seq<Unit>)
    ensures ListsFitting(site, units, DecisionFor(site, TableOf(site, units)))
  {
    var table := TableOf(site, units);
    TablesAre(site, units);
    assert DecisionFor(site, table).candidates == Candidates(table);
    forall id | id in table ensures table[id].candidate.elexonAssetId == id
      && Presents(site, units, table[id].candidate) {
      CandidatesPresented(site, units, id);
    }
  }

  /** No unit fits; or some fit and the decision names no asset; or all that fit are of the asset it names. */
  ghost predicate Decided(site: Site, units: seq<Unit>, d: Decision, contested: bool) {
    && (d.disposition == Unlinked <==> forall u :: u in units ==> !Fits(site, u))
    && (d.disposition == Linked <==> !contested && exists id :: OnlyFits(site, units, id))
    && (d.selected.Some? <==> d.disposition == Linked)
    && (d.selected.Some? ==>
         OnlyFits(site, units, d.selected.value.elexonAssetId) && Presents(site, units, d.selected.value))
    && (d.reason == NoStrongCandidate <==> d.disposition == Unlinked)
    && (d.reason == UniqueStrongCandidate <==> d.disposition == Linked)
    && (d.reason == CrossSiteCollision <==> contested)
    && (d.how == NoMethod <==> d.disposition == Unlinked)
    && (d.how == ExactSiteIdentity <==> WholeNameFits(site, units))
  }

  /** Some fitting unit has the site's whole name, as its own or as its lead party's. */
  ghost predicate WholeNameFits(site: Site, units: seq<Unit>) {
    exists u :: u in units && Fits(site, u) && Grade(site.projectName.tokens, u) >= 3
  }

  lemma ExactMeans(site: Site, units: seq<Unit>)
    ensures WholeNameFits(site, units) <==>
      exists id :: id in TableOf(site, units) && TableOf(site, units)[id].rank.strength == 2
  {
    var table := TableOf(site, units);
    if u :| u in units && Fits(site, u) && Grade(site.projectName.tokens, u) >= 3 {
      StrengthOf(site, units, u);
    }
    if id :| id in table && table[id].rank.strength == 2 {
      TableMeans(site, units, id);
      var i: nat :| TableEntry(site, units, table[id], i, id);
      CandidateMeans(site, units[i]);
      assert units[i] in units;
    }
  }

  lemma StrengthOf(site: Site, units: seq<Unit>, u: Unit)
    requires u in units && Fits(site, u) && Grade(site.projectName.tokens, u) >= 3
    ensures u.assetId in TableOf(site, units) && TableOf(site, units)[u.assetId].rank.strength == 2
  {
    TableMeans(site, units, u.assetId);
    assert FitsAs(site, units, u.assetId);
    var i: nat :| TableEntry(site, units, TableOf(site, units)[u.assetId], i, u.assetId);
    var j :| 0 <= j < |units| && units[j] == u;
    CandidateMeans(site, units[i]);
  }

  lemma FirstDecided(site: Site, units: seq<Unit>)
    ensures Decided(site, units, DecisionFor(site, TableOf(site, units)), false)
  {
    var table := TableOf(site, units);
    TablesAre(site, units);
    FirstPass(site, units);
    ExactMeans(site, units);
    TableShape(site, units);
    if table == map[] {
      forall u | u in units ensures !Fits(site, u) {
        assert FitsAs(site, units, u.assetId) <==> u.assetId in table;
      }
    } else {
      var id :| id in table;
      var u :| u in units && u.assetId == id && Fits(site, u);
    }
    forall id ensures OnlyFits(site, units, id) <==> |table| == 1 && id in table {
      SoleMeans(site, units, id);
    }
    if |table| == 1 {
      var id :| id in table;
      OneKey(table, id);
      CandidatesPresented(site, units, id);
    }
  }

  /** Another site's only fitting asset is the same one. */
  ghost predicate ContestedAt(sites: seq<Site>, units: seq<Unit>, i: nat)
    requires i < |sites|
  {
    exists j, id :: 0 <= j < |sites| && j != i && OnlyFits(sites[i], units, id) && OnlyFits(sites[j], units, id)
  }

  lemma ResolvedDecided(sites: seq<Site>, units: seq<Unit>, i: nat)
    requires i < |sites|
    ensures Decided(sites[i], units, Resolved(FirstDecisions(sites, units), i), ContestedAt(sites, units, i))
    ensures Resolved(FirstDecisions(sites, units), i).candidates == FirstDecisions(sites, units)[i].candidates
  {
    var ds := FirstDecisions(sites, units);
    FirstDecided(sites[i], units);
    forall k, id | 0 <= k < |sites| ensures Selects(ds[k], id) <==> OnlyFits(sites[k], units, id) {
      FirstPass(sites[k], units);
      SoleMeans(sites[k], units, id);
    }
    SelectedIff(ds, i);
    if ds[i].selected.Some? {
      var id := ds[i].selected.value.elexonAssetId;
      assert Selects(ds[i], id);
      forall x | OnlyFits(sites[i], units, x) ensures x == id {}
    }
  }

  lemma KeepsRecord(sites: seq<Site>, units: seq<Unit>, i: nat)
    requires i < |sites|
    ensures Resolved(FirstDecisions(sites, units), i).recordId == sites[i].recordId
  {}

  /** What `LinkSites` answers for each site. */
  lemma DecisionsTell(sites: seq<Site>, units: seq<Unit>, i: nat)
    requires i < |sites|
    ensures
      var d := Resolved(FirstDecisions(sites, units), i);
      && d.recordId == sites[i].recordId
      && ListsFitting(sites[i], units, d)
      && Decided(sites[i], units, d, ContestedAt(sites, units, i))
  {
    KeepsRecord(sites, units, i);
    FirstDecisionLists(sites[i], units);
    ResolvedDecided(sites, units, i);
  }
}
