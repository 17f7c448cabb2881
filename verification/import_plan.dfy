/**
 What `createCatalogImportV2DryRun` computes: what an envelope would do to the tables, row by row, and whether it may
 be applied. The loops that compute it, with their comparisons of canonical JSON, are in `ImportDryRun`.
 */
module ImportPlan {
  import opened Text
  import opened Wrappers
  import opened Sorting
  import opened CatalogModel
  import opened ImportReading
  import opened TitleDuplicates

  datatype FindingField =
    | SourceIdField | CatalogIdField | TitleField | KindField | OwnerNoteField
    | DisplayField(display: DisplayName) | StatefulField(name: FieldName) | FactField(fact: FactName)
    | ContributorsField | CitationsField

  datatype Category = IdentityConflict | CriticalChange | OrdinaryChange | ErrorCategory | DuplicateCandidate
  datatype Level = LevelA | LevelB | LevelC
  datatype Blocker = IdentityBlocker | DuplicateBlocker | DeferredBlocker
  datatype Reason = AssociationConflict | SourceRebound | CatalogNotFound
  datatype Mutation = SetTo | Cleared

  datatype Finding = Finding(
    id: Str, importId: Str, sourceId: Str, catalogId: Option<Str>, category: Category, field: Option<FindingField>,
    level: Option<Level>, reason: Option<Reason>, blocker: Option<Blocker>, mutation: Option<Mutation>,
    approvable: bool, requiresApproval: bool)

  datatype Tally = Add | Update | NoChange | Conflict | ErrorRow

  /** What the dry run says of one row. */
  datatype Verdict = Verdict(findings: seq<Finding>, tally: Tally)

  datatype Counts = Counts(add: nat, update: nat, same: nat, conflict: nat, identity: nat, error: nat, duplicate: nat)

  datatype PlanBody = PlanBody(
    inputHash: Str, rowCount: nat, findings: seq<Finding>, counts: Counts, candidates: seq<Candidate>,
    blockers: seq<Blocker>, ready: bool)

  /** Why a dry run throws; the search for a member reference may also never return. */
  datatype PlanError = AliasSemanticsUndefined(importId: Str) | FindingIdsRepeat | ReferenceSearchDiverges

  datatype ApprovalState = NotRequested | Pending | Approved | Rejected
  datatype Approval = Approval(inputHash: Str, planHash: Str, state: ApprovalState, findingIds: seq<Str>)

  /** The state a change would replace. */
  datatype Existing =
    | OfText(text: Option<Str>) | OfKind(kind: Kind) | OfField(state: FieldState) | NoSource
    | OfContributors(contributors: seq<Contributor>) | OfCitations(citations: seq<SemanticCitation>)

  datatype Operation = Changes(mutation: Mutation) | MissingProvenance | Rebinding | NotFound | Duplication

  /** What the identity of a finding is a hash of; a change also binds the state it would replace. */
  datatype FindingKey = FindingKey(
    sourceId: Str, field: Option<FindingField>, operation: Operation, existing: Option<Existing>)

  /** The hashes of the importer: SHA-256 over a spelling or the canonical JSON of what each binds. */
  datatype Digests = Digests(
    titles: TitleHashes, finding: FindingKey -> Str, input: Envelope -> Str, plan: PlanBody -> Str,
    approval: Approval -> Str)

  // ---- Findings ----

  function Blocking(
    d: Digests, row: Row, sourceId: Str, field: FindingField, operation: Operation, category: Category,
    reason: Option<Reason>, blocker: Blocker): Finding
  {
    Finding(
      d.finding(FindingKey(sourceId, Some(field), operation, None)), row.importId, sourceId, row.catalogId, category,
      Some(field), None, reason, Some(blocker), None, false, false)
  }

  function Changing(
    d: Digests, row: Row, sourceId: Str, field: FindingField, mutation: Mutation, existing: Existing, level: Level,
    free: bool): Finding
  {
    Finding(
      d.finding(FindingKey(sourceId, Some(field), Changes(mutation), Some(existing))), row.importId, sourceId,
      row.catalogId, if free then OrdinaryChange else CriticalChange, Some(field), Some(level), None, None,
      Some(mutation), true, !free)
  }

  // ---- Changes to an existing entry ----

  function TitleFindings(d: Digests, row: Row, target: Entry): seq<Finding> {
    if row.content.title == target.title then []
    else [Changing(d, row, row.sourceId, TitleField, SetTo, OfText(Some(target.title)), LevelB, false)]
  }

  function KindFindings(d: Digests, row: Row, target: Entry): seq<Finding> {
    if row.content.kind == target.kind then []
    else [Changing(d, row, row.sourceId, KindField, SetTo, OfKind(target.kind), LevelA, false)]
  }

  /** An absent display field is not supplied and changes nothing. */
  function DisplayFinding(d: Digests, row: Row, target: Entry, name: DisplayName): seq<Finding> {
    var incoming, existing := row.content.Display(name), target.Display(name);
    if incoming.None? || incoming == existing then []
    else
      var level := if name.Summary? then LevelC else LevelB;
      [Changing(d, row, row.sourceId, DisplayField(name), SetTo, OfText(existing), level, level.LevelC?)]
  }

  function DisplayFindings(d: Digests, row: Row, target: Entry, names: seq<DisplayName>): seq<Finding> {
    if names == [] then []
    else DisplayFindings(d, row, target, names[..|names| - 1]) + DisplayFinding(d, row, target, names[|names| - 1])
  }

  function FieldLevel(name: FieldName): Level {
    if name.Description? || name.HistoricalContext? || name.ScholarlyResearch? then LevelC else LevelB
  }

  function StatefulFinding(d: Digests, row: Row, target: Entry, name: FieldName): seq<Finding>
    requires row.content.Valid() && target.Valid()
  {
    var incoming, existing := row.content.Field(name), target.Field(name);
    if incoming.Unsupplied? || incoming == existing then []
    else
      var level := FieldLevel(name);
      [Changing(
        d, row, row.sourceId, StatefulField(name), if incoming.Clear? then Cleared else SetTo, OfField(existing),
        level, level.LevelC? && !incoming.Clear?)]
  }

  function StatefulFindings(d: Digests, row: Row, target: Entry, names: seq<FieldName>): seq<Finding>
    requires row.content.Valid() && target.Valid()
  {
    if names == [] then []
    else StatefulFindings(d, row, target, names[..|names| - 1]) + StatefulFinding(d, row, target, names[|names| - 1])
  }

  function FactFinding(d: Digests, row: Row, item: Provenance, existing: Facts, name: FactName): seq<Finding> {
    if item.facts.Fact(name) == existing.Fact(name) then []
    else [Changing(d, row, item.sourceId, FactField(name), SetTo, OfText(existing.Fact(name)), LevelB, false)]
  }

  function FactFindings(d: Digests, row: Row, item: Provenance, existing: Facts, names: seq<FactName>): seq<Finding> {
    if names == [] then []
    else
      FactFindings(d, row, item, existing, names[..|names| - 1])
      + FactFinding(d, row, item, existing, names[|names| - 1])
  }

  /** A source the tables do not hold yet is reported as a whole, without a field. */
  function SourceFindings(d: Digests, sources: map<Str, SourceRow>, row: Row, item: Provenance): seq<Finding> {
    if item.sourceId in sources then FactFindings(d, row, item, sources[item.sourceId].facts, FACT_NAMES)
    else
      [Finding(
        d.finding(FindingKey(item.sourceId, None, Changes(SetTo), Some(NoSource))), row.importId, item.sourceId,
        row.catalogId, CriticalChange, None, Some(LevelB), None, None, Some(SetTo), true, true)]
  }

  function ProvenanceFindings(d: Digests, sources: map<Str, SourceRow>, row: Row, items: seq<Provenance>)
    : seq<Finding>
  {
    if items == [] then []
    else
      ProvenanceFindings(d, sources, row, items[..|items| - 1]) + SourceFindings(d, sources, row, items[|items| - 1])
  }

  function CollectionFindings(
    d: Digests, row: Row, field: FindingField, action: Action, changed: bool, existing: Existing): seq<Finding>
  {
    if action.Preserve? || !changed then []
    else [Changing(d, row, row.sourceId, field, if action.ClearAll? then Cleared else SetTo, existing, LevelB, false)]
  }

  function ContributorFindings(d: Digests, t: Tables, e: Envelope, row: Row, id: Str): seq<Finding> {
    var incoming, existing := ContributorsForImport(e, row.importId), ExistingContributors(t, id);
    var changed :=
      if row.contributorsAction.ClearAll? then |existing| > 0
      else incoming != existing;
    CollectionFindings(d, row, ContributorsField, row.contributorsAction, changed, OfContributors(existing))
  }

  function CitationFindings(d: Digests, t: Tables, e: Envelope, row: Row, id: Str): seq<Finding> {
    var incoming, existing := CitationsForImport(e, row.importId), ExistingCitations(t, id);
    var changed :=
      if row.citationsAction.ClearAll? then |existing| > 0
      else incoming != existing;
    CollectionFindings(d, row, CitationsField, row.citationsAction, changed, OfCitations(existing))
  }

  /** Every change a row would make to the entry it targets. */
  function ChangeFindings(d: Digests, t: Tables, e: Envelope, row: Row, id: Str): seq<Finding>
    requires id in t.entries && row.content.Valid() && t.entries[id].Valid()
  {
    var target := t.entries[id];
    TitleFindings(d, row, target) + KindFindings(d, row, target) + DisplayFindings(d, row, target, DISPLAY_NAMES)
    + StatefulFindings(d, row, target, FIELD_NAMES)
    + ProvenanceFindings(d, t.sources, row, ProvenanceOf(e.provenance, row.importId))
    + ContributorFindings(d, t, e, row, id) + CitationFindings(d, t, e, row, id)
  }

  // ---- One row ----

  /** The row lists its own source among its provenance. */
  predicate HasPrimary(items: seq<Provenance>, sourceId: Str) {
    exists i :: 0 <= i < |items| && items[i].sourceId == sourceId
  }

  predicate IsRebound(sources: map<Str, SourceRow>, item: Provenance, target: Option<Str>) {
    item.sourceId in sources && target != Some(sources[item.sourceId].catalogId)
  }

  function FirstRebound(sources: map<Str, SourceRow>, items: seq<Provenance>, target: Option<Str>)
    : (r: Option<Provenance>)
    ensures r.None? <==> forall item :: item in items ==> !IsRebound(sources, item, target)
    ensures r.Some? ==> r.value in items && IsRebound(sources, r.value, target)
  {
    if items == [] then None
    else if IsRebound(sources, items[0], target) then Some(items[0])
    else
      assert items == [items[0]] + items[1..];
      FirstRebound(sources, items[1..], target)
  }

  /** `assertDefinedAliasUpdate`: an update must repeat the aliases the entry has, in any order. */
  predicate AliasesRepeated(t: Tables, e: Envelope, row: Row, id: Str) {
    multiset(AliasesOf(e.aliases, row.importId)) == multiset(Children(t.aliases, id))
  }

  /** The rows that the title analysis considers: those with neither an identity conflict nor an owner note. */
  predicate IsEligible(t: Tables, e: Envelope, row: Row) {
    var items := ProvenanceOf(e.provenance, row.importId);
    && HasPrimary(items, row.sourceId)
    && FirstRebound(t.sources, items, row.catalogId).None?
    && (row.catalogId.Some? ==> row.catalogId.value in t.entries)
    && row.ownerNote.None?
  }

  function Eligible(t: Tables, e: Envelope, rows: seq<Row>): (r: seq<Row>)
    ensures forall row :: row in r <==> row in rows && IsEligible(t, e, row)
  {
    if rows == [] then []
    else Eligible(t, e, rows[..|rows| - 1]) + (if IsEligible(t, e, rows[|rows| - 1]) then [rows[|rows| - 1]] else [])
  }

  function DuplicateFindings(d: Digests, row: Row, flagged: set<Str>): seq<Finding> {
    if row.importId in flagged then
      [Blocking(d, row, row.sourceId, TitleField, Duplication, Category.DuplicateCandidate, None, DuplicateBlocker)]
    else []
  }

  function OwnerNoteFinding(d: Digests, row: Row): Finding {
    Finding(
      d.finding(FindingKey(row.sourceId, Some(OwnerNoteField), Changes(SetTo), None)), row.importId, row.sourceId,
      row.catalogId, ErrorCategory, Some(OwnerNoteField), Some(LevelC), None, Some(DeferredBlocker), Some(SetTo), false,
      false)
  }

  ghost predicate ValidFor(t: Tables, row: Row) {
    row.content.Valid() && (row.catalogId.Some? && row.catalogId.value in t.entries ==>
      t.entries[row.catalogId.value].Valid())
  }

  /** The verdict on one row, or the exception its aliases raise. */
  function Classify(t: Tables, e: Envelope, flagged: set<Str>, d: Digests, row: Row): Result<Verdict, PlanError>
    requires ValidFor(t, row)
  {
    var items := ProvenanceOf(e.provenance, row.importId);
    var rebound := FirstRebound(t.sources, items, row.catalogId);
    if !HasPrimary(items, row.sourceId) then
      Ok(Verdict(
        [Blocking(
          d, row.(catalogId := None), row.sourceId, SourceIdField, MissingProvenance, IdentityConflict,
          Some(AssociationConflict), IdentityBlocker)],
        Conflict))
    else if rebound.Some? then
      Ok(Verdict(
        [Blocking(
          d, row, rebound.value.sourceId, SourceIdField, Rebinding, IdentityConflict, Some(SourceRebound),
          IdentityBlocker)],
        Conflict))
    else if row.catalogId.Some? && row.catalogId.value !in t.entries then
      Ok(Verdict(
        [Blocking(
          d, row, row.sourceId, CatalogIdField, NotFound, IdentityConflict, Some(CatalogNotFound),
          IdentityBlocker)],
        Conflict))
    else if row.ownerNote.Some? then Ok(Verdict([OwnerNoteFinding(d, row)], ErrorRow))
    else if row.catalogId.Some? then
      if !AliasesRepeated(t, e, row, row.catalogId.value) then Err(AliasSemanticsUndefined(row.importId))
      else
        var changes := ChangeFindings(d, t, e, row, row.catalogId.value);
        Ok(Verdict(
          DuplicateFindings(d, row, flagged) + changes,
          if row.importId in flagged then Conflict else if changes == [] then NoChange else Update))
    else if row.importId in flagged then Ok(Verdict(DuplicateFindings(d, row, flagged), Conflict))
    else if row.sourceId in t.sources then Ok(Verdict([], NoChange))
    else Ok(Verdict([], Add))
  }

  // ---- The whole envelope ----

  function Verdicts(t: Tables, e: Envelope, flagged: set<Str>, d: Digests, rows: seq<Row>)
    : (r: Result<seq<Verdict>, PlanError>)
    requires forall row :: row in rows ==> ValidFor(t, row)
    ensures r.Ok? ==> |r.value| == |rows|
    ensures r.Ok? ==> forall i :: 0 <= i < |rows| ==> Classify(t, e, flagged, d, rows[i]) == Ok(r.value[i])
  {
    if rows == [] then Ok([])
    else
      match Verdicts(t, e, flagged, d, rows[..|rows| - 1])
      case Err(error) => Err(error)
      case Ok(verdicts) =>
        match Classify(t, e, flagged, d, rows[|rows| - 1])
        case Err(error) => Err(error)
        case Ok(verdict) => Ok(verdicts + [verdict])
  }

  function AllFindings(verdicts: seq<Verdict>): seq<Finding> {
    if verdicts == [] then []
    else AllFindings(verdicts[..|verdicts| - 1]) + verdicts[|verdicts| - 1].findings
  }

  function Count(verdicts: seq<Verdict>, tally: Tally): nat {
    if verdicts == [] then 0
    else Count(verdicts[..|verdicts| - 1], tally) + (if verdicts[|verdicts| - 1].tally == tally then 1 else 0)
  }

  function CountIdentity(findings: seq<Finding>): nat {
    if findings == [] then 0
    else
      CountIdentity(findings[..|findings| - 1]) + (if findings[|findings| - 1].category.IdentityConflict? then 1 else 0)
  }

  predicate HasBlocker(findings: seq<Finding>, blocker: Blocker) {
    exists i :: 0 <= i < |findings| && findings[i].blocker == Some(blocker)
  }

  function Blockers(findings: seq<Finding>, candidates: seq<Candidate>): seq<Blocker> {
    (if HasBlocker(findings, IdentityBlocker) then [IdentityBlocker] else [])
    + (if candidates != [] then [DuplicateBlocker] else [])
    + (if HasBlocker(findings, DeferredBlocker) then [DeferredBlocker] else [])
  }

  function Assemble(d: Digests, e: Envelope, candidates: seq<Candidate>, verdicts: seq<Verdict>): PlanBody {
    var findings := AllFindings(verdicts);
    var blockers := Blockers(findings, candidates);
    PlanBody(
      d.input(e), |e.rows|, findings,
      Counts(
        Count(verdicts, Add), Count(verdicts, Update), Count(verdicts, NoChange), Count(verdicts, Conflict),
        CountIdentity(findings), Count(verdicts, ErrorRow), |candidates|),
      candidates, blockers, blockers == [])
  }

  function FindingIds(findings: seq<Finding>): (ids: seq<Str>)
    ensures |ids| == |findings| && forall i :: 0 <= i < |ids| ==> ids[i] == findings[i].id
  {
    seq(|findings|, i requires 0 <= i < |findings| => findings[i].id)
  }

  ghost predicate Plannable(t: Tables, e: Envelope) {
    forall row :: row in e.rows ==> ValidFor(t, row)
  }

  /** The dry run, given the order in which the database answers the title query. */
  ghost function Plan(t: Tables, matches: seq<Match>, e: Envelope, d: Digests): Result<PlanBody, PlanError>
    requires Plannable(t, e)
  {
    match Analyze(Eligible(t, e, e.rows), matches, ImportIds(e.rows), d.titles)
    case None => Err(ReferenceSearchDiverges)
    case Some(analysis) =>
      match Verdicts(t, e, analysis.flagged, d, e.rows)
      case Err(error) => Err(error)
      case Ok(verdicts) =>
        var body := Assemble(d, e, analysis.candidates, verdicts);
        if Distinct(FindingIds(body.findings)) then Ok(body) else Err(FindingIdsRepeat)
  }

  /** The title query answers with every entry that has one of the titles asked for, once, in some order. */
  ghost predicate AnswersTitles(t: Tables, rows: seq<Row>, matches: seq<Match>) {
    && Distinct(matches)
    && forall title, id :: Match(title, id) in matches <==>
         id in t.entries && t.entries[id].title == title && title in Titles(rows)
  }
}
