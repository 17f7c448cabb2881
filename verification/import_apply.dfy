/**
 `applyCatalogImport`: the checks before the tables are touched, and the statements that touch them, each as a function
 of the tables it runs against. A violated key or a thrown error yields no tables: the transaction rolls back.
 */
module ImportApply {
  import opened Text
  import opened Wrappers
  import opened Sorting
  import opened CatalogModel
  import opened ImportReading
  import opened TitleDuplicates
  import opened ImportPlan

  datatype Purpose = ValidationOnly | PersistentPilot | ProductionImport

  datatype Authorization = Authorization(
    runtime: Runtime, purpose: Purpose, nonProduction: bool, disposableDatabase: bool, publicationApproval: bool,
    reusableForProduction: bool, ownerReference: Str, approval: Approval)

  datatype Request = Request(
    operationId: Str, envelope: Envelope, plan: PlanBody, planHash: Str, authorization: Authorization,
    allocate: Option<Str -> Str>)

  datatype ApplyError =
    | PilotNotAuthorized | PlanHashInvalid | ApprovalUnbound | PilotScopeReused | OperationReused | OperationIncomplete
    | DryRunFails(error: PlanError) | PlanMoved | NotApplyReady | NotAuthorized | FindingsNotApproved | NoAllocator
    | RowFails

  // ---- Checks ----

  predicate IsSha(s: Str) {
    |s| == 64 && forall i :: 0 <= i < |s| ==> 48 <= s[i] <= 57 || 97 <= s[i] <= 102
  }

  /** `assertPilotAuthorization`. */
  predicate PilotAuthorized(a: Authorization) {
    a.runtime.Pilot? ==>
      && a.purpose.PersistentPilot? && a.nonProduction && !a.publicationApproval
      && Trim(a.ownerReference) != [] && IsSha(a.runtime.targetScope)
  }

  /** The runtime part of `assertAuthorization`. */
  predicate RuntimeAuthorized(a: Authorization, body: PlanBody) {
    match a.runtime
    case Validation =>
      && a.purpose.ValidationOnly? && a.nonProduction && a.disposableDatabase && !a.publicationApproval
      && !a.reusableForProduction && body.findings == []
    case Production => a.purpose.ProductionImport?
    case Pilot(_) => true
  }

  /** Only approvable findings of the plan are approved, and every finding that needs approval is. */
  predicate FindingsApproved(approval: Approval, body: PlanBody) {
    && (forall i :: 0 <= i < |approval.findingIds| ==>
          exists j :: 0 <= j < |body.findings|
            && body.findings[j].id == approval.findingIds[i] && body.findings[j].approvable)
    && forall j :: 0 <= j < |body.findings| && body.findings[j].requiresApproval ==>
         body.findings[j].id in approval.findingIds
  }

  /** `loadExistingResult`: nothing when the operation is new. */
  function LoadExisting(
    operations: map<Str, ImportOperation>, operationId: Str, inputHash: Str, planHash: Str, approvalHash: Str,
    runtime: Runtime): Option<Result<Application, ApplyError>>
  {
    if operationId !in operations then None
    else
      var existing := operations[operationId];
      if runtime.Pilot? && existing.runtime != runtime then Some(Err(PilotScopeReused))
      else if existing.inputHash != inputHash || existing.planHash != planHash
        || existing.approvalHash != approvalHash
      then
        Some(Err(OperationReused))
      else if existing.result.None? then Some(Err(OperationIncomplete))
      else Some(Ok(existing.result.value))
  }

  // ---- Statements ----

  /** The two keys of the contributor table: the position, and the name with the role. */
  predicate Collides(a: Contributor, b: Contributor) {
    a.position == b.position || (a.name == b.name && a.role == b.role)
  }

  /** Inserts a contributor in position order; its position and its name with its role must be new. */
  function InsertContributor(list: seq<Contributor>, c: Contributor): Option<seq<Contributor>> {
    if exists i :: 0 <= i < |list| && Collides(list[i], c) then None
    else Some(Insert(c, list, ContributorLe))
  }

  function InsertContributors(list: seq<Contributor>, incoming: seq<Contributor>): Option<seq<Contributor>> {
    if incoming == [] then Some(list)
    else
      match InsertContributors(list, incoming[..|incoming| - 1])
      case None => None
      case Some(list') => InsertContributor(list', incoming[|incoming| - 1])
  }

  predicate CitationLe(a: Citation, b: Citation) { a.position <= b.position }

  function InsertCitation(list: seq<Citation>, c: Citation): Option<seq<Citation>> {
    if exists i :: 0 <= i < |list| && list[i].position == c.position then None else Some(Insert(c, list, CitationLe))
  }

  function InsertScopes(table: set<(Str, nat, Scope)>, id: Str, position: nat, scopes: seq<Scope>)
    : Option<set<(Str, nat, Scope)>>
  {
    if scopes == [] then Some(table)
    else
      match InsertScopes(table, id, position, scopes[..|scopes| - 1])
      case None => None
      case Some(table') =>
        var row := (id, position, scopes[|scopes| - 1]);
        if row in table' then None else Some(table' + {row})
  }

  /** Inserts the citations of one import, in position order, each followed by its scopes. */
  function InsertCitations(list: seq<Citation>, table: set<(Str, nat, Scope)>, id: Str, incoming: seq<CitationRow>)
    : Option<(seq<Citation>, set<(Str, nat, Scope)>)>
  {
    if incoming == [] then Some((list, table))
    else
      match InsertCitations(list, table, id, incoming[..|incoming| - 1])
      case None => None
      case Some((list', table')) =>
        var c := incoming[|incoming| - 1];
        match InsertCitation(list', c.citation)
        case None => None
        case Some(list'') =>
          match InsertScopes(table', id, c.citation.position, c.appliesTo.GetOr([]))
          case None => None
          case Some(table'') => Some((list'', table''))
  }

  function SortedCitationRows(e: Envelope, importId: Str): seq<CitationRow> {
    Sort(CitationsOf(e.citations, importId), CitationRowLe)
  }

  /** Refills the contributors of an entry, starting from the list left after any deletion. */
  function ReplaceContributors(t: Tables, e: Envelope, row: Row, id: Str, list: seq<Contributor>): (r: Option<Tables>)
    ensures r.Some? ==> id in r.value.contributors
    ensures r.Some? ==> r.value == t.(contributors := t.contributors[id := r.value.contributors[id]])
  {
    var incoming := if row.contributorsAction.Replace? then ContributorsForImport(e, row.importId) else [];
    match InsertContributors(list, incoming)
    case None => None
    case Some(list') => Some(t.(contributors := t.contributors[id := list']))
  }

  /** Refills the citations of an entry and their scopes, starting from what any deletion left. */
  function ReplaceCitations(
    t: Tables, e: Envelope, row: Row, id: Str, list: seq<Citation>, table: set<(Str, nat, Scope)>)
    : (r: Option<Tables>)
    ensures r.Some? ==> id in r.value.citations
    ensures r.Some? ==> r.value == t.(citations := t.citations[id := r.value.citations[id]], scopes := r.value.scopes)
  {
    var incoming := if row.citationsAction.Replace? then SortedCitationRows(e, row.importId) else [];
    match InsertCitations(list, table, id, incoming)
    case None => None
    case Some((list', table')) => Some(t.(citations := t.citations[id := list'], scopes := table'))
  }

  /** The statements of a create: the entry, its aliases, its contributors, its citations. */
  function CreateEntry(t: Tables, e: Envelope, row: Row, id: Str): (r: Option<Tables>)
    ensures r.Some? ==> id !in t.entries && r.value.entries == t.entries[id := row.content]
    ensures r.Some? ==> r.value.sources == t.sources && r.value.operations == t.operations && r.value.items == t.items
  {
    var aliases := AliasesOf(e.aliases, row.importId);
    if id in t.entries || (aliases != [] && Children(t.aliases, id) != []) then None
    else
      var t1 := t.(
        entries := t.entries[id := row.content], aliases := t.aliases[id := Children(t.aliases, id) + aliases]);
      match ReplaceContributors(t1, e, row, id, Children(t1.contributors, id))
      case None => None
      case Some(t2) => ReplaceCitations(t2, e, row, id, Children(t2.citations, id), t2.scopes)
  }

  predicate HasField(findings: seq<Finding>, field: FindingField) {
    exists i :: 0 <= i < |findings| && findings[i].field == Some(field)
  }

  /** The assignments of the UPDATE statement: exactly the columns that have a finding. */
  function SetColumns(entry: Entry, row: Row, findings: seq<Finding>): (r: Entry)
    requires entry.Valid() && row.content.Valid()
    ensures r.Valid()
  {
    Entry(
      if HasField(findings, KindField) then row.content.kind else entry.kind,
      if HasField(findings, TitleField) then row.content.title else entry.title,
      if HasField(findings, DisplayField(Summary)) then row.content.summary else entry.summary,
      if HasField(findings, DisplayField(PeriodLabel)) then row.content.periodLabel else entry.periodLabel,
      map f | f in entry.fields ::
        if HasField(findings, StatefulField(f)) then row.content.fields[f] else entry.fields[f])
  }

  /** A display field with a finding must have a value to assign. */
  predicate DisplaySupplied(row: Row, findings: seq<Finding>) {
    forall i :: 0 <= i < |DISPLAY_NAMES| ==>
      HasField(findings, DisplayField(DISPLAY_NAMES[i])) ==> row.content.Display(DISPLAY_NAMES[i]).Some?
  }

  /** The collection statements of an update: a collection with a finding is deleted and, on REPLACE, refilled. */
  function UpdateCollections(t: Tables, e: Envelope, row: Row, id: Str, findings: seq<Finding>): (r: Option<Tables>)
    ensures r.Some? ==>
      r.value == t.(contributors := r.value.contributors, citations := r.value.citations, scopes := r.value.scopes)
  {
    var contributed :=
      if HasField(findings, ContributorsField) then ReplaceContributors(t, e, row, id, []) else Some(t);
    match contributed
    case None => None
    case Some(t') =>
      if HasField(findings, CitationsField) then
        ReplaceCitations(t', e, row, id, [], set s | s in t'.scopes && s.0 != id)
      else Some(t')
  }

  /** The statements of an update, driven by the findings of its row. */
  function UpdateEntry(t: Tables, e: Envelope, row: Row, id: Str, findings: seq<Finding>): (r: Option<Tables>)
    requires row.content.Valid() && (id in t.entries ==> t.entries[id].Valid())
    ensures r.Some? ==> id in t.entries
    ensures r.Some? ==>
      r.value.entries
      == (if findings == [] then t.entries else t.entries[id := SetColumns(t.entries[id], row, findings)])
    ensures r.Some? ==> r.value.sources == t.sources && r.value.operations == t.operations && r.value.items == t.items
    ensures r.Some? ==> r.value.aliases == t.aliases
  {
    if id !in t.entries then None
    else if findings == [] then Some(t)
    else if !DisplaySupplied(row, findings) then None
    else
      var columns := t.(entries := t.entries[id := SetColumns(t.entries[id], row, findings)]);
      UpdateCollections(columns, e, row, id, findings)
  }

  /** `insertProvenance`: an upsert that leaves a source bound to another entry alone. */
  function Upsert(sources: map<Str, SourceRow>, id: Str, item: Provenance): map<Str, SourceRow> {
    if item.sourceId in sources && sources[item.sourceId].catalogId != id then sources
    else sources[item.sourceId := SourceRow(id, item.facts)]
  }

  function Upserts(sources: map<Str, SourceRow>, id: Str, items: seq<Provenance>): map<Str, SourceRow> {
    if items == [] then sources
    else Upsert(Upserts(sources, id, items[..|items| - 1]), id, items[|items| - 1])
  }

  predicate ItemClashes(items: map<(Str, Str), Item>, operationId: Str, row: Row, id: Str) {
    || (operationId, row.importId) in items
    || exists k :: k in items && k.0 == operationId && (items[k].sourceId == row.sourceId || items[k].catalogId == id)
  }

  function FindingsOf(findings: seq<Finding>, importId: Str): (r: seq<Finding>)
    ensures forall f :: f in r <==> f in findings && f.importId == importId
  {
    if findings == [] then []
    else
      FindingsOf(findings[..|findings| - 1], importId)
      + (if findings[|findings| - 1].importId == importId then [findings[|findings| - 1]] else [])
  }

  function CatalogIdOf(row: Row, allocate: Str -> Str): Str {
    if row.catalogId.Some? then row.catalogId.value else allocate(row.importId)
  }

  function OutcomeOf(row: Row, findings: seq<Finding>): ItemResult {
    if row.catalogId.None? then Created else if findings != [] then Updated else Unchanged
  }

  /** Everything one catalog row does to the tables. */
  function ApplyRow(
    t: Tables, e: Envelope, planned: seq<Finding>, operationId: Str, allocate: Str -> Str, row: Row): Option<Tables>
    requires ValidFor(t, row)
  {
    var id := CatalogIdOf(row, allocate);
    var findings := FindingsOf(planned, row.importId);
    var written := if row.catalogId.None? then CreateEntry(t, e, row, id) else UpdateEntry(t, e, row, id, findings);
    match written
    case None => None
    case Some(t1) =>
      var items := ProvenanceOf(e.provenance, row.importId);
      if !HasPrimary(items, row.sourceId) || ItemClashes(t1.items, operationId, row, id) then None
      else
        Some(t1.(
          sources := Upserts(t1.sources, id, items),
          items := t1.items[(operationId, row.importId) := Item(row.sourceId, id, OutcomeOf(row, findings))]))
  }

  ghost predicate Applicable(t: Tables, rows: seq<Row>) {
    && (forall id :: id in t.entries ==> t.entries[id].Valid())
    && forall row :: row in rows ==> row.content.Valid()
  }

  lemma ApplyRowKeepsApplicable(
    t: Tables, e: Envelope, planned: seq<Finding>, operationId: Str, allocate: Str -> Str, row: Row)
    requires ValidFor(t, row) && forall id :: id in t.entries ==> t.entries[id].Valid()
    ensures var r := ApplyRow(t, e, planned, operationId, allocate, row);
      r.Some? ==> forall id :: id in r.value.entries ==> r.value.entries[id].Valid()
  {
  }

  function ApplyRows(
    t: Tables, e: Envelope, planned: seq<Finding>, operationId: Str, allocate: Str -> Str, rows: seq<Row>)
    : (r: Option<Tables>)
    requires Applicable(t, rows)
    ensures r.Some? ==> Applicable(r.value, rows)
    decreases |rows|
  {
    if rows == [] then Some(t)
    else
      match ApplyRows(t, e, planned, operationId, allocate, rows[..|rows| - 1])
      case None => None
      case Some(t') =>
        ApplyRowKeepsApplicable(t', e, planned, operationId, allocate, rows[|rows| - 1]);
        ApplyRow(t', e, planned, operationId, allocate, rows[|rows| - 1])
  }

  function CountOutcome(rows: seq<Row>, planned: seq<Finding>, outcome: ItemResult): nat {
    if rows == [] then 0
    else
      var last := rows[|rows| - 1];
      CountOutcome(rows[..|rows| - 1], planned, outcome)
      + (if OutcomeOf(last, FindingsOf(planned, last.importId)) == outcome then 1 else 0)
  }

  function Mappings(rows: seq<Row>, allocate: Str -> Str): (r: seq<Mapping>)
    ensures |r| == |rows|
    ensures forall i :: 0 <= i < |r| ==>
      r[i] == Mapping(rows[i].importId, rows[i].sourceId, CatalogIdOf(rows[i], allocate))
  {
    seq(|rows|, i requires 0 <= i < |rows| =>
      Mapping(rows[i].importId, rows[i].sourceId, CatalogIdOf(rows[i], allocate)))
  }

  function Allocation(allocate: Option<Str -> Str>): Str -> Str {
    if allocate.Some? then allocate.value else (importId: Str) => importId
  }

  // ---- The transaction ----

  datatype Outcome = Outcome(tables: Tables, application: Application, replayed: bool)

  /** What the recomputed plan is refused for. */
  function Refusal(r: Request, d: Digests, body: PlanBody): Option<ApplyError> {
    if d.plan(body) != r.planHash || body != r.plan then Some(PlanMoved)
    else if !body.ready then Some(NotApplyReady)
    else if r.authorization.approval.state != Approved || !RuntimeAuthorized(r.authorization, body) then
      Some(NotAuthorized)
    else if !FindingsApproved(r.authorization.approval, body) then Some(FindingsNotApproved)
    else if r.allocate.None? && exists row :: row in r.envelope.rows && row.catalogId.None? then Some(NoAllocator)
    else None
  }

  /** Everything checked before the first statement that writes, for an operation that is not a replay. */
  ghost function CheckRequest(t: Tables, matches: seq<Match>, r: Request, d: Digests): Option<ApplyError>
    requires Plannable(t, r.envelope)
  {
    match Plan(t, matches, r.envelope, d)
    case Err(error) => Some(DryRunFails(error))
    case Ok(body) => Refusal(r, d, body)
  }

  predicate SameHashes(a: ImportOperation, b: ImportOperation) {
    a.inputHash == b.inputHash && a.planHash == b.planHash && a.approvalHash == b.approvalHash
  }

  /** The row the operation starts with; its identity and its three hashes together must be new. */
  function StartOperation(t: Tables, operationId: Str, operation: ImportOperation): Option<Tables> {
    if operationId in t.operations || exists k :: k in t.operations && SameHashes(t.operations[k], operation) then None
    else Some(t.(operations := t.operations[operationId := operation]))
  }

  /** What decides an application before the tables are planned: a refusal, or the stored result of a replay. */
  function Gate(operations: map<Str, ImportOperation>, r: Request, d: Digests)
    : Option<Result<Application, ApplyError>>
  {
    var approval := r.authorization.approval;
    if !PilotAuthorized(r.authorization) then Some(Err(PilotNotAuthorized))
    else if d.plan(r.plan) != r.planHash then Some(Err(PlanHashInvalid))
    else if approval.inputHash != d.input(r.envelope) || approval.planHash != r.planHash then Some(Err(ApprovalUnbound))
    else
      LoadExisting(
        operations, r.operationId, d.input(r.envelope), r.planHash, d.approval(approval), r.authorization.runtime)
  }

  function StartedOperation(r: Request, d: Digests): ImportOperation {
    ImportOperation(
      d.input(r.envelope), r.planHash, d.approval(r.authorization.approval), r.authorization.runtime, None)
  }

  /** Every statement that writes, from the operation row that starts the application to its result. */
  function Commit(t: Tables, r: Request, d: Digests): Option<Tables>
    requires Applicable(t, r.envelope.rows)
  {
    match StartOperation(t, r.operationId, StartedOperation(r, d))
    case None => None
    case Some(started) =>
      match ApplyRows(
        started, r.envelope, r.plan.findings, r.operationId, Allocation(r.allocate), r.envelope.rows)
      case None => None
      case Some(applied) =>
        var finished := StartedOperation(r, d).(result := Some(ApplicationOf(r, d)));
        Some(applied.(operations := applied.operations[r.operationId := finished]))
  }

  ghost function Apply(t: Tables, matches: seq<Match>, r: Request, d: Digests): Result<Outcome, ApplyError>
    requires Plannable(t, r.envelope) && Applicable(t, r.envelope.rows)
  {
    match Gate(t.operations, r, d)
    case Some(Err(error)) => Err(error)
    case Some(Ok(stored)) => Ok(Outcome(t, stored, true))
    case None =>
      match CheckRequest(t, matches, r, d)
      case Some(error) => Err(error)
      case None =>
        match Commit(t, r, d)
        case None => Err(RowFails)
        case Some(committed) => Ok(Outcome(committed, ApplicationOf(r, d), false))
  }

  function ApplicationOf(r: Request, d: Digests): Application {
    var rows, findings := r.envelope.rows, r.plan.findings;
    Application(
      r.operationId, d.input(r.envelope), r.planHash, CountOutcome(rows, findings, Created),
      CountOutcome(rows, findings, Updated), CountOutcome(rows, findings, Unchanged),
      Mappings(rows, Allocation(r.allocate)))
  }
}
