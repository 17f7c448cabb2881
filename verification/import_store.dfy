/**
 `applyCatalogImport` as the statements it runs: each method updates the tables in place, and a violated key rolls the
 transaction back. Together they are the function `ImportApply.Apply` of the tables.
 */
module ImportStore {
  import opened Text
  import opened Wrappers
  import opened Sequences
  import opened CatalogModel
  import opened ImportReading
  import opened TitleDuplicates
  import opened ImportPlan
  import opened ImportApply
  import opened ImportRuns
  import opened ImportDryRun

  class CatalogStore {
    var entries: map<Str, Entry>
    var aliases: map<Str, seq<Alias>>
    var contributors: map<Str, seq<Contributor>>
    var citations: map<Str, seq<Citation>>
    var scopes: set<(Str, nat, Scope)>
    var sources: map<Str, SourceRow>
    var operations: map<Str, ImportOperation>
    var items: map<(Str, Str), Item>

    constructor ()
      ensures ValidTables(Snapshot())
    {
      entries, aliases, contributors, citations := map[], map[], map[], map[];
      scopes, sources, operations, items := {}, map[], map[], map[];
    }

    function Snapshot(): Tables
      reads this
    {
      Tables(entries, aliases, contributors, citations, scopes, sources, operations, items)
    }

    method Restore(t: Tables)
      modifies this
      ensures Snapshot() == t
    {
      entries, aliases, contributors, citations := t.entries, t.aliases, t.contributors, t.citations;
      scopes, sources, operations, items := t.scopes, t.sources, t.operations, t.items;
    }

    // ---- Collections ----

    /** The rows of one contributor list, inserted one by one. */
    method InsertContributorRows(id: Str, incoming: seq<Contributor>) returns (ok: bool)
      requires id in contributors
      modifies `contributors
      ensures ok <==> InsertContributors(old(contributors[id]), incoming).Some?
      ensures ok ==>
        contributors == old(contributors)[id := InsertContributors(old(contributors[id]), incoming).value]
    {
      ghost var list := contributors[id];
      assert contributors == contributors[id := list];
      for k := 0 to |incoming|
        invariant InsertContributors(list, incoming[..k]).Some?
        invariant id in contributors
        invariant contributors == old(contributors)[id := InsertContributors(list, incoming[..k]).value]
      {
        Taken(incoming, k);
        var inserted := InsertContributor(contributors[id], incoming[k]);
        if inserted.None? {
          ContributorsStop(list, incoming, k + 1);
          return false;
        }
        contributors := contributors[id := inserted.value];
      }
      All(incoming);
      return true;
    }

    method InsertScopeRows(id: Str, position: nat, applies: seq<Scope>) returns (ok: bool)
      modifies `scopes
      ensures ok <==> InsertScopes(old(scopes), id, position, applies).Some?
      ensures ok ==> InsertScopes(old(scopes), id, position, applies) == Some(scopes)
    {
      for k := 0 to |applies|
        invariant InsertScopes(old(scopes), id, position, applies[..k]) == Some(scopes)
      {
        Taken(applies, k);
        var row := (id, position, applies[k]);
        if row in scopes {
          ScopesStop(old(scopes), id, position, applies, k + 1);
          return false;
        }
        scopes := scopes + {row};
      }
      All(applies);
      return true;
    }

    /** The rows of one citation list, each followed by its scopes. */
    method InsertCitationRows(id: Str, incoming: seq<CitationRow>) returns (ok: bool)
      requires id in citations
      modifies `citations, `scopes
      ensures ok <==> InsertCitations(old(citations[id]), old(scopes), id, incoming).Some?
      ensures ok ==>
        var (list, table) := InsertCitations(old(citations[id]), old(scopes), id, incoming).value;
        citations == old(citations)[id := list] && scopes == table
    {
      ghost var list, table := citations[id], scopes;
      assert citations == citations[id := list];
      for k := 0 to |incoming|
        invariant id in citations
        invariant InsertCitations(list, table, id, incoming[..k]) == Some((citations[id], scopes))
        invariant citations == old(citations)[id := citations[id]]
      {
        Taken(incoming, k);
        var c := incoming[k];
        var inserted := InsertCitation(citations[id], c.citation);
        if inserted.None? {
          CitationsStop(list, table, id, incoming, k + 1);
          return false;
        }
        citations := citations[id := inserted.value];
        var scoped := InsertScopeRows(id, c.citation.position, c.appliesTo.GetOr([]));
        if !scoped {
          CitationsStop(list, table, id, incoming, k + 1);
          return false;
        }
      }
      All(incoming);
      return true;
    }

    /** Refills a contributor list that starts as given. */
    method RefillContributors(e: Envelope, row: Row, id: Str, list: seq<Contributor>) returns (ok: bool)
      modifies `contributors
      ensures ok <==> ReplaceContributors(old(Snapshot()), e, row, id, list).Some?
      ensures ok ==> ReplaceContributors(old(Snapshot()), e, row, id, list) == Some(Snapshot())
    {
      contributors := contributors[id := list];
      ok := InsertContributorRows(
        id, if row.contributorsAction.Replace? then ContributorsForImport(e, row.importId) else []);
      if ok { UpdatedTwice(old(contributors), id, list, contributors[id]); }
    }

    /** Refills a citation list and its scopes, which start as given. */
    method RefillCitations(e: Envelope, row: Row, id: Str, list: seq<Citation>, table: set<(Str, nat, Scope)>)
      returns (ok: bool)
      modifies `citations, `scopes
      ensures ok <==> ReplaceCitations(old(Snapshot()), e, row, id, list, table).Some?
      ensures ok ==> ReplaceCitations(old(Snapshot()), e, row, id, list, table) == Some(Snapshot())
    {
      citations, scopes := citations[id := list], table;
      ok := InsertCitationRows(id, if row.citationsAction.Replace? then SortedCitationRows(e, row.importId) else []);
      if ok { UpdatedTwice(old(citations), id, list, citations[id]); }
    }

    /** The statements that insert a new entry and its children. */
    method InsertEntry(e: Envelope, row: Row, id: Str) returns (ok: bool)
      modifies this
      ensures ok <==> CreateEntry(old(Snapshot()), e, row, id).Some?
      ensures ok ==> CreateEntry(old(Snapshot()), e, row, id) == Some(Snapshot())
    {
      if id in entries { return false; }
      entries := entries[id := row.content];
      var added := AliasesOf(e.aliases, row.importId);
      if added != [] && Children(aliases, id) != [] { return false; }
      aliases := aliases[id := Children(aliases, id) + added];
      ok := RefillContributors(e, row, id, Children(contributors, id));
      if !ok { return; }
      ok := RefillCitations(e, row, id, Children(citations, id), scopes);
    }

    /** The statements that replace the collections which have a finding. */
    method UpdateCollectionRows(e: Envelope, row: Row, id: Str, findings: seq<Finding>) returns (ok: bool)
      modifies `contributors, `citations, `scopes
      ensures ok <==> UpdateCollections(old(Snapshot()), e, row, id, findings).Some?
      ensures ok ==> UpdateCollections(old(Snapshot()), e, row, id, findings) == Some(Snapshot())
    {
      if HasField(findings, ContributorsField) {
        ok := RefillContributors(e, row, id, []);
        if !ok { return; }
      }
      ok := true;
      if HasField(findings, CitationsField) {
        ok := RefillCitations(e, row, id, [], set s | s in scopes && s.0 != id);
      }
    }

    method UpdateEntryRows(e: Envelope, row: Row, id: Str, findings: seq<Finding>) returns (ok: bool)
      requires row.content.Valid() && (id in entries ==> entries[id].Valid())
      modifies `entries, `contributors, `citations, `scopes
      ensures ok <==> UpdateEntry(old(Snapshot()), e, row, id, findings).Some?
      ensures ok ==> UpdateEntry(old(Snapshot()), e, row, id, findings) == Some(Snapshot())
    {
      if id !in entries { return false; }
      if findings == [] { return true; }
      var columns := AssignColumns(entries[id], row, findings);
      if columns.None? { return false; }
      entries := entries[id := columns.value];
      ok := UpdateCollectionRows(e, row, id, findings);
    }

    /** `insertProvenance` for each item of a row. */
    method UpsertSources(id: Str, provenance: seq<Provenance>)
      modifies `sources
      ensures sources == Upserts(old(sources), id, provenance)
    {
      for k := 0 to |provenance|
        invariant sources == Upserts(old(sources), id, provenance[..k])
      {
        Taken(provenance, k);
        var item := provenance[k];
        if item.sourceId !in sources || sources[item.sourceId].catalogId == id {
          sources := sources[item.sourceId := SourceRow(id, item.facts)];
        }
      }
      All(provenance);
    }

    /** Everything one catalog row does. */
    method ApplyOne(
      e: Envelope, planned: seq<Finding>, operationId: Str, allocate: Str -> Str, row: Row)
      returns (ok: bool, outcome: ItemResult)
      requires ValidFor(Snapshot(), row)
      modifies this
      ensures ok <==> ApplyRow(old(Snapshot()), e, planned, operationId, allocate, row).Some?
      ensures ok ==> ApplyRow(old(Snapshot()), e, planned, operationId, allocate, row) == Some(Snapshot())
      ensures outcome == OutcomeOf(row, FindingsOf(planned, row.importId))
    {
      var id := CatalogIdOf(row, allocate);
      var findings := FindingsOf(planned, row.importId);
      outcome := OutcomeOf(row, findings);
      if row.catalogId.None? {
        ok := InsertEntry(e, row, id);
      } else {
        ok := UpdateEntryRows(e, row, id, findings);
      }
      if !ok { return; }
      var provenance := ProvenanceOf(e.provenance, row.importId);
      if !HasPrimary(provenance, row.sourceId) || ItemClashes(items, operationId, row, id) {
        ok := false;
        return;
      }
      UpsertSources(id, provenance);
      items := items[(operationId, row.importId) := Item(row.sourceId, id, outcome)];
    }

    /** The loop over the catalog rows, with its counters and the identities it hands out. */
    method ApplyAll(e: Envelope, planned: seq<Finding>, operationId: Str, allocate: Str -> Str)
      returns (ok: bool, created: nat, updated: nat, same: nat, mappings: seq<Mapping>)
      requires Applicable(Snapshot(), e.rows)
      modifies this
      ensures ok <==> ApplyRows(old(Snapshot()), e, planned, operationId, allocate, e.rows).Some?
      ensures ok ==> ApplyRows(old(Snapshot()), e, planned, operationId, allocate, e.rows) == Some(Snapshot())
      ensures ok ==> mappings == Mappings(e.rows, allocate)
      ensures ok ==>
        && created == CountOutcome(e.rows, planned, Created) && updated == CountOutcome(e.rows, planned, Updated)
        && same == CountOutcome(e.rows, planned, Unchanged)
    {
      created, updated, same, mappings := 0, 0, 0, [];
      ghost var t := Snapshot();
      for k := 0 to |e.rows|
        invariant Applicable(t, e.rows[..k]) && Applicable(Snapshot(), e.rows)
        invariant ApplyRows(t, e, planned, operationId, allocate, e.rows[..k]) == Some(Snapshot())
        invariant mappings == Mappings(e.rows[..k], allocate)
        invariant created == CountOutcome(e.rows[..k], planned, Created)
        invariant updated == CountOutcome(e.rows[..k], planned, Updated)
        invariant same == CountOutcome(e.rows[..k], planned, Unchanged)
      {
        var row := e.rows[k];
        ghost var before := Snapshot();
        assert Applicable(t, e.rows[..k + 1]);
        RowsStep(t, e, planned, operationId, allocate, e.rows, k, before);
        var outcome;
        ok, outcome := ApplyOne(e, planned, operationId, allocate, row);
        if !ok {
          RowsStop(t, e, planned, operationId, allocate, e.rows, k + 1);
          return;
        }
        ApplyRowKeepsApplicable(before, e, planned, operationId, allocate, row);
        CountStep(e.rows, k, planned, Created);
        CountStep(e.rows, k, planned, Updated);
        CountStep(e.rows, k, planned, Unchanged);
        MappingStep(e.rows, k, allocate);
        match outcome {
          case Created => created := created + 1;
          case Updated => updated := updated + 1;
          case Unchanged => same := same + 1;
        }
        mappings := mappings + [Mapping(row.importId, row.sourceId, CatalogIdOf(row, allocate))];
      }
      All(e.rows);
      ok := true;
    }

    /**
     `applyCatalogImport`, inside its transaction, provided the search for member references ends. What the importer
     promises of applications is proved of `ImportApply.Apply`, which this computes; a refusal leaves every table alone.
     */
    method Apply(matches: seq<Match>, r: Request, d: Digests) returns (result: Result<Application, ApplyError>)
      requires ValidTables(Snapshot()) && ValidEnvelope(r.envelope)
      requires Plannable(Snapshot(), r.envelope) && Applicable(Snapshot(), r.envelope.rows)
      requires Analyze(
        Eligible(Snapshot(), r.envelope, r.envelope.rows), matches, ImportIds(r.envelope.rows), d.titles).Some?
      modifies this
      ensures match ImportApply.Apply(old(Snapshot()), matches, r, d)
        case Err(error) => result == Err(error) && Snapshot() == old(Snapshot())
        case Ok(o) => result == Ok(o.application) && Snapshot() == o.tables
      ensures ValidTables(Snapshot())
    {
      var gate := Gate(operations, r, d);
      if gate.Some? { return gate.value; }
      var planned := DryRun(Snapshot(), matches, r.envelope, d);
      var refusal := Check(r, d, planned);
      if refusal.Some? { return Err(refusal.value); }
      ghost var before := Snapshot();
      var saved := Snapshot();
      var committed, application := Write(r, d);
      if !committed {
        Restore(saved);
        return Err(RowFails);
      }
      ghost var o := Outcome(Snapshot(), application, false);
      assert ImportApply.Apply(before, matches, r, d) == Ok(o);
      ApplySettles(before, matches, r, d, o);
      return Ok(application);
    }

    /** Every statement that writes. */
    method Write(r: Request, d: Digests) returns (ok: bool, application: Application)
      requires Applicable(Snapshot(), r.envelope.rows)
      modifies this
      ensures ok <==> Commit(old(Snapshot()), r, d).Some?
      ensures ok ==> Commit(old(Snapshot()), r, d) == Some(Snapshot()) && application == ApplicationOf(r, d)
    {
      application := ApplicationOf(r, d);
      var started := StartedOperation(r, d);
      if r.operationId in operations || exists k :: k in operations && SameHashes(operations[k], started) {
        return false, application;
      }
      operations := operations[r.operationId := started];
      var created, updated, same, mappings;
      ok, created, updated, same, mappings :=
        ApplyAll(r.envelope, r.plan.findings, r.operationId, Allocation(r.allocate));
      if !ok { return; }
      application := Application(r.operationId, d.input(r.envelope), r.planHash, created, updated, same, mappings);
      operations := operations[r.operationId := started.(result := Some(application))];
    }
  }

  /** What is checked of the recomputed plan before anything is written. */
  method Check(r: Request, d: Digests, planned: Result<PlanBody, PlanError>) returns (refusal: Option<ApplyError>)
    ensures refusal == match planned
      case Err(error) => Some(DryRunFails(error))
      case Ok(body) => Refusal(r, d, body)
  {
    match planned
    case Err(error) => refusal := Some(DryRunFails(error));
    case Ok(body) => refusal := Refusal(r, d, body);
  }

  /** The assignments of the UPDATE statement, collected column by column. */
  method AssignColumns(entry: Entry, row: Row, findings: seq<Finding>) returns (columns: Option<Entry>)
    requires entry.Valid() && row.content.Valid()
    ensures columns ==
      if DisplaySupplied(row, findings) then Some(SetColumns(entry, row, findings)) else None
  {
    var current := entry;
    if HasField(findings, KindField) { current := current.(kind := row.content.kind); }
    if HasField(findings, TitleField) { current := current.(title := row.content.title); }
    columns := AssignDisplay(current, row, findings);
    if columns.None? { return; }
    var fields := AssignFields(entry.fields, row, findings);
    return Some(columns.value.(fields := fields));
  }

  method AssignDisplay(entry: Entry, row: Row, findings: seq<Finding>) returns (columns: Option<Entry>)
    ensures columns.Some? <==> DisplaySupplied(row, findings)
    ensures columns.Some? ==> columns.value == entry.(
      summary := if HasField(findings, DisplayField(Summary)) then row.content.summary else entry.summary,
      periodLabel :=
        if HasField(findings, DisplayField(PeriodLabel)) then row.content.periodLabel else entry.periodLabel)
  {
    var current := entry;
    for k := 0 to |DISPLAY_NAMES|
      invariant forall j :: 0 <= j < k && HasField(findings, DisplayField(DISPLAY_NAMES[j])) ==>
        row.content.Display(DISPLAY_NAMES[j]).Some?
      invariant current == entry.(
        summary := if k > 0 && HasField(findings, DisplayField(Summary)) then row.content.summary else entry.summary,
        periodLabel :=
          if k > 1 && HasField(findings, DisplayField(PeriodLabel)) then row.content.periodLabel else entry.periodLabel)
    {
      var name := DISPLAY_NAMES[k];
      if HasField(findings, DisplayField(name)) {
        if row.content.Display(name).None? { return None; }
        current := current.WithDisplay(name, row.content.Display(name));
      }
    }
    return Some(current);
  }

  ghost predicate FieldsAssigned(
    was: map<FieldName, FieldState>, now: map<FieldName, FieldState>, row: Row, findings: seq<Finding>,
    names: seq<FieldName>)
    requires Total(was) && Total(now) && row.content.Valid()
  {
    forall f :: now[f] ==
      if f in names && HasField(findings, StatefulField(f)) then row.content.fields[f] else was[f]
  }

  method AssignFields(was: map<FieldName, FieldState>, row: Row, findings: seq<Finding>)
    returns (fields: map<FieldName, FieldState>)
    requires Total(was) && row.content.Valid()
    ensures fields ==
      map f | f in was :: if HasField(findings, StatefulField(f)) then row.content.fields[f] else was[f]
  {
    fields := was;
    for k := 0 to |FIELD_NAMES|
      invariant Total(fields) && FieldsAssigned(was, fields, row, findings, FIELD_NAMES[..k])
    {
      var name := FIELD_NAMES[k];
      FieldAssigned(was, fields, row, findings, k);
      if HasField(findings, StatefulField(name)) { fields := fields[name := row.content.fields[name]]; }
    }
    EveryAssigned(was, fields, row, findings);
  }

  lemma FieldAssigned(
    was: map<FieldName, FieldState>, now: map<FieldName, FieldState>, row: Row, findings: seq<Finding>, k: nat)
    requires Total(was) && Total(now) && row.content.Valid() && k < |FIELD_NAMES|
    requires FieldsAssigned(was, now, row, findings, FIELD_NAMES[..k])
    ensures var name := FIELD_NAMES[k];
      FieldsAssigned(
        was, if HasField(findings, StatefulField(name)) then now[name := row.content.fields[name]] else now, row,
        findings, FIELD_NAMES[..k + 1])
  {
    OneMore(FIELD_NAMES, k);
  }

  lemma EveryAssigned(
    was: map<FieldName, FieldState>, now: map<FieldName, FieldState>, row: Row, findings: seq<Finding>)
    requires Total(was) && Total(now) && row.content.Valid()
    requires FieldsAssigned(was, now, row, findings, FIELD_NAMES[..|FIELD_NAMES|])
    ensures now == map f | f in was :: if HasField(findings, StatefulField(f)) then row.content.fields[f] else was[f]
  {
    All(FIELD_NAMES);
    forall f: FieldName ensures f in FIELD_NAMES { EveryFieldIsNamed(f); }
  }

  lemma OneMore<T>(s: seq<T>, k: nat)
    requires k < |s|
    ensures forall x :: x in s[..k + 1] <==> x in s[..k] || x == s[k]
  {
    assert s[..k + 1] == s[..k] + [s[k]];
  }

  lemma UpdatedTwice<K, V>(m: map<K, V>, k: K, a: V, b: V)
    ensures m[k := a][k := b] == m[k := b]
  {
  }

  lemma RowsStep(
    t: Tables, e: Envelope, planned: seq<Finding>, operationId: Str, allocate: Str -> Str, rows: seq<Row>, k: nat,
    before: Tables)
    requires k < |rows| && Applicable(t, rows) && Applicable(t, rows[..k]) && Applicable(t, rows[..k + 1])
    requires Applicable(before, rows) && ApplyRows(t, e, planned, operationId, allocate, rows[..k]) == Some(before)
    ensures ApplyRows(t, e, planned, operationId, allocate, rows[..k + 1])
      == ApplyRow(before, e, planned, operationId, allocate, rows[k])
  {
    Taken(rows, k);
  }

  lemma CountStep(rows: seq<Row>, k: nat, planned: seq<Finding>, outcome: ItemResult)
    requires k < |rows|
    ensures CountOutcome(rows[..k + 1], planned, outcome) == CountOutcome(rows[..k], planned, outcome)
      + (if OutcomeOf(rows[k], FindingsOf(planned, rows[k].importId)) == outcome then 1 else 0)
  {
    Taken(rows, k);
  }

  lemma MappingStep(rows: seq<Row>, k: nat, allocate: Str -> Str)
    requires k < |rows|
    ensures Mappings(rows[..k + 1], allocate) == Mappings(rows[..k], allocate)
      + [Mapping(rows[k].importId, rows[k].sourceId, CatalogIdOf(rows[k], allocate))]
  {
  }

  lemma {:induction false} RowsStop(
    t: Tables, e: Envelope, planned: seq<Finding>, operationId: Str, allocate: Str -> Str, rows: seq<Row>, k: nat)
    requires Applicable(t, rows) && k <= |rows| && Applicable(t, rows[..k])
    requires ApplyRows(t, e, planned, operationId, allocate, rows[..k]).None?
    ensures ApplyRows(t, e, planned, operationId, allocate, rows).None?
    decreases |rows|
  {
    if k < |rows| {
      assert rows[..|rows| - 1][..k] == rows[..k];
      RowsStop(t, e, planned, operationId, allocate, rows[..|rows| - 1], k);
    } else {
      All(rows);
    }
  }

  lemma {:induction false} ContributorsStop(list: seq<Contributor>, incoming: seq<Contributor>, k: nat)
    requires k <= |incoming| && InsertContributors(list, incoming[..k]).None?
    ensures InsertContributors(list, incoming).None?
    decreases |incoming|
  {
    if k < |incoming| {
      assert incoming[..|incoming| - 1][..k] == incoming[..k];
      ContributorsStop(list, incoming[..|incoming| - 1], k);
    } else {
      All(incoming);
    }
  }

  lemma {:induction false} ScopesStop(
    table: set<(Str, nat, Scope)>, id: Str, position: nat, applies: seq<Scope>, k: nat)
    requires k <= |applies| && InsertScopes(table, id, position, applies[..k]).None?
    ensures InsertScopes(table, id, position, applies).None?
    decreases |applies|
  {
    if k < |applies| {
      assert applies[..|applies| - 1][..k] == applies[..k];
      ScopesStop(table, id, position, applies[..|applies| - 1], k);
    } else {
      All(applies);
    }
  }

  lemma {:induction false} CitationsStop(
    list: seq<Citation>, table: set<(Str, nat, Scope)>, id: Str, incoming: seq<CitationRow>, k: nat)
    requires k <= |incoming| && InsertCitations(list, table, id, incoming[..k]).None?
    ensures InsertCitations(list, table, id, incoming).None?
    decreases |incoming|
  {
    if k < |incoming| {
      assert incoming[..|incoming| - 1][..k] == incoming[..k];
      CitationsStop(list, table, id, incoming[..|incoming| - 1], k);
    } else {
      All(incoming);
    }
  }
}
