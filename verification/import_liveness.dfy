/**
 Imports do go through, and when: an approved record with one source, or an approved new title of an entry, is applied
 exactly if no entry of another row has its title and nothing clashes.
 */
module ImportLiveness {
  import opened Text
  import opened Wrappers
  import opened Sorting
  import opened CatalogModel
  import opened ImportReading
  import opened TitleDuplicates
  import opened ImportPlan
  import opened ImportApply
  import opened ImportPlanFacts
  import opened ImportEffects
  import opened ImportRuns
  import opened ImportFixedPoint
  import opened ImportOnce
  import opened ImportCommits

  // ---- Any call ----

  /** A call is carried out exactly if it is no replay, is not refused, and nothing clashes. */
  lemma CarriedOutWhen(t: Tables, c: Call, d: Digests)
    requires ValidTables(t) && ValidEnvelope(c.request.envelope)
    ensures Plannable(t, c.request.envelope) && Applicable(t, c.request.envelope.rows)
    ensures CarriedOut(t, c, d) <==>
      && Gate(t.operations, c.request, d).None? && CheckRequest(t, c.matches, c.request, d).None?
      && NothingClashes(t, c.request, d)
  {
    ValidMeansUsable(t, c.request.envelope);
    if Gate(t.operations, c.request, d).None? && CheckRequest(t, c.matches, c.request, d).None? {
      CarriedOutExactly(t, c.matches, c.request, d);
    }
  }

  /** No other row has the title, and every entry that has it is the target of a row of that title. */
  ghost predicate TitleIsFree(t: Tables, rows: seq<Row>, row: Row) {
    && (forall other :: other in rows && other != row ==> other.content.title != row.content.title)
    && forall id :: id in t.entries && t.entries[id].title == row.content.title ==>
         exists own :: own in rows && own.content.title == row.content.title && own.catalogId == Some(id)
  }

  lemma FreeIsUnshared(t: Tables, rows: seq<Row>, matches: seq<Match>, row: Row)
    requires row in rows && AnswersTitles(t, rows, matches)
    ensures TitleIsFree(t, rows, row) <==> !SharesTitle(rows, matches, row)
  {
    TitleListed(rows, row);
    if !SharesTitle(rows, matches, row) {
      forall id | id in t.entries && t.entries[id].title == row.content.title
        ensures exists own :: own in rows && own.content.title == row.content.title && own.catalogId == Some(id)
      {
        assert Match(row.content.title, id) in matches;
      }
    }
  }

  lemma CarriedOutIsClean(t: Tables, c: Call, d: Digests)
    requires ValidTables(t) && ValidEnvelope(c.request.envelope) && CarriedOut(t, c, d)
    ensures var e := c.request.envelope;
      Flagged(e.rows, c.matches) == {} && forall row :: row in e.rows ==> IsEligible(t, e, row)
  {
    var e := c.request.envelope;
    var o := StepOutcome(t, c, d);
    var verdicts := AppliedWasClean(t, c.matches, c.request, d, o);
    forall row | row in e.rows ensures IsEligible(t, e, row) {
      assert Clean(t, e, d, e.rows[IndexOf(e.rows, row)], verdicts[IndexOf(e.rows, row)]);
    }
    AllEligible(t, e, e.rows);
  }

  /** Whatever was approved: a call answered truthfully is carried out only if the title of each of its rows is free. */
  lemma CarriedOutTitlesAreFree(t: Tables, c: Call, d: Digests, row: Row)
    requires ValidTables(t) && ValidEnvelope(c.request.envelope) && CarriedOut(t, c, d)
    requires AnswersTitles(t, c.request.envelope.rows, c.matches) && row in c.request.envelope.rows
    ensures TitleIsFree(t, c.request.envelope.rows, row)
  {
    var rows := c.request.envelope.rows;
    CarriedOutIsClean(t, c, d);
    EnvelopeIds(c.request.envelope);
    FlaggedExactly(rows, c.matches, row);
    FreeIsUnshared(t, rows, c.matches, row);
  }

  // ---- One row ----

  lemma OneRowIsUnflagged(t: Tables, matches: seq<Match>, row: Row)
    requires AnswersTitles(t, [row], matches) && TitleIsFree(t, [row], row)
    ensures Flagged([row], matches) == {}
  {
    FreeIsUnshared(t, [row], matches, row);
    forall r | r in [row] ensures r.importId !in Flagged([row], matches) { FlaggedExactly([row], matches, r); }
  }

  lemma OneVerdict(t: Tables, e: Envelope, d: Digests, row: Row, v: Verdict)
    requires ValidFor(t, row) && Classify(t, e, {}, d, row) == Ok(v)
    ensures Verdicts(t, e, {}, d, [row]) == Ok([v])
  {
    var rows := [row];
    var none: seq<Row> := [];
    assert rows[..|rows| - 1] == none;
    assert Verdicts(t, e, {}, d, none) == Ok([]);
    var verdicts := Verdicts(t, e, {}, d, rows).value;
    assert verdicts == [v];
  }

  lemma OneVerdictCounts(v: Verdict)
    ensures AllFindings([v]) == v.findings
    ensures forall tally :: Count([v], tally) == if v.tally == tally then 1 else 0
  {
    assert [v][..0] == [];
    assert AllFindings([v][..0]) == [];
    assert [] + v.findings == v.findings;
    forall tally ensures Count([v], tally) == if v.tally == tally then 1 else 0 { assert Count([v][..0], tally) == 0; }
  }

  lemma OneItemOf(row: Row, item: Provenance)
    requires item.importId == row.importId && item.sourceId == row.sourceId
    ensures ProvenanceOf([item], row.importId) == [item] && HasPrimary([item], row.sourceId)
  {
    assert [item][1..] == [];
    assert [item][0].sourceId == row.sourceId;
  }

  lemma OneRowAssembles(t: Tables, matches: seq<Match>, e: Envelope, d: Digests, row: Row, v: Verdict)
    requires e.rows == [row] && ValidFor(t, row) && IsEligible(t, e, row) && Classify(t, e, {}, d, row) == Ok(v)
    requires Distinct(FindingIds(Assemble(d, e, [], [v]).findings)) && Flagged([row], matches) == {}
    ensures Plan(t, matches, e, d) == Ok(Assemble(d, e, [], [v]))
  {
    AllEligible(t, e, e.rows);
    NothingToAnalyze(e.rows, matches, ImportIds(e.rows), d.titles);
    OneVerdict(t, e, d, row, v);
  }

  // ---- A create ----

  /** An envelope that creates one entry from one source. */
  ghost predicate CreatesOne(e: Envelope, row: Row, item: Provenance) {
    && e == Envelope([row], [], [item], [], []) && row.content.Valid()
    && item.importId == row.importId && item.sourceId == row.sourceId
    && row.catalogId.None? && row.ownerNote.None? && row.contributorsAction.Preserve? && row.citationsAction.Preserve?
  }

  function OneAdded(e: Envelope, d: Digests): PlanBody {
    PlanBody(d.input(e), 1, [], Counts(1, 0, 0, 0, 0, 0, 0), [], [], true)
  }

  /** The request carries the plan, the approval of it and an allocator. */
  ghost predicate IsApproved(r: Request, d: Digests) {
    && r.plan == OneAdded(r.envelope, d) && r.planHash == d.plan(r.plan)
    && r.authorization.runtime.Production? && r.authorization.purpose.ProductionImport?
    && r.authorization.approval == Approval(d.input(r.envelope), r.planHash, Approved, [])
    && r.allocate.Some?
  }

  lemma OneIsValid(e: Envelope, row: Row, item: Provenance)
    requires CreatesOne(e, row, item)
    ensures ValidEnvelope(e)
  {
  }

  lemma OneIsAdded(t: Tables, e: Envelope, d: Digests, row: Row, item: Provenance)
    requires CreatesOne(e, row, item) && item.sourceId !in t.sources
    ensures ValidFor(t, row) && IsEligible(t, e, row) && Classify(t, e, {}, d, row) == Ok(Verdict([], Add))
  {
    OneItemOf(row, item);
    assert FirstRebound(t.sources, [item], row.catalogId).None?;
  }

  lemma OneIsPlanned(t: Tables, matches: seq<Match>, e: Envelope, d: Digests, row: Row, item: Provenance)
    requires CreatesOne(e, row, item) && item.sourceId !in t.sources && Flagged([row], matches) == {}
    ensures Plannable(t, e) && Plan(t, matches, e, d) == Ok(OneAdded(e, d))
  {
    var v := Verdict([], Add);
    OneIsAdded(t, e, d, row, item);
    OneVerdictCounts(v);
    OneRowAssembles(t, matches, e, d, row, v);
  }

  lemma OneIsAccepted(t: Tables, r: Request, d: Digests)
    requires IsApproved(r, d) && r.operationId !in t.operations
    ensures Gate(t.operations, r, d) == None && Refusal(r, d, r.plan) == None
  {
  }

  lemma CreatedSourceIsUnknown(t: Tables, e: Envelope, row: Row, item: Provenance)
    requires CreatesOne(e, row, item) && IsEligible(t, e, row)
    ensures item.sourceId !in t.sources
  {
    OneItemOf(row, item);
    assert !IsRebound(t.sources, item, row.catalogId) by { assert item in [item]; }
  }

  lemma NoEntryHasTitle(t: Tables, row: Row)
    requires row.catalogId.None?
    ensures TitleIsFree(t, [row], row) <==> forall id :: id in t.entries ==> t.entries[id].title != row.content.title
  {
    assert row in [row];
  }

  /**
   An approved new record is carried out exactly if its source is unknown, no entry has its title, and nothing clashes,
   however the database orders its answer.
   */
  lemma OneCreateIsCarriedOut(
    t: Tables, matches: seq<Match>, r: Request, d: Digests, row: Row, item: Provenance)
    requires ValidTables(t) && CreatesOne(r.envelope, row, item) && IsApproved(r, d)
    requires AnswersTitles(t, r.envelope.rows, matches)
    ensures ValidEnvelope(r.envelope)
    ensures CarriedOut(t, Call(matches, r), d) <==>
      && item.sourceId !in t.sources && NothingClashes(t, r, d)
      && forall id :: id in t.entries ==> t.entries[id].title != row.content.title
  {
    var c := Call(matches, r);
    OneIsValid(r.envelope, row, item);
    CarriedOutWhen(t, c, d);
    NoEntryHasTitle(t, row);
    if CarriedOut(t, c, d) {
      CarriedOutIsClean(t, c, d);
      CreatedSourceIsUnknown(t, r.envelope, row, item);
      CarriedOutTitlesAreFree(t, c, d, row);
    } else if item.sourceId !in t.sources && NothingClashes(t, r, d) && TitleIsFree(t, [row], row) {
      OneRowIsUnflagged(t, matches, row);
      OneIsPlanned(t, matches, r.envelope, d, row, item);
      OneIsAccepted(t, r, d);
    }
  }

  const NO_TABLES := Tables(map[], map[], map[], map[], {}, map[], map[], map[])

  lemma SomeRequest(d: Digests, title: Str) returns (r: Request, row: Row, item: Provenance)
    ensures CreatesOne(r.envelope, row, item) && row.content.title == title && IsApproved(r, d)
  {
    forall f: FieldName ensures f in FIELD_NAMES { EveryFieldIsNamed(f); }
    row := Row([1], [2], None, Entry(Inscription, title, None, None, NO_FIELDS), None, Preserve, Preserve);
    item := Provenance([1], [2], Facts(None, None, None, None));
    var e := Envelope([row], [], [item], [], []);
    var plan := OneAdded(e, d);
    var approval := Approval(d.input(e), d.plan(plan), Approved, []);
    var authorization := Authorization(Production, ProductionImport, false, false, false, false, [], approval);
    r := Request([3], e, plan, d.plan(plan), authorization, Some((importId: Str) => [4]));
  }

  lemma NothingStandsAgainst(r: Request, d: Digests, row: Row, item: Provenance)
    requires CreatesOne(r.envelope, row, item)
    ensures ValidTables(NO_TABLES) && NothingClashes(NO_TABLES, r, d) && AnswersTitles(NO_TABLES, r.envelope.rows, [])
  {
  }

  /** So there are runs: on empty tables, with any hashes, some call that creates an entry is carried out. */
  lemma SomeCallIsCarriedOut(d: Digests, title: Str) returns (c: Call)
    ensures ValidTables(NO_TABLES) && ValidEnvelope(c.request.envelope) && CarriedOut(NO_TABLES, c, d)
    ensures AnswersTitles(NO_TABLES, c.request.envelope.rows, c.matches)
    ensures |c.request.envelope.rows| == 1 && c.request.envelope.rows[0].content.title == title
  {
    var r, row, item := SomeRequest(d, title);
    c := Call([], r);
    NothingStandsAgainst(r, d, row, item);
    OneCreateIsCarriedOut(NO_TABLES, [], r, d, row, item);
  }

  // ---- An update ----

  /** An envelope that gives one entry another title and repeats everything else it must repeat. */
  ghost predicate Retitles(t: Tables, e: Envelope, row: Row, item: Provenance, id: Str) {
    && id in t.entries && e == Envelope([row], e.aliases, [item], [], []) && row.catalogId == Some(id)
    && row.content == Entry(t.entries[id].kind, row.content.title, None, None, NO_FIELDS)
    && row.content.title != t.entries[id].title
    && AliasesRepeated(t, e, row, id)
    && item.importId == row.importId && item.sourceId == row.sourceId && row.sourceId in t.sources
    && t.sources[row.sourceId] == SourceRow(id, item.facts)
    && row.ownerNote.None? && row.contributorsAction.Preserve? && row.citationsAction.Preserve?
  }

  function TitleChange(t: Tables, d: Digests, row: Row, id: Str): Finding
    requires id in t.entries
  {
    Changing(d, row, row.sourceId, TitleField, SetTo, OfText(Some(t.entries[id].title)), LevelB, false)
  }

  function OneUpdated(t: Tables, e: Envelope, d: Digests, row: Row, id: Str): PlanBody
    requires id in t.entries
  {
    PlanBody(d.input(e), 1, [TitleChange(t, d, row, id)], Counts(0, 1, 0, 0, 0, 0, 0), [], [], true)
  }

  lemma NoFieldsAreValid()
    ensures Total(NO_FIELDS) && forall f: FieldName :: NO_FIELDS[f] == Unsupplied
  {
    forall f: FieldName ensures f in NO_FIELDS { EveryFieldIsNamed(f); }
  }

  /** The one finding of such a row is the title's. */
  lemma OnlyTheTitleChanges(t: Tables, e: Envelope, d: Digests, row: Row, item: Provenance, id: Str)
    requires ValidTables(t) && Retitles(t, e, row, item, id) && row.content.Valid()
    ensures ChangeFindings(d, t, e, row, id) == [TitleChange(t, d, row, id)]
  {
    NoFieldsAreValid();
    NoDisplayFindings(d, row, t.entries[id], DISPLAY_NAMES);
    NoStatefulFindings(d, row, t.entries[id], FIELD_NAMES);
    OneItemOf(row, item);
    NoProvenanceFindings(d, t.sources, row, [item], id);
  }

  lemma RetitleIsEligible(t: Tables, e: Envelope, row: Row, item: Provenance, id: Str)
    requires ValidTables(t) && Retitles(t, e, row, item, id)
    ensures ValidFor(t, row) && IsEligible(t, e, row)
  {
    NoFieldsAreValid();
    OneItemOf(row, item);
    assert FirstRebound(t.sources, [item], row.catalogId).None?;
  }

  lemma UpdateClassifies(t: Tables, e: Envelope, d: Digests, row: Row, id: Str, changes: seq<Finding>)
    requires ValidFor(t, row) && IsEligible(t, e, row) && row.catalogId == Some(id) && AliasesRepeated(t, e, row, id)
    requires ChangeFindings(d, t, e, row, id) == changes && changes != []
    ensures Classify(t, e, {}, d, row) == Ok(Verdict(changes, Update))
  {
    assert DuplicateFindings(d, row, {}) + changes == changes;
  }

  lemma OneFindingAssembles(t: Tables, e: Envelope, d: Digests, row: Row, id: Str)
    requires id in t.entries && |e.rows| == 1
    ensures Assemble(d, e, [], [Verdict([TitleChange(t, d, row, id)], Update)]) == OneUpdated(t, e, d, row, id)
  {
    var v := Verdict([TitleChange(t, d, row, id)], Update);
    OneVerdictCounts(v);
    assert v.findings[..0] == [];
    assert CountIdentity(v.findings) == 0;
    assert !HasBlocker(v.findings, IdentityBlocker) && !HasBlocker(v.findings, DeferredBlocker);
  }

  lemma OneUpdateIsPlanned(t: Tables, matches: seq<Match>, e: Envelope, d: Digests, row: Row, id: Str)
    requires e.rows == [row] && id in t.entries && ValidFor(t, row) && IsEligible(t, e, row)
    requires row.catalogId == Some(id) && AliasesRepeated(t, e, row, id) && Flagged([row], matches) == {}
    requires ChangeFindings(d, t, e, row, id) == [TitleChange(t, d, row, id)]
    ensures Plan(t, matches, e, d) == Ok(OneUpdated(t, e, d, row, id))
  {
    var changes := [TitleChange(t, d, row, id)];
    UpdateClassifies(t, e, d, row, id, changes);
    OneFindingAssembles(t, e, d, row, id);
    OneRowAssembles(t, matches, e, d, row, Verdict(changes, Update));
  }

  lemma OneRetitleIsPlanned(
    t: Tables, matches: seq<Match>, e: Envelope, d: Digests, row: Row, item: Provenance, id: Str)
    requires ValidTables(t) && Retitles(t, e, row, item, id) && Flagged([row], matches) == {}
    ensures Plannable(t, e) && Plan(t, matches, e, d) == Ok(OneUpdated(t, e, d, row, id))
  {
    RetitleIsEligible(t, e, row, item, id);
    OnlyTheTitleChanges(t, e, d, row, item, id);
    OneUpdateIsPlanned(t, matches, e, d, row, id);
  }

  /** The request carries the plan and the approval of its one finding. */
  ghost predicate ApprovesTitle(t: Tables, r: Request, d: Digests, row: Row, id: Str)
    requires id in t.entries
  {
    && r.plan == OneUpdated(t, r.envelope, d, row, id) && r.planHash == d.plan(r.plan)
    && r.authorization.runtime.Production? && r.authorization.purpose.ProductionImport?
    && r.authorization.approval
       == Approval(d.input(r.envelope), r.planHash, Approved, [TitleChange(t, d, row, id).id])
  }

  lemma TitleIsAccepted(t: Tables, r: Request, d: Digests, row: Row, id: Str)
    requires id in t.entries && ApprovesTitle(t, r, d, row, id) && r.operationId !in t.operations
    requires r.envelope.rows == [row] && row.catalogId == Some(id)
    ensures Gate(t.operations, r, d) == None && Refusal(r, d, r.plan) == None
  {
    assert FindingsApproved(r.authorization.approval, r.plan) by {
      assert r.plan.findings[0].id == r.authorization.approval.findingIds[0];
      assert r.authorization.approval.findingIds[0] in r.authorization.approval.findingIds;
    }
  }

  lemma RetitleIsValid(t: Tables, e: Envelope, row: Row, item: Provenance, id: Str)
    requires Retitles(t, e, row, item, id)
    ensures ValidEnvelope(e)
  {
    NoFieldsAreValid();
  }

  lemma NoOtherHasTitle(t: Tables, row: Row, id: Str)
    requires row.catalogId == Some(id) && (id in t.entries ==> t.entries[id].title != row.content.title)
    ensures TitleIsFree(t, [row], row)
      <==> forall other :: other in t.entries && other != id ==> t.entries[other].title != row.content.title
  {
    assert row in [row];
  }

  /**
   An approved change of a title is carried out exactly if no other entry has the new title and nothing clashes, however
   the database orders its answer; and then the entry has its new title.
   */
  lemma OneRetitleIsCarriedOut(
    t: Tables, matches: seq<Match>, r: Request, d: Digests, row: Row, item: Provenance, id: Str)
    requires ValidTables(t) && Retitles(t, r.envelope, row, item, id) && ApprovesTitle(t, r, d, row, id)
    requires AnswersTitles(t, r.envelope.rows, matches)
    ensures ValidEnvelope(r.envelope)
    ensures CarriedOut(t, Call(matches, r), d) <==>
      && NothingClashes(t, r, d)
      && forall other :: other in t.entries && other != id ==> t.entries[other].title != row.content.title
    ensures CarriedOut(t, Call(matches, r), d) ==>
      var t' := Step(t, Call(matches, r), d);
      id in t'.entries && t'.entries[id] == t.entries[id].(title := row.content.title)
  {
    var c := Call(matches, r);
    RetitleIsValid(t, r.envelope, row, item, id);
    CarriedOutWhen(t, c, d);
    NoOtherHasTitle(t, row, id);
    if CarriedOut(t, c, d) {
      CarriedOutTitlesAreFree(t, c, d, row);
      StepSettles(t, c, d);
      RetitledEntry(t, Step(t, c, d), r, row, item, id);
    } else if NothingClashes(t, r, d) && TitleIsFree(t, [row], row) {
      OneRowIsUnflagged(t, matches, row);
      OneRetitleIsPlanned(t, matches, r.envelope, d, row, item, id);
      TitleIsAccepted(t, r, d, row, id);
    }
  }

  lemma RetitledEntry(t: Tables, t': Tables, r: Request, row: Row, item: Provenance, id: Str)
    requires ValidTables(t) && Retitles(t, r.envelope, row, item, id)
    requires Progress(t, t', r.envelope, Allocation(r.allocate), r.envelope.rows)
    ensures id in t'.entries && t'.entries[id] == t.entries[id].(title := row.content.title)
  {
    assert SettledRow(t, t', r.envelope, Allocation(r.allocate), r.envelope.rows[0]);
    OnlyTitleMerges(t.entries[id], row.content);
  }

  lemma OnlyTitleMerges(target: Entry, content: Entry)
    requires target.Valid() && content == Entry(target.kind, content.title, None, None, NO_FIELDS)
    ensures content.Valid() && Merged(target, content) == target.(title := content.title)
  {
    NoFieldsAreValid();
    assert Merged(target, content).fields == target.fields;
  }

  const OLD_TITLE: Str := [5]
  const TAKEN_TITLE: Str := [6]
  const NO_FACTS := Facts(None, None, None, None)

  /** One entry with one source. */
  const ONE_ENTRY := NO_TABLES.(
    entries := map[[4] := Entry(Inscription, OLD_TITLE, None, None, NO_FIELDS)],
    sources := map[[2] := SourceRow([4], NO_FACTS)])

  /** A second entry beside it, under another title. */
  const TWO_ENTRIES := ONE_ENTRY.(
    entries := ONE_ENTRY.entries[[7] := Entry(Inscription, TAKEN_TITLE, None, None, NO_FIELDS)])

  lemma SomeRetitle(t: Tables, d: Digests, title: Str) returns (r: Request, row: Row, item: Provenance)
    requires t in {ONE_ENTRY, TWO_ENTRIES} && title != OLD_TITLE
    ensures Retitles(t, r.envelope, row, item, [4]) && row.content.title == title
    ensures r.envelope.rows == [row] && ApprovesTitle(t, r, d, row, [4])
  {
    row := Row([1], [2], Some([4]), Entry(Inscription, title, None, None, NO_FIELDS), None, Preserve, Preserve);
    item := Provenance([1], [2], NO_FACTS);
    var e := Envelope([row], [], [item], [], []);
    var plan := OneUpdated(t, e, d, row, [4]);
    var approval := Approval(d.input(e), d.plan(plan), Approved, [TitleChange(t, d, row, [4]).id]);
    var authorization := Authorization(Production, ProductionImport, false, false, false, false, [], approval);
    r := Request([3], e, plan, d.plan(plan), authorization, None);
  }

  lemma EntriesAreValid()
    ensures ValidTables(ONE_ENTRY) && ValidTables(TWO_ENTRIES)
  {
    NoFieldsAreValid();
  }

  lemma NoOperationsClash(t: Tables, r: Request, d: Digests, row: Row, item: Provenance, id: Str)
    requires Retitles(t, r.envelope, row, item, id) && t.operations == map[] && t.items == map[]
    ensures NothingClashes(t, r, d)
  {
  }

  /** With any hashes, some call with a finding that needs approval is carried out, and changes the entry. */
  lemma SomeUpdateIsCarriedOut(d: Digests, title: Str) returns (c: Call)
    requires title != OLD_TITLE
    ensures ValidTables(ONE_ENTRY) && ValidEnvelope(c.request.envelope) && CarriedOut(ONE_ENTRY, c, d)
    ensures AnswersTitles(ONE_ENTRY, c.request.envelope.rows, c.matches)
    ensures |c.request.plan.findings| == 1 && c.request.plan.findings[0].requiresApproval
    ensures var t' := Step(ONE_ENTRY, c, d); [4] in t'.entries && t'.entries[[4]].title == title
  {
    var r, row, item := SomeRetitle(ONE_ENTRY, d, title);
    c := Call([], r);
    EntriesAreValid();
    NoOperationsClash(ONE_ENTRY, r, d, row, item, [4]);
    OneRetitleIsCarriedOut(ONE_ENTRY, [], r, d, row, item, [4]);
  }

  /** Approval is not enough: the same change, to the title of a second entry, is not carried out. */
  lemma TakenTitleIsRefused(d: Digests) returns (c: Call)
    ensures ValidTables(TWO_ENTRIES) && ValidEnvelope(c.request.envelope) && NothingClashes(TWO_ENTRIES, c.request, d)
    ensures AnswersTitles(TWO_ENTRIES, c.request.envelope.rows, c.matches)
    ensures c.request.authorization.approval.state == Approved && !CarriedOut(TWO_ENTRIES, c, d)
  {
    var r, row, item := SomeRetitle(TWO_ENTRIES, d, TAKEN_TITLE);
    c := Call([Match(TAKEN_TITLE, [7])], r);
    EntriesAreValid();
    NoOperationsClash(TWO_ENTRIES, r, d, row, item, [4]);
    TakenTitleAnswer(row);
    SharedTitleIsRefused(TWO_ENTRIES, c, d, row, item, [4], [7]);
  }

  lemma SharedTitleIsRefused(t: Tables, c: Call, d: Digests, row: Row, item: Provenance, id: Str, other: Str)
    requires ValidTables(t) && Retitles(t, c.request.envelope, row, item, id)
    requires AnswersTitles(t, c.request.envelope.rows, c.matches)
    requires other in t.entries && other != id && t.entries[other].title == row.content.title
    ensures ValidEnvelope(c.request.envelope) && !CarriedOut(t, c, d)
  {
    RetitleIsValid(t, c.request.envelope, row, item, id);
    NoOtherHasTitle(t, row, id);
    if CarriedOut(t, c, d) { CarriedOutTitlesAreFree(t, c, d, row); }
  }

  lemma TakenTitleAnswer(row: Row)
    requires row.content.title == TAKEN_TITLE
    ensures AnswersTitles(TWO_ENTRIES, [row], [Match(TAKEN_TITLE, [7])])
  {
    assert TAKEN_TITLE == Titles([row])[0];
  }
}
