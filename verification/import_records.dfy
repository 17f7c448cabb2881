/** The record an application leaves of itself: one item and one mapping for each row, and how many rows fared how. */
module ImportRecords {
  import opened Text
  import opened Wrappers
  import opened Sequences
  import opened Sorting
  import opened CatalogModel
  import opened TitleDuplicates
  import opened ImportPlan
  import opened ImportApply
  import opened ImportPlanFacts
  import opened ImportRuns
  import opened ImportAuthorization

  /** How a row fared: created without a target, updated if the plan has a finding about it, and else unchanged. */
  ghost predicate Fared(planned: seq<Finding>, row: Row, result: ItemResult) {
    match result
    case Created => row.catalogId.None?
    case Updated => row.catalogId.Some? && exists f :: f in planned && f.importId == row.importId
    case Unchanged => row.catalogId.Some? && forall f :: f in planned ==> f.importId != row.importId
  }

  lemma OutcomeIsHowItFared(planned: seq<Finding>, row: Row)
    ensures forall result ::
      Fared(planned, row, result) <==> OutcomeOf(row, FindingsOf(planned, row.importId)) == result
  {
    var own := FindingsOf(planned, row.importId);
    if own != [] { assert own[0] in own && own[0] in planned; }
    if f :| f in planned && f.importId == row.importId { assert f in own; }
  }

  // ---- Items ----

  /** The new items are one for each row, and the others are as they were. */
  ghost predicate ItemsWritten(
    before: map<(Str, Str), Item>, after: map<(Str, Str), Item>, operationId: Str, planned: seq<Finding>,
    allocate: Str -> Str, rows: seq<Row>)
  {
    && (forall i :: 0 <= i < |rows| ==>
          && (operationId, rows[i].importId) !in before && (operationId, rows[i].importId) in after
          && var item := after[(operationId, rows[i].importId)];
             && item.sourceId == rows[i].sourceId && item.catalogId == CatalogIdOf(rows[i], allocate)
             && Fared(planned, rows[i], item.result))
    && (forall k :: k in before ==> k in after && after[k] == before[k])
    && forall k :: k in after && k !in before ==>
         k.0 == operationId && exists i :: 0 <= i < |rows| && rows[i].importId == k.1
  }

  lemma RowItem(t: Tables, e: Envelope, planned: seq<Finding>, operationId: Str, allocate: Str -> Str, row: Row)
    requires ValidFor(t, row) && ApplyRow(t, e, planned, operationId, allocate, row).Some?
    ensures var items := ApplyRow(t, e, planned, operationId, allocate, row).value.items;
      && (operationId, row.importId) !in t.items
      && items == t.items[(operationId, row.importId) := Item(
           row.sourceId, CatalogIdOf(row, allocate), OutcomeOf(row, FindingsOf(planned, row.importId)))]
  {
  }

  lemma ItemsGrow(
    before: map<(Str, Str), Item>, items: map<(Str, Str), Item>, operationId: Str, planned: seq<Finding>,
    allocate: Str -> Str, rows: seq<Row>, row: Row, result: ItemResult)
    requires ItemsWritten(before, items, operationId, planned, allocate, rows)
    requires (operationId, row.importId) !in items && Fared(planned, row, result)
    ensures ItemsWritten(
      before, items[(operationId, row.importId) := Item(row.sourceId, CatalogIdOf(row, allocate), result)], operationId,
      planned, allocate, rows + [row])
  {
    var all := rows + [row];
    var after := items[(operationId, row.importId) := Item(row.sourceId, CatalogIdOf(row, allocate), result)];
    assert all[|rows|] == row;
    forall k | k in after && k !in before
      ensures k.0 == operationId && exists i :: 0 <= i < |all| && all[i].importId == k.1
    {
      if k in items {
        var i :| 0 <= i < |rows| && rows[i].importId == k.1;
        assert all[i].importId == k.1;
      }
    }
  }

  lemma {:induction false} RowsItems(
    t: Tables, e: Envelope, planned: seq<Finding>, operationId: Str, allocate: Str -> Str, rows: seq<Row>, t': Tables)
    requires Applicable(t, rows) && ApplyRows(t, e, planned, operationId, allocate, rows) == Some(t')
    ensures ItemsWritten(t.items, t'.items, operationId, planned, allocate, rows)
    decreases |rows|
  {
    if rows == [] {
    } else {
      var earlier, row := rows[..|rows| - 1], rows[|rows| - 1];
      var t1 := LastRow(t, e, planned, operationId, allocate, rows, t');
      RowsItems(t, e, planned, operationId, allocate, earlier, t1);
      RowItem(t1, e, planned, operationId, allocate, row);
      OutcomeIsHowItFared(planned, row);
      ItemsGrow(
        t.items, t1.items, operationId, planned, allocate, earlier, row,
        OutcomeOf(row, FindingsOf(planned, row.importId)));
      Snoc(rows);
    }
  }

  lemma CommitItems(t: Tables, r: Request, d: Digests, t': Tables)
    requires Applicable(t, r.envelope.rows) && Commit(t, r, d) == Some(t')
    ensures ItemsWritten(
      t.items, t'.items, r.operationId, r.plan.findings, Allocation(r.allocate), r.envelope.rows)
  {
    var started, applied := CommitParts(t, r, d, t');
    RowsItems(
      started, r.envelope, r.plan.findings, r.operationId, Allocation(r.allocate), r.envelope.rows, applied);
  }

  // ---- Counts ----

  ghost function FaringRows(planned: seq<Finding>, rows: seq<Row>, result: ItemResult): set<int> {
    set i | 0 <= i < |rows| && Fared(planned, rows[i], result)
  }

  lemma FaringGrows(planned: seq<Finding>, rows: seq<Row>, result: ItemResult)
    requires rows != []
    ensures var n := |rows| - 1;
      |FaringRows(planned, rows, result)|
      == |FaringRows(planned, rows[..n], result)| + if Fared(planned, rows[n], result) then 1 else 0
  {
    var n := |rows| - 1;
    var earlier, all := FaringRows(planned, rows[..n], result), FaringRows(planned, rows, result);
    forall i ensures i in earlier <==> i in all && i != n {
      if 0 <= i < n { assert rows[..n][i] == rows[i]; }
    }
    assert all == earlier + if Fared(planned, rows[n], result) then {n} else {};
  }

  lemma {:induction false} OutcomesCounted(planned: seq<Finding>, rows: seq<Row>, result: ItemResult)
    ensures CountOutcome(rows, planned, result) == |FaringRows(planned, rows, result)|
  {
    if rows != [] {
      var n := |rows| - 1;
      OutcomesCounted(planned, rows[..n], result);
      OutcomeIsHowItFared(planned, rows[n]);
      FaringGrows(planned, rows, result);
    }
  }

  // ---- The record ----

  /** What the result of an operation says. */
  ghost predicate ResultSays(r: Request, d: Digests, a: Application) {
    var rows, planned := r.envelope.rows, r.plan.findings;
    && a.operationId == r.operationId && a.inputHash == d.input(r.envelope) && a.planHash == r.planHash
    && a.created == |FaringRows(planned, rows, Created)| && a.updated == |FaringRows(planned, rows, Updated)|
    && a.same == |FaringRows(planned, rows, Unchanged)|
    && |a.mappings| == |rows|
    && forall i :: 0 <= i < |rows| ==>
         && a.mappings[i].importId == rows[i].importId && a.mappings[i].sourceId == rows[i].sourceId
         && IsFor(r, rows[i], a.mappings[i].catalogId)
  }

  lemma ApplicationSays(r: Request, d: Digests)
    requires forall row :: row in r.envelope.rows && row.catalogId.None? ==> r.allocate.Some?
    ensures ResultSays(r, d, ApplicationOf(r, d))
  {
    var rows, planned := r.envelope.rows, r.plan.findings;
    OutcomesCounted(planned, rows, Created);
    OutcomesCounted(planned, rows, Updated);
    OutcomesCounted(planned, rows, Unchanged);
    var mappings := Mappings(rows, Allocation(r.allocate));
    forall i | 0 <= i < |rows| ensures IsFor(r, rows[i], mappings[i].catalogId) { assert rows[i] in rows; }
  }

  /** The items of an operation are one for each row of its envelope, under its import id. */
  ghost predicate RowsLogged(t: Tables, t': Tables, r: Request) {
    && (forall row :: row in r.envelope.rows ==>
          var k := (r.operationId, row.importId);
          && k !in t.items && k in t'.items
          && t'.items[k].sourceId == row.sourceId && IsFor(r, row, t'.items[k].catalogId)
          && Fared(r.plan.findings, row, t'.items[k].result))
    && (forall k :: k in t.items ==> k in t'.items && t'.items[k] == t.items[k])
    && forall k :: k in t'.items && k !in t.items ==>
         k.0 == r.operationId && exists row :: row in r.envelope.rows && row.importId == k.1
  }

  lemma WrittenIsLogged(t: Tables, t': Tables, r: Request)
    requires forall row :: row in r.envelope.rows && row.catalogId.None? ==> r.allocate.Some?
    requires ItemsWritten(
      t.items, t'.items, r.operationId, r.plan.findings, Allocation(r.allocate), r.envelope.rows)
    ensures RowsLogged(t, t', r)
  {
    var rows := r.envelope.rows;
    forall row | row in rows
      ensures var k := (r.operationId, row.importId);
        && k !in t.items && k in t'.items
        && t'.items[k].sourceId == row.sourceId && IsFor(r, row, t'.items[k].catalogId)
        && Fared(r.plan.findings, row, t'.items[k].result)
    {
      var i := IndexOf(rows, row);
    }
    forall k | k in t'.items && k !in t.items ensures exists row :: row in rows && row.importId == k.1 {
      var i :| 0 <= i < |rows| && rows[i].importId == k.1;
      assert rows[i] in rows;
    }
  }

  lemma CommitIsRecorded(t: Tables, r: Request, d: Digests, t': Tables)
    requires Applicable(t, r.envelope.rows) && Commit(t, r, d) == Some(t')
    requires forall row :: row in r.envelope.rows && row.catalogId.None? ==> r.allocate.Some?
    ensures RowsLogged(t, t', r) && ResultSays(r, d, ApplicationOf(r, d))
    ensures r.operationId in t'.operations && t'.operations[r.operationId].result == Some(ApplicationOf(r, d))
  {
    CommitItems(t, r, d, t');
    WrittenIsLogged(t, t', r);
    ApplicationSays(r, d);
  }

  /**
   A carried-out application logs one item for each row, under its operation and with the row's own source, entry and
   result, and returns and stores the counts of these results and the mapping of every row.
   */
  lemma EveryRowIsRecorded(t: Tables, matches: seq<Match>, r: Request, d: Digests, o: Outcome)
    requires ValidTables(t) && ValidEnvelope(r.envelope) && Plannable(t, r.envelope) && Applicable(t, r.envelope.rows)
    requires Apply(t, matches, r, d) == Ok(o) && !o.replayed
    ensures RowsLogged(t, o.tables, r) && ResultSays(r, d, o.application)
    ensures r.operationId in o.tables.operations
    ensures o.tables.operations[r.operationId].result == Some(o.application)
  {
    CarriedOutWasInOrder(t, matches, r, d, o);
    Accepted(t, matches, r, d, o);
    CommitIsRecorded(t, r, d, o.tables);
  }
}
