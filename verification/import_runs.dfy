/** A whole application: every row of its envelope is settled at the end, and nothing it does not name has changed. */
module ImportRuns {
  import opened Text
  import opened Wrappers
  import opened Sequences
  import opened Sorting
  import opened CatalogModel
  import opened ImportReading
  import opened TitleDuplicates
  import opened ImportPlan
  import opened ImportApply
  import opened ImportPlanFacts
  import opened ImportEffects
  import opened ImportStatements
  import opened ImportSettling

  ghost predicate Touches(rows: seq<Row>, allocate: Str -> Str, id: Str) {
    exists i :: 0 <= i < |rows| && CatalogIdOf(rows[i], allocate) == id
  }

  ghost predicate Binds(e: Envelope, rows: seq<Row>, s: Str) {
    exists i :: 0 <= i < |rows| && Lists(ProvenanceOf(e.provenance, rows[i].importId), s)
  }

  ghost predicate IdsApart(rows: seq<Row>, allocate: Str -> Str) {
    forall i, j :: 0 <= i < j < |rows| ==> CatalogIdOf(rows[i], allocate) != CatalogIdOf(rows[j], allocate)
  }

  ghost predicate SettledRow(t0: Tables, t: Tables, e: Envelope, allocate: Str -> Str, row: Row) {
    var id := CatalogIdOf(row, allocate);
    row.content.Valid() && (id in t0.entries ==> t0.entries[id].Valid()) && Settled(t0, t, e, row, id)
  }

  /** How far applying has come: these rows are settled and the rest of the tables is as it was. */
  ghost predicate Progress(t0: Tables, t: Tables, e: Envelope, allocate: Str -> Str, rows: seq<Row>) {
    && ValidTables(t0) && ValidTables(t)
    && (forall i :: 0 <= i < |rows| ==> SettledRow(t0, t, e, allocate, rows[i]))
    && IdsApart(rows, allocate)
    && (forall id :: !Touches(rows, allocate, id) ==> SameEntry(t0, t, id))
    && (forall s :: !Binds(e, rows, s) ==> SameSource(t0, t, s))
  }

  lemma SettledKept(t0: Tables, t: Tables, t': Tables, e: Envelope, allocate: Str -> Str, row: Row)
    requires SettledRow(t0, t, e, allocate, row) && SameEntry(t, t', CatalogIdOf(row, allocate))
    requires forall s :: Lists(ProvenanceOf(e.provenance, row.importId), s) ==> SameSource(t, t', s)
    ensures SettledRow(t0, t', e, allocate, row)
  {
    var items := ProvenanceOf(e.provenance, row.importId);
    SameCitations(t, t', CatalogIdOf(row, allocate));
    forall item | item in items ensures SameSource(t, t', item.sourceId) { ListsMember(items, item); }
  }

  lemma ListsMember(items: seq<Provenance>, item: Provenance)
    requires item in items
    ensures Lists(items, item.sourceId)
  {
    var i := IndexOf(items, item);
  }

  lemma ListsItem(items: seq<Provenance>, s: Str) returns (item: Provenance)
    requires Lists(items, s)
    ensures item in items && item.sourceId == s
  {
    var i :| 0 <= i < |items| && items[i].sourceId == s;
    item := items[i];
  }

  /** Rows of different imports list different sources. */
  lemma ListsApart(e: Envelope, a: Row, b: Row, s: Str)
    requires ValidEnvelope(e) && a.importId != b.importId && Lists(ProvenanceOf(e.provenance, a.importId), s)
    ensures !Lists(ProvenanceOf(e.provenance, b.importId), s)
  {
    if Lists(ProvenanceOf(e.provenance, b.importId), s) {
      var p := ListsItem(ProvenanceOf(e.provenance, a.importId), s);
      var q := ListsItem(ProvenanceOf(e.provenance, b.importId), s);
      var i, j := IndexOf(e.provenance, p), IndexOf(e.provenance, q);
    }
  }

  /** Seen from the tables before the whole application, a row settled against the tables it met is settled. */
  lemma SettledRebased(t0: Tables, t: Tables, t': Tables, e: Envelope, allocate: Str -> Str, row: Row)
    requires ValidTables(t0) && ValidTables(t) && row.content.Valid() && SameEntry(t0, t, CatalogIdOf(row, allocate))
    requires Settled(t, t', e, row, CatalogIdOf(row, allocate))
    ensures SettledRow(t0, t', e, allocate, row)
  {
    SameCitations(t0, t, CatalogIdOf(row, allocate));
  }

  lemma ReportsRebased(findings: seq<Finding>, t0: Tables, t: Tables, e: Envelope, row: Row, id: Str)
    requires id in t0.entries && t0.entries[id].Valid() && row.content.Valid() && Reports(findings, t0, e, row, id)
    requires SameEntry(t0, t, id)
    ensures Reports(findings, t, e, row, id)
  {
    SameCitations(t0, t, id);
  }

  /** What a plan must have said about a row for its statements to settle it. */
  ghost predicate Prepared(t: Tables, e: Envelope, planned: seq<Finding>, row: Row) {
    && row in e.rows && row.content.Valid()
    && FirstRebound(t.sources, ProvenanceOf(e.provenance, row.importId), row.catalogId).None?
    && (row.catalogId.Some? ==>
          && row.catalogId.value in t.entries && t.entries[row.catalogId.value].Valid()
          && Reports(FindingsOf(planned, row.importId), t, e, row, row.catalogId.value))
  }

  ghost predicate ApartFrom(row: Row, rows: seq<Row>) {
    forall i :: 0 <= i < |rows| ==>
      && rows[i].importId != row.importId && (row.catalogId.None? || rows[i].catalogId != row.catalogId)
  }

  lemma RowUntouched(t0: Tables, t: Tables, e: Envelope, allocate: Str -> Str, rows: seq<Row>, row: Row)
    requires ValidEnvelope(e) && Progress(t0, t, e, allocate, rows) && ApartFrom(row, rows)
    requires var id := CatalogIdOf(row, allocate);
      if row.catalogId.Some? then id in t0.entries else id !in t.entries
    ensures !Touches(rows, allocate, CatalogIdOf(row, allocate))
    ensures forall s :: Lists(ProvenanceOf(e.provenance, row.importId), s) ==> !Binds(e, rows, s)
  {
    forall i | 0 <= i < |rows| ensures CatalogIdOf(rows[i], allocate) != CatalogIdOf(row, allocate) {
      assert SettledRow(t0, t, e, allocate, rows[i]);
    }
    forall s, i | Lists(ProvenanceOf(e.provenance, row.importId), s) && 0 <= i < |rows|
      ensures !Lists(ProvenanceOf(e.provenance, rows[i].importId), s)
    {
      ListsApart(e, row, rows[i], s);
    }
  }

  lemma StillUnbound(t0: Tables, t: Tables, e: Envelope, planned: seq<Finding>, row: Row, id: Str)
    requires Prepared(t0, e, planned, row) && (row.catalogId.Some? ==> id == row.catalogId.value)
    requires forall s :: Lists(ProvenanceOf(e.provenance, row.importId), s) ==> SameSource(t0, t, s)
    ensures Unbound(t.sources, ProvenanceOf(e.provenance, row.importId), id)
  {
    var items := ProvenanceOf(e.provenance, row.importId);
    forall item | item in items ensures item.sourceId !in t.sources || t.sources[item.sourceId].catalogId == id {
      ListsMember(items, item);
      assert !IsRebound(t0.sources, item, row.catalogId);
    }
  }

  lemma CreatesFresh(t: Tables, e: Envelope, planned: seq<Finding>, operationId: Str, allocate: Str -> Str, row: Row)
    requires ValidFor(t, row) && ApplyRow(t, e, planned, operationId, allocate, row).Some? && row.catalogId.None?
    ensures allocate(row.importId) !in t.entries
  {
  }

  /** One more row. */
  lemma ProgressStep(
    t0: Tables, t: Tables, t': Tables, e: Envelope, planned: seq<Finding>, operationId: Str, allocate: Str -> Str,
    rows: seq<Row>, row: Row)
    requires ValidEnvelope(e) && Progress(t0, t, e, allocate, rows)
    requires Prepared(t0, e, planned, row) && ApartFrom(row, rows) && ValidFor(t, row)
    requires ApplyRow(t, e, planned, operationId, allocate, row) == Some(t')
    ensures Progress(t0, t', e, allocate, rows + [row]) && t'.operations == t.operations
  {
    var id := CatalogIdOf(row, allocate);
    if row.catalogId.None? { CreatesFresh(t, e, planned, operationId, allocate, row); }
    RowUntouched(t0, t, e, allocate, rows, row);
    assert SameEntry(t0, t, id);
    if row.catalogId.Some? { ReportsRebased(FindingsOf(planned, row.importId), t0, t, e, row, id); }
    StillUnbound(t0, t, e, planned, row, id);
    RowSettles(t, e, planned, operationId, allocate, row, t');
    SettledRebased(t0, t, t', e, allocate, row);
    ProgressGrows(t0, t, t', e, allocate, rows, row);
  }

  lemma TouchesAppend(rows: seq<Row>, row: Row, allocate: Str -> Str, id: Str)
    ensures Touches(rows + [row], allocate, id) <==> Touches(rows, allocate, id) || CatalogIdOf(row, allocate) == id
  {
    var all := rows + [row];
    assert all[|rows|] == row;
    if i :| 0 <= i < |rows| && CatalogIdOf(rows[i], allocate) == id { assert all[i] == rows[i]; }
  }

  lemma BindsAppend(e: Envelope, rows: seq<Row>, row: Row, s: Str)
    ensures Binds(e, rows + [row], s) <==> Binds(e, rows, s) || Lists(ProvenanceOf(e.provenance, row.importId), s)
  {
    var all := rows + [row];
    assert all[|rows|] == row;
    if i :| 0 <= i < |rows| && Lists(ProvenanceOf(e.provenance, rows[i].importId), s) { assert all[i] == rows[i]; }
  }

  lemma EarlierStaySettled(
    t0: Tables, t: Tables, t': Tables, e: Envelope, allocate: Str -> Str, rows: seq<Row>, row: Row, i: nat)
    requires i < |rows| && SettledRow(t0, t, e, allocate, rows[i])
    requires CatalogIdOf(rows[i], allocate) != CatalogIdOf(row, allocate)
    requires forall s :: Lists(ProvenanceOf(e.provenance, row.importId), s) ==> !Binds(e, rows, s)
    requires forall other :: other != CatalogIdOf(row, allocate) ==> SameEntry(t, t', other)
    requires forall s :: !Lists(ProvenanceOf(e.provenance, row.importId), s) ==> SameSource(t, t', s)
    ensures SettledRow(t0, t', e, allocate, rows[i])
  {
    forall s | Lists(ProvenanceOf(e.provenance, rows[i].importId), s) ensures SameSource(t, t', s) {
      assert Binds(e, rows, s);
    }
    SettledKept(t0, t, t', e, allocate, rows[i]);
  }

  lemma IdsStayApart(rows: seq<Row>, row: Row, allocate: Str -> Str)
    requires IdsApart(rows, allocate) && !Touches(rows, allocate, CatalogIdOf(row, allocate))
    ensures IdsApart(rows + [row], allocate)
  {
  }

  lemma AllSettled(t0: Tables, t: Tables, e: Envelope, allocate: Str -> Str, rows: seq<Row>, row: Row)
    requires forall i :: 0 <= i < |rows| ==> SettledRow(t0, t, e, allocate, rows[i])
    requires SettledRow(t0, t, e, allocate, row)
    ensures forall i :: 0 <= i < |rows + [row]| ==> SettledRow(t0, t, e, allocate, (rows + [row])[i])
  {
  }

  lemma ProgressGrows(
    t0: Tables, t: Tables, t': Tables, e: Envelope, allocate: Str -> Str, rows: seq<Row>, row: Row)
    requires Progress(t0, t, e, allocate, rows) && row.content.Valid() && ValidTables(t')
    requires !Touches(rows, allocate, CatalogIdOf(row, allocate)) && SettledRow(t0, t', e, allocate, row)
    requires forall s :: Lists(ProvenanceOf(e.provenance, row.importId), s) ==> !Binds(e, rows, s)
    requires forall other :: other != CatalogIdOf(row, allocate) ==> SameEntry(t, t', other)
    requires forall s :: !Lists(ProvenanceOf(e.provenance, row.importId), s) ==> SameSource(t, t', s)
    ensures Progress(t0, t', e, allocate, rows + [row])
  {
    forall i | 0 <= i < |rows| ensures SettledRow(t0, t', e, allocate, rows[i]) {
      EarlierStaySettled(t0, t, t', e, allocate, rows, row, i);
    }
    AllSettled(t0, t', e, allocate, rows, row);
    IdsStayApart(rows, row, allocate);
    forall id | !Touches(rows + [row], allocate, id) ensures SameEntry(t0, t', id) {
      TouchesAppend(rows, row, allocate, id);
      EntryChain(t0, t, t', id);
    }
    forall s | !Binds(e, rows + [row], s) ensures SameSource(t0, t', s) {
      BindsAppend(e, rows, row, s);
      assert SameSource(t0, t, s) && SameSource(t, t', s);
    }
  }

  lemma EntryChain(t0: Tables, t: Tables, t': Tables, id: Str)
    requires SameEntry(t0, t, id) && SameEntry(t, t', id)
    ensures SameEntry(t0, t', id)
  {
  }

  /** The last of the statements that apply a list of rows. */
  lemma LastRow(
    t: Tables, e: Envelope, planned: seq<Finding>, operationId: Str, allocate: Str -> Str, rows: seq<Row>, t': Tables)
    returns (t1: Tables)
    requires rows != [] && Applicable(t, rows)
    requires ApplyRows(t, e, planned, operationId, allocate, rows) == Some(t')
    ensures ApplyRows(t, e, planned, operationId, allocate, rows[..|rows| - 1]) == Some(t1)
    ensures ValidFor(t1, rows[|rows| - 1])
    ensures ApplyRow(t1, e, planned, operationId, allocate, rows[|rows| - 1]) == Some(t')
  {
    t1 := ApplyRows(t, e, planned, operationId, allocate, rows[..|rows| - 1]).value;
  }

  ghost predicate AllPrepared(t: Tables, e: Envelope, planned: seq<Finding>, rows: seq<Row>) {
    forall i :: 0 <= i < |rows| ==> Prepared(t, e, planned, rows[i]) && ApartFrom(rows[i], rows[..i])
  }

  lemma EarlierPrepared(t: Tables, e: Envelope, planned: seq<Finding>, rows: seq<Row>)
    requires rows != [] && AllPrepared(t, e, planned, rows)
    ensures AllPrepared(t, e, planned, rows[..|rows| - 1])
  {
    forall i | 0 <= i < |rows| - 1 ensures rows[..|rows| - 1][..i] == rows[..i] {}
  }

  lemma {:induction false} RowsProgress(
    t0: Tables, started: Tables, t: Tables, e: Envelope, planned: seq<Finding>, operationId: Str, allocate: Str -> Str,
    rows: seq<Row>)
    requires ValidEnvelope(e) && Applicable(started, rows) && Progress(t0, started, e, allocate, [])
    requires AllPrepared(t0, e, planned, rows)
    requires ApplyRows(started, e, planned, operationId, allocate, rows) == Some(t)
    ensures Progress(t0, t, e, allocate, rows) && t.operations == started.operations
    decreases |rows|
  {
    if rows == [] {
    } else {
      var earlier, row := rows[..|rows| - 1], rows[|rows| - 1];
      var t1 := LastRow(started, e, planned, operationId, allocate, rows, t);
      EarlierPrepared(t0, e, planned, rows);
      RowsProgress(t0, started, t1, e, planned, operationId, allocate, earlier);
      ProgressStep(t0, t1, t, e, planned, operationId, allocate, earlier, row);
      Snoc(rows);
    }
  }

  lemma CleanIsPrepared(t: Tables, e: Envelope, d: Digests, planned: seq<Finding>, row: Row, v: Verdict)
    requires ValidTables(t) && row in e.rows && ValidFor(t, row) && Clean(t, e, d, row, v)
    requires FindingsOf(planned, row.importId) == v.findings
    ensures Prepared(t, e, planned, row)
  {
    if row.catalogId.Some? { ChangesReported(d, t, e, row, row.catalogId.value); }
  }

  lemma CleanArePrepared(
    t: Tables, e: Envelope, d: Digests, verdicts: seq<Verdict>, planned: seq<Finding>)
    requires ValidTables(t) && ValidEnvelope(e) && AllClean(t, e, d, e.rows, verdicts, planned)
    ensures AllPrepared(t, e, planned, e.rows)
  {
    forall i | 0 <= i < |e.rows| ensures Prepared(t, e, planned, e.rows[i]) {
      CleanIsPrepared(t, e, d, planned, e.rows[i], verdicts[i]);
    }
    forall i | 0 <= i < |e.rows| ensures ApartFrom(e.rows[i], e.rows[..i]) { RowsApart(e, i); }
  }

  lemma RowsApart(e: Envelope, i: nat)
    requires ValidEnvelope(e) && i < |e.rows|
    ensures ApartFrom(e.rows[i], e.rows[..i])
  {
    forall k | 0 <= k < i
      ensures e.rows[k].importId != e.rows[i].importId
      ensures e.rows[i].catalogId.None? || e.rows[k].catalogId != e.rows[i].catalogId
    {
    }
  }

  lemma ValidMeansUsable(t: Tables, e: Envelope)
    requires ValidTables(t) && ValidEnvelope(e)
    ensures Plannable(t, e) && Applicable(t, e.rows)
  {
  }

  /** The statements between the row that starts the operation and the one that finishes it. */
  lemma CommitParts(t: Tables, r: Request, d: Digests, t': Tables) returns (started: Tables, applied: Tables)
    requires Applicable(t, r.envelope.rows) && Commit(t, r, d) == Some(t')
    ensures r.operationId !in t.operations
    ensures started == t.(operations := t.operations[r.operationId := StartedOperation(r, d)])
    ensures Applicable(started, r.envelope.rows)
    ensures ApplyRows(
      started, r.envelope, r.plan.findings, r.operationId, Allocation(r.allocate), r.envelope.rows) == Some(applied)
    ensures t' == applied.(operations := applied.operations[
      r.operationId := StartedOperation(r, d).(result := Some(ApplicationOf(r, d)))])
  {
    started := StartOperation(t, r.operationId, StartedOperation(r, d)).value;
    applied := ApplyRows(
      started, r.envelope, r.plan.findings, r.operationId, Allocation(r.allocate), r.envelope.rows).value;
  }

  lemma NothingDone(t: Tables, started: Tables, e: Envelope, allocate: Str -> Str)
    requires ValidTables(t) && started == t.(operations := started.operations)
    ensures Progress(t, started, e, allocate, [])
  {
    assert ValidTables(started);
  }

  lemma ProgressIgnoresOperations(t: Tables, t1: Tables, t': Tables, e: Envelope, allocate: Str -> Str, rows: seq<Row>)
    requires Progress(t, t1, e, allocate, rows) && t' == t1.(operations := t'.operations)
    ensures Progress(t, t', e, allocate, rows)
  {
    assert ValidTables(t');
    forall i | 0 <= i < |rows| ensures SettledRow(t, t', e, allocate, rows[i]) {
      SettledKept(t, t1, t', e, allocate, rows[i]);
    }
    forall id | !Touches(rows, allocate, id) ensures SameEntry(t, t', id) {
      assert SameEntry(t, t1, id);
    }
    forall s | !Binds(e, rows, s) ensures SameSource(t, t', s) { assert SameSource(t, t1, s); }
  }

  /** The operation log after an application: one more operation, with its result. */
  ghost predicate Logged(t: Tables, t': Tables, r: Request, d: Digests) {
    && r.operationId !in t.operations
    && t'.operations == t.operations[r.operationId := StartedOperation(r, d).(result := Some(ApplicationOf(r, d)))]
  }

  /**
   An application that is not a replay settles every row of its envelope against the tables it started from, leaves
   every other entry and source as it was, keeps the tables valid and records its result.
   */
  lemma ApplySettles(t: Tables, matches: seq<Match>, r: Request, d: Digests, o: Outcome)
    requires ValidTables(t) && ValidEnvelope(r.envelope) && Plannable(t, r.envelope) && Applicable(t, r.envelope.rows)
    requires Apply(t, matches, r, d) == Ok(o) && !o.replayed
    ensures Progress(t, o.tables, r.envelope, Allocation(r.allocate), r.envelope.rows)
    ensures Logged(t, o.tables, r, d)
  {
    Accepted(t, matches, r, d, o);
    var verdicts := ReadyIsClean(t, matches, r.envelope, d, r.plan);
    CleanCommits(t, r, d, verdicts, o.tables);
  }

  lemma CleanCommits(t: Tables, r: Request, d: Digests, verdicts: seq<Verdict>, t': Tables)
    requires ValidTables(t) && ValidEnvelope(r.envelope) && Applicable(t, r.envelope.rows)
    requires AllClean(t, r.envelope, d, r.envelope.rows, verdicts, r.plan.findings) && Commit(t, r, d) == Some(t')
    ensures Progress(t, t', r.envelope, Allocation(r.allocate), r.envelope.rows)
    ensures Logged(t, t', r, d)
  {
    CleanArePrepared(t, r.envelope, d, verdicts, r.plan.findings);
    var started, applied := CommitParts(t, r, d, t');
    var first := StartedOperation(r, d);
    var last := first.(result := Some(ApplicationOf(r, d)));
    StartedProgress(t, started, applied, r.envelope, r.plan.findings, r.operationId, Allocation(r.allocate));
    FinishedProgress(t, applied, t', r, first, last);
  }

  lemma Overwritten<K, V>(m: map<K, V>, k: K, first: V, last: V)
    ensures m[k := first][k := last] == m[k := last]
  {
  }

  lemma FinishedProgress(
    t: Tables, applied: Tables, t': Tables, r: Request, first: ImportOperation, last: ImportOperation)
    requires Progress(t, applied, r.envelope, Allocation(r.allocate), r.envelope.rows)
    requires applied.operations == t.operations[r.operationId := first]
    requires t' == applied.(operations := applied.operations[r.operationId := last])
    ensures Progress(t, t', r.envelope, Allocation(r.allocate), r.envelope.rows)
    ensures t'.operations == t.operations[r.operationId := last]
  {
    ProgressIgnoresOperations(t, applied, t', r.envelope, Allocation(r.allocate), r.envelope.rows);
    Overwritten(t.operations, r.operationId, first, last);
  }

  lemma StartedProgress(
    t: Tables, started: Tables, applied: Tables, e: Envelope, planned: seq<Finding>, operationId: Str,
    allocate: Str -> Str)
    requires ValidTables(t) && ValidEnvelope(e) && Applicable(started, e.rows) && AllPrepared(t, e, planned, e.rows)
    requires started == t.(operations := started.operations)
    requires ApplyRows(started, e, planned, operationId, allocate, e.rows) == Some(applied)
    ensures Progress(t, applied, e, allocate, e.rows) && applied.operations == started.operations
  {
    NothingDone(t, started, e, allocate);
    RowsProgress(t, started, applied, e, planned, operationId, allocate, e.rows);
  }
}
