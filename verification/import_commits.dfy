/** When an accepted plan is carried out: what can still make its statements fail, and nothing else can. */
module ImportCommits {
  import opened Text
  import opened Wrappers
  import opened Sorting
  import opened Sequences
  import opened CatalogModel
  import opened ImportReading
  import opened TitleDuplicates
  import opened ImportPlan
  import opened ImportApply
  import opened ImportPlanFacts
  import opened ImportEffects
  import opened ImportStatements
  import opened ImportSettling
  import opened ImportRuns

  // ---- Positions ----

  ghost predicate Apart<T>(list: seq<T>, position: T -> nat) {
    forall i, j :: 0 <= i < j < |list| ==> position(list[i]) != position(list[j])
  }

  lemma PrependApart<T>(x: T, rest: seq<T>, position: T -> nat)
    requires Apart(rest, position) && forall y :: y in rest ==> position(y) != position(x)
    ensures Apart([x] + rest, position)
  {
  }

  /** Sorting elements with different positions puts them in strict order. */
  lemma SortedStrictly<T(!new)>(list: seq<T>, le: (T, T) -> bool, position: T -> nat)
    requires Apart(list, position) && (forall a, b :: le(a, b) <==> position(a) <= position(b))
    ensures ByPosition(Sort(list, le), position)
  {
    var sorted := Sort(list, le);
    SortSorts(list, le);
    SortPermutes(list, le);
    SortMembers(list, le);
    assert Distinct(list);
    PermutedDistinct(list, sorted);
    forall i, j | 0 <= i < j < |sorted| ensures position(sorted[i]) < position(sorted[j]) {
      assert le(sorted[i], sorted[j]) && sorted[i] != sorted[j];
      var a, b := IndexOf(list, sorted[i]), IndexOf(list, sorted[j]);
      assert a != b;
    }
  }

  // ---- Contributors ----

  predicate SamePair(a: Contributor, b: Contributor) { a.name == b.name && a.role == b.role }

  /** No name appears twice with one role. */
  predicate PairsApart(list: seq<Contributor>) {
    forall i, j :: 0 <= i < j < |list| ==> !SamePair(list[i], list[j])
  }

  ghost predicate InOrder(list: seq<Contributor>) {
    ByPosition(list, (c: Contributor) => c.position)
  }

  lemma LastPair(list: seq<Contributor>)
    requires list != []
    ensures PairsApart(list) <==>
      && PairsApart(list[..|list| - 1])
      && forall i :: 0 <= i < |list| - 1 ==> !SamePair(list[i], list[|list| - 1])
  {
    assert forall i :: 0 <= i < |list| - 1 ==> list[..|list| - 1][i] == list[i];
  }

  lemma LastContributorFits(incoming: seq<Contributor>)
    requires incoming != [] && InOrder(incoming)
    ensures InsertContributor(incoming[..|incoming| - 1], incoming[|incoming| - 1]).Some?
      <==> forall i :: 0 <= i < |incoming| - 1 ==> !SamePair(incoming[i], incoming[|incoming| - 1])
  {
  }

  /** Contributors with distinct positions can be inserted exactly if no name is repeated with its role. */
  lemma {:induction false} ContributorsFit(incoming: seq<Contributor>)
    requires InOrder(incoming)
    ensures InsertContributors([], incoming).Some? <==> PairsApart(incoming)
    decreases |incoming|
  {
    if incoming != [] {
      var n := |incoming| - 1;
      var earlier := InsertContributors([], incoming[..n]);
      ContributorsFit(incoming[..n]);
      LastPair(incoming);
      LastContributorFits(incoming);
      if earlier.Some? { ContributorsRefilled(incoming[..n], earlier.value); }
    }
  }

  lemma {:induction false} ContributorsOfApart(rows: seq<ContributorRow>, importId: Str)
    requires forall i, j :: 0 <= i < j < |rows| && rows[i].importId == rows[j].importId ==>
      rows[i].contributor.position != rows[j].contributor.position
    ensures Apart(ContributorsOf(rows, importId), (c: Contributor) => c.position)
    ensures forall c :: c in ContributorsOf(rows, importId) ==> ContributorRow(importId, c) in rows
    decreases |rows|
  {
    if rows != [] {
      ContributorsOfApart(rows[1..], importId);
      var rest := ContributorsOf(rows[1..], importId);
      if rows[0].importId == importId {
        forall c | c in rest ensures c.position != rows[0].contributor.position {
          var k := IndexOf(rows[1..], ContributorRow(importId, c));
          assert rows[k + 1] == ContributorRow(importId, c);
        }
        PrependApart(rows[0].contributor, rest, (c: Contributor) => c.position);
      }
    }
  }

  lemma ContributorsInOrder(e: Envelope, importId: Str)
    requires ValidEnvelope(e)
    ensures InOrder(ContributorsForImport(e, importId))
  {
    ContributorsOfApart(e.contributors, importId);
    SortedStrictly(ContributorsOf(e.contributors, importId), ContributorLe, (c: Contributor) => c.position);
  }

  lemma ReplacedContributorsFit(t: Tables, e: Envelope, row: Row, id: Str)
    requires ValidEnvelope(e)
    ensures ReplaceContributors(t, e, row, id, []).Some?
      <==> (row.contributorsAction.Replace? ==> PairsApart(ContributorsForImport(e, row.importId)))
  {
    ContributorsInOrder(e, row.importId);
    ContributorsFit(ContributorsForImport(e, row.importId));
  }

  // ---- Citations ----

  lemma {:induction false} ScopesFitIn(table: set<(Str, nat, Scope)>, id: Str, position: nat, scopes: seq<Scope>)
    requires Distinct(scopes) && forall k :: k in table ==> k.0 != id || k.1 != position
    ensures InsertScopes(table, id, position, scopes).Some?
    decreases |scopes|
  {
    if scopes != [] {
      var n := |scopes| - 1;
      ScopesFitIn(table, id, position, scopes[..n]);
      ScopesInserted(table, id, position, scopes[..n], InsertScopes(table, id, position, scopes[..n]).value);
    }
  }

  ghost predicate CitationsInOrder(rows: seq<CitationRow>) {
    && ByPosition(rows, (c: CitationRow) => c.citation.position)
    && forall i :: 0 <= i < |rows| ==> Distinct(rows[i].appliesTo.GetOr([]))
  }

  /** Citations with distinct positions and scopes that do not repeat always fit into an emptied table. */
  lemma {:induction false} CitationsFit(table: set<(Str, nat, Scope)>, id: Str, rows: seq<CitationRow>)
    requires CitationsInOrder(rows) && forall k :: k in table ==> k.0 != id
    ensures InsertCitations([], table, id, rows).Some?
    decreases |rows|
  {
    if rows != [] {
      var n := |rows| - 1;
      CitationsFit(table, id, rows[..n]);
      var (list, table') := InsertCitations([], table, id, rows[..n]).value;
      CitationsRefilled(table, id, rows[..n], list, table');
      LastCitationFits(table', id, rows, list);
    }
  }

  lemma LastCitationFits(table: set<(Str, nat, Scope)>, id: Str, rows: seq<CitationRow>, list: seq<Citation>)
    requires rows != [] && CitationsInOrder(rows) && list == CitationsIn(rows[..|rows| - 1])
    requires forall k :: k in table && k.0 == id ==> AsksScope(rows[..|rows| - 1], k.1, k.2)
    ensures var last := rows[|rows| - 1];
      && InsertCitation(list, last.citation).Some?
      && InsertScopes(table, id, last.citation.position, last.appliesTo.GetOr([])).Some?
  {
    var n := |rows| - 1;
    var position := rows[n].citation.position;
    forall k | k in table && k.0 == id ensures k.1 != position {
      var i :| 0 <= i < n && rows[..n][i].citation.position == k.1 && k.2 in rows[..n][i].appliesTo.GetOr([]);
      assert rows[i].citation.position < position;
    }
    ScopesFitIn(table, id, position, rows[n].appliesTo.GetOr([]));
  }

  lemma {:induction false} CitationsOfApart(rows: seq<CitationRow>, importId: Str)
    requires forall i, j :: 0 <= i < j < |rows| && rows[i].importId == rows[j].importId ==>
      rows[i].citation.position != rows[j].citation.position
    ensures Apart(CitationsOf(rows, importId), (c: CitationRow) => c.citation.position)
    decreases |rows|
  {
    if rows != [] {
      CitationsOfApart(rows[1..], importId);
      var rest := CitationsOf(rows[1..], importId);
      if rows[0].importId == importId {
        forall c | c in rest ensures c.citation.position != rows[0].citation.position {
          var k := IndexOf(rows[1..], c);
          assert rows[k + 1] == c;
        }
        PrependApart(rows[0], rest, (c: CitationRow) => c.citation.position);
      }
    }
  }

  lemma CitationsAreInOrder(e: Envelope, importId: Str)
    requires ValidEnvelope(e)
    ensures CitationsInOrder(SortedCitationRows(e, importId))
  {
    var list := CitationsOf(e.citations, importId);
    var sorted := SortedCitationRows(e, importId);
    CitationsOfApart(e.citations, importId);
    SortedStrictly(list, CitationRowLe, (c: CitationRow) => c.citation.position);
    SortMembers(list, CitationRowLe);
    forall i | 0 <= i < |sorted| ensures Distinct(sorted[i].appliesTo.GetOr([])) {
      assert sorted[i] in sorted && sorted[i] in e.citations;
    }
  }

  lemma ReplacedCitationsFit(t: Tables, e: Envelope, row: Row, id: Str, table: set<(Str, nat, Scope)>)
    requires ValidEnvelope(e) && forall k :: k in table ==> k.0 != id
    ensures ReplaceCitations(t, e, row, id, [], table).Some?
  {
    CitationsAreInOrder(e, row.importId);
    CitationsFit(table, id, SortedCitationRows(e, row.importId));
  }

  // ---- The statements of one row ----

  lemma CreateFits(t: Tables, e: Envelope, row: Row, id: Str)
    requires ValidTables(t) && ValidEnvelope(e)
    ensures CreateEntry(t, e, row, id).Some?
      <==> id !in t.entries && (row.contributorsAction.Replace? ==> PairsApart(ContributorsForImport(e, row.importId)))
  {
    if id !in t.entries {
      var aliases := AliasesOf(e.aliases, row.importId);
      var t1 := t.(
        entries := t.entries[id := row.content], aliases := t.aliases[id := Children(t.aliases, id) + aliases]);
      NoScopes(t, id);
      ReplacedContributorsFit(t1, e, row, id);
      ReplacedCitationsFit(ReplaceContributors(t1, e, row, id, []).GetOr(t1), e, row, id, t.scopes);
    }
  }

  lemma CollectionsFit(t: Tables, e: Envelope, row: Row, id: Str, findings: seq<Finding>)
    requires ValidEnvelope(e)
    ensures UpdateCollections(t, e, row, id, findings).Some?
      <==> (HasField(findings, ContributorsField) && row.contributorsAction.Replace?
            ==> PairsApart(ContributorsForImport(e, row.importId)))
  {
    ReplacedContributorsFit(t, e, row, id);
    var t' := if HasField(findings, ContributorsField) then ReplaceContributors(t, e, row, id, []).GetOr(t) else t;
    ReplacedCitationsFit(t', e, row, id, set s | s in t'.scopes && s.0 != id);
  }

  lemma UpdateFits(t: Tables, e: Envelope, row: Row, id: Str, findings: seq<Finding>)
    requires ValidEnvelope(e) && id in t.entries && t.entries[id].Valid() && row.content.Valid()
    requires Reports(findings, t, e, row, id)
    ensures UpdateEntry(t, e, row, id, findings).Some?
      <==> (HasField(findings, ContributorsField) && row.contributorsAction.Replace?
            ==> PairsApart(ContributorsForImport(e, row.importId)))
  {
    assert DisplaySupplied(row, findings);
    if findings != [] {
      CollectionsFit(t.(entries := t.entries[id := SetColumns(t.entries[id], row, findings)]), e, row, id, findings);
    }
  }

  // ---- Items ----

  predicate IsItemOf(k: (Str, Str), item: Item, operationId: Str, row: Row, allocate: Str -> Str) {
    k == (operationId, row.importId) && item.sourceId == row.sourceId && item.catalogId == CatalogIdOf(row, allocate)
  }

  ghost predicate IsItemOfSome(
    k: (Str, Str), item: Item, operationId: Str, rows: seq<Row>, allocate: Str -> Str)
  {
    exists i :: 0 <= i < |rows| && IsItemOf(k, item, operationId, rows[i], allocate)
  }

  /** The items are those there were and those of the rows. */
  ghost predicate ItemsLogged(
    items0: map<(Str, Str), Item>, items: map<(Str, Str), Item>, operationId: Str, rows: seq<Row>,
    allocate: Str -> Str)
  {
    && (forall k :: k in items0 ==> k in items && items[k] == items0[k])
    && forall k :: k in items && k !in items0 ==> IsItemOfSome(k, items[k], operationId, rows, allocate)
  }

  /** Rows that share neither import, source nor entry. */
  ghost predicate RowApart(row: Row, rows: seq<Row>, allocate: Str -> Str) {
    forall i :: 0 <= i < |rows| ==>
      && rows[i].importId != row.importId && rows[i].sourceId != row.sourceId
      && CatalogIdOf(rows[i], allocate) != CatalogIdOf(row, allocate)
  }

  lemma ClashesOnlyBefore(
    items0: map<(Str, Str), Item>, items: map<(Str, Str), Item>, operationId: Str, rows: seq<Row>, row: Row,
    allocate: Str -> Str)
    requires ItemsLogged(items0, items, operationId, rows, allocate) && RowApart(row, rows, allocate)
    ensures ItemClashes(items, operationId, row, CatalogIdOf(row, allocate))
      <==> ItemClashes(items0, operationId, row, CatalogIdOf(row, allocate))
  {
    forall k | k in items && k !in items0
      ensures k != (operationId, row.importId)
      ensures items[k].sourceId != row.sourceId && items[k].catalogId != CatalogIdOf(row, allocate)
    {
      assert IsItemOfSome(k, items[k], operationId, rows, allocate);
    }
  }

  lemma ItemLogged(
    items0: map<(Str, Str), Item>, items: map<(Str, Str), Item>, operationId: Str, rows: seq<Row>, row: Row,
    allocate: Str -> Str, outcome: ItemResult)
    requires ItemsLogged(items0, items, operationId, rows, allocate) && (operationId, row.importId) !in items
    ensures ItemsLogged(
      items0, items[(operationId, row.importId) := Item(row.sourceId, CatalogIdOf(row, allocate), outcome)],
      operationId, rows + [row], allocate)
  {
    var all := rows + [row];
    var items' := items[(operationId, row.importId) := Item(row.sourceId, CatalogIdOf(row, allocate), outcome)];
    forall k | k in items' && k !in items0 ensures IsItemOfSome(k, items'[k], operationId, all, allocate) {
      if k == (operationId, row.importId) {
        assert IsItemOf(k, items'[k], operationId, all[|rows|], allocate);
      } else {
        var i :| 0 <= i < |rows| && IsItemOf(k, items[k], operationId, rows[i], allocate);
        assert IsItemOf(k, items'[k], operationId, all[i], allocate);
      }
    }
  }

  // ---- The rows of a plan ----

  /** The row writes contributors: it creates its entry, or the plan changes them. */
  predicate WritesContributors(planned: seq<Finding>, row: Row) {
    && row.contributorsAction.Replace?
    && (row.catalogId.None? || HasField(FindingsOf(planned, row.importId), ContributorsField))
  }

  /** Seen from the tables before the application, nothing stands against a row that comes after these. */
  ghost predicate Fits(
    t: Tables, e: Envelope, planned: seq<Finding>, operationId: Str, allocate: Str -> Str, rows: seq<Row>, row: Row)
  {
    var id := CatalogIdOf(row, allocate);
    && (row.catalogId.None? ==> id !in t.entries && !Touches(rows, allocate, id))
    && (WritesContributors(planned, row) ==> PairsApart(ContributorsForImport(e, row.importId)))
    && !ItemClashes(t.items, operationId, row, id)
  }

  /** The entry of a row is there now exactly if it was there before or an earlier row created it. */
  lemma EntryIsThere(t0: Tables, t: Tables, e: Envelope, allocate: Str -> Str, rows: seq<Row>, id: Str)
    requires Progress(t0, t, e, allocate, rows)
    ensures id in t.entries <==> id in t0.entries || Touches(rows, allocate, id)
  {
    if Touches(rows, allocate, id) {
      var i :| 0 <= i < |rows| && CatalogIdOf(rows[i], allocate) == id;
      assert SettledRow(t0, t, e, allocate, rows[i]);
    } else {
      assert SameEntry(t0, t, id);
    }
  }

  ghost predicate HasSource(e: Envelope, row: Row) {
    HasPrimary(ProvenanceOf(e.provenance, row.importId), row.sourceId)
  }

  lemma PrimaryIsListed(e: Envelope, row: Row)
    requires HasSource(e, row)
    ensures Lists(ProvenanceOf(e.provenance, row.importId), row.sourceId)
  {
  }

  lemma SourcesDiffer(e: Envelope, a: Row, b: Row)
    requires ValidEnvelope(e) && HasSource(e, a) && HasSource(e, b) && a.importId != b.importId
    ensures a.sourceId != b.sourceId
  {
    PrimaryIsListed(e, a);
    PrimaryIsListed(e, b);
    ListsApart(e, a, b, a.sourceId);
  }

  lemma StaysApart(e: Envelope, allocate: Str -> Str, rows: seq<Row>, row: Row)
    requires ValidEnvelope(e) && ApartFrom(row, rows) && !Touches(rows, allocate, CatalogIdOf(row, allocate))
    requires HasSource(e, row) && forall i :: 0 <= i < |rows| ==> HasSource(e, rows[i])
    ensures RowApart(row, rows, allocate)
  {
    forall i | 0 <= i < |rows| ensures rows[i].sourceId != row.sourceId { SourcesDiffer(e, rows[i], row); }
  }

  lemma TargetUntouched(t0: Tables, t: Tables, e: Envelope, allocate: Str -> Str, rows: seq<Row>, row: Row)
    requires ValidEnvelope(e) && Progress(t0, t, e, allocate, rows) && ApartFrom(row, rows)
    requires row.catalogId.Some? && row.catalogId.value in t0.entries
    ensures !Touches(rows, allocate, row.catalogId.value) && SameEntry(t0, t, row.catalogId.value)
  {
    RowUntouched(t0, t, e, allocate, rows, row);
  }

  function WriteEntry(
    t: Tables, e: Envelope, planned: seq<Finding>, allocate: Str -> Str, row: Row): Option<Tables>
    requires ValidFor(t, row)
  {
    var id := CatalogIdOf(row, allocate);
    if row.catalogId.None? then CreateEntry(t, e, row, id)
    else UpdateEntry(t, e, row, id, FindingsOf(planned, row.importId))
  }

  /** What the entry statements of a row need. */
  lemma EntryFits(
    t0: Tables, t: Tables, e: Envelope, planned: seq<Finding>, allocate: Str -> Str, rows: seq<Row>, row: Row)
    requires ValidEnvelope(e) && Progress(t0, t, e, allocate, rows) && ValidFor(t, row)
    requires Prepared(t0, e, planned, row) && ApartFrom(row, rows)
    ensures var id := CatalogIdOf(row, allocate);
      WriteEntry(t, e, planned, allocate, row).Some? <==>
        && (row.catalogId.None? ==> id !in t0.entries && !Touches(rows, allocate, id))
        && (WritesContributors(planned, row) ==> PairsApart(ContributorsForImport(e, row.importId)))
  {
    var id := CatalogIdOf(row, allocate);
    EntryIsThere(t0, t, e, allocate, rows, id);
    if row.catalogId.None? {
      CreateFits(t, e, row, id);
    } else {
      TargetUntouched(t0, t, e, allocate, rows, row);
      ReportsRebased(FindingsOf(planned, row.importId), t0, t, e, row, id);
      UpdateFits(t, e, row, id, FindingsOf(planned, row.importId));
    }
  }

  /** The statements of a row go through exactly if those of its entry do, it has its source, and no item clashes. */
  lemma RowGoesThrough(
    t: Tables, e: Envelope, planned: seq<Finding>, operationId: Str, allocate: Str -> Str, row: Row)
    requires ValidFor(t, row) && HasSource(e, row)
    ensures var r := ApplyRow(t, e, planned, operationId, allocate, row);
      var id := CatalogIdOf(row, allocate);
      && (r.Some? <==> WriteEntry(t, e, planned, allocate, row).Some? && !ItemClashes(t.items, operationId, row, id))
      && (r.Some? ==> r.value.items == t.items[(operationId, row.importId) :=
            Item(row.sourceId, id, OutcomeOf(row, FindingsOf(planned, row.importId)))])
  {
  }

  lemma ItemsFit(
    t0: Tables, t: Tables, e: Envelope, operationId: Str, allocate: Str -> Str, rows: seq<Row>, row: Row,
    outcome: ItemResult)
    requires ValidEnvelope(e) && ApartFrom(row, rows) && !Touches(rows, allocate, CatalogIdOf(row, allocate))
    requires HasSource(e, row) && forall i :: 0 <= i < |rows| ==> HasSource(e, rows[i])
    requires ItemsLogged(t0.items, t.items, operationId, rows, allocate)
    ensures var id := CatalogIdOf(row, allocate);
      && (ItemClashes(t.items, operationId, row, id) <==> ItemClashes(t0.items, operationId, row, id))
      && (!ItemClashes(t.items, operationId, row, id) ==> ItemsLogged(
            t0.items, t.items[(operationId, row.importId) := Item(row.sourceId, id, outcome)], operationId,
            rows + [row], allocate))
  {
    StaysApart(e, allocate, rows, row);
    ClashesOnlyBefore(t0.items, t.items, operationId, rows, row, allocate);
    if (operationId, row.importId) !in t.items {
      ItemLogged(t0.items, t.items, operationId, rows, row, allocate, outcome);
    }
  }

  /** These rows are settled, and this one is prepared to come next. */
  ghost predicate IsNext(
    t0: Tables, t: Tables, e: Envelope, planned: seq<Finding>, allocate: Str -> Str, rows: seq<Row>, row: Row)
  {
    && ValidEnvelope(e) && Progress(t0, t, e, allocate, rows)
    && Prepared(t0, e, planned, row) && ApartFrom(row, rows)
    && HasSource(e, row) && forall i :: 0 <= i < |rows| ==> HasSource(e, rows[i])
  }

  lemma RowFits(
    t0: Tables, t: Tables, e: Envelope, planned: seq<Finding>, operationId: Str, allocate: Str -> Str,
    rows: seq<Row>, row: Row)
    requires ValidFor(t, row) && IsNext(t0, t, e, planned, allocate, rows, row)
    requires ItemsLogged(t0.items, t.items, operationId, rows, allocate)
    ensures ApplyRow(t, e, planned, operationId, allocate, row).Some?
      <==> Fits(t0, e, planned, operationId, allocate, rows, row)
    ensures var r := ApplyRow(t, e, planned, operationId, allocate, row);
      r.Some? ==> ItemsLogged(t0.items, r.value.items, operationId, rows + [row], allocate)
  {
    EntryFits(t0, t, e, planned, allocate, rows, row);
    RowGoesThrough(t, e, planned, operationId, allocate, row);
    if row.catalogId.Some? { TargetUntouched(t0, t, e, allocate, rows, row); }
    if !Touches(rows, allocate, CatalogIdOf(row, allocate)) {
      ItemsFit(t0, t, e, operationId, allocate, rows, row, OutcomeOf(row, FindingsOf(planned, row.importId)));
    }
  }

  ghost predicate AllFit(
    t: Tables, e: Envelope, planned: seq<Finding>, operationId: Str, allocate: Str -> Str, rows: seq<Row>)
  {
    forall i :: 0 <= i < |rows| ==> Fits(t, e, planned, operationId, allocate, rows[..i], rows[i])
  }

  lemma AllFitGrows(
    t: Tables, e: Envelope, planned: seq<Finding>, operationId: Str, allocate: Str -> Str, rows: seq<Row>)
    requires rows != []
    ensures var n := |rows| - 1;
      AllFit(t, e, planned, operationId, allocate, rows)
      <==> AllFit(t, e, planned, operationId, allocate, rows[..n])
           && Fits(t, e, planned, operationId, allocate, rows[..n], rows[n])
  {
    var n := |rows| - 1;
    forall i | 0 <= i < n ensures rows[..n][..i] == rows[..i] {}
    assert forall i :: 0 <= i < n ==> rows[..n][i] == rows[i];
  }

  /** Nothing is done yet, and all these rows are prepared. */
  ghost predicate IsStart(t0: Tables, started: Tables, e: Envelope, planned: seq<Finding>, rows: seq<Row>)
  {
    && ValidEnvelope(e) && ValidTables(t0) && started == t0.(operations := started.operations)
    && Applicable(started, rows)
    && AllPrepared(t0, e, planned, rows) && (forall i :: 0 <= i < |rows| ==> HasSource(e, rows[i]))
  }

  lemma IsStartEarlier(t0: Tables, started: Tables, e: Envelope, planned: seq<Finding>, rows: seq<Row>)
    requires rows != [] && IsStart(t0, started, e, planned, rows)
    ensures IsStart(t0, started, e, planned, rows[..|rows| - 1])
  {
    EarlierPrepared(t0, e, planned, rows);
  }

  /** The statements of these rows go through exactly if all of them fit, and then log their items. */
  ghost predicate GoThroughIfFitting(
    t0: Tables, started: Tables, e: Envelope, planned: seq<Finding>, operationId: Str, allocate: Str -> Str,
    rows: seq<Row>)
    requires Applicable(started, rows)
  {
    var r := ApplyRows(started, e, planned, operationId, allocate, rows);
    && (r.Some? <==> AllFit(t0, e, planned, operationId, allocate, rows))
    && (r.Some? ==> ItemsLogged(t0.items, r.value.items, operationId, rows, allocate))
  }

  lemma {:induction false} RowsFit(
    t0: Tables, started: Tables, e: Envelope, planned: seq<Finding>, operationId: Str, allocate: Str -> Str,
    rows: seq<Row>)
    requires IsStart(t0, started, e, planned, rows)
    ensures GoThroughIfFitting(t0, started, e, planned, operationId, allocate, rows)
    decreases |rows|
  {
    if rows == [] {
      NoRowsFit(t0, started, e, planned, operationId, allocate, rows);
    } else {
      var n := |rows| - 1;
      IsStartEarlier(t0, started, e, planned, rows);
      RowsFit(t0, started, e, planned, operationId, allocate, rows[..n]);
      OneMoreFits(t0, started, e, planned, operationId, allocate, rows);
    }
  }

  lemma NoRowsFit(
    t0: Tables, started: Tables, e: Envelope, planned: seq<Finding>, operationId: Str, allocate: Str -> Str,
    rows: seq<Row>)
    requires rows == [] && Applicable(started, rows) && started.items == t0.items
    ensures GoThroughIfFitting(t0, started, e, planned, operationId, allocate, rows)
  {
  }

  lemma OneMoreFits(
    t0: Tables, started: Tables, e: Envelope, planned: seq<Finding>, operationId: Str, allocate: Str -> Str,
    rows: seq<Row>)
    requires rows != [] && IsStart(t0, started, e, planned, rows) && Applicable(started, rows[..|rows| - 1])
    requires GoThroughIfFitting(t0, started, e, planned, operationId, allocate, rows[..|rows| - 1])
    ensures GoThroughIfFitting(t0, started, e, planned, operationId, allocate, rows)
  {
    var earlier := ApplyRows(started, e, planned, operationId, allocate, rows[..|rows| - 1]);
    AllFitGrows(t0, e, planned, operationId, allocate, rows);
    if earlier.Some? { LastRowFits(t0, started, earlier.value, e, planned, operationId, allocate, rows); }
  }

  lemma LastRowFits(
    t0: Tables, started: Tables, t: Tables, e: Envelope, planned: seq<Finding>, operationId: Str,
    allocate: Str -> Str, rows: seq<Row>)
    requires rows != [] && IsStart(t0, started, e, planned, rows)
    requires ApplyRows(started, e, planned, operationId, allocate, rows[..|rows| - 1]) == Some(t)
    requires ItemsLogged(t0.items, t.items, operationId, rows[..|rows| - 1], allocate)
    ensures var n := |rows| - 1;
      var r := ApplyRows(started, e, planned, operationId, allocate, rows);
      && (r.Some? <==> Fits(t0, e, planned, operationId, allocate, rows[..n], rows[n]))
      && (r.Some? ==> ItemsLogged(t0.items, r.value.items, operationId, rows, allocate))
  {
    LastIsPrepared(t0, started, t, e, planned, operationId, allocate, rows);
    LastApplies(started, t, e, planned, operationId, allocate, rows);
    RowFits(t0, t, e, planned, operationId, allocate, rows[..|rows| - 1], rows[|rows| - 1]);
    Snoc(rows);
  }

  lemma LastIsPrepared(
    t0: Tables, started: Tables, t: Tables, e: Envelope, planned: seq<Finding>, operationId: Str,
    allocate: Str -> Str, rows: seq<Row>)
    requires rows != [] && IsStart(t0, started, e, planned, rows)
    requires ApplyRows(started, e, planned, operationId, allocate, rows[..|rows| - 1]) == Some(t)
    ensures IsNext(t0, t, e, planned, allocate, rows[..|rows| - 1], rows[|rows| - 1])
  {
    EarlierPrepared(t0, e, planned, rows);
    NothingDone(t0, started, e, allocate);
    RowsProgress(t0, started, t, e, planned, operationId, allocate, rows[..|rows| - 1]);
  }

  lemma LastApplies(
    started: Tables, t: Tables, e: Envelope, planned: seq<Finding>, operationId: Str, allocate: Str -> Str,
    rows: seq<Row>)
    requires rows != [] && Applicable(started, rows)
    requires ApplyRows(started, e, planned, operationId, allocate, rows[..|rows| - 1]) == Some(t)
    ensures ValidFor(t, rows[|rows| - 1])
    ensures ApplyRows(started, e, planned, operationId, allocate, rows)
      == ApplyRow(t, e, planned, operationId, allocate, rows[|rows| - 1])
  {
  }

  // ---- The application ----

  /** Allocated ids are fresh, all ids apart, no written contributor repeats a name with its role, no item clashes. */
  ghost predicate RowsClear(
    t: Tables, e: Envelope, planned: seq<Finding>, operationId: Str, allocate: Str -> Str, rows: seq<Row>)
  {
    && (forall row :: row in rows && row.catalogId.None? ==> allocate(row.importId) !in t.entries)
    && IdsApart(rows, allocate)
    && (forall row :: row in rows && WritesContributors(planned, row) ==>
          PairsApart(ContributorsForImport(e, row.importId)))
    && forall row :: row in rows ==> !ItemClashes(t.items, operationId, row, CatalogIdOf(row, allocate))
  }

  /** What a caller can check of the tables and the request before the statements run. */
  ghost predicate NothingClashes(t: Tables, r: Request, d: Digests) {
    && r.operationId !in t.operations
    && (forall k :: k in t.operations ==> !SameHashes(t.operations[k], StartedOperation(r, d)))
    && RowsClear(t, r.envelope, r.plan.findings, r.operationId, Allocation(r.allocate), r.envelope.rows)
  }

  lemma FittingIsClear(
    t: Tables, e: Envelope, planned: seq<Finding>, operationId: Str, allocate: Str -> Str)
    requires ValidEnvelope(e)
    requires forall row :: row in e.rows && row.catalogId.Some? ==> row.catalogId.value in t.entries
    ensures AllFit(t, e, planned, operationId, allocate, e.rows)
      <==> RowsClear(t, e, planned, operationId, allocate, e.rows)
  {
    if AllFit(t, e, planned, operationId, allocate, e.rows) {
      FittingIdsApart(t, e, planned, operationId, allocate);
      forall row | row in e.rows
        ensures exists i :: 0 <= i < |e.rows| && Fits(t, e, planned, operationId, allocate, e.rows[..i], row)
      {
        assert Fits(t, e, planned, operationId, allocate, e.rows[..IndexOf(e.rows, row)], row);
      }
    }
    if RowsClear(t, e, planned, operationId, allocate, e.rows) {
      forall i | 0 <= i < |e.rows| ensures Fits(t, e, planned, operationId, allocate, e.rows[..i], e.rows[i]) {
        assert e.rows[i] in e.rows;
        assert !Touches(e.rows[..i], allocate, CatalogIdOf(e.rows[i], allocate));
      }
    }
  }

  lemma FittingIdsApart(t: Tables, e: Envelope, planned: seq<Finding>, operationId: Str, allocate: Str -> Str)
    requires ValidEnvelope(e) && AllFit(t, e, planned, operationId, allocate, e.rows)
    requires forall row :: row in e.rows && row.catalogId.Some? ==> row.catalogId.value in t.entries
    ensures IdsApart(e.rows, allocate)
  {
    forall i, j | 0 <= i < j < |e.rows| ensures CatalogIdOf(e.rows[i], allocate) != CatalogIdOf(e.rows[j], allocate) {
      assert e.rows[i] in e.rows && e.rows[j] in e.rows;
      assert Fits(t, e, planned, operationId, allocate, e.rows[..i], e.rows[i]);
      assert Fits(t, e, planned, operationId, allocate, e.rows[..j], e.rows[j]);
      if e.rows[j].catalogId.None? {
        assert e.rows[..j][i] == e.rows[i];
        assert !Touches(e.rows[..j], allocate, CatalogIdOf(e.rows[j], allocate));
      }
    }
  }

  lemma CommitStarts(t: Tables, r: Request, d: Digests, started: Tables)
    requires Applicable(t, r.envelope.rows) && Applicable(started, r.envelope.rows)
    requires started == t.(operations := t.operations[r.operationId := StartedOperation(r, d)])
    ensures Commit(t, r, d).Some? <==>
      && r.operationId !in t.operations
      && (forall k :: k in t.operations ==> !SameHashes(t.operations[k], StartedOperation(r, d)))
      && ApplyRows(
           started, r.envelope, r.plan.findings, r.operationId, Allocation(r.allocate), r.envelope.rows).Some?
  {
  }

  /** With a clean plan, the statements go through exactly if nothing clashes. */
  lemma CleanCommitsExactly(t: Tables, r: Request, d: Digests, verdicts: seq<Verdict>)
    requires ValidTables(t) && ValidEnvelope(r.envelope) && Applicable(t, r.envelope.rows)
    requires AllClean(t, r.envelope, d, r.envelope.rows, verdicts, r.plan.findings)
    ensures Commit(t, r, d).Some? <==> NothingClashes(t, r, d)
  {
    var e, allocate, planned := r.envelope, Allocation(r.allocate), r.plan.findings;
    var started := t.(operations := t.operations[r.operationId := StartedOperation(r, d)]);
    CleanArePrepared(t, e, d, verdicts, planned);
    CleanHaveSources(t, e, d, verdicts, planned);
    CommitStarts(t, r, d, started);
    RowsFit(t, started, e, planned, r.operationId, allocate, e.rows);
    FittingIsClear(t, e, planned, r.operationId, allocate);
  }

  lemma CleanHaveSources(t: Tables, e: Envelope, d: Digests, verdicts: seq<Verdict>, planned: seq<Finding>)
    requires AllClean(t, e, d, e.rows, verdicts, planned)
    ensures forall i :: 0 <= i < |e.rows| ==> HasSource(e, e.rows[i])
    ensures forall row :: row in e.rows && row.catalogId.Some? ==> row.catalogId.value in t.entries
  {
    forall i | 0 <= i < |e.rows|
      ensures HasSource(e, e.rows[i]) && (e.rows[i].catalogId.Some? ==> e.rows[i].catalogId.value in t.entries)
    {
      assert Clean(t, e, d, e.rows[i], verdicts[i]);
    }
  }

  /**
   A request that is neither refused nor a replay is carried out exactly if nothing clashes; otherwise a statement fails
   and the tables stay as they were.
   */
  lemma CarriedOutExactly(t: Tables, matches: seq<Match>, r: Request, d: Digests)
    requires ValidTables(t) && ValidEnvelope(r.envelope) && Plannable(t, r.envelope) && Applicable(t, r.envelope.rows)
    requires Gate(t.operations, r, d).None? && CheckRequest(t, matches, r, d).None?
    ensures NothingClashes(t, r, d) ==> Apply(t, matches, r, d).Ok? && !Apply(t, matches, r, d).value.replayed
    ensures !NothingClashes(t, r, d) ==> Apply(t, matches, r, d) == Err(RowFails)
  {
    NotRefused(t, matches, r, d);
    var verdicts := ReadyIsClean(t, matches, r.envelope, d, r.plan);
    CleanCommitsExactly(t, r, d, verdicts);
  }
}
