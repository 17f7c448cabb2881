/** What the statements that refill a collection or bind a source leave in the tables. */
module ImportStatements {
  import opened Text
  import opened Wrappers
  import opened Sorting
  import opened CatalogModel
  import opened ImportReading
  import opened ImportApply
  import opened ImportEffects

  // ---- Contributors ----

  /** Refilling an emptied list in position order leaves exactly the rows inserted, with distinct positions. */
  lemma {:induction false} ContributorsRefilled(incoming: seq<Contributor>, list: seq<Contributor>)
    requires Sorted(incoming, ContributorLe) && InsertContributors([], incoming) == Some(list)
    ensures list == incoming && ByPosition(list, (c: Contributor) => c.position)
  {
    if incoming != [] {
      var n := |incoming| - 1;
      var earlier := InsertContributors([], incoming[..n]).value;
      ContributorsRefilled(incoming[..n], earlier);
      forall i | 0 <= i < |earlier| ensures !ContributorLe(incoming[n], earlier[i]) {
        assert ContributorLe(incoming[i], incoming[n]);
      }
      InsertLast(incoming[n], earlier, ContributorLe);
      assert incoming == incoming[..n] + [incoming[n]];
    }
  }

  lemma ContributorsForImportSorted(e: Envelope, importId: Str)
    ensures Sorted(ContributorsForImport(e, importId), ContributorLe)
  {
    SortSorts(ContributorsOf(e.contributors, importId), ContributorLe);
  }

  // ---- Citations ----

  function CitationsIn(rows: seq<CitationRow>): (r: seq<Citation>)
    ensures |r| == |rows| && forall i :: 0 <= i < |r| ==> r[i] == rows[i].citation
  {
    seq(|rows|, i requires 0 <= i < |rows| => rows[i].citation)
  }

  /** The scope rows that the rows of one import ask for. */
  ghost predicate AsksScope(rows: seq<CitationRow>, position: nat, s: Scope) {
    exists i :: 0 <= i < |rows| && rows[i].citation.position == position && s in rows[i].appliesTo.GetOr([])
  }

  lemma {:induction false} ScopesInserted(
    table: set<(Str, nat, Scope)>, id: Str, position: nat, scopes: seq<Scope>, table': set<(Str, nat, Scope)>)
    requires InsertScopes(table, id, position, scopes) == Some(table')
    ensures forall k :: k in table' <==> k in table || (k.0 == id && k.1 == position && k.2 in scopes)
  {
    if scopes != [] {
      var n := |scopes| - 1;
      ScopesInserted(table, id, position, scopes[..n], InsertScopes(table, id, position, scopes[..n]).value);
      assert forall s :: s in scopes <==> s in scopes[..n] || s == scopes[n];
    }
  }

  lemma AsksScopeAppend(rows: seq<CitationRow>, last: CitationRow, position: nat, s: Scope)
    ensures AsksScope(rows + [last], position, s) <==>
      AsksScope(rows, position, s) || (last.citation.position == position && s in last.appliesTo.GetOr([]))
  {
    var all := rows + [last];
    if i :| 0 <= i < |rows| && rows[i].citation.position == position && s in rows[i].appliesTo.GetOr([]) {
      assert all[i] == rows[i];
    }
    if last.citation.position == position && s in last.appliesTo.GetOr([]) { assert all[|rows|] == last; }
  }

  lemma CitationAppended(rows: seq<CitationRow>, last: CitationRow)
    requires Sorted(rows + [last], CitationRowLe) && InsertCitation(CitationsIn(rows), last.citation).Some?
    requires ByPosition(CitationsIn(rows), (c: Citation) => c.position)
    ensures InsertCitation(CitationsIn(rows), last.citation) == Some(CitationsIn(rows + [last]))
    ensures ByPosition(CitationsIn(rows + [last]), (c: Citation) => c.position)
  {
    var list := CitationsIn(rows);
    forall i | 0 <= i < |list| ensures list[i].position < last.citation.position {
      assert CitationRowLe((rows + [last])[i], (rows + [last])[|rows|]);
    }
    InsertLast(last.citation, list, CitationLe);
    assert CitationsIn(rows + [last]) == list + [last.citation];
  }

  /** Refilling emptied citations in position order leaves exactly the rows inserted and the scopes they ask for. */
  lemma {:induction false} CitationsRefilled(
    table: set<(Str, nat, Scope)>, id: Str, rows: seq<CitationRow>, list: seq<Citation>, table': set<(Str, nat, Scope)>)
    requires Sorted(rows, CitationRowLe) && InsertCitations([], table, id, rows) == Some((list, table'))
    ensures list == CitationsIn(rows) && ByPosition(list, (c: Citation) => c.position)
    ensures forall k :: k in table' <==> k in table || (k.0 == id && AsksScope(rows, k.1, k.2))
  {
    if rows != [] {
      var n := |rows| - 1;
      var (earlier, table1) := InsertCitations([], table, id, rows[..n]).value;
      CitationsRefilled(table, id, rows[..n], earlier, table1);
      assert rows == rows[..n] + [rows[n]];
      CitationAppended(rows[..n], rows[n]);
      ScopesInserted(table1, id, rows[n].citation.position, rows[n].appliesTo.GetOr([]), table');
      forall k ensures k in table' <==> k in table || (k.0 == id && AsksScope(rows, k.1, k.2)) {
        AsksScopeAppend(rows[..n], rows[n], k.1, k.2);
      }
    }
  }

  lemma {:induction false} StoredDistinct(table: set<(Str, nat, Scope)>, id: Str, position: nat, names: seq<Scope>)
    requires Distinct(names)
    ensures Distinct(ScopesStored(table, id, position, names))
  {
    if names != [] {
      StoredDistinct(table, id, position, names[1..]);
      var rest := ScopesStored(table, id, position, names[1..]);
      forall i | 0 <= i < |rest| ensures rest[i] != names[0] { assert rest[i] in names[1..]; }
    }
  }

  lemma EveryScopeIsNamed(s: Scope)
    ensures s in SCOPE_NAME_ORDER && Distinct(SCOPE_NAME_ORDER)
  {
    assert SCOPE_NAME_ORDER[0] == DescriptionScope && SCOPE_NAME_ORDER[1] == HistoricalContextScope;
    assert SCOPE_NAME_ORDER[2] == RecordScope && SCOPE_NAME_ORDER[3] == ScholarlyResearchScope;
    assert SCOPE_NAME_ORDER[4] == TranscriptionScope;
    match s
    case RecordScope =>
    case DescriptionScope =>
    case TranscriptionScope =>
    case HistoricalContextScope =>
    case ScholarlyResearchScope =>
  }

  lemma HasMember<T>(s: seq<T>)
    ensures s != [] ==> exists x :: x in s
  {
    if s != [] { assert s[0] in s; }
  }

  /** Scopes read back from the table mean what the scopes that were written mean. */
  lemma ScopesReadBack(table: set<(Str, nat, Scope)>, id: Str, position: nat, given: Option<seq<Scope>>)
    requires given.Some? ==> given.value != [] && Distinct(given.value)
    requires forall s :: (id, position, s) in table <==> s in given.GetOr([])
    ensures SemanticScopes(ScopesAt(table, id, position)) == SemanticScopes(given)
  {
    var stored := ScopesStored(table, id, position, SCOPE_NAME_ORDER);
    EveryScopeIsNamed(RecordScope);
    StoredDistinct(table, id, position, SCOPE_NAME_ORDER);
    forall s ensures s in stored <==> s in given.GetOr([]) { EveryScopeIsNamed(s); }
    if given.None? {
      HasMember(stored);
    } else {
      assert given.value[0] in stored;
      DistinctSame(stored, given.value);
      ScopeOrder();
      SortCanonical(stored, given.value, ScopeLe);
      if |given.value| == 1 { assert stored == given.value by { assert stored[0] in given.value; } }
    }
  }

  lemma {:induction false} SemanticsInsert(x: CitationRow, s: seq<CitationRow>)
    ensures Semantics(Insert(x, s, CitationRowLe)) == Insert(Semantics([x])[0], Semantics(s), SemanticLe)
  {
    if s != [] && !CitationRowLe(x, s[0]) {
      SemanticsInsert(x, s[1..]);
      assert Semantics(s)[1..] == Semantics(s[1..]);
    }
  }

  /** Sorting the rows and reading them commute. */
  lemma {:induction false} SemanticsSort(s: seq<CitationRow>)
    ensures Semantics(Sort(s, CitationRowLe)) == Sort(Semantics(s), SemanticLe)
  {
    if s != [] {
      SemanticsSort(s[1..]);
      SemanticsInsert(s[0], Sort(s[1..], CitationRowLe));
      assert Semantics(s)[1..] == Semantics(s[1..]);
    }
  }

  /** The citations read back after refilling are those of the import. */
  lemma CitationsReadBack(e: Envelope, importId: Str, t: Tables, id: Str, table: set<(Str, nat, Scope)>)
    requires ValidEnvelope(e)
    requires forall k :: k in table ==> k.0 != id
    requires id in t.citations
      && InsertCitations([], table, id, SortedCitationRows(e, importId)) == Some((t.citations[id], t.scopes))
    ensures ExistingCitations(t, id) == CitationsForImport(e, importId)
    ensures ByPosition(t.citations[id], (c: Citation) => c.position)
    ensures forall k :: k in t.scopes && k.0 != id <==> k in table
    ensures forall k :: k in t.scopes && k.0 == id ==> HasPosition(t.citations[id], k.1)
  {
    var rows := SortedCitationRows(e, importId);
    SortSorts(CitationsOf(e.citations, importId), CitationRowLe);
    SortMembers(CitationsOf(e.citations, importId), CitationRowLe);
    CitationsRefilled(table, id, rows, t.citations[id], t.scopes);
    forall i | 0 <= i < |rows|
      ensures SemanticScopes(ScopesAt(t.scopes, id, rows[i].citation.position)) == SemanticScopes(rows[i].appliesTo)
    {
      RowScopes(e, importId, t, id, rows, i);
    }
    assert StoredSemantics(t.citations[id], t.scopes, id) == Semantics(rows);
    SemanticsSort(CitationsOf(e.citations, importId));
    SortKeeps(Semantics(rows), SemanticLe);
    forall k | k in t.scopes && k.0 == id ensures HasPosition(t.citations[id], k.1) {
      var i :| 0 <= i < |rows| && rows[i].citation.position == k.1 && k.2 in rows[i].appliesTo.GetOr([]);
      assert t.citations[id][i] in t.citations[id];
    }
  }

  lemma RowScopes(e: Envelope, importId: Str, t: Tables, id: Str, rows: seq<CitationRow>, i: nat)
    requires ValidEnvelope(e) && i < |rows| && (forall r :: r in rows ==> r in CitationsOf(e.citations, importId))
    requires ByPosition(CitationsIn(rows), (c: Citation) => c.position)
    requires forall k :: k in t.scopes && k.0 == id <==> k.0 == id && AsksScope(rows, k.1, k.2)
    ensures SemanticScopes(ScopesAt(t.scopes, id, rows[i].citation.position)) == SemanticScopes(rows[i].appliesTo)
  {
    var position := rows[i].citation.position;
    assert rows[i] in rows && rows[i] in e.citations;
    forall s ensures (id, position, s) in t.scopes <==> s in rows[i].appliesTo.GetOr([]) {
      if AsksScope(rows, position, s) {
        var j :| 0 <= j < |rows| && rows[j].citation.position == position && s in rows[j].appliesTo.GetOr([]);
        assert CitationsIn(rows)[i].position == CitationsIn(rows)[j].position;
        assert i == j;
      }
      assert (id, position, s) in t.scopes <==> AsksScope(rows, position, s);
    }
    ScopesReadBack(t.scopes, id, position, rows[i].appliesTo);
  }

  // ---- Sources ----

  ghost predicate DistinctSources(items: seq<Provenance>) {
    forall i, j :: 0 <= i < j < |items| ==> items[i].sourceId != items[j].sourceId
  }

  ghost predicate Lists(items: seq<Provenance>, s: Str) {
    exists i :: 0 <= i < |items| && items[i].sourceId == s
  }

  ghost predicate UpsertsTo(sources: map<Str, SourceRow>, id: Str, items: seq<Provenance>, r: map<Str, SourceRow>) {
    && SourcesBound(r, items, id)
    && forall s :: !Lists(items, s) ==> (s in r <==> s in sources) && (s in r ==> r[s] == sources[s])
  }

  lemma UpsertStep(
    sources: map<Str, SourceRow>, id: Str, items: seq<Provenance>, last: Provenance, r: map<Str, SourceRow>)
    requires UpsertsTo(sources, id, items, r) && !Lists(items, last.sourceId)
    requires last.sourceId !in sources || sources[last.sourceId].catalogId == id
    ensures UpsertsTo(sources, id, items + [last], Upsert(r, id, last))
  {
    var all := items + [last];
    assert all[|items|] == last;
    forall item | item in items ensures item.sourceId != last.sourceId { assert Lists(items, item.sourceId); }
    forall s | !Lists(all, s) ensures !Lists(items, s) && s != last.sourceId {
      assert forall i :: 0 <= i < |items| ==> all[i] == items[i];
    }
  }

  /** Upserting sources that are unbound or bound here binds them all, with the facts given, and no others. */
  lemma {:induction false} SourcesUpserted(sources: map<Str, SourceRow>, id: Str, items: seq<Provenance>)
    requires DistinctSources(items)
    requires forall item :: item in items ==> item.sourceId !in sources || sources[item.sourceId].catalogId == id
    ensures UpsertsTo(sources, id, items, Upserts(sources, id, items))
  {
    if items != [] {
      var n := |items| - 1;
      SourcesUpserted(sources, id, items[..n]);
      assert items == items[..n] + [items[n]];
      UpsertStep(sources, id, items[..n], items[n], Upserts(sources, id, items[..n]));
    }
  }
}
