/** Applying a ready plan settles every row: the tables hold what each row asks for, and nothing else has changed. */
module ImportSettling {
  import opened Text
  import opened Wrappers
  import opened Sorting
  import opened CatalogModel
  import opened ImportReading
  import opened ImportPlan
  import opened ImportApply
  import opened ImportEffects
  import opened ImportStatements

  // ---- Reading the tables of an entry ----

  lemma {:induction false} SameStored(
    table: set<(Str, nat, Scope)>, table': set<(Str, nat, Scope)>, id: Str, position: nat, names: seq<Scope>)
    requires forall s :: (id, position, s) in table <==> (id, position, s) in table'
    ensures ScopesStored(table, id, position, names) == ScopesStored(table', id, position, names)
  {
    if names != [] { SameStored(table, table', id, position, names[1..]); }
  }

  /** The citations read for an entry depend on its own rows only. */
  lemma SameCitations(t: Tables, t': Tables, id: Str)
    requires Children(t.citations, id) == Children(t'.citations, id)
    requires forall p, s :: (id, p, s) in t.scopes <==> (id, p, s) in t'.scopes
    ensures ExistingCitations(t, id) == ExistingCitations(t', id)
  {
    var citations := Children(t.citations, id);
    forall p: nat ensures ScopesAt(t.scopes, id, p) == ScopesAt(t'.scopes, id, p) {
      SameStored(t.scopes, t'.scopes, id, p, SCOPE_NAME_ORDER);
    }
    assert StoredSemantics(citations, t.scopes, id) == StoredSemantics(citations, t'.scopes, id);
  }

  // ---- The collections of one entry ----

  /** Only the collections of one entry differ, and its citations have unique positions. */
  ghost predicate CollectionsApart(t: Tables, t': Tables, id: Str) {
    && (forall other :: other != id ==> Children(t.contributors, other) == Children(t'.contributors, other))
    && (forall other :: other != id ==> Children(t.citations, other) == Children(t'.citations, other))
    && (forall k :: k in t.scopes && k.0 != id <==> k in t'.scopes && k.0 != id)
  }

  ghost predicate ScopesFit(t: Tables, id: Str) {
    && ByPosition(Children(t.citations, id), (c: Citation) => c.position)
    && forall k :: k in t.scopes && k.0 == id ==> HasPosition(Children(t.citations, id), k.1)
  }

  lemma ContributorsReplaced(t: Tables, e: Envelope, row: Row, id: Str, t': Tables)
    requires row in e.rows && (row.contributorsAction.Preserve? ==> Children(t.contributors, id) == [])
    requires ReplaceContributors(t, e, row, id, []) == Some(t')
    ensures t' == t.(contributors := t'.contributors)
    ensures Children(t'.contributors, id) == ContributorsAfter(t, e, row, id)
    ensures ByPosition(Children(t'.contributors, id), (c: Contributor) => c.position)
    ensures forall other :: other != id ==> Children(t.contributors, other) == Children(t'.contributors, other)
  {
    if row.contributorsAction.Replace? {
      ContributorsForImportSorted(e, row.importId);
      ContributorsRefilled(ContributorsForImport(e, row.importId), t'.contributors[id]);
    }
  }

  lemma CitationsReplaced(
    t: Tables, e: Envelope, row: Row, id: Str, table: set<(Str, nat, Scope)>, t': Tables)
    requires ValidEnvelope(e) && (row.citationsAction.Preserve? ==> Children(t.citations, id) == [])
    requires forall k :: k in table <==> k in t.scopes && k.0 != id
    requires ReplaceCitations(t, e, row, id, [], table) == Some(t')
    ensures t' == t.(citations := t'.citations, scopes := t'.scopes)
    ensures ExistingCitations(t', id) == CitationsAfter(t, e, row, id)
    ensures ScopesFit(t', id)
    ensures forall other :: other != id ==> Children(t.citations, other) == Children(t'.citations, other)
    ensures forall k :: k in t.scopes && k.0 != id <==> k in t'.scopes && k.0 != id
  {
    if row.citationsAction.Replace? {
      CitationsReadBack(e, row.importId, t', id, table);
    } else {
      assert t'.citations[id] == [] && t'.scopes == table;
    }
  }

  /** The collections of an entry are those its row asks for, relative to earlier tables. */
  ghost predicate CollectionsSettled(t0: Tables, t: Tables, e: Envelope, row: Row, id: Str) {
    && Children(t.contributors, id) == ContributorsAfter(t0, e, row, id)
    && ExistingCitations(t, id) == CitationsAfter(t0, e, row, id)
    && ByPosition(Children(t.contributors, id), (c: Contributor) => c.position)
    && ScopesFit(t, id)
    && CollectionsApart(t0, t, id)
  }

  lemma CollectionsUpdated(t: Tables, e: Envelope, row: Row, id: Str, findings: seq<Finding>, t': Tables)
    requires ValidEnvelope(e) && row in e.rows && UpdateCollections(t, e, row, id, findings) == Some(t')
    requires ByPosition(Children(t.contributors, id), (c: Contributor) => c.position) && ScopesFit(t, id)
    requires HasField(findings, ContributorsField) <==> ContributorsAfter(t, e, row, id) != Children(t.contributors, id)
    requires HasField(findings, CitationsField) <==> CitationsAfter(t, e, row, id) != ExistingCitations(t, id)
    ensures CollectionsSettled(t, t', e, row, id)
  {
    var t1 := t;
    if HasField(findings, ContributorsField) {
      t1 := ReplaceContributors(t, e, row, id, []).value;
      ContributorsReplaced(t, e, row, id, t1);
    }
    if HasField(findings, CitationsField) {
      CitationsReplaced(t1, e, row, id, (set s | s in t1.scopes && s.0 != id), t');
      SameCitations(t, t1, id);
    } else {
      SameCitations(t, t', id);
    }
  }

  /** What one row leaves, relative to the tables before it. */
  ghost predicate RowSettled(t: Tables, t': Tables, e: Envelope, row: Row, id: Str)
    requires row.content.Valid() && (id in t.entries ==> t.entries[id].Valid())
  {
    && ValidTables(t') && Settled(t, t', e, row, id)
    && (forall other :: other != id ==> SameEntry(t, t', other))
    && (forall s :: !Lists(ProvenanceOf(e.provenance, row.importId), s) ==> SameSource(t, t', s))
    && t'.operations == t.operations
  }

  ghost predicate Unbound(sources: map<Str, SourceRow>, items: seq<Provenance>, id: Str) {
    forall item :: item in items ==> item.sourceId !in sources || sources[item.sourceId].catalogId == id
  }

  lemma DistinctOnce(item: Provenance, rest: seq<Provenance>)
    requires DistinctSources(rest) && forall other :: other in rest ==> other.sourceId != item.sourceId
    ensures DistinctSources([item] + rest)
  {
  }

  lemma {:induction false} ProvenanceDistinct(rows: seq<Provenance>, importId: Str)
    requires DistinctSources(rows)
    ensures DistinctSources(ProvenanceOf(rows, importId))
  {
    if rows != [] {
      ProvenanceDistinct(rows[1..], importId);
      forall other | other in rows[1..] ensures other.sourceId != rows[0].sourceId {
        assert rows[1..][IndexOf(rows[1..], other)] == rows[IndexOf(rows[1..], other) + 1];
      }
      DistinctOnce(rows[0], ProvenanceOf(rows[1..], importId));
    }
  }

  lemma ChildrenInOrder(t: Tables, t': Tables, id: Str)
    requires ValidTables(t) && CollectionsApart(t, t', id) && ScopesFit(t', id)
    requires ByPosition(Children(t'.contributors, id), (c: Contributor) => c.position)
    ensures forall other :: ByPosition(Children(t'.contributors, other), (c: Contributor) => c.position)
    ensures forall other :: ByPosition(Children(t'.citations, other), (c: Citation) => c.position)
  {
    forall other ensures ByPosition(Children(t'.contributors, other), (c: Contributor) => c.position) {
      if other != id { assert Children(t.contributors, other) == Children(t'.contributors, other); }
    }
    forall other ensures ByPosition(Children(t'.citations, other), (c: Citation) => c.position) {
      if other != id { assert Children(t.citations, other) == Children(t'.citations, other); }
    }
  }

  lemma ScopesReferTo(t: Tables, t': Tables, id: Str)
    requires ValidTables(t) && CollectionsApart(t, t', id) && ScopesFit(t', id)
    ensures forall other, p, s :: (other, p, s) in t'.scopes ==> HasPosition(Children(t'.citations, other), p)
  {
    forall other, p, s | (other, p, s) in t'.scopes ensures HasPosition(Children(t'.citations, other), p) {
      var k := (other, p, s);
      if other != id { assert k in t.scopes && k.0 != id; }
    }
  }

  lemma SourcesReferTo(t: Tables, t': Tables, items: seq<Provenance>, id: Str)
    requires forall s :: s in t.sources ==> t.sources[s].catalogId in t.entries
    requires forall x :: x in t.entries ==> x in t'.entries
    requires id in t'.entries && UpsertsTo(t.sources, id, items, t'.sources)
    ensures forall s :: s in t'.sources ==> t'.sources[s].catalogId in t'.entries
  {
    forall s | s in t'.sources ensures t'.sources[s].catalogId in t'.entries {
      if Lists(items, s) {
        var i :| 0 <= i < |items| && items[i].sourceId == s;
        assert items[i] in items;
      }
    }
  }

  /** What the entry statements of a row leave: its entry, aliases and collections, and nothing else. */
  ghost predicate EntrySettled(t: Tables, t1: Tables, e: Envelope, row: Row, id: Str)
    requires row.content.Valid() && (id in t.entries ==> t.entries[id].Valid())
  {
    && (row.catalogId.Some? <==> id in t.entries)
    && t1.entries == t.entries[id := if id in t.entries then Merged(t.entries[id], row.content) else row.content]
    && CollectionsSettled(t, t1, e, row, id)
    && (forall other :: other != id ==> Children(t1.aliases, other) == Children(t.aliases, other))
    && Children(t1.aliases, id)
       == (if id in t.entries then Children(t.aliases, id) else AliasesOf(e.aliases, row.importId))
    && t1.sources == t.sources && t1.operations == t.operations
  }

  lemma EntryKeepsValid(t: Tables, t1: Tables, e: Envelope, row: Row, id: Str, t': Tables)
    requires ValidTables(t) && row.content.Valid() && EntrySettled(t, t1, e, row, id)
    requires t' == t1.(sources := t'.sources, items := t'.items)
    requires UpsertsTo(t1.sources, id, ProvenanceOf(e.provenance, row.importId), t'.sources)
    ensures ValidTables(t')
  {
    ChildrenInOrder(t, t', id);
    ScopesReferTo(t, t', id);
    SourcesReferTo(t, t', ProvenanceOf(e.provenance, row.importId), id);
    EntriesStayValid(t, t', row, id);
    ChildrenHaveEntries(t, t', id);
  }

  lemma EntriesStayValid(t: Tables, t': Tables, row: Row, id: Str)
    requires (forall x :: x in t.entries ==> t.entries[x].Valid()) && row.content.Valid()
    requires t'.entries == t.entries[id := if id in t.entries then Merged(t.entries[id], row.content) else row.content]
    ensures forall x :: x in t'.entries ==> t'.entries[x].Valid()
  {
  }

  lemma ChildrenHaveEntries(t: Tables, t': Tables, id: Str)
    requires ValidTables(t) && id in t'.entries && (forall x :: x in t.entries ==> x in t'.entries)
    requires CollectionsApart(t, t', id)
    requires forall other :: other != id ==> Children(t'.aliases, other) == Children(t.aliases, other)
    ensures forall x :: x !in t'.entries ==>
      Children(t'.aliases, x) == [] && Children(t'.contributors, x) == [] && Children(t'.citations, x) == []
  {
  }

  /** From the entry and its sources to the settled row. */
  lemma Settles(t: Tables, t1: Tables, e: Envelope, row: Row, id: Str, t': Tables)
    requires ValidTables(t) && row.content.Valid() && EntrySettled(t, t1, e, row, id)
    requires t' == t1.(sources := t'.sources, items := t'.items)
    requires UpsertsTo(t1.sources, id, ProvenanceOf(e.provenance, row.importId), t'.sources)
    ensures RowSettled(t, t', e, row, id)
  {
    EntryKeepsValid(t, t1, e, row, id, t');
    SameCitations(t1, t', id);
    forall other | other != id ensures SameEntry(t, t', other) {
      forall p, s ensures (other, p, s) in t.scopes <==> (other, p, s) in t'.scopes {
        var k := (other, p, s);
        assert k in t.scopes && k.0 != id <==> k in t'.scopes && k.0 != id;
      }
    }
  }

  lemma ColumnsSettled(t: Tables, e: Envelope, row: Row, id: Str, findings: seq<Finding>)
    requires id in t.entries && t.entries[id].Valid() && row.content.Valid() && Reports(findings, t, e, row, id)
    ensures (if findings == [] then t.entries else t.entries[id := SetColumns(t.entries[id], row, findings)])
      == t.entries[id := Merged(t.entries[id], row.content)]
  {
    ColumnsMerge(findings, t, e, row, id);
    if findings == [] {
      assert SetColumns(t.entries[id], row, findings).fields == t.entries[id].fields;
      assert t.entries == t.entries[id := t.entries[id]];
    }
  }

  lemma CollectionsRebased(t: Tables, t1: Tables, t2: Tables, e: Envelope, row: Row, id: Str)
    requires t1.contributors == t.contributors && t1.citations == t.citations && t1.scopes == t.scopes
    requires CollectionsSettled(t1, t2, e, row, id)
    ensures CollectionsSettled(t, t2, e, row, id)
  {
    SameCitations(t, t1, id);
  }

  lemma EntryStatements(t: Tables, e: Envelope, row: Row, id: Str, findings: seq<Finding>, t1: Tables)
    requires id in t.entries && t.entries[id].Valid() && row.content.Valid()
    requires Reports(findings, t, e, row, id) && UpdateEntry(t, e, row, id, findings) == Some(t1)
    ensures t1.entries == t.entries[id := Merged(t.entries[id], row.content)]
    ensures findings == [] ==> t1 == t
    ensures findings != [] ==> UpdateCollections(t.(entries := t1.entries), e, row, id, findings) == Some(t1)
  {
    ColumnsSettled(t, e, row, id, findings);
  }

  lemma CollectionsAfterUpdate(
    t: Tables, e: Envelope, row: Row, id: Str, findings: seq<Finding>, columns: Tables, t1: Tables)
    requires ValidTables(t) && ValidEnvelope(e) && row in e.rows && id in t.entries
    requires Reports(findings, t, e, row, id) && columns == t.(entries := columns.entries)
    requires if findings == [] then t1 == t else UpdateCollections(columns, e, row, id, findings) == Some(t1)
    ensures CollectionsSettled(t, t1, e, row, id)
  {
    ScopesFitBefore(t, id);
    if findings != [] {
      SameCitations(t, columns, id);
      CollectionsUpdated(columns, e, row, id, findings, t1);
      CollectionsRebased(t, columns, t1, e, row, id);
    }
  }

  lemma EntryUpdated(t: Tables, e: Envelope, row: Row, id: Str, findings: seq<Finding>, t1: Tables)
    requires ValidTables(t) && ValidEnvelope(e) && row in e.rows && row.catalogId == Some(id) && id in t.entries
    requires Reports(findings, t, e, row, id) && UpdateEntry(t, e, row, id, findings) == Some(t1)
    ensures EntrySettled(t, t1, e, row, id)
  {
    EntryStatements(t, e, row, id, findings, t1);
    CollectionsAfterUpdate(t, e, row, id, findings, t.(entries := t1.entries), t1);
  }

  lemma ScopesFitBefore(t: Tables, id: Str)
    requires ValidTables(t)
    ensures ScopesFit(t, id)
  {
    forall k | k in t.scopes && k.0 == id ensures HasPosition(Children(t.citations, id), k.1) {
      assert (k.0, k.1, k.2) in t.scopes;
    }
  }

  lemma CollectionsCreated(t: Tables, e: Envelope, row: Row, id: Str, t1: Tables, t2: Tables)
    requires ValidEnvelope(e) && row in e.rows
    requires Children(t.contributors, id) == [] && Children(t.citations, id) == []
    requires forall k :: k in t.scopes ==> k.0 != id
    requires ReplaceContributors(t, e, row, id, []) == Some(t1)
    requires ReplaceCitations(t1, e, row, id, [], t1.scopes) == Some(t2)
    ensures CollectionsSettled(t, t2, e, row, id)
  {
    ContributorsReplaced(t, e, row, id, t1);
    CitationsReplaced(t1, e, row, id, t1.scopes, t2);
    SameCitations(t, t1, id);
  }

  /** The tables between the statements of a create: after the entry and its aliases, and after its contributors. */
  lemma CreateParts(t: Tables, e: Envelope, row: Row, id: Str, t1: Tables) returns (ta: Tables, tb: Tables)
    requires CreateEntry(t, e, row, id) == Some(t1)
    requires Children(t.aliases, id) == [] && Children(t.contributors, id) == [] && Children(t.citations, id) == []
    ensures ta == t.(
      entries := t.entries[id := row.content], aliases := t.aliases[id := AliasesOf(e.aliases, row.importId)])
    ensures ReplaceContributors(ta, e, row, id, []) == Some(tb)
    ensures ReplaceCitations(tb, e, row, id, [], tb.scopes) == Some(t1)
  {
    var aliases := AliasesOf(e.aliases, row.importId);
    assert [] + aliases == aliases;
    ta := t.(entries := t.entries[id := row.content], aliases := t.aliases[id := aliases]);
    tb := ReplaceContributors(ta, e, row, id, []).value;
  }

  lemma EntryCreated(t: Tables, e: Envelope, row: Row, id: Str, t1: Tables)
    requires ValidTables(t) && ValidEnvelope(e) && row in e.rows && row.catalogId.None?
    requires id !in t.entries && CreateEntry(t, e, row, id) == Some(t1)
    ensures EntrySettled(t, t1, e, row, id)
  {
    NoScopes(t, id);
    var ta, tb := CreateParts(t, e, row, id, t1);
    PartsSettle(t, e, row, id, ta, tb, t1);
  }

  lemma PartsSettle(t: Tables, e: Envelope, row: Row, id: Str, ta: Tables, tb: Tables, t1: Tables)
    requires ValidEnvelope(e) && row in e.rows && row.catalogId.None? && id !in t.entries
    requires Children(t.contributors, id) == [] && Children(t.citations, id) == []
    requires forall k :: k in t.scopes ==> k.0 != id
    requires ta == t.(
      entries := t.entries[id := row.content], aliases := t.aliases[id := AliasesOf(e.aliases, row.importId)])
    requires ReplaceContributors(ta, e, row, id, []) == Some(tb)
    requires ReplaceCitations(tb, e, row, id, [], tb.scopes) == Some(t1)
    ensures EntrySettled(t, t1, e, row, id)
  {
    CollectionsCreated(ta, e, row, id, tb, t1);
    CollectionsRebased(t, ta, t1, e, row, id);
    FramesMeet(ta, tb, t1, id, e, row);
  }

  lemma FramesMeet(ta: Tables, tb: Tables, t1: Tables, id: Str, e: Envelope, row: Row)
    requires ReplaceContributors(ta, e, row, id, []) == Some(tb)
    requires ReplaceCitations(tb, e, row, id, [], tb.scopes) == Some(t1)
    ensures t1 == ta.(contributors := t1.contributors, citations := t1.citations, scopes := t1.scopes)
  {
  }

  lemma NoScopes(t: Tables, id: Str)
    requires ValidTables(t) && id !in t.entries
    ensures forall k :: k in t.scopes ==> k.0 != id
    ensures Children(t.aliases, id) == [] && Children(t.contributors, id) == [] && Children(t.citations, id) == []
  {
    forall k | k in t.scopes ensures k.0 != id {
      assert (k.0, k.1, k.2) in t.scopes && HasPosition(Children(t.citations, k.0), k.1);
    }
  }

  /** One row of a ready plan settles, and leaves everything else as it was. */
  lemma RowSettles(
    t: Tables, e: Envelope, planned: seq<Finding>, operationId: Str, allocate: Str -> Str, row: Row, t': Tables)
    requires ValidTables(t) && ValidEnvelope(e) && row in e.rows && ValidFor(t, row)
    requires ApplyRow(t, e, planned, operationId, allocate, row) == Some(t')
    requires Unbound(t.sources, ProvenanceOf(e.provenance, row.importId), CatalogIdOf(row, allocate))
    requires row.catalogId.Some? ==>
      row.catalogId.value in t.entries && Reports(FindingsOf(planned, row.importId), t, e, row, row.catalogId.value)
    ensures RowSettled(t, t', e, row, CatalogIdOf(row, allocate))
  {
    var id, items := CatalogIdOf(row, allocate), ProvenanceOf(e.provenance, row.importId);
    var t1 := RowStatements(t, e, planned, operationId, allocate, row, t');
    if row.catalogId.Some? {
      EntryUpdated(t, e, row, id, FindingsOf(planned, row.importId), t1);
    } else {
      EntryCreated(t, e, row, id, t1);
    }
    ProvenanceDistinct(e.provenance, row.importId);
    SourcesUpserted(t1.sources, id, items);
    Settles(t, t1, e, row, id, t');
  }

  lemma RowStatements(
    t: Tables, e: Envelope, planned: seq<Finding>, operationId: Str, allocate: Str -> Str, row: Row, t': Tables)
    returns (t1: Tables)
    requires ValidFor(t, row) && ApplyRow(t, e, planned, operationId, allocate, row) == Some(t')
    ensures var id := CatalogIdOf(row, allocate);
      && (if row.catalogId.None? then CreateEntry(t, e, row, id)
          else UpdateEntry(t, e, row, id, FindingsOf(planned, row.importId))) == Some(t1)
      && t' == t1.(sources := Upserts(t1.sources, id, ProvenanceOf(e.provenance, row.importId)), items := t'.items)
  {
    var id := CatalogIdOf(row, allocate);
    var written := if row.catalogId.None? then CreateEntry(t, e, row, id)
      else UpdateEntry(t, e, row, id, FindingsOf(planned, row.importId));
    t1 := written.value;
  }
}
