/** What a carried-out application leaves behind, said of the rows of its envelope and of the tables alone. */
module ImportOutcomes {
  import opened Text
  import opened Wrappers
  import opened Sorting
  import opened CatalogModel
  import opened ImportReading
  import opened TitleDuplicates
  import opened ImportPlan
  import opened ImportApply
  import opened ImportPlanFacts
  import opened ImportEffects
  import opened ImportStatements
  import opened ImportRuns
  import opened ImportFixedPoint
  import opened ImportCollections
  import opened ImportAuthorization

  /** What is supplied is now there, and the rest is as it was. */
  ghost predicate EntryInstalled(was: Entry, given: Entry, now: Entry)
    requires was.Valid() && given.Valid()
  {
    && now.Valid() && now.kind == given.kind && now.title == given.title
    && now.summary == (if given.summary.Some? then given.summary else was.summary)
    && now.periodLabel == (if given.periodLabel.Some? then given.periodLabel else was.periodLabel)
    && forall f: FieldName :: now.fields[f] == if given.fields[f].Unsupplied? then was.fields[f] else given.fields[f]
  }

  ghost predicate ContributorsInstalled(t: Tables, t': Tables, e: Envelope, row: Row, id: Str) {
    && ByPosition(Children(t'.contributors, id), (c: Contributor) => c.position)
    && (row.contributorsAction.ClearAll? ==> Children(t'.contributors, id) == [])
    && (row.catalogId.Some? && row.contributorsAction.Preserve? ==>
          Children(t'.contributors, id) == Children(t.contributors, id))
    && (row.catalogId.None? || row.contributorsAction.Replace? ==>
          forall c :: c in Children(t'.contributors, id) <==> ContributorRow(row.importId, c) in e.contributors)
  }

  ghost predicate CitationsInstalled(t: Tables, t': Tables, e: Envelope, row: Row, id: Str) {
    && ByPosition(Children(t'.citations, id), (c: Citation) => c.position)
    && (row.citationsAction.ClearAll? ==> Children(t'.citations, id) == [])
    && (row.catalogId.Some? && row.citationsAction.Preserve? ==>
          forall c, coverage :: Holds(t', id, c, coverage) <==> Holds(t, id, c, coverage))
    && (row.catalogId.None? || row.citationsAction.Replace? ==>
          forall c, coverage :: Holds(t', id, c, coverage) <==> Gives(e, row.importId, c, coverage))
  }

  ghost predicate AliasesInstalled(t: Tables, t': Tables, e: Envelope, row: Row, id: Str) {
    && (row.catalogId.Some? ==> Children(t'.aliases, id) == Children(t.aliases, id))
    && forall a :: multiset(Children(t'.aliases, id))[a] == multiset(e.aliases)[AliasRow(row.importId, a)]
  }

  /** Every source of the import, its own among them, is bound to the entry and has the facts given. */
  ghost predicate SourcesInstalled(t: Tables, t': Tables, e: Envelope, row: Row, id: Str) {
    && (exists p :: p in e.provenance && p.importId == row.importId && p.sourceId == row.sourceId)
    && forall p :: p in e.provenance && p.importId == row.importId ==>
         && (p.sourceId in t.sources ==> t.sources[p.sourceId].catalogId == id)
         && p.sourceId in t'.sources && t'.sources[p.sourceId] == SourceRow(id, p.facts)
  }

  ghost predicate RowInstalled(t: Tables, t': Tables, e: Envelope, row: Row, id: Str) {
    && row.content.Valid() && id in t'.entries && row.ownerNote.None?
    && (row.catalogId.Some? ==>
          id in t.entries && t.entries[id].Valid() && EntryInstalled(t.entries[id], row.content, t'.entries[id]))
    && (row.catalogId.None? ==> id !in t.entries && t'.entries[id] == row.content)
    && ContributorsInstalled(t, t', e, row, id) && CitationsInstalled(t, t', e, row, id)
    && AliasesInstalled(t, t', e, row, id) && SourcesInstalled(t, t', e, row, id)
  }

  // ---- From what is settled to what is installed ----

  lemma ContributorsAreInstalled(t: Tables, t': Tables, e: Envelope, row: Row, id: Str)
    requires ValidTables(t) && ValidTables(t') && ValidEnvelope(e) && row in e.rows
    requires row.catalogId.Some? <==> id in t.entries
    requires Children(t'.contributors, id) == ContributorsAfter(t, e, row, id)
    ensures ContributorsInstalled(t, t', e, row, id)
  {
    if row.contributorsAction.Replace? {
      ContributorsInOrder(t', id);
      ContributorsAlike(t', e, row.importId, id);
    } else if row.catalogId.None? {
      assert Children(t'.contributors, id) == [];
    }
  }

  lemma HeldAlike(t: Tables, t': Tables, id: Str, c: Citation, coverage: set<Scope>)
    requires ExistingCitations(t, id) == ExistingCitations(t', id) && Holds(t, id, c, coverage)
    ensures Holds(t', id, c, coverage)
  {
    var read := StoredSemantics(Children(t.citations, id), t.scopes, id);
    var read' := StoredSemantics(Children(t'.citations, id), t'.scopes, id);
    var x := SemanticCitation(c, SemanticScopes(ScopesAt(t.scopes, id, c.position)));
    SortMembers(read, SemanticLe);
    SortMembers(read', SemanticLe);
    HeldRead(Children(t.citations, id), t.scopes, id, x);
    HeldRead(Children(t'.citations, id), t'.scopes, id, x);
    assert x in Sort(read, SemanticLe);
    StoredCovers(t.scopes, id, c.position);
    StoredCovers(t'.scopes, id, c.position);
    ScopesCompared(ScopesAt(t.scopes, id, c.position), ScopesAt(t'.scopes, id, c.position));
  }

  lemma NothingRead(t: Tables, id: Str)
    requires ExistingCitations(t, id) == []
    ensures Children(t.citations, id) == []
  {
    SortPermutes(StoredSemantics(Children(t.citations, id), t.scopes, id), SemanticLe);
  }

  lemma CitationsAreInstalled(t: Tables, t': Tables, e: Envelope, row: Row, id: Str)
    requires ValidTables(t) && ValidTables(t') && ValidEnvelope(e) && row in e.rows
    requires row.catalogId.Some? <==> id in t.entries
    requires ExistingCitations(t', id) == CitationsAfter(t, e, row, id)
    ensures CitationsInstalled(t, t', e, row, id)
  {
    if row.citationsAction.Replace? {
      CitationsAlike(t', e, row.importId, id);
    } else if row.citationsAction.ClearAll? {
      NothingRead(t', id);
    } else {
      forall c, coverage ensures Holds(t', id, c, coverage) <==> Holds(t, id, c, coverage) {
        if Holds(t, id, c, coverage) { HeldAlike(t, t', id, c, coverage); }
        if Holds(t', id, c, coverage) { HeldAlike(t', t, id, c, coverage); }
      }
      if row.catalogId.None? { NoneGiven(t, e, row, id); }
    }
  }

  lemma NoneGiven(t: Tables, e: Envelope, row: Row, id: Str)
    requires ValidTables(t) && ValidEnvelope(e) && row in e.rows && row.citationsAction.Preserve? && id !in t.entries
    ensures forall c, coverage :: !Gives(e, row.importId, c, coverage) && !Holds(t, id, c, coverage)
  {
    assert Children(t.citations, id) == [];
  }

  lemma AliasesAreInstalled(t: Tables, t': Tables, e: Envelope, row: Row, id: Str)
    requires multiset(Children(t'.aliases, id)) == multiset(AliasesOf(e.aliases, row.importId))
    requires row.catalogId.Some? ==> Children(t'.aliases, id) == Children(t.aliases, id)
    ensures AliasesInstalled(t, t', e, row, id)
  {
    forall a ensures multiset(Children(t'.aliases, id))[a] == multiset(e.aliases)[AliasRow(row.importId, a)] {
      AliasesCounted(e.aliases, row.importId, a);
    }
  }

  lemma SourcesAreInstalled(t: Tables, t': Tables, e: Envelope, row: Row, id: Str)
    requires ValidTables(t) && HasPrimary(ProvenanceOf(e.provenance, row.importId), row.sourceId)
    requires FirstRebound(t.sources, ProvenanceOf(e.provenance, row.importId), row.catalogId).None?
    requires (row.catalogId.Some? ==> row.catalogId.value == id) && (row.catalogId.None? ==> id !in t.entries)
    requires SourcesBound(t'.sources, ProvenanceOf(e.provenance, row.importId), id)
    ensures SourcesInstalled(t, t', e, row, id)
  {
    var items := ProvenanceOf(e.provenance, row.importId);
    var i :| 0 <= i < |items| && items[i].sourceId == row.sourceId;
    assert items[i] in items;
    forall p | p in e.provenance && p.importId == row.importId
      ensures p.sourceId in t.sources ==> t.sources[p.sourceId].catalogId == id
      ensures p.sourceId in t'.sources && t'.sources[p.sourceId] == SourceRow(id, p.facts)
    {
      assert p in items && !IsRebound(t.sources, p, row.catalogId);
    }
  }

  lemma EntryIsInstalled(was: Entry, given: Entry)
    requires was.Valid() && given.Valid()
    ensures EntryInstalled(was, given, Merged(was, given))
  {
  }

  lemma RowIsInstalled(t: Tables, t': Tables, e: Envelope, d: Digests, row: Row, v: Verdict, id: Str)
    requires ValidTables(t) && ValidTables(t') && ValidEnvelope(e) && row in e.rows && ValidFor(t, row)
    requires Clean(t, e, d, row, v) && (row.catalogId.Some? ==> row.catalogId.value == id)
    requires (id in t.entries ==> t.entries[id].Valid()) && Settled(t, t', e, row, id)
    ensures RowInstalled(t, t', e, row, id)
  {
    ContributorsAreInstalled(t, t', e, row, id);
    CitationsAreInstalled(t, t', e, row, id);
    AliasesAreInstalled(t, t', e, row, id);
    SourcesAreInstalled(t, t', e, row, id);
    if row.catalogId.Some? { EntryIsInstalled(t.entries[id], row.content); }
  }

  /** Entries that no row is for, and sources that no import in the envelope lists, are as they were. */
  ghost predicate RestIsAsItWas(t: Tables, t': Tables, r: Request) {
    && (forall id :: (forall row :: row in r.envelope.rows ==> !IsFor(r, row, id)) ==> SameEntry(t, t', id))
    && forall s :: (forall p :: p in r.envelope.provenance ==> p.sourceId != s) ==> SameSource(t, t', s)
  }

  lemma RestStays(t: Tables, t': Tables, r: Request)
    requires Progress(t, t', r.envelope, Allocation(r.allocate), r.envelope.rows)
    requires forall row :: row in r.envelope.rows && row.catalogId.None? ==> r.allocate.Some?
    ensures RestIsAsItWas(t, t', r)
  {
    var e, allocate := r.envelope, Allocation(r.allocate);
    forall id | forall row :: row in e.rows ==> !IsFor(r, row, id) ensures SameEntry(t, t', id) {
      forall i | 0 <= i < |e.rows| ensures CatalogIdOf(e.rows[i], allocate) != id {
        assert e.rows[i] in e.rows;
      }
      assert !Touches(e.rows, allocate, id);
    }
    forall s | forall p :: p in e.provenance ==> p.sourceId != s ensures SameSource(t, t', s) {
      forall i | 0 <= i < |e.rows| ensures !Lists(ProvenanceOf(e.provenance, e.rows[i].importId), s) {
        if Lists(ProvenanceOf(e.provenance, e.rows[i].importId), s) {
          var p := ListsItem(ProvenanceOf(e.provenance, e.rows[i].importId), s);
        }
      }
      assert !Binds(e, e.rows, s);
    }
  }

  lemma RowsAreInstalled(t: Tables, t': Tables, r: Request, d: Digests, verdicts: seq<Verdict>, row: Row, id: Str)
    requires ValidEnvelope(r.envelope) && row in r.envelope.rows && IsFor(r, row, id)
    requires AllClean(t, r.envelope, d, r.envelope.rows, verdicts, r.plan.findings)
    requires Progress(t, t', r.envelope, Allocation(r.allocate), r.envelope.rows)
    ensures RowInstalled(t, t', r.envelope, row, id)
  {
    var i := IndexOf(r.envelope.rows, row);
    assert SettledRow(t, t', r.envelope, Allocation(r.allocate), r.envelope.rows[i]);
    RowIsInstalled(t, t', r.envelope, d, row, verdicts[i], id);
  }

  /**
   A carried-out application installs each row: what it supplies stands in its entry, its contributors, citations and
   aliases are exactly those the envelope gives, its sources are bound, and nothing that no row is for has changed.
   */
  lemma EveryRowIsInstalled(t: Tables, matches: seq<Match>, r: Request, d: Digests, o: Outcome)
    requires ValidTables(t) && ValidEnvelope(r.envelope) && Plannable(t, r.envelope) && Applicable(t, r.envelope.rows)
    requires Apply(t, matches, r, d) == Ok(o) && !o.replayed
    ensures forall row, id :: row in r.envelope.rows && IsFor(r, row, id) ==>
      RowInstalled(t, o.tables, r.envelope, row, id)
    ensures RestIsAsItWas(t, o.tables, r)
  {
    var verdicts := AppliedWasClean(t, matches, r, d, o);
    ApplySettles(t, matches, r, d, o);
    CarriedOutWasInOrder(t, matches, r, d, o);
    RestStays(t, o.tables, r);
    forall row, id | row in r.envelope.rows && IsFor(r, row, id)
      ensures RowInstalled(t, o.tables, r.envelope, row, id)
    {
      RowsAreInstalled(t, o.tables, r, d, verdicts, row, id);
    }
  }
}
