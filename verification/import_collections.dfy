/** When the plan of an update names a collection, said of the rows of the envelope and of the rows of the tables. */
module ImportCollections {
  import opened Text
  import opened Wrappers
  import opened Sorting
  import opened CatalogModel
  import opened ImportReading
  import opened ImportPlan
  import opened ImportApply
  import opened ImportEffects
  import opened ImportStatements

  // ---- Contributors ----

  lemma ContributorListed(rows: seq<ContributorRow>, importId: Str, c: Contributor)
    ensures c in ContributorsOf(rows, importId) <==> ContributorRow(importId, c) in rows
  {
    ContributorsCounted(rows, importId, c);
    assert c in ContributorsOf(rows, importId) <==> c in multiset(ContributorsOf(rows, importId));
    assert ContributorRow(importId, c) in rows <==> ContributorRow(importId, c) in multiset(rows);
  }

  lemma {:induction false} ContributorsApart(rows: seq<ContributorRow>, importId: Str)
    requires forall i, j :: 0 <= i < j < |rows| && rows[i].importId == rows[j].importId ==>
      rows[i].contributor.position != rows[j].contributor.position
    ensures Untied(ContributorsOf(rows, importId), ContributorLe)
  {
    if rows != [] {
      ContributorsApart(rows[1..], importId);
      var rest := ContributorsOf(rows[1..], importId);
      forall i | 0 <= i < |rest| && rows[0].importId == importId
        ensures rest[i].position != rows[0].contributor.position
      {
        ContributorListed(rows[1..], importId, rest[i]);
        var k := IndexOf(rows[1..], ContributorRow(importId, rest[i]));
        assert rows[k + 1] == ContributorRow(importId, rest[i]);
      }
    }
  }

  /** The contributors given and held are read as the same list exactly if they are the same. */
  lemma ContributorsAlike(t: Tables, e: Envelope, importId: Str, id: Str)
    requires ValidEnvelope(e) && ByPosition(Children(t.contributors, id), (c: Contributor) => c.position)
    ensures ContributorsForImport(e, importId) == ExistingContributors(t, id)
      <==> forall c :: ContributorRow(importId, c) in e.contributors <==> c in Children(t.contributors, id)
  {
    var given, held := ContributorsOf(e.contributors, importId), Children(t.contributors, id);
    ContributorsApart(e.contributors, importId);
    SortedAlike(given, held, ContributorLe);
    forall c ensures c in given <==> ContributorRow(importId, c) in e.contributors {
      ContributorListed(e.contributors, importId, c);
    }
  }

  // ---- Citations ----

  /** The envelope gives an import this citation, with this coverage. */
  ghost predicate Gives(e: Envelope, importId: Str, c: Citation, coverage: set<Scope>) {
    exists row :: row in e.citations && row.importId == importId && row.citation == c
      && Coverage(row.appliesTo) == coverage
  }

  /** What the scope rows of a citation say it covers: the record, unless there are any. */
  ghost function StoredCoverage(table: set<(Str, nat, Scope)>, id: Str, position: nat): set<Scope> {
    var stored := set s: Scope | (id, position, s) in table;
    if stored == {} then {RecordScope} else stored
  }

  /** The tables hold this citation of an entry, with this coverage. */
  ghost predicate Holds(t: Tables, id: Str, c: Citation, coverage: set<Scope>) {
    c in Children(t.citations, id) && StoredCoverage(t.scopes, id, c.position) == coverage
  }

  lemma {:induction false} CitationsApart(rows: seq<CitationRow>, importId: Str)
    requires forall i, j :: 0 <= i < j < |rows| && rows[i].importId == rows[j].importId ==>
      rows[i].citation.position != rows[j].citation.position
    ensures Untied(CitationsOf(rows, importId), CitationRowLe)
  {
    if rows != [] {
      CitationsApart(rows[1..], importId);
      var rest := CitationsOf(rows[1..], importId);
      forall i | 0 <= i < |rest| && rows[0].importId == importId
        ensures rest[i].citation.position != rows[0].citation.position
      {
        assert rest[i] in rest;
        var k := IndexOf(rows[1..], rest[i]);
        assert rows[k + 1] == rest[i];
      }
    }
  }

  lemma StoredCovers(table: set<(Str, nat, Scope)>, id: Str, position: nat)
    ensures var scopes := ScopesAt(table, id, position);
      && (scopes.Some? ==> scopes.value != [] && Distinct(scopes.value))
      && Coverage(scopes) == StoredCoverage(table, id, position)
  {
    var names := ScopesStored(table, id, position, SCOPE_NAME_ORDER);
    var stored := set s: Scope | (id, position, s) in table;
    EveryScopeIsNamed(RecordScope);
    StoredDistinct(table, id, position, SCOPE_NAME_ORDER);
    forall s ensures s in names <==> s in stored { EveryScopeIsNamed(s); }
    if names == [] {
      assert stored == {};
    } else {
      assert names[0] in stored;
      assert Coverage(Some(names)) == stored;
    }
  }

  ghost predicate ReadsAs(e: Envelope, importId: Str, row: CitationRow, x: SemanticCitation) {
    && row in e.citations && row.importId == importId
    && x == SemanticCitation(row.citation, SemanticScopes(row.appliesTo))
  }

  lemma GivenRead(e: Envelope, importId: Str, x: SemanticCitation)
    ensures x in Semantics(CitationsOf(e.citations, importId))
      <==> exists row :: ReadsAs(e, importId, row, x)
  {
    var rows := CitationsOf(e.citations, importId);
    if x in Semantics(rows) {
      var row := rows[IndexOf(Semantics(rows), x)];
      assert row in rows && ReadsAs(e, importId, row, x);
    }
    if row :| ReadsAs(e, importId, row, x) {
      assert row in rows;
      assert Semantics(rows)[IndexOf(rows, row)] == x;
    }
  }

  lemma HeldRead(citations: seq<Citation>, table: set<(Str, nat, Scope)>, id: Str, x: SemanticCitation)
    ensures x in StoredSemantics(citations, table, id)
      <==> x.citation in citations && x.appliesTo == SemanticScopes(ScopesAt(table, id, x.citation.position))
  {
    var read := StoredSemantics(citations, table, id);
    if x in read { assert citations[IndexOf(read, x)] in citations; }
    if x.citation in citations { assert read[IndexOf(citations, x.citation)].citation == x.citation; }
  }

  lemma SameCoverage(t: Tables, e: Envelope, id: Str, row: CitationRow)
    requires ValidEnvelope(e) && row in e.citations
    ensures SemanticScopes(row.appliesTo) == SemanticScopes(ScopesAt(t.scopes, id, row.citation.position))
      <==> Coverage(row.appliesTo) == StoredCoverage(t.scopes, id, row.citation.position)
  {
    StoredCovers(t.scopes, id, row.citation.position);
    ScopesCompared(row.appliesTo, ScopesAt(t.scopes, id, row.citation.position));
  }

  /** Lists of citations have the same members exactly if the same citations are given and held, covering the same. */
  lemma SameCitationsRead(t: Tables, e: Envelope, importId: Str, id: Str)
    requires ValidEnvelope(e)
    ensures var given := Semantics(CitationsOf(e.citations, importId));
      var held := StoredSemantics(Children(t.citations, id), t.scopes, id);
      (forall x :: x in given <==> x in held)
      <==> forall c, coverage :: Gives(e, importId, c, coverage) <==> Holds(t, id, c, coverage)
  {
    var given := Semantics(CitationsOf(e.citations, importId));
    var held := StoredSemantics(Children(t.citations, id), t.scopes, id);
    if forall x :: x in given <==> x in held {
      forall c, coverage ensures Gives(e, importId, c, coverage) <==> Holds(t, id, c, coverage) {
        ReadMeansHeld(t, e, importId, id, c, coverage);
      }
    }
    if forall c, coverage :: Gives(e, importId, c, coverage) <==> Holds(t, id, c, coverage) {
      forall x ensures x in given <==> x in held {
        GivenRead(e, importId, x);
        if row :| ReadsAs(e, importId, row, x) { GivenIsHeld(t, e, importId, id, x, row); }
        if x in held { HeldIsGiven(t, e, importId, id, x); }
      }
    }
  }

  lemma ReadMeansHeld(t: Tables, e: Envelope, importId: Str, id: Str, c: Citation, coverage: set<Scope>)
    requires ValidEnvelope(e)
    requires var given := Semantics(CitationsOf(e.citations, importId));
      var held := StoredSemantics(Children(t.citations, id), t.scopes, id);
      forall x :: x in given <==> x in held
    ensures Gives(e, importId, c, coverage) <==> Holds(t, id, c, coverage)
  {
    var children := Children(t.citations, id);
    if Gives(e, importId, c, coverage) {
      var row :| row in e.citations && row.importId == importId && row.citation == c
        && Coverage(row.appliesTo) == coverage;
      var x := SemanticCitation(c, SemanticScopes(row.appliesTo));
      assert ReadsAs(e, importId, row, x);
      GivenRead(e, importId, x);
      HeldRead(children, t.scopes, id, x);
      SameCoverage(t, e, id, row);
    }
    if Holds(t, id, c, coverage) {
      var x := SemanticCitation(c, SemanticScopes(ScopesAt(t.scopes, id, c.position)));
      HeldRead(children, t.scopes, id, x);
      GivenRead(e, importId, x);
      var row :| ReadsAs(e, importId, row, x);
      SameCoverage(t, e, id, row);
    }
  }

  lemma GivenIsHeld(t: Tables, e: Envelope, importId: Str, id: Str, x: SemanticCitation, row: CitationRow)
    requires ValidEnvelope(e) && ReadsAs(e, importId, row, x)
    requires forall c, coverage :: Gives(e, importId, c, coverage) <==> Holds(t, id, c, coverage)
    ensures x in StoredSemantics(Children(t.citations, id), t.scopes, id)
  {
    assert Gives(e, importId, row.citation, Coverage(row.appliesTo));
    assert Holds(t, id, row.citation, Coverage(row.appliesTo));
    SameCoverage(t, e, id, row);
    HeldRead(Children(t.citations, id), t.scopes, id, x);
  }

  lemma HeldIsGiven(t: Tables, e: Envelope, importId: Str, id: Str, x: SemanticCitation)
    requires ValidEnvelope(e) && x in StoredSemantics(Children(t.citations, id), t.scopes, id)
    requires forall c, coverage :: Gives(e, importId, c, coverage) <==> Holds(t, id, c, coverage)
    ensures x in Semantics(CitationsOf(e.citations, importId))
  {
    var c, coverage := x.citation, StoredCoverage(t.scopes, id, x.citation.position);
    HeldRead(Children(t.citations, id), t.scopes, id, x);
    assert Holds(t, id, c, coverage);
    assert Gives(e, importId, c, coverage);
    var row :| row in e.citations && row.importId == importId && row.citation == c
      && Coverage(row.appliesTo) == coverage;
    SameCoverage(t, e, id, row);
    assert ReadsAs(e, importId, row, x);
    GivenRead(e, importId, x);
  }

  lemma ReadUntied(t: Tables, e: Envelope, importId: Str, id: Str)
    requires ByPosition(Children(t.citations, id), (c: Citation) => c.position)
    requires Untied(CitationsOf(e.citations, importId), CitationRowLe)
    ensures Untied(Semantics(CitationsOf(e.citations, importId)), SemanticLe)
    ensures Untied(StoredSemantics(Children(t.citations, id), t.scopes, id), SemanticLe)
  {
  }

  /** The citations given and held are read as the same list exactly if they are the same and cover the same. */
  lemma CitationsAlike(t: Tables, e: Envelope, importId: Str, id: Str)
    requires ValidEnvelope(e) && ByPosition(Children(t.citations, id), (c: Citation) => c.position)
    ensures CitationsForImport(e, importId) == ExistingCitations(t, id)
      <==> forall c, coverage :: Gives(e, importId, c, coverage) <==> Holds(t, id, c, coverage)
  {
    var given := Semantics(CitationsOf(e.citations, importId));
    var held := StoredSemantics(Children(t.citations, id), t.scopes, id);
    CitationsApart(e.citations, importId);
    ReadUntied(t, e, importId, id);
    SortedAlike(given, held, SemanticLe);
    SameCitationsRead(t, e, importId, id);
  }

  // ---- Findings ----

  /**
   An update has a citations finding exactly if it clears citations that there are, or replaces them and some citation
   is given but not held, or held but not given: by its position, its texts or what it covers. So for contributors.
   */
  lemma CollectionsFoundExactly(d: Digests, t: Tables, e: Envelope, row: Row, id: Str)
    requires ValidTables(t) && ValidEnvelope(e) && id in t.entries && row.content.Valid()
    ensures HasField(ChangeFindings(d, t, e, row, id), CitationsField) <==>
      match row.citationsAction
      case Preserve => false
      case ClearAll => Children(t.citations, id) != []
      case Replace => exists c, coverage :: Gives(e, row.importId, c, coverage) != Holds(t, id, c, coverage)
    ensures HasField(ChangeFindings(d, t, e, row, id), ContributorsField) <==>
      match row.contributorsAction
      case Preserve => false
      case ClearAll => Children(t.contributors, id) != []
      case Replace =>
        exists c :: (ContributorRow(row.importId, c) in e.contributors) != (c in Children(t.contributors, id))
  {
    ChangesReported(d, t, e, row, id);
    CitationsAlike(t, e, row.importId, id);
    ContributorsAlike(t, e, row.importId, id);
    ContributorsInOrder(t, id);
    SortPermutes(StoredSemantics(Children(t.citations, id), t.scopes, id), SemanticLe);
  }
}
