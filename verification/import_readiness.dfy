/**
 When a plan is ready, what a ready plan names, and which of it needs approval, said of the rows of the envelope and of
 the tables.
 */
module ImportReadiness {
  import opened Text
  import opened Wrappers
  import opened Sequences
  import opened Sorting
  import opened CatalogModel
  import opened ImportReading
  import opened TitleDuplicates
  import opened ImportPlan
  import opened ImportApply
  import opened ImportPlanFacts
  import opened ImportEffects
  import opened ImportFixedPoint
  import opened ImportApproval
  import opened ImportLiveness
  import opened ImportCollections

  // ---- Readiness ----

  /** The row lists its own source, and no source it lists is bound to another entry than its target. */
  ghost predicate SourcesInOrder(t: Tables, e: Envelope, row: Row) {
    && (exists p :: p in e.provenance && p.importId == row.importId && p.sourceId == row.sourceId)
    && forall p :: p in e.provenance && p.importId == row.importId && p.sourceId in t.sources ==>
         row.catalogId == Some(t.sources[p.sourceId].catalogId)
  }

  ghost predicate NothingAgainst(t: Tables, e: Envelope, row: Row) {
    && SourcesInOrder(t, e, row) && (row.catalogId.Some? ==> row.catalogId.value in t.entries)
    && row.ownerNote.None? && TitleIsFree(t, e.rows, row)
  }

  lemma EligibleInOrder(t: Tables, e: Envelope, row: Row)
    ensures IsEligible(t, e, row)
      <==> SourcesInOrder(t, e, row) && (row.catalogId.Some? ==> row.catalogId.value in t.entries)
           && row.ownerNote.None?
  {
    var items := ProvenanceOf(e.provenance, row.importId);
    if p :| p in e.provenance && p.importId == row.importId && p.sourceId == row.sourceId {
      assert items[IndexOf(items, p)].sourceId == row.sourceId;
    }
    if HasPrimary(items, row.sourceId) {
      var i :| 0 <= i < |items| && items[i].sourceId == row.sourceId;
      assert items[i] in items;
    }
    if FirstRebound(t.sources, items, row.catalogId).None? {
      forall p | p in e.provenance && p.importId == row.importId && p.sourceId in t.sources
        ensures row.catalogId == Some(t.sources[p.sourceId].catalogId)
      {
        assert p in items && !IsRebound(t.sources, p, row.catalogId);
      }
    }
  }

  lemma FlaggedIfTaken(t: Tables, matches: seq<Match>, e: Envelope)
    requires ValidEnvelope(e) && AnswersTitles(t, e.rows, matches)
    ensures Flagged(e.rows, matches) == {} <==> forall row :: row in e.rows ==> TitleIsFree(t, e.rows, row)
  {
    EnvelopeIds(e);
    forall row | row in e.rows
      ensures row.importId in Flagged(e.rows, matches) <==> !TitleIsFree(t, e.rows, row)
    {
      FlaggedExactly(e.rows, matches, row);
      FreeIsUnshared(t, e.rows, matches, row);
    }
  }

  lemma ChangesAreUnblocked(t: Tables, e: Envelope, d: Digests, row: Row, v: Verdict)
    requires ValidFor(t, row) && IsEligible(t, e, row) && Classify(t, e, {}, d, row) == Ok(v)
    ensures forall f :: f in v.findings ==> f.blocker.None?
  {
    if row.catalogId.Some? { ChangesFrom(d, t, e, row, row.catalogId.value); }
  }

  lemma UnblockedIsReady(t: Tables, e: Envelope, d: Digests, a: Analysis, verdicts: seq<Verdict>)
    requires Plannable(t, e) && a.flagged == {} && a.candidates == []
    requires Verdicts(t, e, {}, d, e.rows) == Ok(verdicts) && forall row :: row in e.rows ==> IsEligible(t, e, row)
    ensures Assemble(d, e, a.candidates, verdicts).ready
  {
    FindingsCollected(verdicts);
    forall f | f in AllFindings(verdicts) ensures f.blocker.None? {
      var i :| 0 <= i < |verdicts| && f in verdicts[i].findings;
      assert e.rows[i] in e.rows;
      ChangesAreUnblocked(t, e, d, e.rows[i], verdicts[i]);
    }
  }

  lemma UnobstructedIsReady(t: Tables, matches: seq<Match>, e: Envelope, d: Digests, body: PlanBody)
    requires ValidEnvelope(e) && Plannable(t, e) && Plan(t, matches, e, d) == Ok(body)
    requires Flagged(e.rows, matches) == {} && forall row :: row in e.rows ==> IsEligible(t, e, row)
    ensures body.ready
  {
    var a, verdicts := PlanParts(t, matches, e, d, body);
    AllEligible(t, e, e.rows);
    UnblockedIsReady(t, e, d, a, verdicts);
  }

  lemma ReadyIsEligible(t: Tables, matches: seq<Match>, e: Envelope, d: Digests, body: PlanBody)
    requires ValidEnvelope(e) && Plannable(t, e) && Plan(t, matches, e, d) == Ok(body) && body.ready
    ensures Flagged(e.rows, matches) == {} && forall row :: row in e.rows ==> IsEligible(t, e, row)
  {
    var verdicts := ReadyIsClean(t, matches, e, d, body);
    forall row | row in e.rows ensures IsEligible(t, e, row) {
      var i := IndexOf(e.rows, row);
      assert Clean(t, e, d, e.rows[i], verdicts[i]);
    }
    AllEligible(t, e, e.rows);
  }

  /**
   A plan is ready exactly if nothing stands against any row: it lists its own source, no source it lists is bound to
   another entry, its target exists, it has no owner note, and its title is free.
   */
  lemma ReadyExactly(t: Tables, matches: seq<Match>, e: Envelope, d: Digests, body: PlanBody)
    requires ValidTables(t) && ValidEnvelope(e) && AnswersTitles(t, e.rows, matches)
    requires Plannable(t, e) && Plan(t, matches, e, d) == Ok(body)
    ensures body.ready <==> forall row :: row in e.rows ==> NothingAgainst(t, e, row)
  {
    FlaggedIfTaken(t, matches, e);
    forall row ensures IsEligible(t, e, row) && TitleIsFree(t, e.rows, row) <==> NothingAgainst(t, e, row) {
      EligibleInOrder(t, e, row);
    }
    if body.ready { ReadyIsEligible(t, matches, e, d, body); }
    if forall row :: row in e.rows ==> NothingAgainst(t, e, row) { UnobstructedIsReady(t, matches, e, d, body); }
  }

  // ---- Aliases ----

  /** An update that nothing but its title may stand against gives other aliases than its entry has. */
  ghost predicate AltersAliases(t: Tables, e: Envelope, row: Row) {
    && SourcesInOrder(t, e, row) && row.catalogId.Some? && row.catalogId.value in t.entries && row.ownerNote.None?
    && exists a ::
         multiset(e.aliases)[AliasRow(row.importId, a)] != multiset(Children(t.aliases, row.catalogId.value))[a]
  }

  lemma AliasesDiffer(t: Tables, e: Envelope, row: Row, id: Str)
    ensures !AliasesRepeated(t, e, row, id)
      <==> exists a :: multiset(e.aliases)[AliasRow(row.importId, a)] != multiset(Children(t.aliases, id))[a]
  {
    var given, held := multiset(AliasesOf(e.aliases, row.importId)), multiset(Children(t.aliases, id));
    forall a ensures given[a] == multiset(e.aliases)[AliasRow(row.importId, a)] {
      AliasesCounted(e.aliases, row.importId, a);
    }
    if forall a :: given[a] == held[a] { assert given == held; }
  }

  lemma RowFails(t: Tables, e: Envelope, flagged: set<Str>, d: Digests, row: Row)
    requires ValidFor(t, row)
    ensures var r := Classify(t, e, flagged, d, row);
      (r.Err? <==> AltersAliases(t, e, row)) && (r.Err? ==> r.error == AliasSemanticsUndefined(row.importId))
  {
    EligibleInOrder(t, e, row);
    if row.catalogId.Some? { AliasesDiffer(t, e, row, row.catalogId.value); }
    ClassifyFails(t, e, flagged, d, row);
  }

  lemma ClassifyFails(t: Tables, e: Envelope, flagged: set<Str>, d: Digests, row: Row)
    requires ValidFor(t, row)
    ensures var r := Classify(t, e, flagged, d, row);
      && (r.Err? <==>
            row.catalogId.Some? && IsEligible(t, e, row) && !AliasesRepeated(t, e, row, row.catalogId.value))
      && (r.Err? ==> r.error == AliasSemanticsUndefined(row.importId))
  {
  }

  ghost predicate SomeAlters(t: Tables, e: Envelope, rows: seq<Row>) {
    exists i :: 0 <= i < |rows| && AltersAliases(t, e, rows[i])
  }

  lemma SomeAltersSnoc(t: Tables, e: Envelope, rows: seq<Row>, row: Row)
    ensures SomeAlters(t, e, rows + [row]) <==> SomeAlters(t, e, rows) || AltersAliases(t, e, row)
  {
    var all := rows + [row];
    assert all[|rows|] == row;
    if i :| 0 <= i < |rows| && AltersAliases(t, e, rows[i]) { assert AltersAliases(t, e, all[i]); }
  }

  lemma VerdictsFail(t: Tables, e: Envelope, flagged: set<Str>, d: Digests, rows: seq<Row>)
    requires rows != [] && forall row :: row in rows ==> ValidFor(t, row)
    ensures var n := |rows| - 1;
      var earlier, last := Verdicts(t, e, flagged, d, rows[..n]), Classify(t, e, flagged, d, rows[n]);
      var r := Verdicts(t, e, flagged, d, rows);
      && (r.Err? <==> earlier.Err? || last.Err?)
      && (r.Err? ==> (earlier.Err? && r.error == earlier.error) || (last.Err? && r.error == last.error))
  {
  }

  lemma {:induction false} SomeRowFails(t: Tables, e: Envelope, flagged: set<Str>, d: Digests, rows: seq<Row>)
    requires forall row :: row in rows ==> ValidFor(t, row)
    ensures var r := Verdicts(t, e, flagged, d, rows);
      (r.Err? <==> SomeAlters(t, e, rows)) && (r.Err? ==> r.error.AliasSemanticsUndefined?)
    decreases |rows|
  {
    if rows == [] {
    } else {
      var n := |rows| - 1;
      VerdictsFail(t, e, flagged, d, rows);
      SomeRowFails(t, e, flagged, d, rows[..n]);
      RowFails(t, e, flagged, d, rows[n]);
      SomeAltersSnoc(t, e, rows[..n], rows[n]);
      Snoc(rows);
    }
  }

  lemma PlanFailsAs(t: Tables, matches: seq<Match>, e: Envelope, d: Digests, a: Analysis)
    requires Plannable(t, e)
    requires Analyze(Eligible(t, e, e.rows), matches, ImportIds(e.rows), d.titles) == Some(a)
    ensures var plan, verdicts := Plan(t, matches, e, d), Verdicts(t, e, a.flagged, d, e.rows);
      plan.Err? && plan.error.AliasSemanticsUndefined?
      <==> verdicts.Err? && verdicts.error.AliasSemanticsUndefined?
  {
  }

  /** If its searches end, a dry run throws over aliases exactly if some update gives others than its entry has. */
  lemma AliasesStopExactly(t: Tables, matches: seq<Match>, e: Envelope, d: Digests)
    requires Plannable(t, e)
    requires Analyze(Eligible(t, e, e.rows), matches, ImportIds(e.rows), d.titles).Some?
    ensures var plan := Plan(t, matches, e, d);
      plan.Err? && plan.error.AliasSemanticsUndefined? <==> SomeAlters(t, e, e.rows)
  {
    var a := Analyze(Eligible(t, e, e.rows), matches, ImportIds(e.rows), d.titles).value;
    SomeRowFails(t, e, a.flagged, d, e.rows);
    PlanFailsAs(t, matches, e, d, a);
  }

  // ---- What is named ----

  /** Some finding about the import names the field. */
  ghost predicate NamesField(findings: seq<Finding>, importId: Str, field: FindingField) {
    exists f :: f in findings && f.importId == importId && f.field == Some(field)
  }

  /** The findings about an update name exactly what differs. */
  ghost predicate NamesDifferences(findings: seq<Finding>, t: Tables, e: Envelope, row: Row, id: Str)
    requires id in t.entries && t.entries[id].Valid() && row.content.Valid()
  {
    var was, given := t.entries[id], row.content;
    && (NamesField(findings, row.importId, TitleField) <==> given.title != was.title)
    && (NamesField(findings, row.importId, KindField) <==> given.kind != was.kind)
    && (NamesField(findings, row.importId, DisplayField(Summary)) <==>
          given.summary.Some? && given.summary != was.summary)
    && (NamesField(findings, row.importId, DisplayField(PeriodLabel)) <==>
          given.periodLabel.Some? && given.periodLabel != was.periodLabel)
    && (forall f: FieldName :: NamesField(findings, row.importId, StatefulField(f)) <==>
          !given.fields[f].Unsupplied? && given.fields[f] != was.fields[f])
    && NamesCollections(findings, t, e, row, id)
  }

  ghost predicate NamesCollections(findings: seq<Finding>, t: Tables, e: Envelope, row: Row, id: Str) {
    && (NamesField(findings, row.importId, CitationsField) <==>
          match row.citationsAction
          case Preserve => false
          case ClearAll => Children(t.citations, id) != []
          case Replace => exists c, coverage :: Gives(e, row.importId, c, coverage) != Holds(t, id, c, coverage))
    && (NamesField(findings, row.importId, ContributorsField) <==>
          match row.contributorsAction
          case Preserve => false
          case ClearAll => Children(t.contributors, id) != []
          case Replace =>
            exists c :: (ContributorRow(row.importId, c) in e.contributors) != (c in Children(t.contributors, id)))
  }

  lemma NamedIsReported(findings: seq<Finding>, importId: Str, field: FindingField)
    ensures NamesField(findings, importId, field) <==> HasField(FindingsOf(findings, importId), field)
  {
    var own := FindingsOf(findings, importId);
    if f :| f in findings && f.importId == importId && f.field == Some(field) {
      assert own[IndexOf(own, f)].field == Some(field);
    }
    if i :| 0 <= i < |own| && own[i].field == Some(field) { assert own[i] in own; }
  }

  lemma CollectionsNamed(d: Digests, findings: seq<Finding>, t: Tables, e: Envelope, row: Row, id: Str)
    requires ValidTables(t) && ValidEnvelope(e) && id in t.entries && row.content.Valid()
    requires FindingsOf(findings, row.importId) == ChangeFindings(d, t, e, row, id)
    ensures NamesCollections(findings, t, e, row, id)
  {
    CollectionsFoundExactly(d, t, e, row, id);
    NamedIsReported(findings, row.importId, CitationsField);
    NamedIsReported(findings, row.importId, ContributorsField);
  }

  lemma DifferencesNamed(d: Digests, findings: seq<Finding>, t: Tables, e: Envelope, row: Row, id: Str)
    requires ValidTables(t) && ValidEnvelope(e) && id in t.entries && row.content.Valid()
    requires FindingsOf(findings, row.importId) == ChangeFindings(d, t, e, row, id)
    ensures NamesDifferences(findings, t, e, row, id)
  {
    ChangesReported(d, t, e, row, id);
    CollectionsNamed(d, findings, t, e, row, id);
    ReportedDifferences(findings, t, e, row, id);
  }

  lemma ReportedDifferences(findings: seq<Finding>, t: Tables, e: Envelope, row: Row, id: Str)
    requires id in t.entries && t.entries[id].Valid() && row.content.Valid()
    requires Reports(FindingsOf(findings, row.importId), t, e, row, id) && NamesCollections(findings, t, e, row, id)
    ensures NamesDifferences(findings, t, e, row, id)
  {
    var was, given := t.entries[id], row.content;
    NamedIsReported(findings, row.importId, TitleField);
    NamedIsReported(findings, row.importId, KindField);
    NamedIsReported(findings, row.importId, DisplayField(Summary));
    NamedIsReported(findings, row.importId, DisplayField(PeriodLabel));
    assert was.Display(Summary) == was.summary && given.Display(Summary) == given.summary;
    assert was.Display(PeriodLabel) == was.periodLabel && given.Display(PeriodLabel) == given.periodLabel;
    forall f: FieldName
      ensures NamesField(findings, row.importId, StatefulField(f)) <==>
        !given.fields[f].Unsupplied? && given.fields[f] != was.fields[f]
    {
      NamedIsReported(findings, row.importId, StatefulField(f));
      assert given.Field(f) == given.fields[f] && was.Field(f) == was.fields[f];
    }
  }

  // ---- Sources ----

  /** The findings about an update name exactly the sources that are new and the facts that differ. */
  ghost predicate NamesSources(findings: seq<Finding>, t: Tables, e: Envelope, row: Row) {
    forall p :: p in e.provenance && p.importId == row.importId ==>
      && (Names(findings, p.sourceId, None) <==> p.sourceId !in t.sources)
      && (p.sourceId in t.sources ==> forall name ::
            Names(findings, p.sourceId, Some(FactField(name)))
            <==> p.facts.Fact(name) != t.sources[p.sourceId].facts.Fact(name))
  }

  /** A finding that is about a source rather than a field of the entry comes from an item that is new or differs. */
  ghost predicate FromSource(sources: map<Str, SourceRow>, items: seq<Provenance>, f: Finding) {
    exists p :: p in items && p.sourceId == f.sourceId
      && match f.field
         case None => p.sourceId !in sources
         case Some(FactField(name)) =>
           p.sourceId in sources && p.facts.Fact(name) != sources[p.sourceId].facts.Fact(name)
         case _ => false
  }

  lemma {:induction false} FactsDiffer(
    d: Digests, row: Row, item: Provenance, existing: Facts, names: seq<FactName>, f: Finding)
    requires f in FactFindings(d, row, item, existing, names)
    ensures f.sourceId == item.sourceId && f.field.Some? && f.field.value.FactField?
    ensures item.facts.Fact(f.field.value.fact) != existing.Fact(f.field.value.fact)
  {
    var n := |names| - 1;
    if f in FactFindings(d, row, item, existing, names[..n]) { FactsDiffer(d, row, item, existing, names[..n], f); }
  }

  lemma {:induction false} SourcesDiffer(
    d: Digests, sources: map<Str, SourceRow>, row: Row, items: seq<Provenance>, f: Finding)
    requires f in ProvenanceFindings(d, sources, row, items)
    ensures FromSource(sources, items, f)
  {
    var n := |items| - 1;
    if f in ProvenanceFindings(d, sources, row, items[..n]) {
      SourcesDiffer(d, sources, row, items[..n], f);
      assert forall p :: p in items[..n] ==> p in items;
    } else {
      assert items[n] in items;
      if items[n].sourceId in sources {
        FactsDiffer(d, row, items[n], sources[items[n].sourceId].facts, FACT_NAMES, f);
      }
    }
  }

  lemma OnlySourcesNamed(d: Digests, t: Tables, e: Envelope, row: Row, id: Str, f: Finding)
    requires id in t.entries && row.content.Valid() && t.entries[id].Valid()
    requires f in ChangeFindings(d, t, e, row, id) && (f.field.None? || f.field.value.FactField?)
    ensures f in ProvenanceFindings(d, t.sources, row, ProvenanceOf(e.provenance, row.importId))
  {
    var target := t.entries[id];
    if f in DisplayFindings(d, row, target, DISPLAY_NAMES) { DisplayFieldsOnly(d, row, target, DISPLAY_NAMES, f); }
    if f in StatefulFindings(d, row, target, FIELD_NAMES) { StatefulFieldsOnly(d, row, target, FIELD_NAMES, f); }
  }

  lemma {:induction false} DisplayFieldsOnly(d: Digests, row: Row, target: Entry, names: seq<DisplayName>, f: Finding)
    requires f in DisplayFindings(d, row, target, names)
    ensures f.field.Some? && f.field.value.DisplayField?
  {
    var n := |names| - 1;
    if f in DisplayFindings(d, row, target, names[..n]) { DisplayFieldsOnly(d, row, target, names[..n], f); }
  }

  lemma {:induction false} StatefulFieldsOnly(d: Digests, row: Row, target: Entry, names: seq<FieldName>, f: Finding)
    requires row.content.Valid() && target.Valid() && f in StatefulFindings(d, row, target, names)
    ensures f.field.Some? && f.field.value.StatefulField?
  {
    var n := |names| - 1;
    if f in StatefulFindings(d, row, target, names[..n]) { StatefulFieldsOnly(d, row, target, names[..n], f); }
  }

  lemma SameSourceId(e: Envelope, p: Provenance, q: Provenance)
    requires ValidEnvelope(e) && p in e.provenance && q in e.provenance && p.sourceId == q.sourceId
    ensures p == q
  {
    var i, j := IndexOf(e.provenance, p), IndexOf(e.provenance, q);
  }

  lemma SourcesNamed(d: Digests, t: Tables, e: Envelope, row: Row, id: Str)
    requires ValidEnvelope(e) && id in t.entries && row.content.Valid() && t.entries[id].Valid()
    ensures NamesSources(ChangeFindings(d, t, e, row, id), t, e, row)
  {
    forall p | p in e.provenance && p.importId == row.importId
      ensures var findings := ChangeFindings(d, t, e, row, id);
        && (Names(findings, p.sourceId, None) <==> p.sourceId !in t.sources)
        && (p.sourceId in t.sources ==> forall name ::
              Names(findings, p.sourceId, Some(FactField(name)))
              <==> p.facts.Fact(name) != t.sources[p.sourceId].facts.Fact(name))
    {
      SourceChangesNamed(d, t, e, row, id, p);
      NamedSourceDiffers(d, t, e, row, id, p);
    }
  }

  lemma NamedSourceDiffers(d: Digests, t: Tables, e: Envelope, row: Row, id: Str, p: Provenance)
    requires ValidEnvelope(e) && id in t.entries && row.content.Valid() && t.entries[id].Valid()
    requires p in e.provenance && p.importId == row.importId
    ensures Names(ChangeFindings(d, t, e, row, id), p.sourceId, None) ==> p.sourceId !in t.sources
    ensures forall name :: Names(ChangeFindings(d, t, e, row, id), p.sourceId, Some(FactField(name))) ==>
      p.sourceId in t.sources ==> p.facts.Fact(name) != t.sources[p.sourceId].facts.Fact(name)
  {
    var items := ProvenanceOf(e.provenance, row.importId);
    forall f | f in ChangeFindings(d, t, e, row, id) && f.sourceId == p.sourceId
      && (f.field.None? || f.field.value.FactField?)
      ensures FromSource(t.sources, [p], f)
    {
      OnlySourcesNamed(d, t, e, row, id, f);
      SourcesDiffer(d, t.sources, row, items, f);
      FromSourceOf(t.sources, e, row, p, f);
    }
  }

  lemma FromSourceOf(sources: map<Str, SourceRow>, e: Envelope, row: Row, p: Provenance, f: Finding)
    requires ValidEnvelope(e) && p in e.provenance && f.sourceId == p.sourceId
    requires FromSource(sources, ProvenanceOf(e.provenance, row.importId), f)
    ensures FromSource(sources, [p], f)
  {
    var q :| q in ProvenanceOf(e.provenance, row.importId) && q.sourceId == f.sourceId
      && match f.field
         case None => q.sourceId !in sources
         case Some(FactField(name)) =>
           q.sourceId in sources && q.facts.Fact(name) != sources[q.sourceId].facts.Fact(name)
         case _ => false;
    SameSourceId(e, p, q);
    assert q in [p];
  }

  // ---- The theorem ----

  /** What needs no approval: a summary, and three long texts unless they are cleared. */
  ghost predicate NeedsNoApproval(row: Row, field: Option<FindingField>)
    requires row.content.Valid()
  {
    || field == Some(DisplayField(Summary))
    || (field == Some(StatefulField(Description)) && !row.content.fields[Description].Clear?)
    || (field == Some(StatefulField(HistoricalContext)) && !row.content.fields[HistoricalContext].Clear?)
    || (field == Some(StatefulField(ScholarlyResearch)) && !row.content.fields[ScholarlyResearch].Clear?)
  }

  lemma ApprovalNeeded(d: Digests, t: Tables, e: Envelope, row: Row, id: Str)
    requires id in t.entries && row.content.Valid() && t.entries[id].Valid()
    ensures forall f :: f in ChangeFindings(d, t, e, row, id) ==>
      f.approvable && (f.requiresApproval <==> !NeedsNoApproval(row, f.field))
  {
    ChangesGraded(d, t, e, row, id);
  }

  lemma ReadyUpdateFindings(
    t: Tables, matches: seq<Match>, e: Envelope, d: Digests, body: PlanBody, row: Row, id: Str)
    requires ValidEnvelope(e) && Plannable(t, e) && Plan(t, matches, e, d) == Ok(body) && body.ready
    requires row in e.rows && row.catalogId == Some(id)
    ensures id in t.entries && ValidFor(t, row)
    ensures FindingsOf(body.findings, row.importId) == ChangeFindings(d, t, e, row, id)
    ensures multiset(AliasesOf(e.aliases, row.importId)) == multiset(Children(t.aliases, id))
  {
    var verdicts := ReadyIsClean(t, matches, e, d, body);
    assert Clean(t, e, d, e.rows[IndexOf(e.rows, row)], verdicts[IndexOf(e.rows, row)]);
  }

  /**
   A ready plan names of an update exactly what differs: fields supplied with another value, collections cleared or
   replaced by others, sources that are new and facts that change. All of it can be approved, and all but a summary and
   three long texts that are not cleared must be.
   */
  lemma ReadyPlanNames(t: Tables, matches: seq<Match>, e: Envelope, d: Digests, body: PlanBody, row: Row, id: Str)
    requires ValidTables(t) && ValidEnvelope(e) && Plannable(t, e) && Plan(t, matches, e, d) == Ok(body) && body.ready
    requires row in e.rows && row.catalogId == Some(id)
    ensures id in t.entries && t.entries[id].Valid() && row.content.Valid()
    ensures NamesDifferences(body.findings, t, e, row, id)
    ensures NamesSources(FindingsOf(body.findings, row.importId), t, e, row)
    ensures forall f :: f in body.findings && f.importId == row.importId ==>
      f.approvable && (f.requiresApproval <==> !NeedsNoApproval(row, f.field))
  {
    ReadyUpdateFindings(t, matches, e, d, body, row, id);
    DifferencesNamed(d, body.findings, t, e, row, id);
    SourcesNamed(d, t, e, row, id);
    ApprovalNeeded(d, t, e, row, id);
    forall f | f in body.findings && f.importId == row.importId
      ensures f.approvable && (f.requiresApproval <==> !NeedsNoApproval(row, f.field))
    {
      assert f in FindingsOf(body.findings, row.importId);
    }
  }
}
