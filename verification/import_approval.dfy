/** Nothing unapproved changes: every difference an application makes has a finding, and if protected an approval. */
module ImportApproval {
  import opened Text
  import opened Wrappers
  import opened Sorting
  import opened CatalogModel
  import opened ImportReading
  import opened TitleDuplicates
  import opened ImportPlan
  import opened ImportApply
  import opened ImportPlanFacts
  import opened ImportEffects
  import opened ImportStatements
  import opened ImportRuns
  import opened ImportFixedPoint

  /** The changes that need no approval: a summary, and texts of the lowest protection that are not being cleared. */
  predicate IsFreeChange(row: Row, field: FindingField)
    requires field.StatefulField? ==> field.name in row.content.fields
  {
    match field
    case DisplayField(name) => name.Summary?
    case StatefulField(name) => FieldLevel(name).LevelC? && !row.content.fields[name].Clear?
    case _ => false
  }

  /** The findings of an update: every one of them approvable, and all but the free ones in need of approval. */
  ghost predicate Graded(findings: seq<Finding>, row: Row)
    requires row.content.Valid()
  {
    forall f :: f in findings ==>
      && f.approvable
      && match f.field
         case None => f.requiresApproval
         case Some(field) => f.requiresApproval <==> !IsFreeChange(row, field)
  }

  lemma {:induction false} DisplayGraded(d: Digests, row: Row, target: Entry, names: seq<DisplayName>)
    requires row.content.Valid()
    ensures Graded(DisplayFindings(d, row, target, names), row)
  {
    if names != [] { DisplayGraded(d, row, target, names[..|names| - 1]); }
  }

  lemma {:induction false} StatefulGraded(d: Digests, row: Row, target: Entry, names: seq<FieldName>)
    requires row.content.Valid() && target.Valid()
    ensures Graded(StatefulFindings(d, row, target, names), row)
  {
    if names != [] { StatefulGraded(d, row, target, names[..|names| - 1]); }
  }

  lemma {:induction false} FactsGraded(d: Digests, row: Row, item: Provenance, existing: Facts, names: seq<FactName>)
    requires row.content.Valid()
    ensures Graded(FactFindings(d, row, item, existing, names), row)
  {
    if names != [] { FactsGraded(d, row, item, existing, names[..|names| - 1]); }
  }

  lemma {:induction false} ProvenanceGraded(d: Digests, sources: map<Str, SourceRow>, row: Row, items: seq<Provenance>)
    requires row.content.Valid()
    ensures Graded(ProvenanceFindings(d, sources, row, items), row)
  {
    if items != [] {
      var last := items[|items| - 1];
      ProvenanceGraded(d, sources, row, items[..|items| - 1]);
      if last.sourceId in sources { FactsGraded(d, row, last, sources[last.sourceId].facts, FACT_NAMES); }
    }
  }

  lemma ChangesGraded(d: Digests, t: Tables, e: Envelope, row: Row, id: Str)
    requires id in t.entries && row.content.Valid() && t.entries[id].Valid()
    ensures Graded(ChangeFindings(d, t, e, row, id), row)
  {
    var target := t.entries[id];
    DisplayGraded(d, row, target, DISPLAY_NAMES);
    StatefulGraded(d, row, target, FIELD_NAMES);
    ProvenanceGraded(d, t.sources, row, ProvenanceOf(e.provenance, row.importId));
  }

  // ---- Sources ----

  ghost predicate Names(findings: seq<Finding>, sourceId: Str, field: Option<FindingField>) {
    exists f :: f in findings && f.sourceId == sourceId && f.field == field
  }

  lemma {:induction false} FactsNamed(
    d: Digests, row: Row, item: Provenance, existing: Facts, names: seq<FactName>, name: FactName)
    requires name in names && item.facts.Fact(name) != existing.Fact(name)
    ensures Names(FactFindings(d, row, item, existing, names), item.sourceId, Some(FactField(name)))
  {
    var n := |names| - 1;
    var earlier := FactFindings(d, row, item, existing, names[..n]);
    var last := FactFinding(d, row, item, existing, names[n]);
    if name == names[n] {
      assert last[0] in last;
    } else {
      FactsNamed(d, row, item, existing, names[..n], name);
    }
  }

  lemma {:induction false} SourceNamed(
    d: Digests, sources: map<Str, SourceRow>, row: Row, items: seq<Provenance>, item: Provenance,
    field: Option<FindingField>)
    requires item in items && Names(SourceFindings(d, sources, row, item), item.sourceId, field)
    ensures Names(ProvenanceFindings(d, sources, row, items), item.sourceId, field)
  {
    var n := |items| - 1;
    if item != items[n] { SourceNamed(d, sources, row, items[..n], item, field); }
  }

  lemma EveryFactIsNamed(name: FactName)
    ensures name in FACT_NAMES
  {
    assert FACT_NAMES[0] == SourceTitle && FACT_NAMES[1] == SourceTypeRaw && FACT_NAMES[2] == SourceUrl;
    assert FACT_NAMES[3] == SourceNote;
  }

  /** A source that is new, or one of whose facts changes, is named by a finding of the row that lists it. */
  lemma SourceChangesNamed(d: Digests, t: Tables, e: Envelope, row: Row, id: Str, item: Provenance)
    requires id in t.entries && row.content.Valid() && t.entries[id].Valid()
    requires item in ProvenanceOf(e.provenance, row.importId)
    ensures item.sourceId !in t.sources ==> Names(ChangeFindings(d, t, e, row, id), item.sourceId, None)
    ensures item.sourceId in t.sources ==> forall name ::
      item.facts.Fact(name) != t.sources[item.sourceId].facts.Fact(name) ==>
        Names(ChangeFindings(d, t, e, row, id), item.sourceId, Some(FactField(name)))
  {
    var items := ProvenanceOf(e.provenance, row.importId);
    if item.sourceId !in t.sources {
      assert SourceFindings(d, t.sources, row, item)[0] in SourceFindings(d, t.sources, row, item);
      SourceNamed(d, t.sources, row, items, item, None);
      AmongChanges(d, t, e, row, id, item.sourceId, None);
    } else {
      forall name | item.facts.Fact(name) != t.sources[item.sourceId].facts.Fact(name)
        ensures Names(ChangeFindings(d, t, e, row, id), item.sourceId, Some(FactField(name)))
      {
        EveryFactIsNamed(name);
        FactsNamed(d, row, item, t.sources[item.sourceId].facts, FACT_NAMES, name);
        SourceNamed(d, t.sources, row, items, item, Some(FactField(name)));
        AmongChanges(d, t, e, row, id, item.sourceId, Some(FactField(name)));
      }
    }
  }

  lemma AmongChanges(
    d: Digests, t: Tables, e: Envelope, row: Row, id: Str, sourceId: Str, field: Option<FindingField>)
    requires id in t.entries && row.content.Valid() && t.entries[id].Valid()
    requires Names(ProvenanceFindings(d, t.sources, row, ProvenanceOf(e.provenance, row.importId)), sourceId, field)
    ensures Names(ChangeFindings(d, t, e, row, id), sourceId, field)
  {
    var f :| f in ProvenanceFindings(d, t.sources, row, ProvenanceOf(e.provenance, row.importId))
      && f.sourceId == sourceId && f.field == field;
    assert f in ChangeFindings(d, t, e, row, id);
  }

  // ---- What is permitted ----

  /** The plan shows this change to this entry, and it is free or approved. */
  ghost predicate Permitted(r: Request, row: Row, field: FindingField)
    requires row.content.Valid()
  {
    exists f :: f in r.plan.findings
      && f.catalogId == row.catalogId && f.importId == row.importId && f.field == Some(field)
      && (IsFreeChange(row, field) || f.id in r.authorization.approval.findingIds)
  }

  /** The plan shows this change to this source, and it is approved. */
  ghost predicate SourcePermitted(r: Request, sourceId: Str, field: Option<FindingField>) {
    exists f :: f in r.plan.findings
      && f.sourceId == sourceId && f.field == field && f.id in r.authorization.approval.findingIds
  }

  /** Whatever one row changed of the entry it targets is permitted; what it does not supply is as before. */
  ghost predicate EntryPermitted(t: Tables, t': Tables, r: Request, row: Row, id: Str)
    requires row.content.Valid() && id in t.entries && t.entries[id].Valid()
    requires id in t'.entries && t'.entries[id].Valid()
  {
    var was, now := t.entries[id], t'.entries[id];
    && (now.title != was.title ==> Permitted(r, row, TitleField))
    && (now.kind != was.kind ==> Permitted(r, row, KindField))
    && (forall n :: now.Display(n) != was.Display(n) ==>
          row.content.Display(n).Some? && Permitted(r, row, DisplayField(n)))
    && (forall f :: now.Field(f) != was.Field(f) ==>
          !row.content.Field(f).Unsupplied? && Permitted(r, row, StatefulField(f)))
    && (Children(t'.contributors, id) != Children(t.contributors, id) ==>
          !row.contributorsAction.Preserve? && Permitted(r, row, ContributorsField))
    && (ExistingCitations(t', id) != ExistingCitations(t, id) ==>
          !row.citationsAction.Preserve? && Permitted(r, row, CitationsField))
    && Children(t'.aliases, id) == Children(t.aliases, id)
  }

  lemma FieldPermitted(r: Request, row: Row, findings: seq<Finding>, field: FindingField)
    requires row.content.Valid() && FindingsApproved(r.authorization.approval, r.plan)
    requires FromRow(findings, row) && Graded(findings, row) && (forall f :: f in findings ==> f in r.plan.findings)
    requires HasField(findings, field)
    ensures Permitted(r, row, field)
  {
    var i :| 0 <= i < |findings| && findings[i].field == Some(field);
    var f := findings[i];
    assert f in findings;
    ApprovedIfRequired(r, f);
  }

  lemma ApprovedIfRequired(r: Request, f: Finding)
    requires FindingsApproved(r.authorization.approval, r.plan) && f in r.plan.findings
    ensures f.requiresApproval ==> f.id in r.authorization.approval.findingIds
  {
    var j := IndexOf(r.plan.findings, f);
  }

  lemma NamedIsPermitted(r: Request, row: Row, findings: seq<Finding>, sourceId: Str, field: Option<FindingField>)
    requires row.content.Valid() && FindingsApproved(r.authorization.approval, r.plan)
    requires Graded(findings, row) && (forall f :: f in findings ==> f in r.plan.findings)
    requires Names(findings, sourceId, field) && (field.Some? ==> field.value.FactField?)
    ensures SourcePermitted(r, sourceId, field)
  {
    var f :| f in findings && f.sourceId == sourceId && f.field == field;
    ApprovedIfRequired(r, f);
  }

  lemma UpdatePermitted(
    t: Tables, t': Tables, r: Request, d: Digests, allocate: Str -> Str, row: Row, v: Verdict)
    requires ValidTables(t) && ValidTables(t') && ValidFor(t, row) && row.catalogId.Some?
    requires Clean(t, r.envelope, d, row, v) && FindingsOf(r.plan.findings, row.importId) == v.findings
    requires FindingsApproved(r.authorization.approval, r.plan) && SettledRow(t, t', r.envelope, allocate, row)
    ensures EntryPermitted(t, t', r, row, row.catalogId.value)
  {
    var id := row.catalogId.value;
    ChangesReported(d, t, r.envelope, row, id);
    ChangesFrom(d, t, r.envelope, row, id);
    ChangesGraded(d, t, r.envelope, row, id);
    ReportedIsPermitted(t, t', r, v.findings, row, id);
  }

  lemma ReportedIsPermitted(t: Tables, t': Tables, r: Request, findings: seq<Finding>, row: Row, id: Str)
    requires ValidTables(t) && ValidTables(t') && row.content.Valid() && id in t.entries
    requires Settled(t, t', r.envelope, row, id) && Reports(findings, t, r.envelope, row, id)
    requires FromRow(findings, row) && Graded(findings, row) && FindingsApproved(r.authorization.approval, r.plan)
    requires forall f :: f in findings ==> f in r.plan.findings
    ensures EntryPermitted(t, t', r, row, id)
  {
    forall field | HasField(findings, field) ensures Permitted(r, row, field) {
      FieldPermitted(r, row, findings, field);
    }
    MergedKeepsRest(t.entries[id], row.content);
  }

  lemma MergedKeepsRest(current: Entry, incoming: Entry)
    requires current.Valid() && incoming.Valid()
    ensures var m := Merged(current, incoming);
      && m.Valid()
      && (forall n :: m.Display(n) != current.Display(n) ==>
            incoming.Display(n).Some? && incoming.Display(n) != current.Display(n))
      && (forall f :: m.Field(f) != current.Field(f) ==>
            !incoming.Field(f).Unsupplied? && incoming.Field(f) != current.Field(f))
  {
  }

  /** A known source stays bound where it was, and each of its facts that changed was approved. */
  ghost predicate KnownSourcePermitted(t: Tables, t': Tables, r: Request, s: Str)
    requires s in t.sources
  {
    && s in t'.sources && t'.sources[s].catalogId == t.sources[s].catalogId
    && forall name :: t'.sources[s].facts.Fact(name) != t.sources[s].facts.Fact(name) ==>
         SourcePermitted(r, s, Some(FactField(name)))
  }

  /** A source that was not known is listed by a row, is bound to its entry and, if that existed, was approved. */
  ghost predicate NewSourcePermitted(t': Tables, r: Request, s: Str)
    requires s in t'.sources
  {
    exists row :: row in r.envelope.rows && Lists(ProvenanceOf(r.envelope.provenance, row.importId), s)
      && t'.sources[s].catalogId == CatalogIdOf(row, Allocation(r.allocate))
      && (row.catalogId.Some? ==> SourcePermitted(r, s, None))
  }

  lemma SourcePermittedByRow(
    t: Tables, t': Tables, r: Request, d: Digests, row: Row, v: Verdict, s: Str)
    requires ValidTables(t) && ValidFor(t, row) && row in r.envelope.rows
    requires Clean(t, r.envelope, d, row, v) && FindingsOf(r.plan.findings, row.importId) == v.findings
    requires FindingsApproved(r.authorization.approval, r.plan)
    requires SettledRow(t, t', r.envelope, Allocation(r.allocate), row)
    requires Lists(ProvenanceOf(r.envelope.provenance, row.importId), s)
    ensures s in t.sources ==> KnownSourcePermitted(t, t', r, s)
    ensures s !in t.sources && s in t'.sources ==> NewSourcePermitted(t', r, s)
  {
    var item := ListsItem(ProvenanceOf(r.envelope.provenance, row.importId), s);
    assert !IsRebound(t.sources, item, row.catalogId);
    if row.catalogId.Some? {
      var id := row.catalogId.value;
      SourceChangesNamed(d, t, r.envelope, row, id, item);
      ChangesGraded(d, t, r.envelope, row, id);
      if s in t.sources {
        forall name | item.facts.Fact(name) != t.sources[s].facts.Fact(name)
          ensures SourcePermitted(r, s, Some(FactField(name)))
        {
          NamedIsPermitted(r, row, v.findings, s, Some(FactField(name)));
        }
      } else {
        NamedIsPermitted(r, row, v.findings, s, None);
      }
    }
  }

  ghost predicate Targeted(rows: seq<Row>, id: Str) {
    exists row :: row in rows && row.catalogId == Some(id)
  }

  /** The whole promise. */
  ghost predicate OnlyPermittedChanges(t: Tables, t': Tables, r: Request) {
    && ValidTables(t) && ValidTables(t')
    && (forall row :: row in r.envelope.rows && row.catalogId.Some? ==>
          && row.content.Valid() && row.catalogId.value in t.entries && row.catalogId.value in t'.entries
          && EntryPermitted(t, t', r, row, row.catalogId.value))
    && (forall id :: id in t.entries && !Targeted(r.envelope.rows, id) ==> SameEntry(t, t', id))
    && (forall s :: s in t.sources ==> KnownSourcePermitted(t, t', r, s))
    && (forall s :: s in t'.sources && s !in t.sources ==> NewSourcePermitted(t', r, s))
    && Distinct(FindingIds(r.plan.findings))
  }

  /**
   Nothing unapproved changes. Of every entry that existed, a field, a contributor list or a citation list that differs
   after an application has a finding in the plan that names it, and so has a source; unless the change is a free one,
   the identity of that finding is among the approved ones, and no two findings share it. Fields that are not supplied,
   collections that are preserved, and entries that no row targets are as they were.
   */
  lemma NothingUnapproved(t: Tables, matches: seq<Match>, r: Request, d: Digests, o: Outcome)
    requires ValidTables(t) && ValidEnvelope(r.envelope) && Plannable(t, r.envelope) && Applicable(t, r.envelope.rows)
    requires Apply(t, matches, r, d) == Ok(o) && !o.replayed
    ensures OnlyPermittedChanges(t, o.tables, r)
  {
    var verdicts := AppliedWasClean(t, matches, r, d, o);
    ApplySettles(t, matches, r, d, o);
    ApprovedWithIds(t, matches, r, d, o);
    RowsPermitted(t, o.tables, r, d, verdicts);
    EntriesPermitted(t, o.tables, r, d, verdicts);
    SourcesPermitted(t, o.tables, r, d, verdicts);
  }

  lemma ApprovedWithIds(t: Tables, matches: seq<Match>, r: Request, d: Digests, o: Outcome)
    requires ValidEnvelope(r.envelope) && Plannable(t, r.envelope) && Applicable(t, r.envelope.rows)
    requires Apply(t, matches, r, d) == Ok(o) && !o.replayed
    ensures FindingsApproved(r.authorization.approval, r.plan) && Distinct(FindingIds(r.plan.findings))
  {
    Accepted(t, matches, r, d, o);
  }

  ghost predicate WasClean(t: Tables, t': Tables, r: Request, d: Digests, verdicts: seq<Verdict>) {
    && AllClean(t, r.envelope, d, r.envelope.rows, verdicts, r.plan.findings)
    && FindingsApproved(r.authorization.approval, r.plan)
    && Progress(t, t', r.envelope, Allocation(r.allocate), r.envelope.rows)
  }

  lemma RowsPermitted(t: Tables, t': Tables, r: Request, d: Digests, verdicts: seq<Verdict>)
    requires WasClean(t, t', r, d, verdicts)
    ensures forall row :: row in r.envelope.rows && row.catalogId.Some? ==>
      && row.content.Valid() && row.catalogId.value in t.entries && row.catalogId.value in t'.entries
      && EntryPermitted(t, t', r, row, row.catalogId.value)
  {
    forall row | row in r.envelope.rows && row.catalogId.Some?
      ensures row.content.Valid() && row.catalogId.value in t.entries && row.catalogId.value in t'.entries
      ensures EntryPermitted(t, t', r, row, row.catalogId.value)
    {
      var i := IndexOf(r.envelope.rows, row);
      UpdatePermitted(t, t', r, d, Allocation(r.allocate), row, verdicts[i]);
    }
  }

  lemma EntriesPermitted(t: Tables, t': Tables, r: Request, d: Digests, verdicts: seq<Verdict>)
    requires WasClean(t, t', r, d, verdicts)
    ensures forall id :: id in t.entries && !Targeted(r.envelope.rows, id) ==> SameEntry(t, t', id)
  {
    var allocate := Allocation(r.allocate);
    forall id | id in t.entries && !Targeted(r.envelope.rows, id) ensures SameEntry(t, t', id) {
      forall i | 0 <= i < |r.envelope.rows| ensures CatalogIdOf(r.envelope.rows[i], allocate) != id {
        assert r.envelope.rows[i] in r.envelope.rows && SettledRow(t, t', r.envelope, allocate, r.envelope.rows[i]);
      }
      assert !Touches(r.envelope.rows, allocate, id);
    }
  }

  lemma SourcesPermitted(t: Tables, t': Tables, r: Request, d: Digests, verdicts: seq<Verdict>)
    requires WasClean(t, t', r, d, verdicts)
    ensures forall s :: s in t.sources ==> KnownSourcePermitted(t, t', r, s)
    ensures forall s :: s in t'.sources && s !in t.sources ==> NewSourcePermitted(t', r, s)
  {
    forall s
      ensures s in t.sources ==> KnownSourcePermitted(t, t', r, s)
      ensures s in t'.sources && s !in t.sources ==> NewSourcePermitted(t', r, s)
    {
      if Binds(r.envelope, r.envelope.rows, s) {
        var i :| 0 <= i < |r.envelope.rows|
          && Lists(ProvenanceOf(r.envelope.provenance, r.envelope.rows[i].importId), s);
        assert r.envelope.rows[i] in r.envelope.rows;
        SourcePermittedByRow(t, t', r, d, r.envelope.rows[i], verdicts[i], s);
      } else {
        assert SameSource(t, t', s);
      }
    }
  }
}
