/**
 What the statements of one row leave behind, said without the statements: the entry is merged with what the row
 supplies, its collections are those the row asks for, and its sources are bound to it.
 */
module ImportEffects {
  import opened Text
  import opened Wrappers
  import opened Sorting
  import opened CatalogModel
  import opened ImportReading
  import opened ImportPlan
  import opened ImportApply

  // ---- The state a row asks for ----

  /** An entry after a row: what the row supplies replaces what was there, and the rest stays. */
  function Merged(current: Entry, incoming: Entry): Entry
    requires current.Valid() && incoming.Valid()
  {
    Entry(
      incoming.kind, incoming.title,
      if incoming.summary.Some? then incoming.summary else current.summary,
      if incoming.periodLabel.Some? then incoming.periodLabel else current.periodLabel,
      map f | f in current.fields :: if incoming.fields[f].Unsupplied? then current.fields[f] else incoming.fields[f])
  }

  function ContributorsAfter(t: Tables, e: Envelope, row: Row, id: Str): seq<Contributor> {
    match row.contributorsAction
    case Preserve => Children(t.contributors, id)
    case ClearAll => []
    case Replace => ContributorsForImport(e, row.importId)
  }

  function CitationsAfter(t: Tables, e: Envelope, row: Row, id: Str): seq<SemanticCitation> {
    match row.citationsAction
    case Preserve => ExistingCitations(t, id)
    case ClearAll => []
    case Replace => CitationsForImport(e, row.importId)
  }

  ghost predicate SourcesBound(sources: map<Str, SourceRow>, items: seq<Provenance>, id: Str) {
    forall item :: item in items ==> item.sourceId in sources && sources[item.sourceId] == SourceRow(id, item.facts)
  }

  /** The tables `t` hold, for one row, what the row asks for against the tables `t0` it started from. */
  ghost predicate Settled(t0: Tables, t: Tables, e: Envelope, row: Row, id: Str)
    requires row.content.Valid() && (id in t0.entries ==> t0.entries[id].Valid())
  {
    && id in t.entries && (row.catalogId.Some? <==> id in t0.entries)
    && t.entries[id] == (if id in t0.entries then Merged(t0.entries[id], row.content) else row.content)
    && Children(t.contributors, id) == ContributorsAfter(t0, e, row, id)
    && ExistingCitations(t, id) == CitationsAfter(t0, e, row, id)
    && Children(t.aliases, id)
       == (if id in t0.entries then Children(t0.aliases, id) else AliasesOf(e.aliases, row.importId))
    && SourcesBound(t.sources, ProvenanceOf(e.provenance, row.importId), id)
  }

  /** Two states of the tables agree on one entry and all its child rows. */
  ghost predicate SameEntry(t: Tables, t': Tables, id: Str) {
    && (id in t.entries <==> id in t'.entries) && (id in t.entries ==> t.entries[id] == t'.entries[id])
    && Children(t.aliases, id) == Children(t'.aliases, id)
    && Children(t.contributors, id) == Children(t'.contributors, id)
    && Children(t.citations, id) == Children(t'.citations, id)
    && forall p, s :: (id, p, s) in t.scopes <==> (id, p, s) in t'.scopes
  }

  ghost predicate SameSource(t: Tables, t': Tables, s: Str) {
    (s in t.sources <==> s in t'.sources) && (s in t.sources ==> t.sources[s] == t'.sources[s])
  }

  // ---- What the findings of an update say ----

  /** The findings of an update name exactly what differs between the entry and the row. */
  ghost predicate Reports(findings: seq<Finding>, t: Tables, e: Envelope, row: Row, id: Str)
    requires id in t.entries && t.entries[id].Valid() && row.content.Valid()
  {
    var target, incoming := t.entries[id], row.content;
    && (HasField(findings, TitleField) <==> incoming.title != target.title)
    && (HasField(findings, KindField) <==> incoming.kind != target.kind)
    && (forall n :: HasField(findings, DisplayField(n)) <==>
          incoming.Display(n).Some? && incoming.Display(n) != target.Display(n))
    && (forall f :: HasField(findings, StatefulField(f)) <==>
          !incoming.Field(f).Unsupplied? && incoming.Field(f) != target.Field(f))
    && (HasField(findings, ContributorsField) <==> ContributorsAfter(t, e, row, id) != Children(t.contributors, id))
    && (HasField(findings, CitationsField) <==> CitationsAfter(t, e, row, id) != ExistingCitations(t, id))
  }

  lemma HasFieldAppend(a: seq<Finding>, b: seq<Finding>, field: FindingField)
    ensures HasField(a + b, field) <==> HasField(a, field) || HasField(b, field)
  {
    if i :| 0 <= i < |a| && a[i].field == Some(field) { assert (a + b)[i] == a[i]; }
    if i :| 0 <= i < |b| && b[i].field == Some(field) { assert (a + b)[|a| + i] == b[i]; }
  }

  lemma {:induction false} DisplayReported(d: Digests, row: Row, target: Entry, names: seq<DisplayName>)
    ensures forall x :: HasField(DisplayFindings(d, row, target, names), x) <==>
      x.DisplayField? && x.display in names
      && row.content.Display(x.display).Some? && row.content.Display(x.display) != target.Display(x.display)
  {
    if names != [] {
      var n := |names| - 1;
      DisplayReported(d, row, target, names[..n]);
      var earlier, last := DisplayFindings(d, row, target, names[..n]), DisplayFinding(d, row, target, names[n]);
      assert last != [] ==> last[0].field == Some(DisplayField(names[n])) && |last| == 1;
      forall x ensures HasField(earlier + last, x) <==> HasField(earlier, x) || HasField(last, x) {
        HasFieldAppend(earlier, last, x);
      }
      assert forall k :: k in names <==> k in names[..n] || k == names[n];
    }
  }

  lemma {:induction false} StatefulReported(d: Digests, row: Row, target: Entry, names: seq<FieldName>)
    requires row.content.Valid() && target.Valid()
    ensures forall x :: HasField(StatefulFindings(d, row, target, names), x) <==>
      x.StatefulField? && x.name in names
      && !row.content.Field(x.name).Unsupplied? && row.content.Field(x.name) != target.Field(x.name)
  {
    if names != [] {
      var n := |names| - 1;
      StatefulReported(d, row, target, names[..n]);
      var earlier, last := StatefulFindings(d, row, target, names[..n]), StatefulFinding(d, row, target, names[n]);
      assert last != [] ==> last[0].field == Some(StatefulField(names[n])) && |last| == 1;
      forall x ensures HasField(earlier + last, x) <==> HasField(earlier, x) || HasField(last, x) {
        HasFieldAppend(earlier, last, x);
      }
      assert forall k :: k in names <==> k in names[..n] || k == names[n];
    }
  }

  lemma {:induction false} FactsReported(d: Digests, row: Row, item: Provenance, existing: Facts, names: seq<FactName>)
    ensures forall x :: HasField(FactFindings(d, row, item, existing, names), x) ==> x.FactField?
  {
    if names != [] {
      var n := |names| - 1;
      FactsReported(d, row, item, existing, names[..n]);
      var earlier := FactFindings(d, row, item, existing, names[..n]);
      var last := FactFinding(d, row, item, existing, names[n]);
      forall x ensures HasField(earlier + last, x) <==> HasField(earlier, x) || HasField(last, x) {
        HasFieldAppend(earlier, last, x);
      }
    }
  }

  lemma {:induction false} SourcesReported(d: Digests, sources: map<Str, SourceRow>, row: Row, items: seq<Provenance>)
    ensures forall x :: HasField(ProvenanceFindings(d, sources, row, items), x) ==> x.FactField?
  {
    if items != [] {
      var n := |items| - 1;
      SourcesReported(d, sources, row, items[..n]);
      if items[n].sourceId in sources { FactsReported(d, row, items[n], sources[items[n].sourceId].facts, FACT_NAMES); }
      var earlier, last := ProvenanceFindings(d, sources, row, items[..n]), SourceFindings(d, sources, row, items[n]);
      forall x ensures HasField(earlier + last, x) <==> HasField(earlier, x) || HasField(last, x) {
        HasFieldAppend(earlier, last, x);
      }
    }
  }

  lemma CollectionsReported(d: Digests, t: Tables, e: Envelope, row: Row, id: Str)
    requires ByPosition(Children(t.contributors, id), (c: Contributor) => c.position)
    ensures forall x :: HasField(ContributorFindings(d, t, e, row, id), x) <==>
      x.ContributorsField? && ContributorsAfter(t, e, row, id) != Children(t.contributors, id)
    ensures forall x :: HasField(CitationFindings(d, t, e, row, id), x) <==>
      x.CitationsField? && CitationsAfter(t, e, row, id) != ExistingCitations(t, id)
  {
    ContributorsInOrder(t, id);
    var c, q := ContributorFindings(d, t, e, row, id), CitationFindings(d, t, e, row, id);
    assert c != [] ==> c[0].field == Some(ContributorsField) && |c| == 1;
    assert q != [] ==> q[0].field == Some(CitationsField) && |q| == 1;
  }

  lemma ContributorsInOrder(t: Tables, id: Str)
    requires ByPosition(Children(t.contributors, id), (c: Contributor) => c.position)
    ensures ExistingContributors(t, id) == Children(t.contributors, id)
  {
    SortKeeps(Children(t.contributors, id), ContributorLe);
  }

  lemma ChangesReported(d: Digests, t: Tables, e: Envelope, row: Row, id: Str)
    requires id in t.entries && t.entries[id].Valid() && row.content.Valid()
    requires ByPosition(Children(t.contributors, id), (c: Contributor) => c.position)
    ensures Reports(ChangeFindings(d, t, e, row, id), t, e, row, id)
  {
    var target := t.entries[id];
    var items := ProvenanceOf(e.provenance, row.importId);
    DisplayReported(d, row, target, DISPLAY_NAMES);
    StatefulReported(d, row, target, FIELD_NAMES);
    SourcesReported(d, t.sources, row, items);
    CollectionsReported(d, t, e, row, id);
    TitleAndKindReported(d, row, target);
    PartsReport(
      TitleFindings(d, row, target), KindFindings(d, row, target), DisplayFindings(d, row, target, DISPLAY_NAMES),
      StatefulFindings(d, row, target, FIELD_NAMES), ProvenanceFindings(d, t.sources, row, items),
      ContributorFindings(d, t, e, row, id), CitationFindings(d, t, e, row, id));
    FieldsReport(ChangeFindings(d, t, e, row, id), t, e, row, id);
  }

  /** Findings whose fields are those of the parts report what differs. */
  lemma FieldsReport(findings: seq<Finding>, t: Tables, e: Envelope, row: Row, id: Str)
    requires id in t.entries && t.entries[id].Valid() && row.content.Valid()
    requires forall x :: HasField(findings, x) && !x.FactField? <==>
      match x
      case TitleField => row.content.title != t.entries[id].title
      case KindField => row.content.kind != t.entries[id].kind
      case DisplayField(n) =>
        n in DISPLAY_NAMES && row.content.Display(n).Some? && row.content.Display(n) != t.entries[id].Display(n)
      case StatefulField(f) =>
        f in FIELD_NAMES && !row.content.Field(f).Unsupplied? && row.content.Field(f) != t.entries[id].Field(f)
      case ContributorsField => ContributorsAfter(t, e, row, id) != Children(t.contributors, id)
      case CitationsField => CitationsAfter(t, e, row, id) != ExistingCitations(t, id)
      case _ => false
    ensures Reports(findings, t, e, row, id)
  {
    forall f: FieldName ensures f in FIELD_NAMES { EveryFieldIsNamed(f); }
    forall n: DisplayName ensures n in DISPLAY_NAMES { EveryDisplayIsNamed(n); }
  }

  lemma EveryDisplayIsNamed(n: DisplayName)
    ensures n in DISPLAY_NAMES
  {
    assert DISPLAY_NAMES[0] == Summary && DISPLAY_NAMES[1] == PeriodLabel;
    if n.Summary? {} else {}
  }

  lemma TitleAndKindReported(d: Digests, row: Row, target: Entry)
    ensures forall x :: HasField(TitleFindings(d, row, target), x) <==>
      x.TitleField? && row.content.title != target.title
    ensures forall x :: HasField(KindFindings(d, row, target), x) <==> x.KindField? && row.content.kind != target.kind
  {
    var a, b := TitleFindings(d, row, target), KindFindings(d, row, target);
    assert a != [] ==> a[0].field == Some(TitleField) && |a| == 1;
    assert b != [] ==> b[0].field == Some(KindField) && |b| == 1;
  }

  lemma PartsReport(
    a: seq<Finding>, b: seq<Finding>, c: seq<Finding>, f: seq<Finding>, g: seq<Finding>, h: seq<Finding>,
    k: seq<Finding>)
    ensures forall x :: HasField(a + b + c + f + g + h + k, x) <==>
      || HasField(a, x) || HasField(b, x) || HasField(c, x) || HasField(f, x) || HasField(g, x) || HasField(h, x)
      || HasField(k, x)
  {
    forall x
      ensures HasField(a + b + c + f + g + h + k, x) <==>
        (HasField(a, x) || HasField(b, x) || HasField(c, x) || HasField(f, x) || HasField(g, x) || HasField(h, x)
         || HasField(k, x))
    {
      HasFieldAppend(a, b, x);
      HasFieldAppend(a + b, c, x);
      HasFieldAppend(a + b + c, f, x);
      HasFieldAppend(a + b + c + f, g, x);
      HasFieldAppend(a + b + c + f + g, h, x);
      HasFieldAppend(a + b + c + f + g + h, k, x);
    }
  }

  /** Setting exactly the reported columns merges the row into the entry. */
  lemma ColumnsMerge(findings: seq<Finding>, t: Tables, e: Envelope, row: Row, id: Str)
    requires id in t.entries && t.entries[id].Valid() && row.content.Valid() && Reports(findings, t, e, row, id)
    ensures SetColumns(t.entries[id], row, findings) == Merged(t.entries[id], row.content)
    ensures DisplaySupplied(row, findings)
  {
    var target := t.entries[id];
    assert row.content.Display(Summary) == row.content.summary && target.Display(Summary) == target.summary;
    assert row.content.Display(PeriodLabel) == row.content.periodLabel;
    assert target.Display(PeriodLabel) == target.periodLabel;
    var left, right := SetColumns(target, row, findings).fields, Merged(target, row.content).fields;
    forall f | f in target.fields ensures left[f] == right[f] {
      assert row.content.Field(f) == row.content.fields[f] && target.Field(f) == target.fields[f];
      assert HasField(findings, StatefulField(f)) <==>
        !row.content.Field(f).Unsupplied? && row.content.Field(f) != target.Field(f);
    }
    assert left == right;
  }
}
