/** Applying reaches a fixed point: the same envelope, planned again, finds nothing left to do. */
module ImportFixedPoint {
  import opened Text
  import opened Wrappers
  import opened Sequences
  import opened Sorting
  import opened CatalogModel
  import opened ImportReading
  import opened TitleDuplicates
  import opened ImportPlan
  import opened ImportApply
  import opened ImportPlanFacts
  import opened ImportEffects
  import opened ImportRuns

  // ---- A settled row has nothing left to change ----

  lemma {:induction false} NoDisplayFindings(d: Digests, row: Row, target: Entry, names: seq<DisplayName>)
    requires forall n :: n in names ==> row.content.Display(n).None? || row.content.Display(n) == target.Display(n)
    ensures DisplayFindings(d, row, target, names) == []
  {
    if names != [] {
      NoDisplayFindings(d, row, target, names[..|names| - 1]);
      assert names[|names| - 1] in names;
    }
  }

  lemma {:induction false} NoStatefulFindings(d: Digests, row: Row, target: Entry, names: seq<FieldName>)
    requires row.content.Valid() && target.Valid()
    requires forall f :: f in names ==> row.content.Field(f).Unsupplied? || row.content.Field(f) == target.Field(f)
    ensures StatefulFindings(d, row, target, names) == []
  {
    if names != [] {
      NoStatefulFindings(d, row, target, names[..|names| - 1]);
      assert names[|names| - 1] in names;
    }
  }

  lemma {:induction false} NoFactFindings(d: Digests, row: Row, item: Provenance, names: seq<FactName>)
    ensures FactFindings(d, row, item, item.facts, names) == []
  {
    if names != [] { NoFactFindings(d, row, item, names[..|names| - 1]); }
  }

  lemma {:induction false} NoProvenanceFindings(
    d: Digests, sources: map<Str, SourceRow>, row: Row, items: seq<Provenance>, id: Str)
    requires SourcesBound(sources, items, id)
    ensures ProvenanceFindings(d, sources, row, items) == []
  {
    if items != [] {
      NoProvenanceFindings(d, sources, row, items[..|items| - 1], id);
      assert items[|items| - 1] in items;
      NoFactFindings(d, row, items[|items| - 1], FACT_NAMES);
    }
  }

  lemma NoCollectionFindings(d: Digests, t0: Tables, t: Tables, e: Envelope, row: Row, id: Str)
    requires Children(t.contributors, id) == ContributorsAfter(t0, e, row, id)
    requires ExistingCitations(t, id) == CitationsAfter(t0, e, row, id)
    requires ByPosition(Children(t.contributors, id), (c: Contributor) => c.position)
    ensures ContributorFindings(d, t, e, row, id) == [] && CitationFindings(d, t, e, row, id) == []
  {
    ContributorsInOrder(t, id);
  }

  lemma MergedAgrees(current: Entry, incoming: Entry)
    requires current.Valid() && incoming.Valid()
    ensures var m := Merged(current, incoming);
      && m.Valid()
      && (forall n :: incoming.Display(n).None? || incoming.Display(n) == m.Display(n))
      && (forall f :: incoming.Field(f).Unsupplied? || incoming.Field(f) == m.Field(f))
  {
  }

  lemma NothingLeft(t0: Tables, t: Tables, d: Digests, e: Envelope, row: Row, id: Str)
    requires row.content.Valid() && id in t0.entries && t0.entries[id].Valid()
    requires Settled(t0, t, e, row, id) && ByPosition(Children(t.contributors, id), (c: Contributor) => c.position)
    ensures t.entries[id].Valid() && ChangeFindings(d, t, e, row, id) == []
  {
    var target := t.entries[id];
    MergedAgrees(t0.entries[id], row.content);
    NoDisplayFindings(d, row, target, DISPLAY_NAMES);
    NoStatefulFindings(d, row, target, FIELD_NAMES);
    NoProvenanceFindings(d, t.sources, row, ProvenanceOf(e.provenance, row.importId), id);
    NoCollectionFindings(d, t0, t, e, row, id);
  }

  /** A settled update: nothing stands against it, and nothing is left of it to do. */
  ghost predicate AtRest(t: Tables, e: Envelope, d: Digests, row: Row) {
    && ValidFor(t, row) && row.catalogId.Some? && IsEligible(t, e, row)
    && AliasesRepeated(t, e, row, row.catalogId.value)
    && ChangeFindings(d, t, e, row, row.catalogId.value) == []
  }

  lemma SettledIsAtRest(t0: Tables, t: Tables, e: Envelope, d: Digests, allocate: Str -> Str, row: Row, v: Verdict)
    requires ValidTables(t0) && ValidTables(t) && ValidFor(t0, row)
    requires Clean(t0, e, d, row, v) && row.catalogId.Some?
    requires SettledRow(t0, t, e, allocate, row)
    ensures AtRest(t, e, d, row)
  {
    var id := row.catalogId.value;
    NothingLeft(t0, t, d, e, row, id);
    var items := ProvenanceOf(e.provenance, row.importId);
    forall item | item in items ensures !IsRebound(t.sources, item, row.catalogId) {}
  }

  lemma RestIsUnchanged(t: Tables, e: Envelope, d: Digests, row: Row)
    requires AtRest(t, e, d, row)
    ensures Classify(t, e, {}, d, row) == Ok(Verdict([], NoChange))
  {
  }

  // ---- No title is shared afterwards ----

  lemma {:induction false} AllEligible(t: Tables, e: Envelope, rows: seq<Row>)
    requires forall row :: row in rows ==> IsEligible(t, e, row)
    ensures Eligible(t, e, rows) == rows
    decreases |rows|
  {
    if rows == [] {
    } else {
      AllEligible(t, e, rows[..|rows| - 1]);
      assert rows[|rows| - 1] in rows;
      Snoc(rows);
    }
  }

  lemma StillUnshared(
    t0: Tables, t: Tables, e: Envelope, allocate: Str -> Str, matches0: seq<Match>, matches: seq<Match>, row: Row)
    requires Progress(t0, t, e, allocate, e.rows) && row in e.rows
    requires forall r :: r in e.rows ==> r.catalogId.Some?
    requires AnswersTitles(t0, e.rows, matches0) && AnswersTitles(t, e.rows, matches)
    requires !SharesTitle(e.rows, matches0, row)
    ensures !SharesTitle(e.rows, matches, row)
  {
    var title := row.content.title;
    forall id | Match(title, id) in matches
      ensures exists own :: own in e.rows && own.content.title == title && own.catalogId == Some(id)
    {
      if Touches(e.rows, allocate, id) {
        var i :| 0 <= i < |e.rows| && CatalogIdOf(e.rows[i], allocate) == id;
        assert e.rows[i] in e.rows && SettledRow(t0, t, e, allocate, e.rows[i]);
        assert t.entries[id].title == e.rows[i].content.title;
      } else {
        assert SameEntry(t0, t, id);
        assert Match(title, id) in matches0;
      }
    }
  }

  lemma NothingFlagged(
    t0: Tables, t: Tables, e: Envelope, allocate: Str -> Str, matches0: seq<Match>, matches: seq<Match>)
    requires ValidEnvelope(e) && Progress(t0, t, e, allocate, e.rows)
    requires forall r :: r in e.rows ==> r.catalogId.Some?
    requires AnswersTitles(t0, e.rows, matches0) && AnswersTitles(t, e.rows, matches)
    requires Flagged(e.rows, matches0) == {}
    ensures Flagged(e.rows, matches) == {}
  {
    EnvelopeIds(e);
    forall row | row in e.rows ensures row.importId !in Flagged(e.rows, matches) {
      FlaggedExactly(e.rows, matches0, row);
      StillUnshared(t0, t, e, allocate, matches0, matches, row);
      FlaggedExactly(e.rows, matches, row);
    }
  }

  lemma NothingToAnalyze(rows: seq<Row>, matches: seq<Match>, importIds: seq<Str>, h: TitleHashes)
    requires Flagged(rows, matches) == {}
    ensures Analyze(rows, matches, importIds, h) == Some(Analysis([], {}))
  {
    var titles := Sort(Dedup(Titles(rows)), Le);
    SortMembers(Dedup(Titles(rows)), Le);
    forall title | title in titles ensures !IsDuplicated(rows, matches, title) {
      assert title in Titles(rows);
      var row := rows[IndexOf(Titles(rows), title)];
      assert IsDuplicated(rows, matches, title) ==> row.importId in Flagged(rows, matches);
    }
    NothingDuplicated(titles, rows, matches, h, AsSet(importIds));
  }

  // ---- The plan of a settled envelope ----

  function Unchanging(n: nat): (r: seq<Verdict>)
    ensures |r| == n
  {
    if n == 0 then [] else Unchanging(n - 1) + [Verdict([], NoChange)]
  }

  lemma {:induction false} AllUnchanged(t: Tables, e: Envelope, d: Digests, rows: seq<Row>)
    requires forall row :: row in rows ==> ValidFor(t, row) && Classify(t, e, {}, d, row) == Ok(Verdict([], NoChange))
    ensures Verdicts(t, e, {}, d, rows) == Ok(Unchanging(|rows|))
    decreases |rows|
  {
    if rows == [] {
    } else {
      AllUnchanged(t, e, d, rows[..|rows| - 1]);
      assert rows[|rows| - 1] in rows;
    }
  }

  lemma {:induction false} UnchangedCounted(n: nat)
    ensures var verdicts := Unchanging(n);
      && AllFindings(verdicts) == [] && Count(verdicts, NoChange) == n && Count(verdicts, Add) == 0
      && Count(verdicts, Update) == 0 && Count(verdicts, Conflict) == 0 && Count(verdicts, ErrorRow) == 0
  {
    if n > 0 {
      UnchangedCounted(n - 1);
      assert Unchanging(n)[..n - 1] == Unchanging(n - 1);
    }
  }

  lemma RestingPlan(t: Tables, e: Envelope, d: Digests, matches: seq<Match>)
    requires forall row :: row in e.rows ==> AtRest(t, e, d, row)
    requires Flagged(e.rows, matches) == {}
    ensures Plannable(t, e)
    ensures Plan(t, matches, e, d)
      == Ok(PlanBody(d.input(e), |e.rows|, [], Counts(0, 0, |e.rows|, 0, 0, 0, 0), [], [], true))
  {
    AllEligible(t, e, e.rows);
    NothingToAnalyze(e.rows, matches, ImportIds(e.rows), d.titles);
    forall row | row in e.rows ensures Classify(t, e, {}, d, row) == Ok(Verdict([], NoChange)) {
      RestIsUnchanged(t, e, d, row);
    }
    AllUnchanged(t, e, d, e.rows);
    UnchangedCounted(|e.rows|);
  }

  /**
   The fixed point: after applying an envelope of updates, planning it again on the tables it left finds nothing. There
   is no finding and no duplicate candidate, every row is unchanged, and the plan is ready.
   */
  lemma ApplyReachesFixedPoint(
    t: Tables, matches: seq<Match>, r: Request, d: Digests, o: Outcome, matches': seq<Match>)
    requires ValidTables(t) && ValidEnvelope(r.envelope) && Plannable(t, r.envelope) && Applicable(t, r.envelope.rows)
    requires Apply(t, matches, r, d) == Ok(o) && !o.replayed
    requires forall row :: row in r.envelope.rows ==> row.catalogId.Some?
    requires AnswersTitles(t, r.envelope.rows, matches) && AnswersTitles(o.tables, r.envelope.rows, matches')
    ensures ValidTables(o.tables) && Plannable(o.tables, r.envelope)
    ensures var n := |r.envelope.rows|;
      Plan(o.tables, matches', r.envelope, d)
      == Ok(PlanBody(d.input(r.envelope), n, [], Counts(0, 0, n, 0, 0, 0, 0), [], [], true))
  {
    var verdicts := AppliedWasClean(t, matches, r, d, o);
    ApplySettles(t, matches, r, d, o);
    SettledRests(t, o.tables, r.envelope, d, Allocation(r.allocate), verdicts, r.plan.findings, matches, matches');
    RestingPlan(o.tables, r.envelope, d, matches');
  }

  lemma AppliedWasClean(t: Tables, matches: seq<Match>, r: Request, d: Digests, o: Outcome)
    returns (verdicts: seq<Verdict>)
    requires ValidEnvelope(r.envelope) && Plannable(t, r.envelope) && Applicable(t, r.envelope.rows)
    requires Apply(t, matches, r, d) == Ok(o) && !o.replayed
    ensures AllClean(t, r.envelope, d, r.envelope.rows, verdicts, r.plan.findings)
    ensures Flagged(Eligible(t, r.envelope, r.envelope.rows), matches) == {}
  {
    Accepted(t, matches, r, d, o);
    verdicts := ReadyIsClean(t, matches, r.envelope, d, r.plan);
  }

  lemma SettledRests(
    t0: Tables, t: Tables, e: Envelope, d: Digests, allocate: Str -> Str, verdicts: seq<Verdict>, planned: seq<Finding>,
    matches0: seq<Match>, matches: seq<Match>)
    requires ValidEnvelope(e) && Progress(t0, t, e, allocate, e.rows)
    requires AllClean(t0, e, d, e.rows, verdicts, planned) && Flagged(Eligible(t0, e, e.rows), matches0) == {}
    requires forall row :: row in e.rows ==> row.catalogId.Some?
    requires AnswersTitles(t0, e.rows, matches0) && AnswersTitles(t, e.rows, matches)
    ensures forall row :: row in e.rows ==> AtRest(t, e, d, row)
    ensures Flagged(e.rows, matches) == {}
  {
    forall row | row in e.rows ensures AtRest(t, e, d, row) && IsEligible(t0, e, row) {
      var i := IndexOf(e.rows, row);
      SettledIsAtRest(t0, t, e, d, allocate, row, verdicts[i]);
    }
    AllEligible(t0, e, e.rows);
    NothingFlagged(t0, t, e, allocate, matches0, matches);
  }
}
