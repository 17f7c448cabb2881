/** What every dry run guarantees: the rows are accounted for, and a plan that is ready has only changes in it. */
module ImportPlanFacts {
  import opened Text
  import opened Wrappers
  import opened Sequences
  import opened Sorting
  import opened CatalogModel
  import opened ImportReading
  import opened TitleDuplicates
  import opened ImportPlan
  import opened ImportApply

  ghost predicate FromRow(findings: seq<Finding>, row: Row) {
    forall f :: f in findings ==> f.importId == row.importId && (f.approvable ==> f.catalogId == row.catalogId)
  }

  ghost predicate NoBlockers(findings: seq<Finding>) {
    forall f :: f in findings ==> f.blocker.None? && !f.category.IdentityConflict? && f.approvable
  }

  lemma {:induction false} DisplayFrom(d: Digests, row: Row, target: Entry, names: seq<DisplayName>)
    ensures FromRow(DisplayFindings(d, row, target, names), row) && NoBlockers(DisplayFindings(d, row, target, names))
  {
    if names != [] { DisplayFrom(d, row, target, names[..|names| - 1]); }
  }

  lemma {:induction false} StatefulFrom(d: Digests, row: Row, target: Entry, names: seq<FieldName>)
    requires row.content.Valid() && target.Valid()
    ensures FromRow(StatefulFindings(d, row, target, names), row) && NoBlockers(StatefulFindings(d, row, target, names))
  {
    if names != [] { StatefulFrom(d, row, target, names[..|names| - 1]); }
  }

  lemma {:induction false} FactsFrom(d: Digests, row: Row, item: Provenance, existing: Facts, names: seq<FactName>)
    ensures FromRow(FactFindings(d, row, item, existing, names), row)
    ensures NoBlockers(FactFindings(d, row, item, existing, names))
  {
    if names != [] { FactsFrom(d, row, item, existing, names[..|names| - 1]); }
  }

  lemma {:induction false} ProvenanceFrom(d: Digests, sources: map<Str, SourceRow>, row: Row, items: seq<Provenance>)
    ensures FromRow(ProvenanceFindings(d, sources, row, items), row)
    ensures NoBlockers(ProvenanceFindings(d, sources, row, items))
  {
    if items != [] {
      var last := items[|items| - 1];
      ProvenanceFrom(d, sources, row, items[..|items| - 1]);
      if last.sourceId in sources { FactsFrom(d, row, last, sources[last.sourceId].facts, FACT_NAMES); }
    }
  }

  lemma ChangesFrom(d: Digests, t: Tables, e: Envelope, row: Row, id: Str)
    requires id in t.entries && row.content.Valid() && t.entries[id].Valid()
    ensures FromRow(ChangeFindings(d, t, e, row, id), row) && NoBlockers(ChangeFindings(d, t, e, row, id))
  {
    var target := t.entries[id];
    DisplayFrom(d, row, target, DISPLAY_NAMES);
    StatefulFrom(d, row, target, FIELD_NAMES);
    ProvenanceFrom(d, t.sources, row, ProvenanceOf(e.provenance, row.importId));
  }

  /** How a verdict relates to its row: it speaks of that row only, and a tally that stops the plan has a blocker. */
  ghost predicate Accounts(flagged: set<Str>, row: Row, v: Verdict) {
    && FromRow(v.findings, row)
    && (v.tally.Conflict? ==> row.importId in flagged || HasBlocker(v.findings, IdentityBlocker))
    && (v.tally.ErrorRow? ==> HasBlocker(v.findings, DeferredBlocker))
    && (CountIdentity(v.findings) <= if v.tally.Conflict? then 1 else 0)
    && (forall f :: f in v.findings && f.category.IdentityConflict? ==> f.blocker == Some(IdentityBlocker))
  }

  lemma {:induction false} NoIdentityCounted(findings: seq<Finding>)
    requires forall f :: f in findings ==> !f.category.IdentityConflict?
    ensures CountIdentity(findings) == 0
  {
    if findings != [] { NoIdentityCounted(findings[..|findings| - 1]); }
  }

  lemma VerdictAccounts(t: Tables, e: Envelope, flagged: set<Str>, d: Digests, row: Row, v: Verdict)
    requires ValidFor(t, row) && Classify(t, e, flagged, d, row) == Ok(v)
    ensures Accounts(flagged, row, v)
  {
    if !IsEligible(t, e, row) {
      IneligibleAccounts(t, e, flagged, d, row, v);
    } else {
      if row.catalogId.Some? { ChangesFrom(d, t, e, row, row.catalogId.value); }
      NoIdentityCounted(v.findings);
    }
  }

  lemma IneligibleAccounts(t: Tables, e: Envelope, flagged: set<Str>, d: Digests, row: Row, v: Verdict)
    requires ValidFor(t, row) && Classify(t, e, flagged, d, row) == Ok(v) && !IsEligible(t, e, row)
    ensures Accounts(flagged, row, v) && (v.tally.Conflict? || v.tally.ErrorRow?)
    ensures HasBlocker(v.findings, IdentityBlocker) || HasBlocker(v.findings, DeferredBlocker)
  {
    assert |v.findings| == 1;
    assert v.findings[0].blocker == Some(IdentityBlocker) || v.findings[0].blocker == Some(DeferredBlocker);
    assert v.findings[..0] == [];
  }

  // ---- The verdicts together ----

  lemma {:induction false} CountsAddUp(verdicts: seq<Verdict>)
    ensures Count(verdicts, Add) + Count(verdicts, Update) + Count(verdicts, NoChange) + Count(verdicts, Conflict)
            + Count(verdicts, ErrorRow) == |verdicts|
  {
    if verdicts != [] { CountsAddUp(verdicts[..|verdicts| - 1]); }
  }

  lemma {:induction false} CountIdentityAppend(a: seq<Finding>, b: seq<Finding>)
    ensures CountIdentity(a + b) == CountIdentity(a) + CountIdentity(b)
  {
    if b == [] {
      assert a + b == a;
    } else {
      assert (a + b)[..|a + b| - 1] == a + b[..|b| - 1];
      CountIdentityAppend(a, b[..|b| - 1]);
    }
  }

  lemma {:induction false} IdentityWithinConflicts(flagged: set<Str>, rows: seq<Row>, verdicts: seq<Verdict>)
    requires |rows| == |verdicts| && forall i :: 0 <= i < |rows| ==> Accounts(flagged, rows[i], verdicts[i])
    ensures CountIdentity(AllFindings(verdicts)) <= Count(verdicts, Conflict)
    ensures CountIdentity(AllFindings(verdicts)) > 0 ==> HasBlocker(AllFindings(verdicts), IdentityBlocker)
    decreases |rows|
  {
    if verdicts != [] {
      var n := |verdicts| - 1;
      IdentityWithinConflicts(flagged, rows[..n], verdicts[..n]);
      var earlier, last := AllFindings(verdicts[..n]), verdicts[n].findings;
      CountIdentityAppend(earlier, last);
      BlockerAppend(earlier, last, IdentityBlocker);
      if CountIdentity(last) > 0 { IdentityListed(last); }
    }
  }

  lemma BlockerAppend(a: seq<Finding>, b: seq<Finding>, blocker: Blocker)
    ensures HasBlocker(a + b, blocker) <==> HasBlocker(a, blocker) || HasBlocker(b, blocker)
  {
    if i :| 0 <= i < |a| && a[i].blocker == Some(blocker) { assert (a + b)[i] == a[i]; }
    if i :| 0 <= i < |b| && b[i].blocker == Some(blocker) { assert (a + b)[|a| + i] == b[i]; }
  }

  lemma {:induction false} IdentityListed(findings: seq<Finding>)
    requires CountIdentity(findings) > 0
    requires forall f :: f in findings && f.category.IdentityConflict? ==> f.blocker == Some(IdentityBlocker)
    ensures HasBlocker(findings, IdentityBlocker)
  {
    var n := |findings| - 1;
    if findings[n].category.IdentityConflict? {
      assert findings[n] in findings;
    } else {
      IdentityListed(findings[..n]);
      var i :| 0 <= i < n && findings[..n][i].blocker == Some(IdentityBlocker);
      assert findings[i].blocker == Some(IdentityBlocker);
    }
  }

  /** A finding is in the plan exactly when some row's verdict has it. */
  lemma {:induction false} FindingsCollected(verdicts: seq<Verdict>)
    ensures forall f :: f in AllFindings(verdicts) <==> exists i :: 0 <= i < |verdicts| && f in verdicts[i].findings
  {
    if verdicts != [] {
      var n := |verdicts| - 1;
      FindingsCollected(verdicts[..n]);
      forall f | f in AllFindings(verdicts) ensures exists i :: 0 <= i < |verdicts| && f in verdicts[i].findings {
        if f in AllFindings(verdicts[..n]) {
          var i :| 0 <= i < n && f in verdicts[..n][i].findings;
          assert f in verdicts[i].findings;
        }
      }
      forall i, f | 0 <= i < |verdicts| && f in verdicts[i].findings ensures f in AllFindings(verdicts) {
        if i < n { assert f in verdicts[..n][i].findings; }
      }
    }
  }

  lemma {:induction false} FindingsOfAppend(a: seq<Finding>, b: seq<Finding>, importId: Str)
    ensures FindingsOf(a + b, importId) == FindingsOf(a, importId) + FindingsOf(b, importId)
  {
    if b == [] {
      assert a + b == a;
    } else {
      var n := |b| - 1;
      assert (a + b)[..|a + b| - 1] == a + b[..n] && (a + b)[|a + b| - 1] == b[n];
      FindingsOfAppend(a, b[..n], importId);
    }
  }

  lemma {:induction false} FindingsOfOwn(findings: seq<Finding>, importId: Str)
    requires forall f :: f in findings ==> f.importId == importId
    ensures FindingsOf(findings, importId) == findings
  {
    if findings != [] {
      var n := |findings| - 1;
      FindingsOfOwn(findings[..n], importId);
      Snoc(findings);
    }
  }

  lemma {:induction false} FindingsOfOther(findings: seq<Finding>, importId: Str)
    requires forall f :: f in findings ==> f.importId != importId
    ensures FindingsOf(findings, importId) == []
  {
    if findings != [] { FindingsOfOther(findings[..|findings| - 1], importId); }
  }

  lemma {:induction false} NoneOfAbsent(rows: seq<Row>, verdicts: seq<Verdict>, importId: Str)
    requires |rows| == |verdicts| && forall i :: 0 <= i < |rows| ==> FromRow(verdicts[i].findings, rows[i])
    requires forall i :: 0 <= i < |rows| ==> rows[i].importId != importId
    ensures FindingsOf(AllFindings(verdicts), importId) == []
    decreases |rows|
  {
    if verdicts != [] {
      var n := |verdicts| - 1;
      NoneOfAbsent(rows[..n], verdicts[..n], importId);
      FindingsOfAppend(AllFindings(verdicts[..n]), verdicts[n].findings, importId);
      FindingsOfOther(verdicts[n].findings, importId);
    }
  }

  /** The findings the importer selects by import id are the verdict of that row. */
  lemma {:induction false} FindingsOfRow(rows: seq<Row>, verdicts: seq<Verdict>, i: nat)
    requires |rows| == |verdicts| && i < |rows| && Distinct(ImportIds(rows))
    requires forall k :: 0 <= k < |rows| ==> FromRow(verdicts[k].findings, rows[k])
    ensures FindingsOf(AllFindings(verdicts), rows[i].importId) == verdicts[i].findings
    decreases |rows|
  {
    var n := |verdicts| - 1;
    FindingsOfAppend(AllFindings(verdicts[..n]), verdicts[n].findings, rows[i].importId);
    forall k | 0 <= k < |rows| && k != i ensures rows[k].importId != rows[i].importId {
      assert ImportIds(rows)[k] != ImportIds(rows)[i];
    }
    if i == n {
      NoneOfAbsent(rows[..n], verdicts[..n], rows[i].importId);
      FindingsOfOwn(verdicts[n].findings, rows[i].importId);
    } else {
      assert ImportIds(rows[..n]) == ImportIds(rows)[..n];
      FindingsOfRow(rows[..n], verdicts[..n], i);
      FindingsOfOther(verdicts[n].findings, rows[i].importId);
    }
  }

  // ---- The plan as a whole ----

  lemma {:induction false} EligibleDistinct(t: Tables, e: Envelope, rows: seq<Row>)
    requires Distinct(ImportIds(rows))
    ensures Distinct(ImportIds(Eligible(t, e, rows)))
    decreases |rows|
  {
    if rows != [] {
      var n := |rows| - 1;
      var earlier := Eligible(t, e, rows[..n]);
      assert ImportIds(rows[..n]) == ImportIds(rows)[..n];
      EligibleDistinct(t, e, rows[..n]);
      forall i | 0 <= i < |earlier| ensures earlier[i].importId != rows[n].importId {
        assert earlier[i] in rows[..n];
        var k := IndexOf(rows[..n], earlier[i]);
        assert ImportIds(rows)[k] != ImportIds(rows)[n];
      }
    }
  }

  lemma EnvelopeIds(e: Envelope)
    requires ValidEnvelope(e)
    ensures Distinct(ImportIds(e.rows))
  {
  }

  /** The parts a plan was assembled from. */
  lemma PlanParts(t: Tables, matches: seq<Match>, e: Envelope, d: Digests, body: PlanBody)
    returns (a: Analysis, verdicts: seq<Verdict>)
    requires ValidEnvelope(e) && Plannable(t, e) && Plan(t, matches, e, d) == Ok(body)
    ensures Analyze(Eligible(t, e, e.rows), matches, ImportIds(e.rows), d.titles) == Some(a)
    ensures Verdicts(t, e, a.flagged, d, e.rows) == Ok(verdicts) && |verdicts| == |e.rows|
    ensures body == Assemble(d, e, a.candidates, verdicts) && Distinct(FindingIds(body.findings))
    ensures a.candidates == [] <==> a.flagged == {}
    ensures forall i :: 0 <= i < |verdicts| ==> Accounts(a.flagged, e.rows[i], verdicts[i])
  {
    a := Analyze(Eligible(t, e, e.rows), matches, ImportIds(e.rows), d.titles).value;
    verdicts := Verdicts(t, e, a.flagged, d, e.rows).value;
    EnvelopeIds(e);
    EligibleDistinct(t, e, e.rows);
    EligibleListed(t, e);
    CandidatesPartition(Eligible(t, e, e.rows), matches, ImportIds(e.rows), d.titles, a);
    forall i | 0 <= i < |verdicts| ensures Accounts(a.flagged, e.rows[i], verdicts[i]) {
      assert e.rows[i] in e.rows;
      VerdictAccounts(t, e, a.flagged, d, e.rows[i], verdicts[i]);
    }
  }

  lemma EligibleListed(t: Tables, e: Envelope)
    ensures forall id :: id in ImportIds(Eligible(t, e, e.rows)) ==> id in ImportIds(e.rows)
  {
    var eligible := Eligible(t, e, e.rows);
    forall id | id in ImportIds(eligible) ensures id in ImportIds(e.rows) {
      var row := eligible[IndexOf(ImportIds(eligible), id)];
      assert row in eligible && row in e.rows;
      assert ImportIds(e.rows)[IndexOf(e.rows, row)] == id;
    }
  }

  /** Every finding that stops the plan is named among its blockers. */
  ghost predicate BlockersComplete(body: PlanBody) {
    forall f :: f in body.findings && f.blocker.Some? ==> f.blocker.value in body.blockers
  }

  ghost predicate IsConsistent(e: Envelope, body: PlanBody) {
    var c := body.counts;
    && c.add + c.update + c.same + c.conflict + c.error == body.rowCount == |e.rows|
    && c.identity <= c.conflict && c.duplicate == |body.candidates|
    && (c.identity > 0 ==> IdentityBlocker in body.blockers)
    && BlockersComplete(body)
    && (body.ready <==> body.blockers == [] && c.error == 0 && c.identity == 0 && body.candidates == [])
  }

  /**
   Every plan is consistent: the rows are counted once each, identity conflicts are among the conflicts, no blocker of
   a finding is missing, and the plan is ready exactly when nothing stops it. So the schema of the dry run refuses a
   plan only for repeating a finding id.
   */
  lemma PlanIsConsistent(t: Tables, matches: seq<Match>, e: Envelope, d: Digests, body: PlanBody)
    requires ValidEnvelope(e) && Plannable(t, e) && Plan(t, matches, e, d) == Ok(body)
    ensures IsConsistent(e, body)
  {
    var a, verdicts := PlanParts(t, matches, e, d, body);
    if DuplicateBlocked(body.findings) { DuplicatesAreFlagged(t, e, a.flagged, d, verdicts); }
    PartsAreConsistent(d, e, a, verdicts);
  }

  ghost predicate DuplicateBlocked(findings: seq<Finding>) {
    exists f :: f in findings && f.blocker == Some(DuplicateBlocker)
  }

  lemma PartsAreConsistent(d: Digests, e: Envelope, a: Analysis, verdicts: seq<Verdict>)
    requires |verdicts| == |e.rows| && (a.candidates == [] <==> a.flagged == {})
    requires forall i :: 0 <= i < |verdicts| ==> Accounts(a.flagged, e.rows[i], verdicts[i])
    requires DuplicateBlocked(AllFindings(verdicts)) ==> a.flagged != {}
    ensures IsConsistent(e, Assemble(d, e, a.candidates, verdicts))
  {
    CountsAddUp(verdicts);
    IdentityWithinConflicts(a.flagged, e.rows, verdicts);
    ErrorsAreBlocked(a.flagged, e.rows, verdicts);
    BlockersListed(AllFindings(verdicts), a.candidates);
  }

  lemma BlockersListed(findings: seq<Finding>, candidates: seq<Candidate>)
    requires DuplicateBlocked(findings) ==> candidates != []
    ensures forall f :: f in findings && f.blocker.Some? ==> f.blocker.value in Blockers(findings, candidates)
    ensures HasBlocker(findings, IdentityBlocker) <==> IdentityBlocker in Blockers(findings, candidates)
  {
    forall f | f in findings && f.blocker.Some? ensures f.blocker.value in Blockers(findings, candidates) {
      assert findings[IndexOf(findings, f)].blocker == f.blocker;
      if f.blocker.value.DuplicateBlocker? { assert DuplicateBlocked(findings); }
    }
  }

  lemma {:induction false} ErrorsAreBlocked(flagged: set<Str>, rows: seq<Row>, verdicts: seq<Verdict>)
    requires |rows| == |verdicts| && forall i :: 0 <= i < |rows| ==> Accounts(flagged, rows[i], verdicts[i])
    ensures Count(verdicts, ErrorRow) > 0 ==> HasBlocker(AllFindings(verdicts), DeferredBlocker)
    ensures flagged == {} && Count(verdicts, Conflict) > 0 ==> HasBlocker(AllFindings(verdicts), IdentityBlocker)
    decreases |rows|
  {
    if verdicts != [] {
      var n := |verdicts| - 1;
      ErrorsAreBlocked(flagged, rows[..n], verdicts[..n]);
      BlockerAppend(AllFindings(verdicts[..n]), verdicts[n].findings, DeferredBlocker);
      BlockerAppend(AllFindings(verdicts[..n]), verdicts[n].findings, IdentityBlocker);
    }
  }

  lemma DuplicatesAreFlagged(t: Tables, e: Envelope, flagged: set<Str>, d: Digests, verdicts: seq<Verdict>)
    requires Plannable(t, e) && Verdicts(t, e, flagged, d, e.rows) == Ok(verdicts)
    requires DuplicateBlocked(AllFindings(verdicts))
    ensures flagged != {}
  {
    var f :| f in AllFindings(verdicts) && f.blocker == Some(DuplicateBlocker);
    FindingsCollected(verdicts);
    var i :| 0 <= i < |verdicts| && f in verdicts[i].findings;
    assert e.rows[i] in e.rows;
    DuplicateVerdict(t, e, flagged, d, e.rows[i], verdicts[i], f);
  }

  lemma DuplicateVerdict(t: Tables, e: Envelope, flagged: set<Str>, d: Digests, row: Row, v: Verdict, f: Finding)
    requires ValidFor(t, row) && Classify(t, e, flagged, d, row) == Ok(v)
    requires f in v.findings && f.blocker == Some(DuplicateBlocker)
    ensures row.importId in flagged
  {
    if IsEligible(t, e, row) && row.catalogId.Some? { ChangesFrom(d, t, e, row, row.catalogId.value); }
  }

  /** What a ready plan says of each row: nothing but the changes of an update, and nothing of a create. */
  ghost predicate Clean(t: Tables, e: Envelope, d: Digests, row: Row, v: Verdict)
    requires ValidFor(t, row)
  {
    && IsEligible(t, e, row)
    && (row.catalogId.Some? ==>
          && AliasesRepeated(t, e, row, row.catalogId.value)
          && v.findings == ChangeFindings(d, t, e, row, row.catalogId.value)
          && v.tally == if v.findings == [] then NoChange else Update)
    && (row.catalogId.None? ==> v == Verdict([], Add))
  }

  /** A row that is neither flagged nor blocked; that its own source is already known never decides a create. */
  lemma UnblockedIsClean(t: Tables, e: Envelope, flagged: set<Str>, d: Digests, row: Row, v: Verdict)
    requires ValidFor(t, row) && Classify(t, e, flagged, d, row) == Ok(v)
    requires row.importId !in flagged
    requires !HasBlocker(v.findings, IdentityBlocker) && !HasBlocker(v.findings, DeferredBlocker)
    ensures Clean(t, e, d, row, v)
  {
    var items := ProvenanceOf(e.provenance, row.importId);
    if !IsEligible(t, e, row) {
      IneligibleAccounts(t, e, flagged, d, row, v);
    } else if row.catalogId.None? {
      var i :| 0 <= i < |items| && items[i].sourceId == row.sourceId;
      assert items[i] in items && !IsRebound(t.sources, items[i], row.catalogId);
    }
  }

  lemma ReadyIsClean(t: Tables, matches: seq<Match>, e: Envelope, d: Digests, body: PlanBody)
    returns (verdicts: seq<Verdict>)
    requires ValidEnvelope(e) && Plannable(t, e) && Plan(t, matches, e, d) == Ok(body) && body.ready
    ensures |verdicts| == |e.rows| && body == Assemble(d, e, [], verdicts)
    ensures Flagged(Eligible(t, e, e.rows), matches) == {}
    ensures AllClean(t, e, d, e.rows, verdicts, body.findings)
  {
    var a;
    a, verdicts := PlanParts(t, matches, e, d, body);
    PartsAreClean(t, e, d, a, verdicts);
  }

  /** The rows' verdicts are clean, and the importer finds each verdict again by import id. */
  ghost predicate AllClean(
    t: Tables, e: Envelope, d: Digests, rows: seq<Row>, verdicts: seq<Verdict>, planned: seq<Finding>)
  {
    && |verdicts| == |rows|
    && forall i :: 0 <= i < |rows| ==>
         && ValidFor(t, rows[i]) && Clean(t, e, d, rows[i], verdicts[i])
         && FindingsOf(planned, rows[i].importId) == verdicts[i].findings
  }

  lemma PartsAreClean(t: Tables, e: Envelope, d: Digests, a: Analysis, verdicts: seq<Verdict>)
    requires ValidEnvelope(e) && Plannable(t, e) && a.flagged == {}
    requires Verdicts(t, e, a.flagged, d, e.rows) == Ok(verdicts)
    requires forall i :: 0 <= i < |verdicts| ==> Accounts(a.flagged, e.rows[i], verdicts[i])
    requires !HasBlocker(AllFindings(verdicts), IdentityBlocker) && !HasBlocker(AllFindings(verdicts), DeferredBlocker)
    ensures AllClean(t, e, d, e.rows, verdicts, AllFindings(verdicts))
  {
    var findings := AllFindings(verdicts);
    EnvelopeIds(e);
    FindingsCollected(verdicts);
    forall i | 0 <= i < |e.rows|
      ensures ValidFor(t, e.rows[i]) && Clean(t, e, d, e.rows[i], verdicts[i])
    {
      assert e.rows[i] in e.rows;
      PartIsClean(t, e, d, a.flagged, e.rows[i], verdicts[i], findings);
    }
    RowsFindTheirOwn(e.rows, verdicts);
  }

  lemma RowsFindTheirOwn(rows: seq<Row>, verdicts: seq<Verdict>)
    requires |rows| == |verdicts| && Distinct(ImportIds(rows))
    requires forall k :: 0 <= k < |rows| ==> FromRow(verdicts[k].findings, rows[k])
    ensures forall i :: 0 <= i < |rows| ==> FindingsOf(AllFindings(verdicts), rows[i].importId) == verdicts[i].findings
  {
    forall i | 0 <= i < |rows| ensures FindingsOf(AllFindings(verdicts), rows[i].importId) == verdicts[i].findings {
      FindingsOfRow(rows, verdicts, i);
    }
  }

  lemma PartIsClean(
    t: Tables, e: Envelope, d: Digests, flagged: set<Str>, row: Row, v: Verdict, findings: seq<Finding>)
    requires ValidFor(t, row) && Classify(t, e, flagged, d, row) == Ok(v) && row.importId !in flagged
    requires forall f :: f in v.findings ==> f in findings
    requires !HasBlocker(findings, IdentityBlocker) && !HasBlocker(findings, DeferredBlocker)
    ensures Clean(t, e, d, row, v)
  {
    SubsetBlockers(v.findings, findings, IdentityBlocker);
    SubsetBlockers(v.findings, findings, DeferredBlocker);
    UnblockedIsClean(t, e, flagged, d, row, v);
  }

  lemma SubsetBlockers(some: seq<Finding>, all: seq<Finding>, blocker: Blocker)
    requires (forall f :: f in some ==> f in all) && !HasBlocker(all, blocker)
    ensures !HasBlocker(some, blocker)
  {
    forall i | 0 <= i < |some| ensures some[i].blocker != Some(blocker) {
      assert some[i] in all;
      var k := IndexOf(all, some[i]);
    }
  }

  // ---- The counts of the plan are the counts of the application ----

  /** What applying reports of a row is what the plan counted. */
  ghost predicate Tallies(planned: seq<Finding>, row: Row, v: Verdict) {
    && (v.tally.Add? || v.tally.Update? || v.tally.NoChange?)
    && OutcomeOf(row, FindingsOf(planned, row.importId))
       == if v.tally.Add? then Created else if v.tally.Update? then Updated else Unchanged
  }

  lemma {:induction false} CountsAgree(rows: seq<Row>, verdicts: seq<Verdict>, planned: seq<Finding>)
    requires |rows| == |verdicts| && forall i :: 0 <= i < |rows| ==> Tallies(planned, rows[i], verdicts[i])
    ensures CountOutcome(rows, planned, Created) == Count(verdicts, Add)
    ensures CountOutcome(rows, planned, Updated) == Count(verdicts, Update)
    ensures CountOutcome(rows, planned, Unchanged) == Count(verdicts, NoChange)
    ensures Count(verdicts, Conflict) == 0 && Count(verdicts, ErrorRow) == 0
    decreases |rows|
  {
    if rows != [] {
      var n := |rows| - 1;
      CountsAgree(rows[..n], verdicts[..n], planned);
      assert Tallies(planned, rows[n], verdicts[n]);
    }
  }

  function CountCreates(rows: seq<Row>): nat {
    if rows == [] then 0
    else CountCreates(rows[..|rows| - 1]) + (if rows[|rows| - 1].catalogId.None? then 1 else 0)
  }

  lemma {:induction false} CreatesCounted(rows: seq<Row>, planned: seq<Finding>)
    ensures CountOutcome(rows, planned, Created) == CountCreates(rows)
  {
    if rows != [] { CreatesCounted(rows[..|rows| - 1], planned); }
  }

  /** Plan and application agree: a ready plan has no conflict and no error, and applying reports its counts. */
  lemma PlanAndApplicationAgree(t: Tables, matches: seq<Match>, r: Request, d: Digests, o: Outcome)
    requires ValidEnvelope(r.envelope) && Plannable(t, r.envelope) && Applicable(t, r.envelope.rows)
    requires Apply(t, matches, r, d) == Ok(o) && !o.replayed
    ensures var c := r.plan.counts;
      && c.conflict == 0 && c.error == 0 && c.add == CountCreates(r.envelope.rows)
      && o.application.created == c.add && o.application.updated == c.update && o.application.same == c.same
  {
    var e := r.envelope;
    Accepted(t, matches, r, d, o);
    var verdicts := ReadyIsClean(t, matches, e, d, r.plan);
    CleanCounts(t, e, d, verdicts, r.plan.findings);
  }

  lemma CleanCounts(t: Tables, e: Envelope, d: Digests, verdicts: seq<Verdict>, planned: seq<Finding>)
    requires AllClean(t, e, d, e.rows, verdicts, planned)
    ensures CountOutcome(e.rows, planned, Created) == Count(verdicts, Add) == CountCreates(e.rows)
    ensures CountOutcome(e.rows, planned, Updated) == Count(verdicts, Update)
    ensures CountOutcome(e.rows, planned, Unchanged) == Count(verdicts, NoChange)
    ensures Count(verdicts, Conflict) == 0 && Count(verdicts, ErrorRow) == 0
  {
    forall i | 0 <= i < |e.rows| ensures Tallies(planned, e.rows[i], verdicts[i]) {}
    CountsAgree(e.rows, verdicts, planned);
    CreatesCounted(e.rows, planned);
  }

  /** An application that is not a replay was accepted with the plan that its own dry run recomputed. */
  lemma Accepted(t: Tables, matches: seq<Match>, r: Request, d: Digests, o: Outcome)
    requires Plannable(t, r.envelope) && Applicable(t, r.envelope.rows)
    requires Apply(t, matches, r, d) == Ok(o) && !o.replayed
    ensures Plan(t, matches, r.envelope, d) == Ok(r.plan) && r.plan.ready
    ensures FindingsApproved(r.authorization.approval, r.plan)
    ensures o.application == ApplicationOf(r, d) && Commit(t, r, d) == Some(o.tables)
  {
    CarriedOutParts(t, matches, r, d, o);
    NotRefused(t, matches, r, d);
  }

  lemma CarriedOutParts(t: Tables, matches: seq<Match>, r: Request, d: Digests, o: Outcome)
    requires Plannable(t, r.envelope) && Applicable(t, r.envelope.rows)
    requires Apply(t, matches, r, d) == Ok(o) && !o.replayed
    ensures CheckRequest(t, matches, r, d).None?
    ensures o.application == ApplicationOf(r, d) && Commit(t, r, d) == Some(o.tables)
  {
  }

  lemma NotRefused(t: Tables, matches: seq<Match>, r: Request, d: Digests)
    requires Plannable(t, r.envelope) && CheckRequest(t, matches, r, d).None?
    ensures Plan(t, matches, r.envelope, d) == Ok(r.plan) && r.plan.ready
    ensures FindingsApproved(r.authorization.approval, r.plan)
  {
  }
}
