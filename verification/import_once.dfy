/** Exactly-once imports, over every sequence of calls: bindings last, creates do not repeat, replays do nothing. */
module ImportOnce {
  import opened Text
  import opened Wrappers
  import opened Sorting
  import opened CatalogModel
  import opened ImportReading
  import opened TitleDuplicates
  import opened ImportPlan
  import opened ImportApply
  import opened ImportPlanFacts
  import opened ImportEffects
  import opened ImportStatements
  import opened ImportRuns
  import opened ImportFixedPoint

  /** One call of the importer, with the order in which the database happens to answer its title query. */
  datatype Call = Call(matches: seq<Match>, request: Request)

  /** The call was carried out: it was neither refused nor the replay of an earlier one. */
  ghost predicate CarriedOut(t: Tables, c: Call, d: Digests)
    requires ValidTables(t) && ValidEnvelope(c.request.envelope)
  {
    ValidMeansUsable(t, c.request.envelope);
    var r := Apply(t, c.matches, c.request, d);
    r.Ok? && !r.value.replayed
  }

  /** The tables after one call; a refused call rolls back. */
  ghost function Step(t: Tables, c: Call, d: Digests): Tables
    requires ValidTables(t) && ValidEnvelope(c.request.envelope)
  {
    ValidMeansUsable(t, c.request.envelope);
    match Apply(t, c.matches, c.request, d)
    case Err(_) => t
    case Ok(o) => o.tables
  }

  lemma IdleStep(t: Tables, c: Call, d: Digests)
    requires ValidTables(t) && ValidEnvelope(c.request.envelope) && !CarriedOut(t, c, d)
    ensures Step(t, c, d) == t
  {
    ValidMeansUsable(t, c.request.envelope);
  }

  lemma StepOutcome(t: Tables, c: Call, d: Digests) returns (o: Outcome)
    requires ValidTables(t) && ValidEnvelope(c.request.envelope) && CarriedOut(t, c, d)
    ensures Plannable(t, c.request.envelope) && Applicable(t, c.request.envelope.rows)
    ensures Apply(t, c.matches, c.request, d) == Ok(o) && !o.replayed && o.tables == Step(t, c, d)
  {
    ValidMeansUsable(t, c.request.envelope);
    o := Apply(t, c.matches, c.request, d).value;
  }

  lemma StepSettles(t: Tables, c: Call, d: Digests)
    requires ValidTables(t) && ValidEnvelope(c.request.envelope) && CarriedOut(t, c, d)
    ensures Progress(t, Step(t, c, d), c.request.envelope, Allocation(c.request.allocate), c.request.envelope.rows)
    ensures Logged(t, Step(t, c, d), c.request, d)
  {
    var o := StepOutcome(t, c, d);
    ApplySettles(t, c.matches, c.request, d, o);
  }

  lemma StepKeepsValid(t: Tables, c: Call, d: Digests)
    requires ValidTables(t) && ValidEnvelope(c.request.envelope)
    ensures ValidTables(Step(t, c, d))
  {
    if CarriedOut(t, c, d) { StepSettles(t, c, d); } else { IdleStep(t, c, d); }
  }

  ghost predicate Envelopes(calls: seq<Call>) {
    forall i :: 0 <= i < |calls| ==> ValidEnvelope(calls[i].request.envelope)
  }

  /** The tables after a sequence of calls. */
  ghost function After(t: Tables, calls: seq<Call>, d: Digests): (t': Tables)
    requires ValidTables(t) && Envelopes(calls)
    ensures ValidTables(t')
  {
    if calls == [] then t
    else
      var earlier := After(t, calls[..|calls| - 1], d);
      StepKeepsValid(earlier, calls[|calls| - 1], d);
      Step(earlier, calls[|calls| - 1], d)
  }

  // ---- Bindings ----

  ghost predicate Bound(t: Tables, s: Str, id: Str) {
    s in t.sources && t.sources[s].catalogId == id
  }

  lemma BoundAcrossRow(
    t: Tables, t': Tables, e: Envelope, d: Digests, allocate: Str -> Str, row: Row, v: Verdict, s: Str, id: Str)
    requires ValidFor(t, row) && Clean(t, e, d, row, v) && SettledRow(t, t', e, allocate, row)
    requires Lists(ProvenanceOf(e.provenance, row.importId), s) && Bound(t, s, id)
    ensures Bound(t', s, id)
  {
    var item := ListsItem(ProvenanceOf(e.provenance, row.importId), s);
    assert !IsRebound(t.sources, item, row.catalogId);
  }

  lemma BoundAcrossStep(t: Tables, c: Call, d: Digests, s: Str, id: Str)
    requires ValidTables(t) && ValidEnvelope(c.request.envelope) && Bound(t, s, id)
    ensures Bound(Step(t, c, d), s, id)
  {
    if CarriedOut(t, c, d) {
      var e, allocate := c.request.envelope, Allocation(c.request.allocate);
      var o := StepOutcome(t, c, d);
      var verdicts := AppliedWasClean(t, c.matches, c.request, d, o);
      StepSettles(t, c, d);
      if Binds(e, e.rows, s) {
        var i :| 0 <= i < |e.rows| && Lists(ProvenanceOf(e.provenance, e.rows[i].importId), s);
        BoundAcrossRow(t, o.tables, e, d, allocate, e.rows[i], verdicts[i], s, id);
      } else {
        assert SameSource(t, Step(t, c, d), s);
      }
    } else {
      IdleStep(t, c, d);
    }
  }

  /** A binding never changes once made. */
  lemma {:induction false} BindingsLast(t: Tables, calls: seq<Call>, d: Digests, s: Str, id: Str)
    requires ValidTables(t) && Envelopes(calls) && Bound(t, s, id)
    ensures Bound(After(t, calls, d), s, id)
    decreases |calls|
  {
    if calls == [] {
    } else {
      BindingsLast(t, calls[..|calls| - 1], d, s, id);
      BoundAcrossStep(After(t, calls[..|calls| - 1], d), calls[|calls| - 1], d, s, id);
    }
  }

  /** Carrying out a call binds every source its rows list. */
  lemma CarryingOutBinds(t: Tables, c: Call, d: Digests, row: Row, s: Str)
    requires ValidTables(t) && ValidEnvelope(c.request.envelope) && CarriedOut(t, c, d)
    requires row in c.request.envelope.rows && Lists(ProvenanceOf(c.request.envelope.provenance, row.importId), s)
    ensures Bound(Step(t, c, d), s, CatalogIdOf(row, Allocation(c.request.allocate)))
  {
    StepSettles(t, c, d);
    var i := IndexOf(c.request.envelope.rows, row);
    var item := ListsItem(ProvenanceOf(c.request.envelope.provenance, row.importId), s);
    assert SettledRow(t, Step(t, c, d), c.request.envelope, Allocation(c.request.allocate), row);
  }

  // ---- Nothing is created twice ----

  /** The row is an identity conflict, for a source already bound elsewhere. */
  ghost predicate IsReboundConflict(r: Result<Verdict, PlanError>) {
    && r.Ok? && r.value.tally == Conflict && |r.value.findings| == 1
    && r.value.findings[0].reason == Some(SourceRebound) && r.value.findings[0].blocker == Some(IdentityBlocker)
  }

  lemma ReboundIsConflict(t: Tables, e: Envelope, flagged: set<Str>, d: Digests, row: Row, s: Str, id: Str)
    requires ValidFor(t, row) && Bound(t, s, id) && row.catalogId != Some(id)
    requires HasPrimary(ProvenanceOf(e.provenance, row.importId), row.sourceId)
    requires Lists(ProvenanceOf(e.provenance, row.importId), s)
    ensures IsReboundConflict(Classify(t, e, flagged, d, row)) && !IsEligible(t, e, row)
  {
    var item := ListsItem(ProvenanceOf(e.provenance, row.importId), s);
    assert IsRebound(t.sources, item, row.catalogId);
  }

  lemma ReadyRowsAreEligible(t: Tables, matches: seq<Match>, e: Envelope, d: Digests, body: PlanBody, row: Row)
    requires ValidEnvelope(e) && Plannable(t, e) && row in e.rows
    requires Plan(t, matches, e, d) == Ok(body) && body.ready
    ensures IsEligible(t, e, row)
  {
    var verdicts := ReadyIsClean(t, matches, e, d, body);
    var i := IndexOf(e.rows, row);
    assert Clean(t, e, d, e.rows[i], verdicts[i]);
  }

  lemma IneligibleIsNotReady(t: Tables, matches: seq<Match>, e: Envelope, d: Digests, row: Row)
    requires ValidEnvelope(e) && Plannable(t, e) && row in e.rows && !IsEligible(t, e, row)
    ensures Plan(t, matches, e, d).Ok? ==> !Plan(t, matches, e, d).value.ready
  {
    var p := Plan(t, matches, e, d);
    if p.Ok? && p.value.ready { ReadyRowsAreEligible(t, matches, e, d, p.value, row); }
  }

  /**
   Nothing is created twice. Once a call that bound a source has been carried out, then after any further calls, every
   row that lists the source and does not target the entry it is bound to is an identity conflict, and the plan of its
   envelope is not ready; a row that would create lists no target, so it is always such a row.
   */
  lemma NothingIsCreatedTwice(
    t: Tables, c: Call, calls: seq<Call>, d: Digests, row: Row, s: Str, e: Envelope, again: Row, flagged: set<Str>,
    matches: seq<Match>)
    requires ValidTables(t) && ValidEnvelope(c.request.envelope) && CarriedOut(t, c, d) && Envelopes(calls)
    requires row in c.request.envelope.rows && Lists(ProvenanceOf(c.request.envelope.provenance, row.importId), s)
    requires ValidEnvelope(e) && again in e.rows && Lists(ProvenanceOf(e.provenance, again.importId), s)
    requires HasPrimary(ProvenanceOf(e.provenance, again.importId), again.sourceId)
    requires again.catalogId != Some(CatalogIdOf(row, Allocation(c.request.allocate)))
    ensures ValidTables(Step(t, c, d))
    ensures var later := After(Step(t, c, d), calls, d);
      && Plannable(later, e) && ValidFor(later, again)
      && IsReboundConflict(Classify(later, e, flagged, d, again))
      && (Plan(later, matches, e, d).Ok? ==> !Plan(later, matches, e, d).value.ready)
  {
    var id := CatalogIdOf(row, Allocation(c.request.allocate));
    CarryingOutBinds(t, c, d, row, s);
    StepKeepsValid(t, c, d);
    BindingsLast(Step(t, c, d), calls, d, s, id);
    var later := After(Step(t, c, d), calls, d);
    ValidMeansUsable(later, e);
    ReboundIsConflict(later, e, flagged, d, again, s, id);
    IneligibleIsNotReady(later, matches, e, d, again);
  }

  // ---- Replays ----

  ghost predicate Holds(t: Tables, operationId: Str, operation: ImportOperation) {
    operationId in t.operations && t.operations[operationId] == operation
  }

  lemma {:induction false} OperationsLast(t: Tables, calls: seq<Call>, d: Digests, k: Str, operation: ImportOperation)
    requires ValidTables(t) && Envelopes(calls) && Holds(t, k, operation)
    ensures Holds(After(t, calls, d), k, operation)
    decreases |calls|
  {
    if calls == [] {
    } else {
      var earlier, c := After(t, calls[..|calls| - 1], d), calls[|calls| - 1];
      OperationsLast(t, calls[..|calls| - 1], d, k, operation);
      OperationAcrossStep(earlier, c, d, k, operation);
    }
  }

  lemma OperationAcrossStep(t: Tables, c: Call, d: Digests, k: Str, operation: ImportOperation)
    requires ValidTables(t) && ValidEnvelope(c.request.envelope) && Holds(t, k, operation)
    ensures Holds(Step(t, c, d), k, operation)
  {
    if CarriedOut(t, c, d) { StepSettles(t, c, d); } else { IdleStep(t, c, d); }
  }

  /** The second request repeats the first: same operation, same three hashes, and for a pilot the same target. */
  ghost predicate Repeats(a: Request, b: Request, d: Digests) {
    && a.operationId == b.operationId
    && d.input(a.envelope) == d.input(b.envelope) && a.planHash == b.planHash
    && d.approval(a.authorization.approval) == d.approval(b.authorization.approval)
    && (b.authorization.runtime.Pilot? ==> b.authorization.runtime == a.authorization.runtime)
  }

  /** The checks every request passes before the operation log is consulted. */
  ghost predicate WellBound(r: Request, d: Digests) {
    && PilotAuthorized(r.authorization) && d.plan(r.plan) == r.planHash
    && r.authorization.approval.inputHash == d.input(r.envelope) && r.authorization.approval.planHash == r.planHash
  }

  lemma GateOfKnown(t: Tables, a: Request, b: Request, d: Digests)
    requires a.operationId == b.operationId
    requires Holds(t, a.operationId, StartedOperation(a, d).(result := Some(ApplicationOf(a, d))))
    ensures var g := Gate(t.operations, b, d);
      && g.Some? && (g.value.Ok? <==> WellBound(b, d) && Repeats(a, b, d))
      && (g.value.Ok? ==> g.value.value == ApplicationOf(a, d))
  {
  }

  /**
   Replays are exact. After a carried-out call and any further calls, a request with its operation identity succeeds if
   and only if it repeats it; it then returns the stored result and changes no table.
   */
  lemma ReplaysReturnTheResult(t: Tables, c: Call, calls: seq<Call>, d: Digests, again: Call)
    requires ValidTables(t) && ValidEnvelope(c.request.envelope) && CarriedOut(t, c, d) && Envelopes(calls)
    requires ValidEnvelope(again.request.envelope) && again.request.operationId == c.request.operationId
    ensures ValidTables(Step(t, c, d))
    ensures var later := After(Step(t, c, d), calls, d);
      && Plannable(later, again.request.envelope) && Applicable(later, again.request.envelope.rows)
      && var result := Apply(later, again.matches, again.request, d);
         && (result.Ok? <==> WellBound(again.request, d) && Repeats(c.request, again.request, d))
         && (result.Ok? ==> result.value == Outcome(later, ApplicationOf(c.request, d), true))
  {
    var operation := StartedOperation(c.request, d).(result := Some(ApplicationOf(c.request, d)));
    StepSettles(t, c, d);
    StepKeepsValid(t, c, d);
    OperationsLast(Step(t, c, d), calls, d, c.request.operationId, operation);
    var later := After(Step(t, c, d), calls, d);
    ValidMeansUsable(later, again.request.envelope);
    GateOfKnown(later, c.request, again.request, d);
  }

  /** Sending a carried-out request again, whatever happened since, returns its result and changes nothing. */
  lemma SendingAgainIsSafe(t: Tables, c: Call, calls: seq<Call>, d: Digests, matches: seq<Match>)
    requires ValidTables(t) && ValidEnvelope(c.request.envelope) && CarriedOut(t, c, d) && Envelopes(calls)
    ensures ValidTables(Step(t, c, d))
    ensures var later := After(Step(t, c, d), calls, d);
      Step(later, Call(matches, c.request), d) == later && !CarriedOut(later, Call(matches, c.request), d)
  {
    var o := StepOutcome(t, c, d);
    PassedTheGate(t, c.matches, c.request, d, o);
    ReplaysReturnTheResult(t, c, calls, d, Call(matches, c.request));
  }

  lemma PassedTheGate(t: Tables, matches: seq<Match>, r: Request, d: Digests, o: Outcome)
    requires Plannable(t, r.envelope) && Applicable(t, r.envelope.rows) && Apply(t, matches, r, d) == Ok(o)
    ensures WellBound(r, d)
  {
  }
}
