/** What a request must bring to be carried out, said of its own fields. */
module ImportAuthorization {
  import opened Text
  import opened Wrappers
  import opened Sorting
  import opened CatalogModel
  import opened ImportReading
  import opened TitleDuplicates
  import opened ImportPlan
  import opened ImportApply
  import opened ImportRuns
  import opened ImportCollections
  import opened ImportCommits

  /** What the runtime asks of an authorization. */
  ghost predicate RuntimeInOrder(a: Authorization, findings: seq<Finding>) {
    && (a.runtime.Production? ==> a.purpose.ProductionImport?)
    && (a.runtime.Validation? ==>
          && a.purpose.ValidationOnly? && a.nonProduction && a.disposableDatabase
          && !a.publicationApproval && !a.reusableForProduction && findings == [])
    && (a.runtime.Pilot? ==>
          && a.purpose.PersistentPilot? && a.nonProduction && !a.publicationApproval
          && (exists i :: 0 <= i < |a.ownerReference| && !IsSpace(a.ownerReference[i]))
          && |a.runtime.targetScope| == 64
          && forall u :: u in a.runtime.targetScope ==> u in Lit("0123456789abcdef"))
  }

  ghost predicate IsApprovable(findings: seq<Finding>, id: Str) {
    exists j :: 0 <= j < |findings| && findings[j].id == id && findings[j].approvable
  }

  /** Everything that needs approval, and nothing that cannot be approved, is approved. */
  ghost predicate ApprovalInOrder(approved: seq<Str>, findings: seq<Finding>) {
    && (forall j :: 0 <= j < |findings| && findings[j].id !in approved ==> !findings[j].requiresApproval)
    && forall i :: 0 <= i < |approved| ==> IsApprovable(findings, approved[i])
  }

  /** The request binds its envelope, its plan and its approval to each other, and brings what it will need. */
  ghost predicate RequestInOrder(r: Request, d: Digests) {
    var approval := r.authorization.approval;
    && r.planHash == d.plan(r.plan) && approval.planHash == r.planHash && approval.inputHash == d.input(r.envelope)
    && approval.state == Approved && ApprovalInOrder(approval.findingIds, r.plan.findings)
    && RuntimeInOrder(r.authorization, r.plan.findings)
    && forall row :: row in r.envelope.rows && row.catalogId.None? ==> r.allocate.Some?
  }

  /** A row is for the entry it targets, or for the one allocated to it. */
  ghost predicate IsFor(r: Request, row: Row, id: Str) {
    if row.catalogId.Some? then id == row.catalogId.value
    else r.allocate.Some? && id == r.allocate.value(row.importId)
  }

  // ---- What may clash ----

  /** The envelope gives an import a name twice in one role. */
  ghost predicate NamesTwice(e: Envelope, importId: Str) {
    exists a, b :: a in e.contributors && b in e.contributors && a.importId == b.importId == importId
      && a.contributor.position != b.contributor.position
      && a.contributor.name == b.contributor.name && a.contributor.role == b.contributor.role
  }

  /** The row writes contributors: it creates its entry, or the plan names them. */
  ghost predicate RefillsContributors(planned: seq<Finding>, row: Row) {
    && row.contributorsAction.Replace?
    && (row.catalogId.None?
        || exists f :: f in planned && f.importId == row.importId && f.field == Some(ContributorsField))
  }

  /** No item of the operation stands for the row's import, its source or its entry. */
  ghost predicate ItemIsFree(t: Tables, operationId: Str, row: Row, id: Str) {
    && (operationId, row.importId) !in t.items
    && forall k :: k in t.items && k.0 == operationId ==>
         t.items[k].sourceId != row.sourceId && t.items[k].catalogId != id
  }

  ghost predicate OperationIsNew(t: Tables, r: Request, d: Digests) {
    && r.operationId !in t.operations
    && forall k :: k in t.operations ==>
         || t.operations[k].inputHash != d.input(r.envelope) || t.operations[k].planHash != r.planHash
         || t.operations[k].approvalHash != d.approval(r.authorization.approval)
  }

  /** Nothing in the tables, or elsewhere in the envelope, stands against writing the rows. */
  ghost predicate ClashFree(t: Tables, r: Request, d: Digests) {
    var rows := r.envelope.rows;
    && OperationIsNew(t, r, d)
    && (forall row, id :: row in rows && IsFor(r, row, id) ==>
          (row.catalogId.None? ==> id !in t.entries) && ItemIsFree(t, r.operationId, row, id))
    && (forall a, b, id :: a in rows && b in rows && IsFor(r, a, id) && IsFor(r, b, id) ==> a == b)
    && forall row :: row in rows && RefillsContributors(r.plan.findings, row) ==>
         !NamesTwice(r.envelope, row.importId)
  }

  lemma PairsGiven(e: Envelope, importId: Str)
    requires ValidEnvelope(e)
    ensures PairsApart(ContributorsForImport(e, importId)) <==> !NamesTwice(e, importId)
  {
    var list := ContributorsForImport(e, importId);
    SortMembers(ContributorsOf(e.contributors, importId), ContributorLe);
    forall c ensures c in list <==> ContributorRow(importId, c) in e.contributors {
      ContributorListed(e.contributors, importId, c);
    }
    PositionsApart(e, importId);
    if NamesTwice(e, importId) {
      var a, b :| a in e.contributors && b in e.contributors && a.importId == b.importId == importId
        && a.contributor.position != b.contributor.position
        && a.contributor.name == b.contributor.name && a.contributor.role == b.contributor.role;
      assert a == ContributorRow(importId, a.contributor) && b == ContributorRow(importId, b.contributor);
      var i, j := IndexOf(list, a.contributor), IndexOf(list, b.contributor);
      assert SamePair(list[i], list[j]) && SamePair(list[j], list[i]) && i != j;
    }
    if !PairsApart(list) {
      var i, j :| 0 <= i < j < |list| && SamePair(list[i], list[j]);
      assert list[i] in list && list[j] in list;
      assert ContributorRow(importId, list[i]) in e.contributors && ContributorRow(importId, list[j]) in e.contributors;
    }
  }

  lemma PositionsApart(e: Envelope, importId: Str)
    requires ValidEnvelope(e)
    ensures var list := ContributorsForImport(e, importId);
      forall i, j :: 0 <= i < j < |list| ==> list[i].position != list[j].position
  {
    var given, list := ContributorsOf(e.contributors, importId), ContributorsForImport(e, importId);
    ContributorsApart(e.contributors, importId);
    UntiedDistinct(given, ContributorLe);
    SortPermutes(given, ContributorLe);
    PermutedDistinct(given, list);
    SortMembers(given, ContributorLe);
    forall i, j | 0 <= i < j < |list| ensures list[i].position != list[j].position {
      assert list[i] in given && list[j] in given && list[i] != list[j];
      assert !(ContributorLe(list[i], list[j]) && ContributorLe(list[j], list[i]));
    }
  }

  lemma RefillsAreWrites(planned: seq<Finding>, row: Row)
    ensures RefillsContributors(planned, row) <==> WritesContributors(planned, row)
  {
    var own := FindingsOf(planned, row.importId);
    if f :| f in planned && f.importId == row.importId && f.field == Some(ContributorsField) {
      assert own[IndexOf(own, f)].field == Some(ContributorsField);
    }
    if i :| 0 <= i < |own| && own[i].field == Some(ContributorsField) { assert own[i] in own; }
  }

  lemma IdsApartMeans(r: Request)
    requires ValidEnvelope(r.envelope)
    requires forall row :: row in r.envelope.rows && row.catalogId.None? ==> r.allocate.Some?
    ensures IdsApart(r.envelope.rows, Allocation(r.allocate))
      <==> forall a, b, id :: a in r.envelope.rows && b in r.envelope.rows && IsFor(r, a, id) && IsFor(r, b, id) ==>
             a == b
  {
    var rows, allocate := r.envelope.rows, Allocation(r.allocate);
    forall row | row in rows ensures IsFor(r, row, CatalogIdOf(row, allocate)) {}
    if forall a, b, id :: a in rows && b in rows && IsFor(r, a, id) && IsFor(r, b, id) ==> a == b {
      forall i, j | 0 <= i < j < |rows| ensures CatalogIdOf(rows[i], allocate) != CatalogIdOf(rows[j], allocate) {
        assert rows[i] in rows && rows[j] in rows && rows[i] != rows[j];
      }
    }
    if IdsApart(rows, allocate) {
      forall a, b, id | a in rows && b in rows && IsFor(r, a, id) && IsFor(r, b, id) ensures a == b {
        var i, j := IndexOf(rows, a), IndexOf(rows, b);
      }
    }
  }

  lemma RowsClearMeans(t: Tables, r: Request)
    requires ValidEnvelope(r.envelope)
    requires forall row :: row in r.envelope.rows && row.catalogId.None? ==> r.allocate.Some?
    ensures RowsClear(t, r.envelope, r.plan.findings, r.operationId, Allocation(r.allocate), r.envelope.rows)
      <==> && (forall row, id :: row in r.envelope.rows && IsFor(r, row, id) ==>
                 (row.catalogId.None? ==> id !in t.entries) && ItemIsFree(t, r.operationId, row, id))
           && IdsApart(r.envelope.rows, Allocation(r.allocate))
           && forall row :: row in r.envelope.rows && RefillsContributors(r.plan.findings, row) ==>
                !NamesTwice(r.envelope, row.importId)
  {
    var rows, allocate := r.envelope.rows, Allocation(r.allocate);
    forall row | row in rows
      ensures RefillsContributors(r.plan.findings, row) <==> WritesContributors(r.plan.findings, row)
      ensures PairsApart(ContributorsForImport(r.envelope, row.importId)) <==> !NamesTwice(r.envelope, row.importId)
      ensures IsFor(r, row, CatalogIdOf(row, allocate))
      ensures ItemIsFree(t, r.operationId, row, CatalogIdOf(row, allocate))
        <==> !ItemClashes(t.items, r.operationId, row, CatalogIdOf(row, allocate))
    {
      RefillsAreWrites(r.plan.findings, row);
      PairsGiven(r.envelope, row.importId);
      ItemFreeMeans(t, r.operationId, row, CatalogIdOf(row, allocate));
    }
  }

  lemma ItemFreeMeans(t: Tables, operationId: Str, row: Row, id: Str)
    ensures ItemIsFree(t, operationId, row, id) <==> !ItemClashes(t.items, operationId, row, id)
  {
  }

  lemma ClashFreeMeans(t: Tables, r: Request, d: Digests)
    requires ValidEnvelope(r.envelope)
    requires forall row :: row in r.envelope.rows && row.catalogId.None? ==> r.allocate.Some?
    ensures NothingClashes(t, r, d) <==> ClashFree(t, r, d)
  {
    RowsClearMeans(t, r);
    IdsApartMeans(r);
  }

  // ---- Being carried out ----

  lemma HexDigits(u: Unit)
    ensures u in Lit("0123456789abcdef") <==> 48 <= u <= 57 || 97 <= u <= 102
  {
    var hex := Lit("0123456789abcdef");
    assert hex[0] == 48 && hex[1] == 49 && hex[2] == 50 && hex[3] == 51 && hex[4] == 52 && hex[5] == 53;
    assert hex[6] == 54 && hex[7] == 55 && hex[8] == 56 && hex[9] == 57 && hex[10] == 97 && hex[11] == 98;
    assert hex[12] == 99 && hex[13] == 100 && hex[14] == 101 && hex[15] == 102;
  }

  lemma ShaIsHex(s: Str)
    ensures IsSha(s) <==> |s| == 64 && forall u :: u in s ==> u in Lit("0123456789abcdef")
  {
    forall u ensures u in Lit("0123456789abcdef") <==> 48 <= u <= 57 || 97 <= u <= 102 { HexDigits(u); }
    if IsSha(s) {
    } else if |s| == 64 {
      var i :| 0 <= i < |s| && !(48 <= s[i] <= 57 || 97 <= s[i] <= 102);
      assert s[i] in s;
    }
  }

  lemma RuntimeAsked(a: Authorization, body: PlanBody)
    ensures PilotAuthorized(a) && RuntimeAuthorized(a, body) <==> RuntimeInOrder(a, body.findings)
  {
    if a.runtime.Pilot? {
      ShaIsHex(a.runtime.targetScope);
      TrimEmpties(a.ownerReference);
    }
  }

  lemma ApprovedIsInOrder(approval: Approval, body: PlanBody)
    requires FindingsApproved(approval, body)
    ensures ApprovalInOrder(approval.findingIds, body.findings)
  {
    forall i | 0 <= i < |approval.findingIds| ensures IsApprovable(body.findings, approval.findingIds[i]) {
      var j :| 0 <= j < |body.findings|
        && body.findings[j].id == approval.findingIds[i] && body.findings[j].approvable;
    }
    forall j | 0 <= j < |body.findings| && body.findings[j].id !in approval.findingIds
      ensures !body.findings[j].requiresApproval
    {
    }
  }

  lemma InOrderIsApproved(approval: Approval, body: PlanBody)
    requires ApprovalInOrder(approval.findingIds, body.findings)
    ensures FindingsApproved(approval, body)
  {
    var ids, findings := approval.findingIds, body.findings;
    forall i | 0 <= i < |ids|
      ensures exists j :: 0 <= j < |findings| && findings[j].id == ids[i] && findings[j].approvable
    {
      assert IsApprovable(findings, ids[i]);
      var j :| 0 <= j < |findings| && findings[j].id == ids[i] && findings[j].approvable;
    }
    assert forall i :: 0 <= i < |ids| ==>
      exists j :: 0 <= j < |findings| && findings[j].id == ids[i] && findings[j].approvable;
    assert forall j :: 0 <= j < |findings| && findings[j].requiresApproval ==> findings[j].id in ids;
  }

  lemma NotStopped(t: Tables, r: Request, d: Digests)
    ensures Gate(t.operations, r, d).None? && Refusal(r, d, r.plan).None?
      <==> r.operationId !in t.operations && r.plan.ready && RequestInOrder(r, d)
  {
    RuntimeAsked(r.authorization, r.plan);
    var approval := r.authorization.approval;
    if FindingsApproved(approval, r.plan) { ApprovedIsInOrder(approval, r.plan); }
    if ApprovalInOrder(approval.findingIds, r.plan.findings) { InOrderIsApproved(approval, r.plan); }
  }

  lemma RecomputedPlanIsGiven(t: Tables, matches: seq<Match>, r: Request, d: Digests)
    requires Plannable(t, r.envelope)
    ensures CheckRequest(t, matches, r, d).None?
      <==> Plan(t, matches, r.envelope, d) == Ok(r.plan) && Refusal(r, d, r.plan).None?
  {
  }

  /**
   A request is carried out exactly if the plan it brings is still the plan and ready, the request is in order, and
   nothing clashes.
   */
  lemma CarriedOutIfInOrder(t: Tables, matches: seq<Match>, r: Request, d: Digests)
    requires ValidTables(t) && ValidEnvelope(r.envelope) && Plannable(t, r.envelope) && Applicable(t, r.envelope.rows)
    ensures var done := Apply(t, matches, r, d);
      done.Ok? && !done.value.replayed
      <==> Plan(t, matches, r.envelope, d) == Ok(r.plan) && r.plan.ready && RequestInOrder(r, d)
           && ClashFree(t, r, d)
  {
    if RequestInOrder(r, d) { ClashFreeMeans(t, r, d); }
    NotStopped(t, r, d);
    RecomputedPlanIsGiven(t, matches, r, d);
    if Gate(t.operations, r, d).None? && CheckRequest(t, matches, r, d).None? {
      CarriedOutExactly(t, matches, r, d);
    } else {
      StoppedIsNotCarriedOut(t, matches, r, d);
    }
  }

  lemma StoppedIsNotCarriedOut(t: Tables, matches: seq<Match>, r: Request, d: Digests)
    requires Plannable(t, r.envelope) && Applicable(t, r.envelope.rows)
    requires Gate(t.operations, r, d).Some? || CheckRequest(t, matches, r, d).Some?
    ensures Apply(t, matches, r, d).Ok? ==> Apply(t, matches, r, d).value.replayed
  {
  }

  lemma CarriedOutWasInOrder(t: Tables, matches: seq<Match>, r: Request, d: Digests, o: Outcome)
    requires ValidTables(t) && ValidEnvelope(r.envelope) && Plannable(t, r.envelope) && Applicable(t, r.envelope.rows)
    requires Apply(t, matches, r, d) == Ok(o) && !o.replayed
    ensures RequestInOrder(r, d) && Plan(t, matches, r.envelope, d) == Ok(r.plan) && r.plan.ready
  {
    CarriedOutIfInOrder(t, matches, r, d);
  }
}
