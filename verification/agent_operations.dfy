/**
 The lifecycle writes of agent operations. Each is one guarded update of one stored row: a statement that names the
 state it leaves or the lease it holds, and finds no row otherwise.
 */
module AgentOperations {
  import opened Wrappers

  type Id = nat
  type Token = nat
  type Time = int

  datatype State = Prepared | Approved | Executing | Completed | Cancelled | Failed {
    predicate Terminal() { Completed? || Cancelled? || Failed? }
  }

  datatype Final = ToCompleted | ToCancelled | ToFailed {
    function State(): State {
      match this
      case ToCompleted => Completed
      case ToCancelled => Cancelled
      case ToFailed => Failed
    }
  }

  datatype Approval = Approval(approver: nat, delegation: Option<nat>, at: Time)

  /** What a target came to, and the place of the target among the frozen ones. */
  datatype Outcome = Outcome(index: nat, verdict: nat)

  datatype Lease = Lease(owner: Token, expiresAt: Time)

  datatype Frozen = Frozen(
    principal: nat, requestId: nat, kind: nat, action: Option<nat>, targets: seq<nat>, fingerprint: nat,
    undoOf: Option<Id>, createdAt: Time, expiresAt: Time)

  datatype OperationRow = OperationRow(
    frozen: Frozen, state: State, approval: Option<Approval>, nextIndex: nat, results: seq<Outcome>,
    lease: Option<Lease>, version: nat, approvedAt: Option<Time>, startedAt: Option<Time>, finishedAt: Option<Time>,
    cancelRequestedAt: Option<Time>)

  datatype Draft = Draft(id: Id, frozen: Frozen, approval: Option<Approval>)

  type Rows = map<Id, OperationRow>

  const MAX_TARGETS := 500

  // ---- Each write as a function of the stored rows; a write that finds no row leaves them as they are ----

  predicate Repeats(row: OperationRow, d: Draft) {
    row.frozen.principal == d.frozen.principal && row.frozen.requestId == d.frozen.requestId
  }

  predicate SameRequest(row: OperationRow, d: Draft) {
    row.frozen.fingerprint == d.frozen.fingerprint
  }

  predicate IsRepeated(rows: Rows, d: Draft) {
    exists k :: k in rows && Repeats(rows[k], d)
  }

  /** The operation that a draft undoes is one the table holds, the draft itself included. */
  predicate UndoesKnown(rows: Rows, d: Draft) {
    d.frozen.undoOf.None? || d.frozen.undoOf.value in rows || d.frozen.undoOf.value == d.id
  }

  /** The key, the request identity, the number of targets and the undone operation are checked by the table. */
  predicate Insertable(rows: Rows, d: Draft) {
    && !IsRepeated(rows, d) && d.id !in rows && 1 <= |d.frozen.targets| <= MAX_TARGETS
    && UndoesKnown(rows, d)
  }

  function NewRow(d: Draft): OperationRow {
    OperationRow(
      d.frozen, if d.approval.None? then Prepared else Approved, d.approval, 0, [], None, 1,
      if d.approval.None? then None else Some(d.frozen.createdAt), None, None, None)
  }

  predicate MayApprove(rows: Rows, id: Id, at: Time) {
    id in rows && rows[id].state.Prepared? && rows[id].frozen.expiresAt > at
  }

  function ApprovedRow(row: OperationRow, approval: Approval, at: Time): OperationRow {
    row.(state := Approved, approval := Some(approval), approvedAt := Some(at), version := row.version + 1)
  }

  predicate MayCancel(rows: Rows, id: Id) {
    id in rows && !rows[id].state.Terminal()
  }

  function CancelledRow(row: OperationRow, at: Time): OperationRow {
    var stops := row.state.Prepared? || row.state.Approved?;
    row.(
      cancelRequestedAt := if row.cancelRequestedAt.Some? then row.cancelRequestedAt else Some(at),
      state := if stops then Cancelled else row.state,
      finishedAt := if stops then Some(at) else row.finishedAt,
      version := row.version + 1)
  }

  predicate MayClaim(rows: Rows, id: Id, at: Time) {
    && id in rows && (rows[id].state.Approved? || rows[id].state.Executing?)
    && (rows[id].lease.None? || rows[id].lease.value.expiresAt <= at)
  }

  function ClaimedRow(row: OperationRow, owner: Token, at: Time, leaseMs: nat): OperationRow {
    row.(
      state := Executing, lease := Some(Lease(owner, at + leaseMs)),
      startedAt := if row.startedAt.Some? then row.startedAt else Some(at), version := row.version + 1)
  }

  datatype Options = Options(final: Option<Final>, release: bool, leaseMs: nat) {
    predicate Releases() { release || final.Some? }
  }

  predicate MayRecord(rows: Rows, id: Id, owner: Token, at: Time) {
    && id in rows && rows[id].state.Executing? && rows[id].lease.Some?
    && rows[id].lease.value.owner == owner && rows[id].lease.value.expiresAt > at
  }

  function RecordedRow(row: OperationRow, results: seq<Outcome>, nextIndex: nat, at: Time, options: Options)
    : OperationRow
    requires row.lease.Some?
  {
    row.(
      results := row.results + results, nextIndex := nextIndex,
      state := if options.final.Some? then options.final.value.State() else row.state,
      finishedAt := if options.final.Some? then Some(at) else row.finishedAt,
      lease := if options.Releases() then None else Some(row.lease.value.(expiresAt := at + options.leaseMs)),
      version := row.version + 1)
  }

  // ---- The writes ----

  datatype Event =
    | Create(draft: Draft)
    | Approve(id: Id, approval: Approval, at: Time)
    | Cancel(id: Id, at: Time)
    | Claim(id: Id, owner: Token, at: Time, leaseMs: nat)
    | Record(id: Id, owner: Token, results: seq<Outcome>, nextIndex: nat, at: Time, options: Options)

  /** The row a write is about. */
  function Subject(e: Event): Id {
    match e
    case Create(d) => d.id
    case _ => e.id
  }

  predicate Accepts(rows: Rows, e: Event) {
    match e
    case Create(d) => Insertable(rows, d)
    case Approve(id, _, at) => MayApprove(rows, id, at)
    case Cancel(id, _) => MayCancel(rows, id)
    case Claim(id, _, at, _) => MayClaim(rows, id, at)
    case Record(id, owner, _, _, at, _) => MayRecord(rows, id, owner, at)
  }

  function Written(rows: Rows, e: Event): OperationRow
    requires Accepts(rows, e)
  {
    match e
    case Create(d) => NewRow(d)
    case Approve(id, approval, at) => ApprovedRow(rows[id], approval, at)
    case Cancel(id, at) => CancelledRow(rows[id], at)
    case Claim(id, owner, at, leaseMs) => ClaimedRow(rows[id], owner, at, leaseMs)
    case Record(id, _, results, nextIndex, at, options) => RecordedRow(rows[id], results, nextIndex, at, options)
  }

  function After(rows: Rows, e: Event): Rows {
    if Accepts(rows, e) then rows[Subject(e) := Written(rows, e)] else rows
  }

  // ---- The adapter ----

  class AgentAdministrationAdapter {
    var rows: Rows

    constructor ()
      ensures rows == map[]
    {
      rows := map[];
    }

    /** `createOperation`; nothing when the request identity was used for something else, or the table refuses. */
    method CreateOperation(d: Draft) returns (operation: Option<OperationRow>, created: bool)
      modifies this
      ensures rows == After(old(rows), Create(d)) && created == Insertable(old(rows), d)
      ensures created ==> operation == Some(rows[d.id])
      ensures !created ==> rows == old(rows)
      ensures operation.Some? && !created ==>
        exists k :: k in rows && rows[k] == operation.value && Repeats(rows[k], d) && SameRequest(rows[k], d)
      ensures operation.None? && IsRepeated(old(rows), d) ==>
        exists k :: k in rows && Repeats(rows[k], d) && !SameRequest(rows[k], d)
    {
      if IsRepeated(rows, d) {
        var k :| k in rows && Repeats(rows[k], d);
        return if SameRequest(rows[k], d) then Some(rows[k]) else None, false;
      }
      if d.id in rows || |d.frozen.targets| < 1 || |d.frozen.targets| > MAX_TARGETS { return None, false; }
      if d.frozen.undoOf.Some? && d.frozen.undoOf.value !in rows && d.frozen.undoOf.value != d.id {
        return None, false;
      }
      rows := rows[d.id := NewRow(d)];
      return Some(rows[d.id]), true;
    }

    method ApproveOperation(id: Id, approval: Approval, at: Time) returns (operation: Option<OperationRow>)
      modifies this
      ensures rows == After(old(rows), Approve(id, approval, at))
      ensures operation == if MayApprove(old(rows), id, at) then Some(rows[id]) else None
    {
      if id !in rows || !rows[id].state.Prepared? || rows[id].frozen.expiresAt <= at { return None; }
      rows := rows[id := rows[id].(
        state := Approved, approval := Some(approval), approvedAt := Some(at), version := rows[id].version + 1)];
      return Some(rows[id]);
    }

    method CancelOperation(id: Id, at: Time) returns (operation: Option<OperationRow>)
      modifies this
      ensures rows == After(old(rows), Cancel(id, at))
      ensures operation == if MayCancel(old(rows), id) then Some(rows[id]) else None
    {
      if id !in rows { return None; }
      var row := rows[id];
      match row.state {
        case Prepared | Approved =>
          rows := rows[id := row.(
            cancelRequestedAt := if row.cancelRequestedAt.Some? then row.cancelRequestedAt else Some(at),
            state := Cancelled, finishedAt := Some(at), version := row.version + 1)];
        case Executing =>
          rows := rows[id := row.(
            cancelRequestedAt := if row.cancelRequestedAt.Some? then row.cancelRequestedAt else Some(at),
            version := row.version + 1)];
        case _ => return None;
      }
      return Some(rows[id]);
    }

    /** `claimExecution`; an operation that another executor holds is returned unclaimed. */
    method ClaimExecution(id: Id, owner: Token, at: Time, leaseMs: nat)
      returns (operation: Option<OperationRow>, claimed: bool)
      modifies this
      ensures rows == After(old(rows), Claim(id, owner, at, leaseMs)) && claimed == MayClaim(old(rows), id, at)
      ensures operation == if id in rows && rows[id].state.Executing? then Some(rows[id]) else None
    {
      if id !in rows { return None, false; }
      var row := rows[id];
      if (row.state.Approved? || row.state.Executing?) && (row.lease.None? || row.lease.value.expiresAt <= at) {
        rows := rows[id := row.(
          state := Executing, lease := Some(Lease(owner, at + leaseMs)),
          startedAt := if row.startedAt.Some? then row.startedAt else Some(at), version := row.version + 1)];
        return Some(rows[id]), true;
      }
      return if row.state.Executing? then Some(row) else None, false;
    }

    method RecordChunk(id: Id, owner: Token, results: seq<Outcome>, nextIndex: nat, at: Time, options: Options)
      returns (operation: Option<OperationRow>)
      modifies this
      ensures rows == After(old(rows), Record(id, owner, results, nextIndex, at, options))
      ensures operation == if MayRecord(old(rows), id, owner, at) then Some(rows[id]) else None
    {
      var release := options.release || options.final.Some?;
      if id !in rows || !rows[id].state.Executing? { return None; }
      var row := rows[id];
      if row.lease.None? || row.lease.value.owner != owner || row.lease.value.expiresAt <= at { return None; }
      rows := rows[id := row.(
        results := row.results + results, nextIndex := nextIndex,
        state := if options.final.Some? then options.final.value.State() else row.state,
        finishedAt := if options.final.Some? then Some(at) else row.finishedAt,
        lease := if release then None else Some(Lease(row.lease.value.owner, at + options.leaseMs)),
        version := row.version + 1)];
      return Some(rows[id]);
    }
  }
}
