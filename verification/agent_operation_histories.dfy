/** What the row of an agent operation tells of the accepted writes before it, and so when the next one is accepted. */
module AgentOperationHistories {
  import opened Wrappers
  import opened AgentOperations
  import opened AgentOperationRuns

  // ---- Histories ----

  /** The writes that create an operation, approve it, claim it, ask for its end, or end it. */
  predicate Creates(e: Event, id: Id) { e.Create? && e.draft.id == id }

  predicate Approves(e: Event, id: Id) {
    (e.Create? && e.draft.id == id && e.draft.approval.Some?) || (e.Approve? && e.id == id)
  }

  predicate Claims(e: Event, id: Id) { e.Claim? && e.id == id }

  predicate Cancels(e: Event, id: Id) { e.Cancel? && e.id == id }

  predicate Finishes(e: Event, id: Id, final: Final) {
    e.Record? && e.id == id && e.options.final == Some(final)
  }

  function Creating(id: Id): Event -> bool { e => Creates(e, id) }

  function Approving(id: Id): Event -> bool { e => Approves(e, id) }

  function Claiming(id: Id): Event -> bool { e => Claims(e, id) }

  function Cancelling(id: Id): Event -> bool { e => Cancels(e, id) }

  function Finishing(id: Id, final: Final): Event -> bool { e => Finishes(e, id, final) }

  /** Such a write was made and accepted. */
  ghost predicate Happened(start: Time, events: seq<Event>, such: Event -> bool) {
    exists i :: 0 <= i < |events| && AcceptedAt(start, events, i) && such(events[i])
  }

  /** The first such write that was accepted was made at this time. */
  ghost predicate FirstHappened(start: Time, events: seq<Event>, such: Event -> bool, at: Time) {
    exists i :: 0 <= i < |events| && IsFirst(start, events, i, such) && TimeOf(events[i]) == at
  }

  ghost predicate IsFirst(start: Time, events: seq<Event>, i: nat, such: Event -> bool)
    requires i < |events|
  {
    AcceptedAt(start, events, i) && such(events[i]) && !Happened(start, events[..i], such)
  }

  lemma HappenedOneMore(start: Time, events: seq<Event>, such: Event -> bool)
    requires events != []
    ensures var n := |events| - 1;
      Happened(start, events, such)
      <==> Happened(start, events[..n], such) || (AcceptedAt(start, events, n) && such(events[n]))
  {
    var n := |events| - 1;
    if i :| 0 <= i < n && AcceptedAt(start, events[..n], i) && such(events[..n][i]) { SameUpTo(start, events, n, i); }
    if i :| 0 <= i < |events| && AcceptedAt(start, events, i) && such(events[i]) {
      if i < n {
        SameUpTo(start, events, n, i);
        assert such(events[..n][i]);
      }
    }
  }

  lemma FirstHappenedOneMore(start: Time, events: seq<Event>, such: Event -> bool, at: Time)
    requires events != []
    ensures var n := |events| - 1;
      FirstHappened(start, events, such, at)
      <==> FirstHappened(start, events[..n], such, at)
           || (!Happened(start, events[..n], such) && AcceptedAt(start, events, n) && such(events[n])
               && TimeOf(events[n]) == at)
  {
    var n := |events| - 1;
    if i :| 0 <= i < n && IsFirst(start, events[..n], i, such) && TimeOf(events[..n][i]) == at {
      SameUpTo(start, events, n, i);
      assert IsFirst(start, events, i, such);
    }
    if i :| 0 <= i < |events| && IsFirst(start, events, i, such) && TimeOf(events[i]) == at {
      if i < n {
        SameUpTo(start, events, n, i);
        assert IsFirst(start, events[..n], i, such);
      }
    }
    if IsFirst(start, events, n, such) && TimeOf(events[n]) == at { assert FirstHappened(start, events, such, at); }
  }

  // ---- The state ----

  /** What the history says of an operation. */
  datatype Past = Past(
    created: bool, approved: bool, claimed: bool, cancelled: bool, completed: bool, failed: bool, ceased: bool)
  {
    predicate Ended() { completed || failed || ceased }
  }

  ghost function PastOf(start: Time, events: seq<Event>, id: Id): Past {
    Past(
      Happened(start, events, Creating(id)), Happened(start, events, Approving(id)),
      Happened(start, events, Claiming(id)), Happened(start, events, Cancelling(id)),
      Happened(start, events, Finishing(id, ToCompleted)), Happened(start, events, Finishing(id, ToFailed)),
      Happened(start, events, Finishing(id, ToCancelled)))
  }

  /**
   The state that a history leads to. Cancelling ends an operation that was never claimed; once it was, only its
   executor ends it.
   */
  ghost predicate StateTells(rows: Rows, id: Id, p: Past) {
    && (id in rows <==> p.created)
    && (id !in rows ==> !p.approved && !p.claimed && !p.cancelled && !p.Ended())
    && (id in rows ==>
          var state := rows[id].state;
          && (state.Prepared? <==> !p.approved && !p.claimed && !p.cancelled && !p.Ended())
          && (state.Approved? <==> p.approved && !p.claimed && !p.cancelled && !p.Ended())
          && (state.Executing? <==> p.claimed && !p.Ended())
          && (state.Completed? <==> p.completed) && (state.Failed? <==> p.failed)
          && (state.Cancelled? <==> p.ceased || (p.cancelled && !p.claimed))
          && (p.claimed ==> p.approved) && (p.Ended() ==> p.claimed))
  }

  ghost function PastAfter(p: Past, e: Event, accepted: bool, id: Id): Past {
    Past(
      p.created || (accepted && Creates(e, id)), p.approved || (accepted && Approves(e, id)),
      p.claimed || (accepted && Claims(e, id)), p.cancelled || (accepted && Cancels(e, id)),
      p.completed || (accepted && Finishes(e, id, ToCompleted)), p.failed || (accepted && Finishes(e, id, ToFailed)),
      p.ceased || (accepted && Finishes(e, id, ToCancelled)))
  }

  lemma PastOneMore(start: Time, events: seq<Event>, id: Id)
    requires events != []
    ensures var n := |events| - 1;
      PastOf(start, events, id)
      == PastAfter(PastOf(start, events[..n], id), events[n], AcceptedAt(start, events, n), id)
  {
    HappenedOneMore(start, events, Creating(id));
    HappenedOneMore(start, events, Approving(id));
    HappenedOneMore(start, events, Claiming(id));
    HappenedOneMore(start, events, Cancelling(id));
    HappenedOneMore(start, events, Finishing(id, ToCompleted));
    HappenedOneMore(start, events, Finishing(id, ToFailed));
    HappenedOneMore(start, events, Finishing(id, ToCancelled));
  }

  lemma StateStep(rows: Rows, e: Event, id: Id, p: Past)
    requires StateTells(rows, id, p)
    ensures StateTells(After(rows, e), id, PastAfter(p, e, Accepts(rows, e), id))
  {
    match e
    case Create(d) =>
    case Approve(_, _, _) =>
    case Cancel(_, _) =>
    case Claim(_, _, _, _) =>
    case Record(_, _, _, _, _, _) =>
  }

  /** In every run, lawful or not, the state of an operation is what its accepted writes say. */
  lemma {:induction false} StateTellsHistory(start: Time, events: seq<Event>, id: Id)
    ensures StateTells(Run(start, events).rows, id, PastOf(start, events, id))
  {
    if events == [] {
    } else {
      var n := |events| - 1;
      StateTellsHistory(start, events[..n], id);
      PastOneMore(start, events, id);
      StateStep(Run(start, events[..n]).rows, events[n], id, PastOf(start, events[..n], id));
    }
  }

  // ---- When a write is accepted ----

  /**
   A claim is accepted exactly if the operation exists, is approved or executing, and no lease granted on it stands that
   has not run out.
   */
  lemma ClaimsAreFenced(start: Time, events: seq<Event>, id: Id, owner: Token, at: Time, leaseMs: nat)
    requires LawfulRun(start, events)
    ensures var rows := Run(start, events).rows;
      Accepts(rows, Claim(id, owner, at, leaseMs))
      <==> id in rows && (rows[id].state == Approved || rows[id].state == Executing)
           && !exists lease :: Stands(start, events, id, lease) && at < lease.expiresAt
  {
    var rows := Run(start, events).rows;
    forall lease ensures (id in rows && rows[id].lease == Some(lease)) <==> Stands(start, events, id, lease) {
      LeaseStands(start, events, id, lease);
    }
    if id in rows && rows[id].lease.Some? { assert Stands(start, events, id, rows[id].lease.value); }
  }

  /** The same of the history alone: approved, not ended, and not cancelled before it was claimed. */
  lemma ClaimsNeed(start: Time, events: seq<Event>, id: Id, owner: Token, at: Time, leaseMs: nat)
    requires LawfulRun(start, events)
    ensures Accepts(Run(start, events).rows, Claim(id, owner, at, leaseMs))
      <==> Happened(start, events, Approving(id))
           && (forall final :: !Happened(start, events, Finishing(id, final)))
           && (Happened(start, events, Cancelling(id)) ==> Happened(start, events, Claiming(id)))
           && !exists lease :: Stands(start, events, id, lease) && at < lease.expiresAt
  {
    ClaimsAreFenced(start, events, id, owner, at, leaseMs);
    StateTellsHistory(start, events, id);
    EndedBySome(start, events, id);
  }

  lemma EndedBySome(start: Time, events: seq<Event>, id: Id)
    ensures PastOf(start, events, id).Ended() <==> exists final :: Happened(start, events, Finishing(id, final))
  {
    if final :| Happened(start, events, Finishing(id, final)) {
      match final
      case ToCompleted =>
      case ToFailed =>
      case ToCancelled =>
    }
  }

  /** A cancellation is accepted exactly of an operation that exists, has not ended and was not cancelled unclaimed. */
  lemma CancelsNeed(start: Time, events: seq<Event>, id: Id, at: Time)
    ensures Accepts(Run(start, events).rows, Cancel(id, at))
      <==> Happened(start, events, Creating(id))
           && (forall final :: !Happened(start, events, Finishing(id, final)))
           && (Happened(start, events, Cancelling(id)) ==> Happened(start, events, Claiming(id)))
  {
    StateTellsHistory(start, events, id);
    EndedBySome(start, events, id);
  }

  // ---- The frozen part ----

  function CreatingAs(id: Id, frozen: Frozen): Event -> bool {
    e => Creates(e, id) && e.draft.frozen == frozen
  }

  /** What is frozen of an operation is what it was created with. */
  lemma {:induction false} FrozenTellsHistory(start: Time, events: seq<Event>, id: Id, frozen: Frozen)
    ensures var rows := Run(start, events).rows;
      (id in rows && rows[id].frozen == frozen) <==> Happened(start, events, CreatingAs(id, frozen))
  {
    if events == [] {
    } else {
      var n := |events| - 1;
      FrozenTellsHistory(start, events[..n], id, frozen);
      HappenedOneMore(start, events, CreatingAs(id, frozen));
    }
  }

  /** An approval is accepted exactly before the operation expires, if it was neither approved nor cancelled. */
  lemma ApprovalsNeed(start: Time, events: seq<Event>, id: Id, approval: Approval, at: Time)
    ensures Accepts(Run(start, events).rows, Approve(id, approval, at))
      <==> (exists frozen :: Happened(start, events, CreatingAs(id, frozen)) && at < frozen.expiresAt)
           && !Happened(start, events, Approving(id)) && !Happened(start, events, Cancelling(id))
  {
    var rows := Run(start, events).rows;
    StateTellsHistory(start, events, id);
    if id in rows { FrozenTellsHistory(start, events, id, rows[id].frozen); }
    if frozen :| Happened(start, events, CreatingAs(id, frozen)) && at < frozen.expiresAt {
      FrozenTellsHistory(start, events, id, frozen);
    }
  }

  function Requesting(principal: nat, requestId: nat): Event -> bool {
    (e: Event) => e.Create? && e.draft.frozen.principal == principal && e.draft.frozen.requestId == requestId
  }

  ghost predicate IsRequested(rows: Rows, principal: nat, requestId: nat) {
    exists k :: k in rows && rows[k].frozen.principal == principal && rows[k].frozen.requestId == requestId
  }

  lemma {:induction false} RequestsTellHistory(start: Time, events: seq<Event>, principal: nat, requestId: nat)
    ensures IsRequested(Run(start, events).rows, principal, requestId)
      <==> Happened(start, events, Requesting(principal, requestId))
  {
    if events == [] {
    } else {
      var n := |events| - 1;
      RequestsTellHistory(start, events[..n], principal, requestId);
      HappenedOneMore(start, events, Requesting(principal, requestId));
      RequestsStep(Run(start, events[..n]).rows, events[n], principal, requestId);
    }
  }

  lemma RequestsStep(rows: Rows, e: Event, principal: nat, requestId: nat)
    ensures IsRequested(After(rows, e), principal, requestId)
      <==> IsRequested(rows, principal, requestId) || (Accepts(rows, e) && Requesting(principal, requestId)(e))
  {
    var after := After(rows, e);
    if Accepts(rows, e) { assert Subject(e) in after; }
    if k :| k in rows && rows[k].frozen.principal == principal && rows[k].frozen.requestId == requestId {
      assert k in after && after[k].frozen == rows[k].frozen;
    }
  }

  /** A create is accepted exactly of 1 to 500 targets under a new id and request, undoing nothing or what exists. */
  lemma CreatesNeed(start: Time, events: seq<Event>, d: Draft)
    ensures Accepts(Run(start, events).rows, Create(d))
      <==> 1 <= |d.frozen.targets| <= 500 && !Happened(start, events, Creating(d.id))
           && !Happened(start, events, Requesting(d.frozen.principal, d.frozen.requestId))
           && (d.frozen.undoOf.None? || d.frozen.undoOf == Some(d.id)
               || Happened(start, events, Creating(d.frozen.undoOf.value)))
  {
    StateTellsHistory(start, events, d.id);
    RequestsTellHistory(start, events, d.frozen.principal, d.frozen.requestId);
    if d.frozen.undoOf.Some? { StateTellsHistory(start, events, d.frozen.undoOf.value); }
  }

  // ---- Times, approval and version ----

  function ApprovingAs(id: Id, approval: Approval): Event -> bool {
    e => (Creates(e, id) && e.draft.approval == Some(approval)) || (e.Approve? && e.id == id && e.approval == approval)
  }

  /** The writes about an operation that were accepted. */
  ghost function Writes(start: Time, events: seq<Event>, id: Id): nat {
    if events == [] then 0
    else
      var n := |events| - 1;
      Writes(start, events[..n], id) + if AcceptedAt(start, events, n) && Subject(events[n]) == id then 1 else 0
  }

  /** At this point the operation ended: by its executor, or by being cancelled without ever having been claimed. */
  ghost predicate EndsAt(start: Time, events: seq<Event>, i: nat, id: Id)
    requires i < |events|
  {
    && AcceptedAt(start, events, i)
    && ((exists final :: Finishes(events[i], id, final))
        || (Cancels(events[i], id) && !Happened(start, events[..i], Claiming(id))))
  }

  ghost predicate EndedAt(start: Time, events: seq<Event>, id: Id, at: Time) {
    exists i :: 0 <= i < |events| && EndsAt(start, events, i, id) && TimeOf(events[i]) == at
  }

  lemma EndedOneMore(start: Time, events: seq<Event>, id: Id, at: Time)
    requires events != []
    ensures var n := |events| - 1;
      EndedAt(start, events, id, at)
      <==> EndedAt(start, events[..n], id, at) || (EndsAt(start, events, n, id) && TimeOf(events[n]) == at)
  {
    var n := |events| - 1;
    if i :| 0 <= i < n && EndsAt(start, events[..n], i, id) && TimeOf(events[..n][i]) == at {
      SameUpTo(start, events, n, i);
      assert EndsAt(start, events, i, id);
    }
    if i :| 0 <= i < |events| && EndsAt(start, events, i, id) && TimeOf(events[i]) == at {
      if i < n {
        SameUpTo(start, events, n, i);
        assert EndsAt(start, events[..n], i, id);
      }
    }
  }

  /** The times of an operation are those of its first claim, its first cancellation, its approval and its end. */
  ghost predicate TimesTell(start: Time, events: seq<Event>, id: Id, at: Time) {
    var rows := Run(start, events).rows;
    && ((id in rows && rows[id].startedAt == Some(at)) <==> FirstHappened(start, events, Claiming(id), at))
    && ((id in rows && rows[id].cancelRequestedAt == Some(at)) <==> FirstHappened(start, events, Cancelling(id), at))
    && ((id in rows && rows[id].approvedAt == Some(at)) <==> FirstHappened(start, events, Approving(id), at))
    && ((id in rows && rows[id].finishedAt == Some(at)) <==> EndedAt(start, events, id, at))
  }

  /** Each time is there exactly if what it is the time of has happened. */
  ghost predicate TimesAreThere(rows: Rows, id: Id, p: Past) {
    id in rows ==>
      && (rows[id].startedAt.Some? <==> p.claimed) && (rows[id].cancelRequestedAt.Some? <==> p.cancelled)
      && (rows[id].approvedAt.Some? <==> p.approved)
      && (rows[id].finishedAt.Some? <==> rows[id].state.Terminal())
  }

  lemma TimesThereStep(rows: Rows, e: Event, id: Id, p: Past)
    requires StateTells(rows, id, p) && TimesAreThere(rows, id, p)
    ensures TimesAreThere(After(rows, e), id, PastAfter(p, e, Accepts(rows, e), id))
  {
    match e
    case Create(d) =>
    case Approve(_, _, _) =>
    case Cancel(_, _) =>
    case Claim(_, _, _, _) =>
    case Record(_, _, _, _, _, _) =>
  }

  lemma {:induction false} TimesThere(start: Time, events: seq<Event>, id: Id)
    ensures TimesAreThere(Run(start, events).rows, id, PastOf(start, events, id))
  {
    if events == [] {
    } else {
      var n := |events| - 1;
      TimesThere(start, events[..n], id);
      StateTellsHistory(start, events[..n], id);
      PastOneMore(start, events, id);
      TimesThereStep(Run(start, events[..n]).rows, events[n], id, PastOf(start, events[..n], id));
    }
  }

  /** How one write moves the times. */
  lemma TimesStep(rows: Rows, e: Event, id: Id, p: Past, at: Time)
    requires StateTells(rows, id, p) && TimesAreThere(rows, id, p)
    ensures var after := After(rows, e);
      var now := Accepts(rows, e) && TimeOf(e) == at;
      && ((id in after && after[id].startedAt == Some(at)) <==>
            (id in rows && rows[id].startedAt == Some(at)) || (now && !p.claimed && Claims(e, id)))
      && ((id in after && after[id].cancelRequestedAt == Some(at)) <==>
            (id in rows && rows[id].cancelRequestedAt == Some(at)) || (now && !p.cancelled && Cancels(e, id)))
      && ((id in after && after[id].approvedAt == Some(at)) <==>
            (id in rows && rows[id].approvedAt == Some(at)) || (now && !p.approved && Approves(e, id)))
      && ((id in after && after[id].finishedAt == Some(at)) <==>
            (id in rows && rows[id].finishedAt == Some(at))
            || (now && ((exists final :: Finishes(e, id, final)) || (Cancels(e, id) && !p.claimed))))
  {
    match e
    case Create(d) =>
    case Approve(_, _, _) =>
    case Cancel(_, _) =>
    case Claim(_, _, _, _) =>
    case Record(_, _, _, _, _, options) =>
      if options.final.Some? { assert Finishes(e, e.id, options.final.value); }
  }

  lemma {:induction false} TimesTellHistory(start: Time, events: seq<Event>, id: Id, at: Time)
    ensures TimesTell(start, events, id, at)
  {
    if events == [] {
    } else {
      var n := |events| - 1;
      TimesTellHistory(start, events[..n], id, at);
      StateTellsHistory(start, events[..n], id);
      TimesThere(start, events[..n], id);
      FirstHappenedOneMore(start, events, Claiming(id), at);
      FirstHappenedOneMore(start, events, Cancelling(id), at);
      FirstHappenedOneMore(start, events, Approving(id), at);
      EndedOneMore(start, events, id, at);
      TimesStep(Run(start, events[..n]).rows, events[n], id, PastOf(start, events[..n], id), at);
    }
  }

  /** The version counts the accepted writes, and the approval is that of the write that approved. */
  lemma {:induction false} VersionTellsHistory(start: Time, events: seq<Event>, id: Id, approval: Approval)
    ensures var rows := Run(start, events).rows;
      && Writes(start, events, id) == (if id in rows then rows[id].version else 0)
      && ((id in rows && rows[id].approval == Some(approval))
          <==> Happened(start, events, ApprovingAs(id, approval)))
  {
    if events == [] {
    } else {
      var n := |events| - 1;
      VersionTellsHistory(start, events[..n], id, approval);
      StateTellsHistory(start, events[..n], id);
      HappenedOneMore(start, events, ApprovingAs(id, approval));
      ApprovedAsIsApproved(start, events[..n], id, approval);
    }
  }

  lemma ApprovedAsIsApproved(start: Time, events: seq<Event>, id: Id, approval: Approval)
    ensures Happened(start, events, ApprovingAs(id, approval)) ==> Happened(start, events, Approving(id))
  {
  }
}
