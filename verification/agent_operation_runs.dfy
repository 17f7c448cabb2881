/**
 Every run of the lease protocol: any number of executors, in any order, each seeing only what its own statements
 returned. What the calling service must keep to is `Lawful`.
 */
module AgentOperationRuns {
  import opened Sequences
  import opened Wrappers
  import opened AgentOperations

  /** What an executor last saw of the operation it claimed. */
  datatype Seen = Seen(id: Id, nextIndex: nat)

  datatype World = World(rows: Rows, seen: map<Token, Seen>, claimed: set<Token>, now: Time)

  function TimeOf(e: Event): Time {
    match e
    case Create(d) => d.frozen.createdAt
    case _ => e.at
  }

  ghost predicate IsChunk(results: seq<Outcome>, start: nat) {
    forall k :: 0 <= k < |results| ==> results[k].index == start + k
  }

  /**
   The contract of the service. Its clock does not run backwards, every claim draws a new lease token, and a chunk
   continues what its executor last saw: the results are those of the following targets, `nextIndex` is past them, and
   an operation is completed, or cancelled while executing, only with a result for every target.
   */
  ghost predicate Lawful(w: World, e: Event) {
    && w.now <= TimeOf(e)
    && match e
       case Create(_) => true
       case Approve(_, _, _) => true
       case Cancel(_, _) => true
       case Claim(_, owner, _, _) => owner !in w.claimed
       case Record(id, owner, results, nextIndex, _, options) =>
         && owner in w.seen && w.seen[owner].id == id && id in w.rows
         && IsChunk(results, w.seen[owner].nextIndex)
         && nextIndex == w.seen[owner].nextIndex + |results| <= |w.rows[id].frozen.targets|
         && (options.final.Some? && !options.final.value.ToFailed? ==> nextIndex == |w.rows[id].frozen.targets|)
  }

  function Step(w: World, e: Event): World {
    var rows := After(w.rows, e);
    World(
      rows,
      if Accepts(w.rows, e) && (e.Claim? || e.Record?) then w.seen[e.owner := Seen(e.id, rows[e.id].nextIndex)]
      else w.seen,
      if e.Claim? then w.claimed + {e.owner} else w.claimed,
      TimeOf(e))
  }

  function Run(start: Time, events: seq<Event>): World {
    if events == [] then World(map[], map[], {}, start)
    else Step(Run(start, events[..|events| - 1]), events[|events| - 1])
  }

  /** Every write of the run keeps to the contract at the point where it is made. */
  ghost predicate LawfulRun(start: Time, events: seq<Event>) {
    if events == [] then true
    else
      var n := |events| - 1;
      LawfulRun(start, events[..n]) && Lawful(Run(start, events[..n]), events[n])
  }

  lemma RunSnoc(start: Time, events: seq<Event>, i: nat)
    requires i < |events|
    ensures Run(start, events[..i + 1]) == Step(Run(start, events[..i]), events[i])
  {
    Shorter(events, i + 1, i);
  }

  lemma {:induction false} LawfulPrefix(start: Time, events: seq<Event>, k: nat)
    requires k <= |events| && LawfulRun(start, events)
    ensures LawfulRun(start, events[..k])
    decreases |events|
  {
    Shorter(events, |events|, k);
    if k < |events| {
      Shorter(events, |events| - 1, k);
      LawfulPrefix(start, events[..|events| - 1], k);
    }
  }

  // ---- What every row keeps ----

  ghost predicate RowSafe(row: OperationRow, now: Time) {
    && 1 <= |row.frozen.targets| <= MAX_TARGETS
    && |row.results| == row.nextIndex <= |row.frozen.targets| && IsChunk(row.results, 0)
    && (row.lease.Some? ==> row.state.Executing?)
    && (row.approval.Some? <==> row.approvedAt.Some?)
    && (row.approvedAt.Some? ==> row.approvedAt.value <= now)
    && (row.startedAt.Some? ==> row.approvedAt.Some? && row.approvedAt.value <= row.startedAt.value)
    && (row.finishedAt.Some? <==> row.state.Terminal())
    && match row.state
       case Prepared => row.approval.None? && row.startedAt.None? && row.nextIndex == 0 && row.cancelRequestedAt.None?
       case Approved => row.approval.Some? && row.startedAt.None? && row.nextIndex == 0 && row.cancelRequestedAt.None?
       case Executing => row.startedAt.Some?
       case Completed => row.startedAt.Some? && row.nextIndex == |row.frozen.targets|
       case Failed => row.startedAt.Some?
       case Cancelled =>
         if row.startedAt.Some? then row.nextIndex == |row.frozen.targets|
         else row.nextIndex == 0 && row.cancelRequestedAt.Some?
  }

  /** The holder of a lease has seen exactly the progress that is stored. */
  ghost predicate HolderIsCurrent(w: World, id: Id)
    requires id in w.rows
  {
    var row := w.rows[id];
    row.lease.Some? ==> row.lease.value.owner in w.seen && w.seen[row.lease.value.owner] == Seen(id, row.nextIndex)
  }

  ghost predicate Safe(w: World) {
    && (forall id :: id in w.rows ==> RowSafe(w.rows[id], w.now) && HolderIsCurrent(w, id))
    && (forall token :: token in w.seen ==> token in w.claimed)
    && (forall i, j :: i in w.rows && j in w.rows && i != j ==>
          || w.rows[i].frozen.principal != w.rows[j].frozen.principal
          || w.rows[i].frozen.requestId != w.rows[j].frozen.requestId)
  }

  lemma WrittenIsSafe(w: World, e: Event)
    requires Safe(w) && Lawful(w, e) && Accepts(w.rows, e)
    ensures RowSafe(Written(w.rows, e), TimeOf(e))
  {
    if e.Record? {
      var row := w.rows[e.id];
      assert HolderIsCurrent(w, e.id);
      assert e.nextIndex == row.nextIndex + |e.results|;
      forall k | 0 <= k < |row.results + e.results| ensures (row.results + e.results)[k].index == k {
        assert k >= |row.results| ==> (row.results + e.results)[k] == e.results[k - |row.results|];
      }
    }
  }

  lemma HolderStaysCurrent(w: World, e: Event, id: Id)
    requires Safe(w) && Lawful(w, e) && id in Step(w, e).rows
    ensures HolderIsCurrent(Step(w, e), id)
  {
    if id in w.rows { assert HolderIsCurrent(w, id); }
  }

  lemma RequestsStayUnique(w: World, e: Event)
    requires Safe(w)
    ensures var rows := After(w.rows, e); forall i, j :: i in rows && j in rows && i != j ==>
      rows[i].frozen.principal != rows[j].frozen.principal || rows[i].frozen.requestId != rows[j].frozen.requestId
  {
  }

  lemma StepIsSafe(w: World, e: Event)
    requires Safe(w) && Lawful(w, e)
    ensures Safe(Step(w, e))
  {
    var w' := Step(w, e);
    if Accepts(w.rows, e) { WrittenIsSafe(w, e); }
    RequestsStayUnique(w, e);
    forall id | id in w'.rows ensures RowSafe(w'.rows[id], w'.now) && HolderIsCurrent(w', id) {
      HolderStaysCurrent(w, e, id);
      RowStaysSafe(w, e, id);
    }
  }

  lemma RowStaysSafe(w: World, e: Event, id: Id)
    requires Safe(w) && Lawful(w, e) && id in Step(w, e).rows
    requires Accepts(w.rows, e) ==> RowSafe(Written(w.rows, e), TimeOf(e))
    ensures RowSafe(Step(w, e).rows[id], TimeOf(e))
  {
    if !(Accepts(w.rows, e) && id == Subject(e)) { assert RowSafe(w.rows[id], w.now); }
  }

  /** In every lawful run the results are gap-free, progress stays within the targets, and the states are coupled. */
  lemma {:induction false} RunsAreSafe(start: Time, events: seq<Event>)
    requires LawfulRun(start, events)
    ensures Safe(Run(start, events))
  {
    if events == [] {
    } else {
      var n := |events| - 1;
      RunsAreSafe(start, events[..n]);
      StepIsSafe(Run(start, events[..n]), events[n]);
    }
  }

  /** In every run, lawful or not, what an operation undoes is an operation. */
  lemma {:induction false} UndoneOperationsExist(start: Time, events: seq<Event>, id: Id)
    requires id in Run(start, events).rows && Run(start, events).rows[id].frozen.undoOf.Some?
    ensures Run(start, events).rows[id].frozen.undoOf.value in Run(start, events).rows
  {
    var n := |events| - 1;
    if id in Run(start, events[..n]).rows { UndoneOperationsExist(start, events[..n], id); }
  }

  // ---- Results ----

  ghost predicate AcceptedAt(start: Time, events: seq<Event>, i: nat)
    requires i < |events|
  {
    Accepts(Run(start, events[..i]).rows, events[i])
  }

  /** The chunks accepted for an operation, one after another. */
  ghost function Chunks(start: Time, events: seq<Event>, id: Id): seq<Outcome> {
    if events == [] then []
    else
      var n := |events| - 1;
      Chunks(start, events[..n], id)
      + (if events[n].Record? && events[n].id == id && AcceptedAt(start, events, n) then events[n].results else [])
  }

  /** What is stored as results is exactly the accepted chunks, in order: none is lost, repeated or altered. */
  lemma {:induction false} ResultsAreTheAcceptedChunks(start: Time, events: seq<Event>, id: Id)
    ensures var rows := Run(start, events).rows;
      Chunks(start, events, id) == if id in rows then rows[id].results else []
  {
    if events != [] {
      var n := |events| - 1;
      ResultsAreTheAcceptedChunks(start, events[..n], id);
      var rows, e := Run(start, events[..n]).rows, events[n];
      if id in rows { assert rows[id].results + [] == rows[id].results; }
    }
  }

  // ---- Fencing ----

  /** At this point an executor was granted the lease of an operation until some time, by claiming or by recording. */
  ghost predicate GrantedAt(start: Time, events: seq<Event>, j: nat, id: Id, lease: Lease)
    requires j < |events|
  {
    AcceptedAt(start, events, j) && Grants(events[j], id, lease)
  }

  predicate Grants(e: Event, id: Id, lease: Lease) {
    match e
    case Claim(i, owner, at, leaseMs) => i == id && lease == Lease(owner, at + leaseMs)
    case Record(i, owner, _, _, at, options) =>
      i == id && !options.release && options.final.None? && lease == Lease(owner, at + options.leaseMs)
    case _ => false
  }

  /** At this point some executor claimed the operation or recorded on it. */
  ghost predicate TakenAt(start: Time, events: seq<Event>, k: nat, id: Id)
    requires k < |events|
  {
    AcceptedAt(start, events, k) && (events[k].Claim? || events[k].Record?) && events[k].id == id
  }

  /** The lease granted at `j` is the last word on the operation: nobody claimed or recorded since. */
  ghost predicate StandsFrom(start: Time, events: seq<Event>, j: nat, id: Id, lease: Lease)
    requires j < |events|
  {
    && GrantedAt(start, events, j, id, lease)
    && forall k :: j < k < |events| ==> !TakenAt(start, events, k, id)
  }

  ghost predicate Stands(start: Time, events: seq<Event>, id: Id, lease: Lease) {
    exists j :: 0 <= j < |events| && StandsFrom(start, events, j, id, lease)
  }

  lemma SameUpTo(start: Time, events: seq<Event>, n: nat, j: nat)
    requires j < n <= |events|
    ensures events[..n][..j] == events[..j] && events[..n][j] == events[j]
    ensures AcceptedAt(start, events[..n], j) == AcceptedAt(start, events, j)
  {
  }

  lemma StandsOneMore(start: Time, events: seq<Event>, id: Id, lease: Lease)
    requires events != []
    ensures var n := |events| - 1;
      Stands(start, events, id, lease) <==>
        GrantedAt(start, events, n, id, lease)
        || (Stands(start, events[..n], id, lease) && !TakenAt(start, events, n, id))
  {
    var n := |events| - 1;
    if GrantedAt(start, events, n, id, lease) { assert StandsFrom(start, events, n, id, lease); }
    if Stands(start, events[..n], id, lease) && !TakenAt(start, events, n, id) {
      var j :| 0 <= j < n && StandsFrom(start, events[..n], j, id, lease);
      forall k | j <= k < n ensures TakenAt(start, events[..n], k, id) <==> TakenAt(start, events, k, id) {
        SameUpTo(start, events, n, k);
      }
      SameUpTo(start, events, n, j);
      assert StandsFrom(start, events, j, id, lease);
    }
    if Stands(start, events, id, lease) {
      var j :| 0 <= j < |events| && StandsFrom(start, events, j, id, lease);
      if j < n {
        forall k | j <= k < n ensures TakenAt(start, events[..n], k, id) <==> TakenAt(start, events, k, id) {
          SameUpTo(start, events, n, k);
        }
        SameUpTo(start, events, n, j);
        assert StandsFrom(start, events[..n], j, id, lease);
      }
    }
  }

  /** The stored lease is exactly the granted lease that stands. */
  lemma {:induction false} LeaseStands(start: Time, events: seq<Event>, id: Id, lease: Lease)
    requires LawfulRun(start, events)
    ensures var rows := Run(start, events).rows;
      (id in rows && rows[id].lease == Some(lease)) <==> Stands(start, events, id, lease)
  {
    if events != [] {
      var n := |events| - 1;
      LeaseStands(start, events[..n], id, lease);
      RunsAreSafe(start, events[..n]);
      StandsOneMore(start, events, id, lease);
      var w := Run(start, events[..n]);
      if id in w.rows { assert RowSafe(w.rows[id], w.now); }
      LeaseOneMore(w.rows, events[n], id, lease);
    }
  }

  lemma LeaseOneMore(rows: Rows, e: Event, id: Id, lease: Lease)
    requires id in rows && rows[id].lease.Some? ==> rows[id].state.Executing?
    ensures (id in After(rows, e) && After(rows, e)[id].lease == Some(lease)) <==>
      (Accepts(rows, e) && Grants(e, id, lease))
      || (id in rows && rows[id].lease == Some(lease)
          && !(Accepts(rows, e) && (e.Claim? || e.Record?) && e.id == id))
  {
    match e
    case Create(d) =>
    case Approve(_, _, _) =>
    case Cancel(_, _) =>
    case Claim(_, _, _, _) =>
    case Record(_, _, _, _, _, _) =>
  }

  /**
   Lease fencing, both ways: a chunk is accepted exactly when its executor's last success on the operation granted a
   lease that has not run out, and nobody has claimed the operation or recorded on it since.
   */
  lemma RecordsAreFenced(start: Time, events: seq<Event>, id: Id, owner: Token, at: Time)
    requires LawfulRun(start, events)
    ensures MayRecord(Run(start, events).rows, id, owner, at)
      <==> exists until: Time :: Stands(start, events, id, Lease(owner, until)) && at < until
  {
    var rows := Run(start, events).rows;
    RunsAreSafe(start, events);
    if MayRecord(rows, id, owner, at) {
      var lease := rows[id].lease.value;
      LeaseStands(start, events, id, lease);
      assert Stands(start, events, id, Lease(owner, lease.expiresAt));
    }
    if until: Time :| Stands(start, events, id, Lease(owner, until)) && at < until {
      LeaseStands(start, events, id, Lease(owner, until));
      assert RowSafe(rows[id], Run(start, events).now);
    }
  }

  /** Another executor claimed the operation at `k`, after this one had claimed something. */
  ghost predicate TakenOver(start: Time, events: seq<Event>, k: nat, id: Id, owner: Token)
    requires k < |events|
  {
    && AcceptedAt(start, events, k) && events[k].Claim? && events[k].id == id && events[k].owner != owner
    && owner in Run(start, events[..k]).claimed
  }

  lemma SameTakeover(start: Time, events: seq<Event>, n: nat, k: nat, id: Id, owner: Token)
    requires k < n <= |events|
    ensures TakenOver(start, events[..n], k, id, owner) <==> TakenOver(start, events, k, id, owner)
  {
    SameUpTo(start, events, n, k);
  }

  ghost predicate IsStale(w: World, id: Id, owner: Token) {
    id in w.rows && owner in w.claimed && (w.rows[id].lease.Some? ==> w.rows[id].lease.value.owner != owner)
  }

  lemma {:induction false} StaleStaysStale(start: Time, events: seq<Event>, k: nat, id: Id, owner: Token)
    requires LawfulRun(start, events) && k < |events| && TakenOver(start, events, k, id, owner)
    ensures IsStale(Run(start, events), id, owner)
    decreases |events|
  {
    var n := |events| - 1;
    if k < n {
      SameTakeover(start, events, n, k, id, owner);
      StaleStaysStale(start, events[..n], k, id, owner);
      StaleAcrossStep(Run(start, events[..n]), events[n], id, owner);
    } else {
      StaleOnceTaken(Run(start, events[..n]), events[n], id, owner);
    }
  }

  lemma StaleOnceTaken(w: World, e: Event, id: Id, owner: Token)
    requires Accepts(w.rows, e) && e.Claim? && e.id == id && e.owner != owner && owner in w.claimed
    ensures IsStale(Step(w, e), id, owner)
  {
  }

  lemma StaleAcrossStep(w: World, e: Event, id: Id, owner: Token)
    requires Lawful(w, e) && IsStale(w, id, owner)
    ensures IsStale(Step(w, e), id, owner)
  {
    match e
    case Create(d) =>
    case Approve(_, _, _) =>
    case Cancel(_, _) =>
    case Claim(_, _, _, _) =>
    case Record(_, _, _, _, _, _) =>
  }

  /** A stale executor has no effect: once another has claimed the operation, nothing it records is ever accepted. */
  lemma StaleExecutorsHaveNoEffect(start: Time, events: seq<Event>, k: nat, i: nat, id: Id, owner: Token)
    requires LawfulRun(start, events) && k < i < |events| && TakenOver(start, events, k, id, owner)
    requires events[i].Record? && events[i].id == id && events[i].owner == owner
    ensures Run(start, events[..i + 1]).rows == Run(start, events[..i]).rows
  {
    LawfulPrefix(start, events, i);
    SameTakeover(start, events, i, k, id, owner);
    StaleStaysStale(start, events[..i], k, id, owner);
    RunSnoc(start, events, i);
    Refused(Run(start, events[..i]).rows, events[i]);
  }

  lemma Refused(rows: Rows, e: Event)
    requires e.Record? && e.id in rows && (rows[e.id].lease.Some? ==> rows[e.id].lease.value.owner != e.owner)
    ensures After(rows, e) == rows
  {
  }

  // ---- What the passing of time does to a row ----

  /** A row and the same row later: its frozen part stays, a terminal row is final, any change raises the version. */
  ghost predicate Becomes(row: OperationRow, row': OperationRow) {
    && row'.frozen == row.frozen
    && row.results <= row'.results && row.nextIndex <= row'.nextIndex
    && (row.approvedAt.Some? ==> row'.approvedAt == row.approvedAt && row'.approval == row.approval)
    && (row.startedAt.Some? ==> row'.startedAt == row.startedAt)
    && (row.cancelRequestedAt.Some? ==> row'.cancelRequestedAt == row.cancelRequestedAt)
    && (row.state.Terminal() ==> row' == row)
    && (row'.state.Prepared? ==> row.state.Prepared?)
    && (row'.state.Approved? ==> row.state.Prepared? || row.state.Approved?)
    && row.version <= row'.version && (row.version == row'.version ==> row' == row)
  }

  lemma RowBecomes(w: World, e: Event, id: Id)
    requires Safe(w) && Lawful(w, e) && id in w.rows
    ensures id in Step(w, e).rows && Becomes(w.rows[id], Step(w, e).rows[id])
  {
    assert RowSafe(w.rows[id], w.now) && HolderIsCurrent(w, id);
    if Accepts(w.rows, e) && Subject(e) == id { WrittenBecomes(w, e); }
  }

  lemma WrittenBecomes(w: World, e: Event)
    requires Accepts(w.rows, e) && Lawful(w, e) && Subject(e) in w.rows
    requires RowSafe(w.rows[Subject(e)], w.now) && HolderIsCurrent(w, Subject(e))
    ensures Becomes(w.rows[Subject(e)], Written(w.rows, e))
  {
  }

  lemma BecomesChains(a: OperationRow, b: OperationRow, c: OperationRow)
    requires Becomes(a, b) && Becomes(b, c)
    ensures Becomes(a, c)
  {
  }

  /**
   Over any stretch of a run a stored operation keeps its targets, fingerprint and request; its results and its progress
   only grow; its approval and its start, once recorded, stay; a terminal operation never changes again; and whatever
   changes it raises its version, so that two readings with one version are equal.
   */
  lemma {:induction false} RowsOnlyMoveForward(start: Time, events: seq<Event>, k: nat, id: Id)
    requires LawfulRun(start, events) && k <= |events| && id in Run(start, events[..k]).rows
    ensures id in Run(start, events).rows
    ensures Becomes(Run(start, events[..k]).rows[id], Run(start, events).rows[id])
    decreases |events|
  {
    Shorter(events, |events|, k);
    if k < |events| {
      var n := |events| - 1;
      Shorter(events, n, k);
      RowsOnlyMoveForward(start, events[..n], k, id);
      RunsAreSafe(start, events[..n]);
      OneStepForward(Run(start, events[..n]), events[n], id, Run(start, events[..k]).rows[id]);
    }
  }

  lemma OneStepForward(w: World, e: Event, id: Id, row: OperationRow)
    requires Safe(w) && Lawful(w, e) && id in w.rows && Becomes(row, w.rows[id])
    ensures id in Step(w, e).rows && Becomes(row, Step(w, e).rows[id])
  {
    RowBecomes(w, e, id);
    BecomesChains(row, w.rows[id], Step(w, e).rows[id]);
  }

  // ---- Approval ----

  /** The operation was created approved, or approved while it was prepared and had not expired. */
  ghost predicate ApprovedBy(e: Event, rows: Rows, id: Id) {
    || (e.Create? && e.draft.id == id && e.draft.approval.Some?)
    || (e.Approve? && e.id == id && id in rows && rows[id].state.Prepared? && e.at < rows[id].frozen.expiresAt)
  }

  ghost predicate WasApproved(start: Time, events: seq<Event>, id: Id) {
    exists i :: 0 <= i < |events| && ApprovesAt(start, events, i, id)
  }

  ghost predicate ApprovesAt(start: Time, events: seq<Event>, i: nat, id: Id)
    requires i < |events|
  {
    AcceptedAt(start, events, i) && ApprovedBy(events[i], Run(start, events[..i]).rows, id)
  }

  lemma SameApproval(start: Time, events: seq<Event>, n: nat, i: nat, id: Id)
    requires i < n <= |events|
    ensures ApprovesAt(start, events[..n], i, id) <==> ApprovesAt(start, events, i, id)
  {
    SameUpTo(start, events, n, i);
  }

  lemma WasApprovedOneMore(start: Time, events: seq<Event>, id: Id)
    requires events != []
    ensures var n := |events| - 1;
      WasApproved(start, events, id) <==> WasApproved(start, events[..n], id) || ApprovesAt(start, events, n, id)
  {
    var n := |events| - 1;
    if WasApproved(start, events[..n], id) {
      var i :| 0 <= i < n && ApprovesAt(start, events[..n], i, id);
      SameApproval(start, events, n, i, id);
    }
    if WasApproved(start, events, id) {
      var i :| 0 <= i < |events| && ApprovesAt(start, events, i, id);
      if i < n { SameApproval(start, events, n, i, id); }
    }
  }

  lemma ApprovalOneMore(w: World, e: Event, id: Id)
    requires Safe(w)
    ensures var rows := After(w.rows, e);
      (id in rows && rows[id].approval.Some?) <==>
        (id in w.rows && w.rows[id].approval.Some?) || (Accepts(w.rows, e) && ApprovedBy(e, w.rows, id))
  {
    if id in w.rows { assert RowSafe(w.rows[id], w.now); }
    match e
    case Create(d) =>
    case Approve(_, _, _) =>
    case Cancel(_, _) =>
    case Claim(_, _, _, _) =>
    case Record(_, _, _, _, _, _) =>
  }

  lemma {:induction false} ApprovalIsRecorded(start: Time, events: seq<Event>, id: Id)
    requires LawfulRun(start, events)
    ensures var rows := Run(start, events).rows;
      (id in rows && rows[id].approval.Some?) <==> WasApproved(start, events, id)
  {
    if events != [] {
      var n := |events| - 1;
      ApprovalIsRecorded(start, events[..n], id);
      RunsAreSafe(start, events[..n]);
      WasApprovedOneMore(start, events, id);
      ApprovalOneMore(Run(start, events[..n]), events[n], id);
    }
  }

  /** Approval precedes execution: an operation that has started was approved by an earlier, accepted write. */
  lemma ApprovalPrecedesExecution(start: Time, events: seq<Event>, id: Id)
    requires LawfulRun(start, events) && id in Run(start, events).rows
    ensures Run(start, events).rows[id].approval.Some? <==> WasApproved(start, events, id)
    ensures Run(start, events).rows[id].startedAt.Some? ==> WasApproved(start, events, id)
  {
    RunsAreSafe(start, events);
    assert RowSafe(Run(start, events).rows[id], Run(start, events).now);
    ApprovalIsRecorded(start, events, id);
  }
}
