/**
 Every interleaving of resumes with the other writes: at most one of them is granted, and what it grants is what the
 human consented to.
 */
module ConnectionResumeRuns {
  import opened Sequences
  import opened Wrappers
  import opened ConnectionConsents
  import opened ConnectionResume

  datatype World = World(tables: Tables, stages: map<RunId, Stage>, issued: set<GrantId>, now: Time)

  datatype Event =
    | Open(uid: Uid, enforced: Enforced)
    | Arm(uid: Uid, armed: Armed)
    | Decide(uid: Uid, deciding: Deciding)
    | Move(connection: ConnectionId, moved: Connection)
    | Wait(until: Time)
    | Begin(run: RunId, uid: Uid, interaction: Option<Interaction>)
    | Advance(run: RunId, newId: GrantId)

  /** The clock does not run backwards, a resume begins once, and the provider never saves two grants under one id. */
  ghost predicate Lawful(w: World, e: Event) {
    match e
    case Move(id, moved) => MayMove(w.tables, id, moved)
    case Wait(until) => w.now <= until
    case Begin(run, _, _) => run !in w.stages
    case Advance(run, newId) => run in w.stages && (w.stages[run].ReadConnection? ==> newId !in w.issued)
    case _ => true
  }

  function Step(w: World, e: Event): World {
    var t := w.tables;
    match e
    case Open(uid, enforced) =>
      if MayOpen(t, uid, enforced, w.now) then w.(tables := t.(consents := t.consents[uid := Opened(enforced, w.now)]))
      else w
    case Arm(uid, armed) =>
      if MayArm(t, uid, armed, w.now) then
        w.(tables := t.(consents := t.consents[uid := ArmedRow(t.consents[uid], armed)]))
      else w
    case Decide(uid, d) =>
      if MayDecide(t, uid, d, w.now) then
        w.(tables := t.(consents := t.consents[uid := DecidedRow(t.consents[uid], d, w.now)]))
      else w
    case Move(id, moved) => w.(tables := t.(connections := t.connections[id := moved]))
    case Wait(until) => w.(now := until)
    case Begin(run, uid, interaction) => w.(stages := w.stages[run := Began(uid, interaction)])
    case Advance(run, newId) =>
      if run !in w.stages then w
      else
        var (t', s') := Next(t, w.stages[run], newId, w.now);
        World(t', w.stages[run := s'], if w.stages[run].ReadConnection? then w.issued + {newId} else w.issued, w.now)
  }

  // ---- The invariant ----

  /** A stored row as a resume read it: only being spent may have been added since. */
  predicate IsCopyOf(copy: Attributed, row: Consent) {
    && copy == row.(resumedAt := None, grantId := None)
    && copy.decision == Some(Approve)
  }

  ghost predicate StageSafe(w: World, s: Stage) {
    && (HasCopy(s) ==>
          && s.copy.enforced.capabilities == [READ] && s.copy.enforced.preset.ReadOnly?
          && s.uid in w.tables.consents && IsCopyOf(s.copy, w.tables.consents[s.uid])
          && s.copy.connection.value in w.tables.connections)
    && (HasGrantId(s) ==> s.grantId in w.issued)
    && (s.Saved? ==> s.grantId !in w.tables.grants)
    && (s.Recorded? || s.Pointed? || s.Granted? ==>
          s.grantId in w.tables.grants && w.tables.grants[s.grantId] == SnapshotOf(s.copy))
    && (s.Granted? ==> w.tables.consents[s.uid].resumedAt.Some? && w.tables.consents[s.uid].grantId == Some(s.grantId))
  }

  ghost predicate GrantIdsApart(w: World) {
    forall a, b :: a in w.stages && b in w.stages && a != b && HasGrantId(w.stages[a]) && HasGrantId(w.stages[b]) ==>
      w.stages[a].grantId != w.stages[b].grantId
  }

  /** A spent consent was spent by a resume that was granted. */
  ghost predicate SpentByRun(w: World, uid: Uid)
    requires uid in w.tables.consents
  {
    var row := w.tables.consents[uid];
    row.resumedAt.Some? ==> row.grantId.Some? && WasGranted(w, uid, row.grantId.value)
  }

  ghost predicate WasGranted(w: World, uid: Uid, grantId: GrantId) {
    exists run :: run in w.stages && IsGrantedStage(w.stages[run], uid, grantId)
  }

  predicate IsGrantedStage(s: Stage, uid: Uid, grantId: GrantId) {
    s.Granted? && s.uid == uid && s.grantId == grantId
  }

  ghost predicate RowSafe(row: Consent, now: Time) {
    && Parses(row) && row.enforced.preset.ReadOnly? && row.enforced.issuedAt < row.enforced.expiresAt
    && (row.decidedAt.Some? ==> row.decidedAt.value < row.enforced.expiresAt)
    && (row.ticket.Some? <==> row.human.Some?) && (row.ticket.Some? <==> row.connection.Some?)
  }

  ghost predicate TicketsUnique(t: Tables) {
    forall a, b :: a in t.consents && b in t.consents && a != b && t.consents[a].ticket.Some? ==>
      t.consents[a].ticket != t.consents[b].ticket
  }

  ghost predicate Sound(w: World) {
    && (forall uid :: uid in w.tables.consents ==>
          && RowSafe(w.tables.consents[uid], w.now) && SpentByRun(w, uid)
          && (w.tables.consents[uid].connection.Some? ==>
                w.tables.consents[uid].connection.value in w.tables.connections))
    && (forall run :: run in w.stages ==> StageSafe(w, w.stages[run]))
    && GrantIdsApart(w)
    && TicketsUnique(w.tables)
    && (forall g :: g in w.tables.grants ==> g in w.issued)
  }

  // ---- One step keeps it ----

  /** A write to one consent row: what the other rows and the resumes rely on. */
  lemma ConsentWritten(w: World, uid: Uid, row: Consent)
    requires Sound(w) && RowSafe(row, w.now)
    requires row.connection.Some? ==> row.connection.value in w.tables.connections
    requires row.ticket.Some? ==> forall other :: other in w.tables.consents && other != uid ==>
      w.tables.consents[other].ticket != row.ticket
    requires row.resumedAt.None?
    requires uid in w.tables.consents ==> w.tables.consents[uid].decidedAt.None?
    ensures Sound(w.(tables := w.tables.(consents := w.tables.consents[uid := row])))
  {
    var w' := w.(tables := w.tables.(consents := w.tables.consents[uid := row]));
    forall run | run in w'.stages ensures StageSafe(w', w'.stages[run]) {
      assert StageSafe(w, w.stages[run]);
    }
    forall u | u in w'.tables.consents ensures SpentByRun(w', u) {
      if u != uid { assert SpentByRun(w, u); }
    }
  }

  lemma MoveIsSafe(w: World, id: ConnectionId, moved: Connection)
    requires Sound(w)
    ensures Sound(w.(tables := w.tables.(connections := w.tables.connections[id := moved])))
  {
    var w' := w.(tables := w.tables.(connections := w.tables.connections[id := moved]));
    forall run | run in w'.stages ensures StageSafe(w', w'.stages[run]) { assert StageSafe(w, w.stages[run]); }
    forall u | u in w'.tables.consents ensures SpentByRun(w', u) { assert SpentByRun(w, u); }
  }

  /** A step that leaves the tables alone. */
  lemma StageMoved(w: World, run: RunId, s': Stage, issued: set<GrantId>)
    requires Sound(w) && w.issued <= issued && StageSafe(w.(issued := issued), s')
    requires run in w.stages ==> !w.stages[run].Granted?
    requires HasGrantId(s') ==> forall other :: other in w.stages && other != run && HasGrantId(w.stages[other]) ==>
      w.stages[other].grantId != s'.grantId
    ensures Sound(w.(stages := w.stages[run := s'], issued := issued))
  {
    var w' := w.(stages := w.stages[run := s'], issued := issued);
    forall r | r in w'.stages ensures StageSafe(w', w'.stages[r]) {
      if r != run { assert StageSafe(w, w.stages[r]); }
    }
    forall u | u in w'.tables.consents ensures SpentByRun(w', u) {
      assert SpentByRun(w, u);
      StillGranted(w, w', u, run);
    }
  }

  lemma StillGranted(w: World, w': World, uid: Uid, run: RunId)
    requires forall r :: r in w.stages && w.stages[r].Granted? ==> r in w'.stages && w'.stages[r] == w.stages[r]
    ensures forall grantId :: WasGranted(w, uid, grantId) ==> WasGranted(w', uid, grantId)
  {
    forall grantId | WasGranted(w, uid, grantId) ensures WasGranted(w', uid, grantId) {
      var r :| r in w.stages && IsGrantedStage(w.stages[r], uid, grantId);
      assert w'.stages[r] == w.stages[r];
    }
  }

  lemma FreshIsApart(w: World, run: RunId, newId: GrantId)
    requires Sound(w) && newId !in w.issued
    ensures newId !in w.tables.grants
    ensures forall other :: other in w.stages && HasGrantId(w.stages[other]) ==> w.stages[other].grantId != newId
  {
    forall other | other in w.stages && HasGrantId(w.stages[other]) ensures w.stages[other].grantId != newId {
      assert StageSafe(w, w.stages[other]);
    }
  }

  /** The grant is written under an id no other resume holds. */
  lemma RecordedIsSafe(w: World, run: RunId)
    requires Sound(w) && run in w.stages && w.stages[run].Saved?
    ensures var s := w.stages[run];
      s.grantId !in w.tables.grants
      && Sound(w.(
           tables := w.tables.(grants := w.tables.grants[s.grantId := SnapshotOf(s.copy)]),
           stages := w.stages[run := Recorded(s.uid, s.copy, s.grantId)]))
  {
    var s := w.stages[run];
    assert StageSafe(w, s);
    var w' := w.(
      tables := w.tables.(grants := w.tables.grants[s.grantId := SnapshotOf(s.copy)]),
      stages := w.stages[run := Recorded(s.uid, s.copy, s.grantId)]);
    forall r | r in w'.stages ensures StageSafe(w', w'.stages[r]) {
      if r != run { assert StageSafe(w, w.stages[r]); }
    }
    forall u | u in w'.tables.consents ensures SpentByRun(w', u) {
      assert SpentByRun(w, u);
      StillGranted(w, w', u, run);
    }
  }

  lemma PointedIsSafe(w: World, run: RunId, id: ConnectionId, c: Connection)
    requires Sound(w) && run in w.stages && w.stages[run].Recorded? && id in w.tables.connections
    ensures var s := w.stages[run];
      Sound(w.(
        tables := w.tables.(connections := w.tables.connections[id := c]),
        stages := w.stages[run := Pointed(s.uid, s.copy, s.grantId)]))
  {
    var s := w.stages[run];
    var moved := w.(tables := w.tables.(connections := w.tables.connections[id := c]));
    MoveIsSafe(w, id, c);
    assert StageSafe(moved, s);
    StageMoved(moved, run, Pointed(s.uid, s.copy, s.grantId), moved.issued);
  }

  /** Being spent: the row was exactly the copy until now, and only this resume is granted for it. */
  lemma GrantedIsSafe(w: World, run: RunId)
    requires Sound(w) && run in w.stages && w.stages[run].Pointed? && MayResume(w.tables, w.stages[run].uid)
    ensures var s := w.stages[run];
      && w.tables.consents[s.uid] == s.copy
      && Sound(w.(
           tables := w.tables.(
             consents := w.tables.consents[s.uid := ResumedRow(w.tables.consents[s.uid], s.grantId, w.now)]),
           stages := w.stages[run := Granted(s.uid, s.copy, s.grantId)]))
  {
    var s := w.stages[run];
    assert StageSafe(w, s) && RowSafe(w.tables.consents[s.uid], w.now);
    var w' := w.(
      tables := w.tables.(
        consents := w.tables.consents[s.uid := ResumedRow(w.tables.consents[s.uid], s.grantId, w.now)]),
      stages := w.stages[run := Granted(s.uid, s.copy, s.grantId)]);
    forall r | r in w'.stages ensures StageSafe(w', w'.stages[r]) {
      if r != run { assert StageSafe(w, w.stages[r]); }
    }
    forall u | u in w'.tables.consents ensures SpentByRun(w', u) {
      if u == s.uid {
        assert IsGrantedStage(w'.stages[run], u, s.grantId);
      } else {
        assert SpentByRun(w, u);
        StillGranted(w, w', u, run);
      }
    }
  }

  lemma AdvanceIsSafe(w: World, run: RunId, newId: GrantId)
    requires Sound(w) && Lawful(w, Advance(run, newId))
    ensures Sound(Step(w, Advance(run, newId)))
  {
    var s := w.stages[run];
    assert StageSafe(w, s);
    var (t', s') := Next(w.tables, s, newId, w.now);
    match s
    case Began(uid, _) =>
      if s'.ReadConsent? { assert RowSafe(w.tables.consents[uid], w.now); }
      StageMoved(w, run, s', w.issued);
    case ReadConsent(_, _) => StageMoved(w, run, s', w.issued);
    case ReadConnection(_, _) =>
      FreshIsApart(w, run, newId);
      StageMoved(w, run, s', w.issued + {newId});
    case Saved(_, _, _) => RecordedIsSafe(w, run);
    case Recorded(_, copy, grantId) =>
      if s'.Pointed? {
        var id := copy.connection.value;
        PointedIsSafe(w, run, id, w.tables.connections[id].(currentGrant := Some(grantId)));
      } else {
        StageMoved(w, run, s', w.issued);
      }
    case Pointed(_, _, _) =>
      if s'.Granted? { GrantedIsSafe(w, run); } else { StageMoved(w, run, s', w.issued); }
    case Granted(_, _, _) => assert w.stages[run := s'] == w.stages;
    case Refused(_) => assert w.stages[run := s'] == w.stages;
  }

  lemma StepIsSound(w: World, e: Event)
    requires Sound(w) && Lawful(w, e)
    ensures Sound(Step(w, e))
  {
    match e
    case Open(uid, enforced) =>
      if MayOpen(w.tables, uid, enforced, w.now) { ConsentWritten(w, uid, Opened(enforced, w.now)); }
    case Arm(uid, armed) =>
      if MayArm(w.tables, uid, armed, w.now) {
        assert RowSafe(w.tables.consents[uid], w.now);
        ConsentWritten(w, uid, ArmedRow(w.tables.consents[uid], armed));
      }
    case Decide(uid, d) =>
      if MayDecide(w.tables, uid, d, w.now) {
        assert RowSafe(w.tables.consents[uid], w.now);
        ConsentWritten(w, uid, DecidedRow(w.tables.consents[uid], d, w.now));
      }
    case Move(id, moved) => MoveIsSafe(w, id, moved);
    case Wait(until) => WaitIsSafe(w, until);
    case Begin(run, uid, interaction) => StageMoved(w, run, Began(uid, interaction), w.issued);
    case Advance(run, newId) => AdvanceIsSafe(w, run, newId);
  }

  lemma WaitIsSafe(w: World, until: Time)
    requires Sound(w)
    ensures Sound(w.(now := until))
  {
    var w' := w.(now := until);
    forall run | run in w'.stages ensures StageSafe(w', w'.stages[run]) { assert StageSafe(w, w.stages[run]); }
    forall u | u in w'.tables.consents ensures SpentByRun(w', u) { assert SpentByRun(w, u); }
  }

  // ---- Runs ----

  function Run(start: Time, events: seq<Event>): World {
    if events == [] then World(Tables(map[], map[], map[]), map[], {}, start)
    else Step(Run(start, events[..|events| - 1]), events[|events| - 1])
  }

  ghost predicate LawfulRun(start: Time, events: seq<Event>) {
    if events == [] then true
    else
      var n := |events| - 1;
      LawfulRun(start, events[..n]) && Lawful(Run(start, events[..n]), events[n])
  }

  lemma {:induction false} InterleavingsAreSound(start: Time, events: seq<Event>)
    requires LawfulRun(start, events)
    ensures Sound(Run(start, events))
  {
    if events == [] {
    } else {
      var n := |events| - 1;
      InterleavingsAreSound(start, events[..n]);
      StepIsSound(Run(start, events[..n]), events[n]);
    }
  }

  ghost predicate IsGrantedFor(w: World, run: RunId, uid: Uid) {
    run in w.stages && w.stages[run].Granted? && w.stages[run].uid == uid
  }

  /**
   At most one resume per consent is granted, in every interleaving; it is granted exactly if the consent is spent, and
   the grant it made is the snapshot of the stored consent: its client, resource, scopes, human and generation.
   */
  lemma GrantedOnceAsConsented(start: Time, events: seq<Event>, uid: Uid)
    requires LawfulRun(start, events) && uid in Run(start, events).tables.consents
    ensures var w := Run(start, events);
      var row := w.tables.consents[uid];
      && (forall a, b :: IsGrantedFor(w, a, uid) && IsGrantedFor(w, b, uid) ==> a == b)
      && (row.resumedAt.Some? <==> exists run :: IsGrantedFor(w, run, uid))
      && (row.resumedAt.Some? ==>
            && row.connection.Some? && row.human.Some? && row.generation.Some? && row.grantId.Some?
            && row.grantId.value in w.tables.grants && w.tables.grants[row.grantId.value] == SnapshotOf(row)
            && row.enforced.capabilities == [READ])
  {
    var w := Run(start, events);
    InterleavingsAreSound(start, events);
    var row := w.tables.consents[uid];
    assert RowSafe(row, w.now) && SpentByRun(w, uid);
    forall a, b | IsGrantedFor(w, a, uid) && IsGrantedFor(w, b, uid) ensures a == b {
      assert StageSafe(w, w.stages[a]) && StageSafe(w, w.stages[b]);
    }
    if run :| IsGrantedFor(w, run, uid) { assert StageSafe(w, w.stages[run]); }
    if row.resumedAt.Some? {
      var run :| run in w.stages && IsGrantedStage(w.stages[run], uid, row.grantId.value);
      assert StageSafe(w, w.stages[run]) && IsGrantedFor(w, run, uid);
    }
  }

  /** When a resume is granted, the row it spends is, to the last column, the copy it read at the start. */
  lemma CopyEqualsRowWhenSpent(start: Time, events: seq<Event>, run: RunId, newId: GrantId)
    requires LawfulRun(start, events) && run in Run(start, events).stages
    requires var w := Run(start, events);
      w.stages[run].Pointed? && Step(w, Advance(run, newId)).stages[run].Granted?
    ensures var w := Run(start, events);
      var s := w.stages[run];
      && s.uid in w.tables.consents && w.tables.consents[s.uid] == s.copy
      && Step(w, Advance(run, newId)).tables.consents[s.uid] == ResumedRow(s.copy, s.grantId, w.now)
  {
    InterleavingsAreSound(start, events);
    GrantedIsSafe(Run(start, events), run);
  }

  // ---- The connection at the pointing step ----

  /** At this point the resume pointed the connection of its copy at its grant, the connection at its generation. */
  ghost predicate PointedAt(
    start: Time, events: seq<Event>, i: nat, run: RunId, uid: Uid, copy: Attributed, grantId: GrantId)
    requires i < |events|
  {
    var w := Run(start, events[..i]);
    && events[i].Advance? && events[i].run == run
    && run in w.stages && w.stages[run] == Recorded(uid, copy, grantId)
    && MayPoint(w.tables, copy.connection.value, copy.generation.value)
    && Step(w, events[i]).tables.connections[copy.connection.value].currentGrant == Some(grantId)
  }

  ghost predicate WasPointed(
    start: Time, events: seq<Event>, run: RunId, uid: Uid, copy: Attributed, grantId: GrantId)
  {
    exists i :: 0 <= i < |events| && PointedAt(start, events, i, run, uid, copy, grantId)
  }

  lemma PointedEarlier(
    start: Time, events: seq<Event>, n: nat, run: RunId, uid: Uid, copy: Attributed, grantId: GrantId)
    requires n <= |events| && WasPointed(start, events[..n], run, uid, copy, grantId)
    ensures WasPointed(start, events, run, uid, copy, grantId)
  {
    var i :| 0 <= i < n && PointedAt(start, events[..n], i, run, uid, copy, grantId);
    assert events[..n][..i] == events[..i];
    assert PointedAt(start, events, i, run, uid, copy, grantId);
  }

  predicate IsPast(s: Stage, uid: Uid, copy: Attributed, grantId: GrantId) {
    (s.Pointed? || s.Granted?) && s.uid == uid && s.copy == copy && s.grantId == grantId
  }

  lemma ReachesPast(w: World, e: Event, run: RunId, uid: Uid, copy: Attributed, grantId: GrantId)
    requires run in Step(w, e).stages && IsPast(Step(w, e).stages[run], uid, copy, grantId)
    ensures run in w.stages
    ensures IsPast(w.stages[run], uid, copy, grantId)
      || (e.Advance? && e.run == run && w.stages[run] == Recorded(uid, copy, grantId)
          && MayPoint(w.tables, copy.connection.value, copy.generation.value)
          && Step(w, e).tables.connections[copy.connection.value].currentGrant == Some(grantId))
  {
  }

  /** A granted resume pointed its connection while that was authorized and at the generation the consent froze. */
  lemma {:induction false} GrantedWasPointed(
    start: Time, events: seq<Event>, run: RunId, uid: Uid, copy: Attributed, grantId: GrantId)
    requires run in Run(start, events).stages && IsPast(Run(start, events).stages[run], uid, copy, grantId)
    ensures WasPointed(start, events, run, uid, copy, grantId)
  {
    var n := |events| - 1;
    var w := Run(start, events[..n]);
    ReachesPast(w, events[n], run, uid, copy, grantId);
    if IsPast(w.stages[run], uid, copy, grantId) {
      GrantedWasPointed(start, events[..n], run, uid, copy, grantId);
      PointedEarlier(start, events, n, run, uid, copy, grantId);
    } else {
      assert PointedAt(start, events, n, run, uid, copy, grantId);
    }
  }

  // ---- The life of a consent ----

  /** A row against the same row later. */
  ghost predicate Becomes(row: Consent, row': Consent) {
    && row'.enforced == row.enforced
    && (row.decidedAt.Some? ==> row' == row.(resumedAt := row'.resumedAt, grantId := row'.grantId))
    && (row.resumedAt.Some? ==> row' == row)
  }

  lemma RowBecomes(w: World, e: Event, uid: Uid)
    requires Sound(w) && Lawful(w, e) && uid in w.tables.consents
    ensures uid in Step(w, e).tables.consents && Becomes(w.tables.consents[uid], Step(w, e).tables.consents[uid])
  {
    assert RowSafe(w.tables.consents[uid], w.now);
    match e
    case Open(_, _) =>
    case Arm(_, _) =>
    case Decide(_, _) =>
    case Move(_, _) =>
    case Wait(_) =>
    case Begin(_, _, _) =>
    case Advance(run, newId) => AdvanceBecomes(w.tables, w.stages[run], newId, w.now, uid);
  }

  lemma AdvanceBecomes(t: Tables, s: Stage, newId: GrantId, now: Time, uid: Uid)
    requires uid in t.consents && Parses(t.consents[uid])
    ensures uid in Next(t, s, newId, now).0.consents
    ensures Becomes(t.consents[uid], Next(t, s, newId, now).0.consents[uid])
  {
  }

  /** Enforced facts never change; a decided row changes only by being spent, once; a spent row never changes. */
  lemma {:induction false} ConsentsOnlyMoveForward(start: Time, events: seq<Event>, k: nat, uid: Uid)
    requires LawfulRun(start, events) && k <= |events| && uid in Run(start, events[..k]).tables.consents
    ensures uid in Run(start, events).tables.consents
    ensures Becomes(Run(start, events[..k]).tables.consents[uid], Run(start, events).tables.consents[uid])
    decreases |events|
  {
    Shorter(events, |events|, k);
    if k < |events| {
      var n := |events| - 1;
      Shorter(events, n, k);
      ConsentsOnlyMoveForward(start, events[..n], k, uid);
      LastStepForward(start, events, uid, Run(start, events[..k]).tables.consents[uid]);
    }
  }

  lemma LastStepForward(start: Time, events: seq<Event>, uid: Uid, row: Consent)
    requires events != [] && LawfulRun(start, events)
    requires uid in Run(start, events[..|events| - 1]).tables.consents
    requires Becomes(row, Run(start, events[..|events| - 1]).tables.consents[uid])
    ensures uid in Run(start, events).tables.consents && Becomes(row, Run(start, events).tables.consents[uid])
  {
    var n := |events| - 1;
    InterleavingsAreSound(start, events[..n]);
    OneStepForward(Run(start, events[..n]), events[n], uid, row);
  }

  lemma OneStepForward(w: World, e: Event, uid: Uid, row: Consent)
    requires Sound(w) && Lawful(w, e) && uid in w.tables.consents && Becomes(row, w.tables.consents[uid])
    ensures uid in Step(w, e).tables.consents && Becomes(row, Step(w, e).tables.consents[uid])
  {
    RowBecomes(w, e, uid);
  }

  /** The most recent arming of an interaction that was accepted. */
  ghost function LastArm(start: Time, events: seq<Event>, uid: Uid): Option<Armed> {
    if events == [] then None
    else
      var n := |events| - 1;
      var w := Run(start, events[..n]);
      if events[n].Arm? && events[n].uid == uid && MayArm(w.tables, uid, events[n].armed, w.now) then
        Some(events[n].armed)
      else LastArm(start, events[..n], uid)
  }

  predicate CarriesArm(row: Consent, arm: Option<Armed>) {
    && row.ticket == (if arm.Some? then Some(arm.value.ticket) else None)
    && row.human == (if arm.Some? then Some(arm.value.human) else None)
    && row.connection == (if arm.Some? then Some(arm.value.connection) else None)
  }

  /** Every row carries the ticket, the human and the connection of its most recent arming. */
  lemma {:induction false} RowsCarryTheLastArm(start: Time, events: seq<Event>, uid: Uid)
    ensures var consents := Run(start, events).tables.consents;
      if uid in consents then CarriesArm(consents[uid], LastArm(start, events, uid))
      else LastArm(start, events, uid).None?
  {
    if events != [] {
      var n := |events| - 1;
      RowsCarryTheLastArm(start, events[..n], uid);
      ArmAcrossStep(Run(start, events[..n]), events[n], uid, LastArm(start, events[..n], uid));
    }
  }

  lemma ArmAcrossStep(w: World, e: Event, uid: Uid, arm: Option<Armed>)
    requires if uid in w.tables.consents then CarriesArm(w.tables.consents[uid], arm) else arm.None?
    ensures var consents := Step(w, e).tables.consents;
      var arm' := if e.Arm? && e.uid == uid && MayArm(w.tables, uid, e.armed, w.now) then Some(e.armed) else arm;
      if uid in consents then CarriesArm(consents[uid], arm') else arm'.None?
  {
    if e.Advance? && e.run in w.stages {}
  }

  /** A decision needs the ticket and the human of the most recent arming, on a live row, and nothing less suffices. */
  lemma DecidesByTheLastArm(start: Time, events: seq<Event>, uid: Uid, d: Deciding)
    ensures var w := Run(start, events);
      MayDecide(w.tables, uid, d, w.now) <==>
        && (d.generation.None? <==> d.decision != Approve) && IsLive(w.tables, uid, w.now)
        && LastArm(start, events, uid).Some?
        && LastArm(start, events, uid).value.ticket == d.ticket && LastArm(start, events, uid).value.human == d.human
  {
    RowsCarryTheLastArm(start, events, uid);
  }

  /** At this point the decision was made that a row shows, by the most recent arming. */
  ghost predicate DecidedAt(start: Time, events: seq<Event>, i: nat, uid: Uid, row: Consent)
    requires i < |events|
  {
    var w := Run(start, events[..i]);
    var arm := LastArm(start, events[..i], uid);
    && events[i].Decide? && events[i].uid == uid && MayDecide(w.tables, uid, events[i].deciding, w.now)
    && arm.Some? && arm.value.ticket == events[i].deciding.ticket && arm.value.human == events[i].deciding.human
    && CarriesArm(row, arm)
    && row.decision == Some(events[i].deciding.decision) && row.generation == events[i].deciding.generation
    && row.decidedAt == Some(w.now)
  }

  ghost predicate WasDecided(start: Time, events: seq<Event>, uid: Uid, row: Consent) {
    exists i :: 0 <= i < |events| && DecidedAt(start, events, i, uid, row)
  }

  lemma DecidedEarlier(start: Time, events: seq<Event>, n: nat, uid: Uid, row: Consent, row': Consent)
    requires n <= |events| && WasDecided(start, events[..n], uid, row)
    requires row' == row.(resumedAt := row'.resumedAt, grantId := row'.grantId)
    ensures WasDecided(start, events, uid, row')
  {
    var i :| 0 <= i < n && DecidedAt(start, events[..n], i, uid, row);
    assert events[..n][..i] == events[..i];
    assert DecidedAt(start, events, i, uid, row');
  }

  lemma DecidesNow(w: World, e: Event, uid: Uid)
    requires Sound(w) && uid in Step(w, e).tables.consents && Step(w, e).tables.consents[uid].decidedAt.Some?
    requires uid in w.tables.consents ==> w.tables.consents[uid].decidedAt.None?
    ensures e.Decide? && e.uid == uid && MayDecide(w.tables, uid, e.deciding, w.now)
    ensures Step(w, e).tables.consents[uid] == DecidedRow(w.tables.consents[uid], e.deciding, w.now)
  {
    if uid in w.tables.consents { assert RowSafe(w.tables.consents[uid], w.now); }
  }

  /** A decided row was decided once, with the ticket of the last arming, and carries its human and connection. */
  lemma {:induction false} DecisionsAreAttributed(start: Time, events: seq<Event>, uid: Uid)
    requires LawfulRun(start, events) && uid in Run(start, events).tables.consents
    requires Run(start, events).tables.consents[uid].decidedAt.Some?
    ensures WasDecided(start, events, uid, Run(start, events).tables.consents[uid])
  {
    var n := |events| - 1;
    var w := Run(start, events[..n]);
    InterleavingsAreSound(start, events[..n]);
    if uid in w.tables.consents && w.tables.consents[uid].decidedAt.Some? {
      DecisionsAreAttributed(start, events[..n], uid);
      RowBecomes(w, events[n], uid);
      DecidedEarlier(start, events, n, uid, w.tables.consents[uid], Run(start, events).tables.consents[uid]);
    } else {
      DecidesNow(w, events[n], uid);
      DecidesByTheLastArm(start, events[..n], uid, events[n].deciding);
      RowsCarryTheLastArm(start, events[..n], uid);
      assert DecidedAt(start, events, n, uid, Run(start, events).tables.consents[uid]);
    }
  }

  /** Every row of every run parses, and no two rows hold one ticket. */
  lemma ReachableRowsParse(start: Time, events: seq<Event>, uid: Uid)
    requires LawfulRun(start, events) && uid in Run(start, events).tables.consents
    ensures Parses(Run(start, events).tables.consents[uid]) && TicketsUnique(Run(start, events).tables)
  {
    InterleavingsAreSound(start, events);
    assert RowSafe(Run(start, events).tables.consents[uid], Run(start, events).now);
  }
}
