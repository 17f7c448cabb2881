/**
 What becomes of the grants that resumes write: which of them no consent ever names, what points at them, and how long
 a connection names the grant it was pointed at.
 */
module ConnectionGrantFates {
  import opened Wrappers
  import opened ConnectionConsents
  import opened ConnectionResume
  import opened ConnectionResumeRuns

  /** A resume with the local values it holds once it has saved a grant. */
  datatype Attempt = Attempt(run: RunId, uid: Uid, copy: Attributed, grantId: GrantId)

  datatype Deed =
    | Writes      // the grant row
    | Points      // the connection at the grant
    | FailsToPoint
    | FailsToSpend

  function StageBefore(a: Attempt, deed: Deed): Stage {
    match deed
    case Writes => Saved(a.uid, a.copy, a.grantId)
    case FailsToSpend => Pointed(a.uid, a.copy, a.grantId)
    case _ => Recorded(a.uid, a.copy, a.grantId)
  }

  /** The event is this step of the attempt, and the guard of its statement decides it so. */
  predicate Does(w: World, e: Event, a: Attempt, deed: Deed) {
    && e.Advance? && e.run == a.run && a.run in w.stages && w.stages[a.run] == StageBefore(a, deed)
    && match deed
       case Writes => true
       case Points => MayPoint(w.tables, a.copy.connection.value, a.copy.generation.value)
       case FailsToPoint => !MayPoint(w.tables, a.copy.connection.value, a.copy.generation.value)
       case FailsToSpend => !MayResume(w.tables, a.uid)
  }

  ghost predicate Did(start: Time, events: seq<Event>, a: Attempt, deed: Deed) {
    && events != []
    && var n := |events| - 1;
       Did(start, events[..n], a, deed) || Does(Run(start, events[..n]), events[n], a, deed)
  }

  predicate HasEnded(w: World, run: RunId) {
    run in w.stages && (w.stages[run].Granted? || w.stages[run].Refused?)
  }

  /** A grant row that no consent names. */
  ghost predicate IsOrphan(t: Tables, grantId: GrantId) {
    grantId in t.grants && forall uid :: uid in t.consents ==> t.consents[uid].grantId != Some(grantId)
  }

  ghost predicate NothingPointsAt(t: Tables, grantId: GrantId) {
    forall id :: id in t.connections ==> t.connections[id].currentGrant != Some(grantId)
  }

  // ---- Connections name grants of their own ----

  ghost predicate PointersAreGrants(t: Tables) {
    forall id :: id in t.connections && t.connections[id].currentGrant.Some? ==>
      && t.connections[id].currentGrant.value in t.grants
      && t.grants[t.connections[id].currentGrant.value].connection == id
  }

  lemma StepKeepsPointers(w: World, e: Event)
    requires Sound(w) && Lawful(w, e) && PointersAreGrants(w.tables)
    ensures PointersAreGrants(Step(w, e).tables)
  {
    if e.Advance? { assert StageSafe(w, w.stages[e.run]); }
  }

  /** In every run a connection names no grant or one that exists and was granted for it. */
  lemma {:induction false} PointersAlwaysAreGrants(start: Time, events: seq<Event>)
    requires LawfulRun(start, events)
    ensures PointersAreGrants(Run(start, events).tables)
  {
    if events != [] {
      var n := |events| - 1;
      PointersAlwaysAreGrants(start, events[..n]);
      InterleavingsAreSound(start, events[..n]);
      StepKeepsPointers(Run(start, events[..n]), events[n]);
    }
  }

  // ---- The fate of an attempt that has written its grant ----

  ghost predicate IsAlone(w: World, a: Attempt) {
    forall other :: other in w.stages && other != a.run && HasGrantId(w.stages[other]) ==>
      w.stages[other].grantId != a.grantId
  }

  /** Where the attempt stands, by what it did. */
  predicate StandsBy(s: Stage, a: Attempt, points: bool, unpointed: bool, unspent: bool) {
    match s
    case Recorded(_, _, _) => s == Recorded(a.uid, a.copy, a.grantId) && !points && !unpointed && !unspent
    case Pointed(_, _, _) => s == Pointed(a.uid, a.copy, a.grantId) && points && !unpointed && !unspent
    case Granted(_, _, _) => s == Granted(a.uid, a.copy, a.grantId) && points && !unpointed && !unspent
    case Refused(ConnectionMoved) => !points && unpointed && !unspent
    case Refused(ConsentSpent) => points && !unpointed && unspent
    case _ => false
  }

  ghost predicate Fate(w: World, a: Attempt, points: bool, unpointed: bool, unspent: bool) {
    && a.run in w.stages && StandsBy(w.stages[a.run], a, points, unpointed, unspent)
    && a.grantId in w.issued && IsAlone(w, a)
    && a.grantId in w.tables.grants && w.tables.grants[a.grantId] == SnapshotOf(a.copy)
    && (!points ==> NothingPointsAt(w.tables, a.grantId))
  }

  lemma FateBegins(w: World, e: Event, a: Attempt)
    requires Sound(w) && PointersAreGrants(w.tables) && Does(w, e, a, Writes)
    ensures Fate(Step(w, e), a, false, false, false)
  {
    assert StageSafe(w, w.stages[a.run]);
  }

  lemma FateAcrossStep(w: World, e: Event, a: Attempt, points: bool, unpointed: bool, unspent: bool)
    requires Sound(w) && Lawful(w, e) && Fate(w, a, points, unpointed, unspent)
    ensures Fate(
      Step(w, e), a, points || Does(w, e, a, Points), unpointed || Does(w, e, a, FailsToPoint),
      unspent || Does(w, e, a, FailsToSpend))
  {
    if e.Advance? && e.run == a.run {
      OwnStepKeepsFate(w, e, a, points, unpointed, unspent);
    } else if e.Advance? {
      OtherStepKeepsFate(w, e, a, points, unpointed, unspent);
    }
  }

  lemma OwnStepKeepsFate(w: World, e: Event, a: Attempt, points: bool, unpointed: bool, unspent: bool)
    requires Fate(w, a, points, unpointed, unspent) && e.Advance? && e.run == a.run
    ensures Fate(
      Step(w, e), a, points || Does(w, e, a, Points), unpointed || Does(w, e, a, FailsToPoint),
      unspent || Does(w, e, a, FailsToSpend))
  {
  }

  lemma OtherStepKeepsFate(w: World, e: Event, a: Attempt, points: bool, unpointed: bool, unspent: bool)
    requires Sound(w) && Lawful(w, e) && Fate(w, a, points, unpointed, unspent) && e.Advance? && e.run != a.run
    ensures Fate(Step(w, e), a, points, unpointed, unspent)
  {
    OtherStaysApart(w, e, a);
    if !points { OtherPointsElsewhere(w, e, a); }
    assert StageSafe(w, w.stages[e.run]);
  }

  lemma OtherStaysApart(w: World, e: Event, a: Attempt)
    requires Lawful(w, e) && IsAlone(w, a) && a.grantId in w.issued && e.Advance? && e.run != a.run
    ensures IsAlone(Step(w, e), a)
  {
  }

  lemma OtherPointsElsewhere(w: World, e: Event, a: Attempt)
    requires Lawful(w, e) && IsAlone(w, a) && e.Advance? && e.run != a.run && NothingPointsAt(w.tables, a.grantId)
    ensures NothingPointsAt(Step(w, e).tables, a.grantId)
  {
  }

  /** Nothing is done to a grant before it is written. */
  lemma {:induction false} WritesComeFirst(start: Time, events: seq<Event>, a: Attempt, deed: Deed)
    requires Did(start, events, a, deed)
    ensures Did(start, events, a, Writes)
  {
    var n := |events| - 1;
    if Did(start, events[..n], a, deed) {
      WritesComeFirst(start, events[..n], a, deed);
    } else if !deed.Writes? {
      HoldersWrote(start, events[..n], a);
    }
  }

  lemma {:induction false} HoldersWrote(start: Time, events: seq<Event>, a: Attempt)
    requires a.run in Run(start, events).stages
    requires Run(start, events).stages[a.run] in {StageBefore(a, Points), StageBefore(a, FailsToSpend)}
    ensures Did(start, events, a, Writes)
  {
    var n := |events| - 1;
    var w := Run(start, events[..n]);
    if !Does(w, events[n], a, Writes) {
      ReachesHolder(w, events[n], a);
      HoldersWrote(start, events[..n], a);
    }
  }

  lemma ReachesHolder(w: World, e: Event, a: Attempt)
    requires a.run in Step(w, e).stages && !Does(w, e, a, Writes)
    requires Step(w, e).stages[a.run] in {StageBefore(a, Points), StageBefore(a, FailsToSpend)}
    ensures a.run in w.stages && w.stages[a.run] in {StageBefore(a, Points), StageBefore(a, FailsToSpend)}
  {
  }

  lemma {:induction false} FateOf(start: Time, events: seq<Event>, a: Attempt)
    requires LawfulRun(start, events) && Did(start, events, a, Writes)
    ensures Fate(
      Run(start, events), a, Did(start, events, a, Points), Did(start, events, a, FailsToPoint),
      Did(start, events, a, FailsToSpend))
  {
    var n := |events| - 1;
    var earlier := events[..n];
    InterleavingsAreSound(start, earlier);
    if Did(start, earlier, a, Writes) {
      FateOf(start, earlier, a);
      FateAcrossStep(
        Run(start, earlier), events[n], a, Did(start, earlier, a, Points), Did(start, earlier, a, FailsToPoint),
        Did(start, earlier, a, FailsToSpend));
    } else {
      PointersAlwaysAreGrants(start, earlier);
      FateBegins(Run(start, earlier), events[n], a);
      NothingBefore(start, earlier, a);
    }
  }

  lemma NothingBefore(start: Time, events: seq<Event>, a: Attempt)
    requires !Did(start, events, a, Writes)
    ensures forall deed :: !Did(start, events, a, deed)
  {
    forall deed | Did(start, events, a, deed) ensures false { WritesComeFirst(start, events, a, deed); }
  }

  /**
   When an attempt that wrote a grant has ended, the grant is an orphan exactly if the connection could not be pointed
   at it or the consent could not be spent on it. The row stays either way.
   */
  lemma OrphanedExactly(start: Time, events: seq<Event>, a: Attempt)
    requires LawfulRun(start, events) && Did(start, events, a, Writes) && HasEnded(Run(start, events), a.run)
    ensures var t := Run(start, events).tables;
      && a.grantId in t.grants && t.grants[a.grantId] == SnapshotOf(a.copy)
      && (IsOrphan(t, a.grantId) <==> Did(start, events, a, FailsToPoint) || Did(start, events, a, FailsToSpend))
  {
    FateOf(start, events, a);
    InterleavingsAreSound(start, events);
    var w := Run(start, events);
    assert StageSafe(w, w.stages[a.run]);
    if w.stages[a.run].Refused? { NobodyNames(w, a); }
  }

  lemma NobodyNames(w: World, a: Attempt)
    requires Sound(w) && IsAlone(w, a) && a.run in w.stages && !HasGrantId(w.stages[a.run])
    ensures forall uid :: uid in w.tables.consents ==> w.tables.consents[uid].grantId != Some(a.grantId)
  {
    forall uid | uid in w.tables.consents ensures w.tables.consents[uid].grantId != Some(a.grantId) {
      assert RowSafe(w.tables.consents[uid], w.now) && SpentByRun(w, uid);
    }
  }

  /** Refusing late is still refusing: a grant its connection could not be pointed at is pointed at by nothing, ever. */
  lemma UnpointedIsUnreachable(start: Time, events: seq<Event>, a: Attempt)
    requires LawfulRun(start, events) && Did(start, events, a, FailsToPoint)
    ensures NothingPointsAt(Run(start, events).tables, a.grantId)
    ensures IsOrphan(Run(start, events).tables, a.grantId)
  {
    WritesComeFirst(start, events, a, FailsToPoint);
    FateOf(start, events, a);
    OrphanedExactly(start, events, a);
  }

  // ---- How long a connection names its grant ----

  /** Another resume points the connection of the attempt. */
  predicate PointsElsewhere(w: World, e: Event, a: Attempt) {
    && e.Advance? && e.run != a.run && e.run in w.stages && w.stages[e.run].Recorded?
    && w.stages[e.run].copy.connection == a.copy.connection
    && MayPoint(w.tables, a.copy.connection.value, w.stages[e.run].copy.generation.value)
  }

  /** Since the attempt pointed its connection, another resume has pointed it. */
  ghost predicate Displaced(start: Time, events: seq<Event>, a: Attempt) {
    && events != []
    && var n := |events| - 1;
       var w := Run(start, events[..n]);
       !Does(w, events[n], a, Points) && (Displaced(start, events[..n], a) || PointsElsewhere(w, events[n], a))
  }

  ghost predicate Names(t: Tables, a: Attempt) {
    a.copy.connection.value in t.connections && t.connections[a.copy.connection.value].currentGrant == Some(a.grantId)
  }

  lemma NamesAcrossStep(w: World, e: Event, a: Attempt, unspent: bool)
    requires Sound(w) && Lawful(w, e) && Fate(w, a, true, false, unspent)
    ensures Names(Step(w, e).tables, a) <==> Names(w.tables, a) && !PointsElsewhere(w, e, a)
  {
    if e.Advance? { assert StageSafe(w, w.stages[e.run]); }
  }

  lemma PointedIsFate(start: Time, events: seq<Event>, a: Attempt)
    requires LawfulRun(start, events) && Did(start, events, a, Points)
    ensures Fate(Run(start, events), a, true, false, Did(start, events, a, FailsToSpend))
  {
    WritesComeFirst(start, events, a, Points);
    FateOf(start, events, a);
  }

  /** From the pointing step on, at being granted too, the connection names the grant until another resume points it. */
  lemma {:induction false} NamedUntilDisplaced(start: Time, events: seq<Event>, a: Attempt)
    requires LawfulRun(start, events) && Did(start, events, a, Points)
    ensures Names(Run(start, events).tables, a) <==> !Displaced(start, events, a)
  {
    var n := |events| - 1;
    var w := Run(start, events[..n]);
    if Did(start, events[..n], a, Points) {
      NamedUntilDisplaced(start, events[..n], a);
      PointedIsFate(start, events[..n], a);
      InterleavingsAreSound(start, events[..n]);
      NamesAcrossStep(w, events[n], a, Did(start, events[..n], a, FailsToSpend));
    }
  }

  // ---- Two runs ----

  lemma Extend(start: Time, events: seq<Event>, e: Event)
    requires LawfulRun(start, events) && Lawful(Run(start, events), e)
    ensures LawfulRun(start, events + [e]) && Run(start, events + [e]) == Step(Run(start, events), e)
  {
    assert (events + [e])[..|events|] == events;
  }

  lemma DidOneMore(start: Time, events: seq<Event>, e: Event, a: Attempt, deed: Deed)
    ensures Did(start, events + [e], a, deed) <==> Did(start, events, a, deed) || Does(Run(start, events), e, a, deed)
  {
    assert (events + [e])[..|events|] == events;
  }

  const OFFERED := Enforced(7, 8, [READ], [], ReadOnly, 0, 10)
  const APPROVED := Consent(OFFERED, Some(5), Some(6), Some(1), Some(Approve), Some(0), Some(0), None, None)
  const CONNECTED := Connection(Authorized, 0, None, None)

  /** One approved consent on one authorized connection. */
  lemma SomeApproval() returns (events: seq<Event>)
    ensures LawfulRun(0, events)
    ensures Run(0, events) == World(Tables(map[0 := APPROVED], map[1 := CONNECTED], map[]), map[], {}, 0)
  {
    events := [];
    Extend(0, events, Move(1, CONNECTED));
    events := events + [Move(1, CONNECTED)];
    Extend(0, events, Open(0, OFFERED));
    events := events + [Open(0, OFFERED)];
    Extend(0, events, Arm(0, Armed(5, 6, 1)));
    events := events + [Arm(0, Armed(5, 6, 1))];
    Extend(0, events, Decide(0, Deciding(5, 6, Approve, Some(0))));
    events := events + [Decide(0, Deciding(5, 6, Approve, Some(0)))];
  }

  function StageAfter(steps: nat, grantId: GrantId): Stage {
    match steps
    case 0 => Began(0, Some(Interaction(0, 7)))
    case 1 => ReadConsent(0, APPROVED)
    case 2 => ReadConnection(0, APPROVED)
    case 3 => Saved(0, APPROVED, grantId)
    case _ => Recorded(0, APPROVED, grantId)
  }

  /** A world in which a resume of that consent has begun and taken some steps. */
  function WorldAfter(w: World, run: RunId, grantId: GrantId, steps: nat): World {
    World(
      w.tables.(grants := if steps >= 4 then w.tables.grants[grantId := SnapshotOf(APPROVED)] else w.tables.grants),
      w.stages[run := StageAfter(steps, grantId)], if steps >= 3 then w.issued + {grantId} else w.issued, w.now)
  }

  ghost predicate CanWrite(w: World, run: RunId, grantId: GrantId) {
    && w.tables.consents == map[0 := APPROVED] && w.tables.connections == map[1 := CONNECTED] && w.now == 0
    && run !in w.stages && grantId !in w.issued && grantId !in w.tables.grants
  }

  lemma OneMoreStep(w: World, run: RunId, grantId: GrantId, steps: nat)
    requires CanWrite(w, run, grantId) && steps < 4
    ensures Lawful(WorldAfter(w, run, grantId, steps), Advance(run, grantId))
    ensures Step(WorldAfter(w, run, grantId, steps), Advance(run, grantId)) == WorldAfter(w, run, grantId, steps + 1)
  {
    var w' := WorldAfter(w, run, grantId, steps);
    assert w'.stages[run := StageAfter(steps + 1, grantId)] == w.stages[run := StageAfter(steps + 1, grantId)];
  }

  /** A resume of that consent up to its grant row. */
  lemma WritesGrant(events: seq<Event>, run: RunId, grantId: GrantId) returns (events': seq<Event>)
    requires LawfulRun(0, events) && CanWrite(Run(0, events), run, grantId)
    ensures LawfulRun(0, events') && Run(0, events') == WorldAfter(Run(0, events), run, grantId, 4)
    ensures Did(0, events', Attempt(run, 0, APPROVED, grantId), Writes)
  {
    var w := Run(0, events);
    var begin := Begin(run, 0, Some(Interaction(0, 7)));
    Extend(0, events, begin);
    events' := events + [begin];
    for steps := 0 to 4
      invariant LawfulRun(0, events') && Run(0, events') == WorldAfter(w, run, grantId, steps)
      invariant steps == 4 ==> Did(0, events', Attempt(run, 0, APPROVED, grantId), Writes)
    {
      OneMoreStep(w, run, grantId, steps);
      Extend(0, events', Advance(run, grantId));
      DidOneMore(0, events', Advance(run, grantId), Attempt(run, 0, APPROVED, grantId), Writes);
      events' := events' + [Advance(run, grantId)];
    }
  }

  lemma Moves(events: seq<Event>, a: Attempt) returns (events': seq<Event>)
    requires LawfulRun(0, events) && a.copy == APPROVED
    requires Run(0, events).tables.connections == map[1 := CONNECTED]
    requires a.run in Run(0, events).stages && Run(0, events).stages[a.run] == StageBefore(a, Points)
    ensures LawfulRun(0, events') && Does(Run(0, events'), Advance(a.run, a.grantId), a, FailsToPoint)
  {
    var moved := CONNECTED.(generation := 1);
    Extend(0, events, Move(1, moved));
    events' := events + [Move(1, moved)];
  }

  /** The connection moves after it was read and before it is pointed: the grant is refused, and its row stays. */
  lemma MovedConnectionLeavesGrant() returns (events: seq<Event>, a: Attempt)
    ensures LawfulRun(0, events) && Did(0, events, a, FailsToPoint)
    ensures a.run in Run(0, events).stages && Run(0, events).stages[a.run] == Refused(ConnectionMoved)
    ensures a.grantId in Run(0, events).tables.grants && IsOrphan(Run(0, events).tables, a.grantId)
  {
    a := Attempt(0, 0, APPROVED, 11);
    events := SomeApproval();
    events := WritesGrant(events, 0, 11);
    events := Moves(events, a);
    Extend(0, events, Advance(0, 11));
    DidOneMore(0, events, Advance(0, 11), a, FailsToPoint);
    events := events + [Advance(0, 11)];
    UnpointedIsUnreachable(0, events, a);
  }

  ghost predicate BothStand(w: World, first: Stage, second: Stage, consent: Consent, connection: Connection) {
    && 1 in w.stages && w.stages[1] == first && 2 in w.stages && w.stages[2] == second
    && w.tables.consents == map[0 := consent] && 12 in w.tables.grants
    && 1 in w.tables.connections && w.tables.connections[1] == connection
  }

  lemma BothWrite() returns (events: seq<Event>)
    ensures LawfulRun(0, events)
    ensures BothStand(Run(0, events), Recorded(0, APPROVED, 11), Recorded(0, APPROVED, 12), APPROVED, CONNECTED)
  {
    events := SomeApproval();
    events := WritesGrant(events, 1, 11);
    events := WritesGrant(events, 2, 12);
  }

  /** Two resumes of that consent, both of which have pointed the connection, the second one last. */
  lemma BothPoint() returns (events: seq<Event>)
    ensures LawfulRun(0, events) && Did(0, events, Attempt(1, 0, APPROVED, 11), Points)
    ensures BothStand(
      Run(0, events), Pointed(0, APPROVED, 11), Pointed(0, APPROVED, 12), APPROVED,
      CONNECTED.(currentGrant := Some(12)))
  {
    var granted := Attempt(1, 0, APPROVED, 11);
    events := BothWrite();
    Extend(0, events, Advance(1, 11));
    DidOneMore(0, events, Advance(1, 11), granted, Points);
    events := events + [Advance(1, 11)];
    Extend(0, events, Advance(2, 12));
    DidOneMore(0, events, Advance(2, 12), granted, Points);
    events := events + [Advance(2, 12)];
  }

  /** Two resumes of one consent: the connection names the grant of the refused one, which is an orphan. */
  lemma RefusedResumeDisplaces() returns (events: seq<Event>, granted: Attempt, refused: Attempt)
    ensures LawfulRun(0, events) && granted.uid == refused.uid && granted.grantId != refused.grantId
    ensures IsGrantedFor(Run(0, events), granted.run, granted.uid)
    ensures refused.run in Run(0, events).stages && Run(0, events).stages[refused.run] == Refused(ConsentSpent)
    ensures Displaced(0, events, granted) && Names(Run(0, events).tables, refused)
    ensures IsOrphan(Run(0, events).tables, refused.grantId)
  {
    granted, refused := Attempt(1, 0, APPROVED, 11), Attempt(2, 0, APPROVED, 12);
    events := BothPoint();
    Extend(0, events, Advance(1, 11));
    DidOneMore(0, events, Advance(1, 11), granted, Points);
    events := events + [Advance(1, 11)];
    Extend(0, events, Advance(2, 12));
    DidOneMore(0, events, Advance(2, 12), granted, Points);
    events := events + [Advance(2, 12)];
    NamedUntilDisplaced(0, events, granted);
  }
}
